/** The windows of a caption service, written in the order of their priorities. */
module CaptionService {
  import opened Json
  import opened JsonOutput
  import opened CaptionRow
  import opened CaptionJson

  function JustifyName(v: int): string {
    if v == 1 then "right" else if v == 2 then "center" else if v == 3 then "full" else "left"
  }

  function DirectionName(v: int): string {
    if v == 1 then "right_left" else if v == 2 then "top_bottom" else if v == 3 then "bottom_top" else "left_right"
  }

  function EffectStatusName(v: int): string {
    if v == 1 then "DISPLAY" else if v == 2 then "HIDE" else "NONE"
  }

  function DisplayEffectName(v: int): string {
    if v == 1 then "fade" else if v == 2 then "wipe" else "snap"
  }

  const MAX_ROWS: nat := 16

  /** What the writer does not change of a window; the enumerations are their numbers. */
  datatype Style = Style(
    visible: bool, priority: nat,
    anchorPoint: int32, anchorHorizontal: int32, anchorVertical: int32, anchorRelative: bool,
    rowLock: bool, columnLock: bool, rowNoLockLength: nat, columnNoLockLength: nat,
    justify: int, printDirection: int, scrollDirection: int, needRollup: bool, currRow: int32, wordwrap: bool,
    effectPercent: int32, effectStatus: int, displayEffect: int, effectDirection: int, effectSpeed: int32,
    fillOpacity: int, fillColor: color, borderType: int, borderColor: color,
    rows: seq<seq<Cell>>)

  /** The count written: an unlocked window is as long as its content. */
  function FinalCount(locked: bool, content: nat, count: nat): nat {
    if !locked && content > count then content else count
  }

  function RowJsons(rows: seq<seq<Cell>>, n: nat, columns: nat): (js: seq<Json>)
    requires n <= |rows| && forall i :: 0 <= i < |rows| ==> columns <= |rows[i]|
    ensures |js| == n
  {
    if n == 0 then [] else RowJsons(rows, n - 1, columns) + [RowJson(rows[n - 1][..columns])]
  }

  function PlaceProps(w: Style, rowCount: int32, columnCount: int32): (ps: seq<Prop>)
    ensures |ps| == 8
  {
    [Prop("anchor_point", Num(w.anchorPoint)),
     Prop("anchor_horizontal", Num(w.anchorHorizontal)),
     Prop("anchor_vertical", Num(w.anchorVertical)),
     Prop("anchor_relative", Flag(w.anchorRelative)),
     Prop("row_lock", Flag(w.rowLock)),
     Prop("column_lock", Flag(w.columnLock)),
     Prop("row_count", Num(rowCount)),
     Prop("column_count", Num(columnCount))]
  }

  function StyleProps(w: Style): (ps: seq<Prop>)
    ensures |ps| == 6
  {
    [Prop("justify", Str(JustifyName(w.justify))),
     Prop("print_direction", Str(DirectionName(w.printDirection))),
     Prop("scroll_direction", Str(DirectionName(w.scrollDirection))),
     Prop("rollup", Flag(w.needRollup)),
     Prop("curr_row", Num(w.currRow)),
     Prop("wordwrap", Flag(w.wordwrap))]
  }

  function EffectProps(w: Style): (ps: seq<Prop>)
    ensures |ps| == 5
  {
    [Prop("effect_percent", Num(w.effectPercent)),
     Prop("effect_status", Str(EffectStatusName(w.effectStatus))),
     Prop("display_effect", Str(DisplayEffectName(w.displayEffect))),
     Prop("effect_direction", Str(DirectionName(w.effectDirection))),
     Prop("effect_speed", Num(w.effectSpeed))]
  }

  function ColorProps(w: Style, flash: int32): (ps: seq<Prop>)
    ensures |ps| == 5
  {
    [Prop("fill_opacity", Str(OpacityName(w.fillOpacity))),
     Prop("fill_color", Num(w.fillColor)),
     Prop("border_type", Str(EdgeName(w.borderType))),
     Prop("border_color", Num(w.borderColor)),
     Prop("heart_beat", Num(flash))]
  }

  function WindowProps(w: Style, rowCount: int32, columnCount: int32, flash: int32, rows: seq<Json>): (ps: seq<Prop>)
    ensures |ps| == 25
  {
    PlaceProps(w, rowCount, columnCount) + StyleProps(w) + EffectProps(w) + ColorProps(w, flash)
    + [Prop("rows", List(ItemsOf(rows)))]
  }

  /** A window as it is written. */
  datatype Sheet = Sheet(style: Style, rowCount: nat, columnCount: nat)

  /** The counts fit the decoder's arrays. */
  predicate Fits(s: Sheet) {
    && s.rowCount <= |s.style.rows| <= MAX_ROWS
    && s.columnCount <= MAX_COLUMNS
    && forall i :: 0 <= i < |s.style.rows| ==> s.columnCount <= |s.style.rows[i]|
  }

  function SheetRows(s: Sheet): seq<Json>
    requires Fits(s)
  {
    RowJsons(s.style.rows, s.rowCount, s.columnCount)
  }

  function SheetProps(s: Sheet, flash: int32): (ps: seq<Prop>)
    requires Fits(s)
    ensures |ps| == 25
  {
    WindowProps(s.style, s.rowCount, s.columnCount, flash, SheetRows(s))
  }

  function SheetJson(s: Sheet, flash: int32): Json
    requires Fits(s)
  {
    Object(FieldsOf(SheetProps(s, flash)))
  }

  class Window {
    const style: Style
    var rowCount: nat
    var columnCount: nat

    function Final(): Sheet
      reads this
    {
      Sheet(style, FinalCount(style.rowLock, style.rowNoLockLength, rowCount),
            FinalCount(style.columnLock, style.columnNoLockLength, columnCount))
    }

    /** The count of an unlocked window is raised to the length of its content, and stays so. */
    method SettleRows()
      modifies this`rowCount
      ensures rowCount == old(Final().rowCount) && Final() == old(Final())
    {
      if !style.rowLock && style.rowNoLockLength > rowCount {
        rowCount := style.rowNoLockLength;
      }
    }

    method SettleColumns()
      modifies this`columnCount
      ensures columnCount == old(Final().columnCount) && Final() == old(Final())
    {
      if !style.columnLock && style.columnNoLockLength > columnCount {
        columnCount := style.columnNoLockLength;
      }
    }

    constructor (s: Style, rc: nat, cc: nat)
      ensures style == s && rowCount == rc && columnCount == cc
    {
      style, rowCount, columnCount := s, rc, cc;
    }
  }

  method WriteAnchor(w: Style, ghost rc: int32, ghost cc: int32, out: Output, ghost o: Outline, ghost flash: int32,
                     ghost rows: seq<Json>)
    returns (ok: bool)
    requires Right(o) && o.all == WindowProps(w, rc, cc, flash, rows) && out.InObject(o, 0)
    modifies out`po, out`left, out`hasProp, out.buf
    ensures out.Valid() && if ok then out.InObject(o, 4) else out.TooLong(o)
  {
    ok := out.IntField("anchor_point", w.anchorPoint, o, 0);
    if !ok { return; }
    ok := out.IntField("anchor_horizontal", w.anchorHorizontal, o, 1);
    if !ok { return; }
    ok := out.IntField("anchor_vertical", w.anchorVertical, o, 2);
    if !ok { return; }
    ok := out.BoolField("anchor_relative", w.anchorRelative, o, 3);
  }

  method WriteCounts(win: Window, out: Output, ghost o: Outline, ghost flash: int32, ghost rows: seq<Json>)
    returns (ok: bool)
    requires Fits(win.Final()) && Right(o) && out.InObject(o, 4)
    requires o.all == WindowProps(win.style, win.Final().rowCount, win.Final().columnCount, flash, rows)
    modifies win, out`po, out`left, out`hasProp, out.buf
    ensures out.Valid() && if ok then out.InObject(o, 8) else out.TooLong(o)
    ensures win.Final() == old(win.Final())
    ensures ok ==> win.rowCount == win.Final().rowCount && win.columnCount == win.Final().columnCount
  {
    ok := out.BoolField("row_lock", win.style.rowLock, o, 4);
    if !ok { return; }
    ok := out.BoolField("column_lock", win.style.columnLock, o, 5);
    if !ok { return; }
    win.SettleRows();
    ok := out.IntField("row_count", win.rowCount, o, 6);
    if !ok { return; }
    win.SettleColumns();
    ok := out.IntField("column_count", win.columnCount, o, 7);
  }

  method WriteStyle(w: Style, ghost rc: int32, ghost cc: int32, out: Output, ghost o: Outline, ghost flash: int32,
                    ghost rows: seq<Json>)
    returns (ok: bool)
    requires Right(o) && o.all == WindowProps(w, rc, cc, flash, rows) && out.InObject(o, 8)
    modifies out`po, out`left, out`hasProp, out.buf
    ensures out.Valid() && if ok then out.InObject(o, 14) else out.TooLong(o)
  {
    ok := out.StrField("justify", JustifyName(w.justify), o, 8);
    if !ok { return; }
    ok := out.StrField("print_direction", DirectionName(w.printDirection), o, 9);
    if !ok { return; }
    ok := out.StrField("scroll_direction", DirectionName(w.scrollDirection), o, 10);
    if !ok { return; }
    ok := WriteRollup(w, out, o);
  }

  /** The results of the first two writes are not looked at.  It does no harm: what refuses one of
      them leaves less room than the next key needs. */
  method WriteRollup(w: Style, out: Output, ghost o: Outline) returns (ok: bool)
    requires Right(o) && |o.all| >= 14 && o.all[11] == Prop("rollup", Flag(w.needRollup))
    requires o.all[12] == Prop("curr_row", Num(w.currRow)) && o.all[13] == Prop("wordwrap", Flag(w.wordwrap))
    requires out.InObject(o, 11)
    modifies out`po, out`left, out`hasProp, out.buf
    ensures out.Valid() && if ok then out.InObject(o, 14) else out.TooLong(o)
  {
    assert StepRight(o, 11) && StepRight(o, 12) && StepRight(o, 13);
    var rollup := out.OBoolProp("rollup", w.needRollup);
    var currRow := out.OIntProp("curr_row", w.currRow);
    ok := out.OBoolProp("wordwrap", w.wordwrap);
  }

  method WriteEffect(w: Style, ghost rc: int32, ghost cc: int32, out: Output, ghost o: Outline, ghost flash: int32,
                     ghost rows: seq<Json>)
    returns (ok: bool)
    requires Right(o) && o.all == WindowProps(w, rc, cc, flash, rows) && out.InObject(o, 14)
    modifies out`po, out`left, out`hasProp, out.buf
    ensures out.Valid() && if ok then out.InObject(o, 19) else out.TooLong(o)
  {
    ok := out.IntField("effect_percent", w.effectPercent, o, 14);
    if !ok { return; }
    ok := out.StrField("effect_status", EffectStatusName(w.effectStatus), o, 15);
    if !ok { return; }
    ok := out.StrField("display_effect", DisplayEffectName(w.displayEffect), o, 16);
    if !ok { return; }
    ok := out.StrField("effect_direction", DirectionName(w.effectDirection), o, 17);
    if !ok { return; }
    ok := out.IntField("effect_speed", w.effectSpeed, o, 18);
  }

  method WriteColors(w: Style, ghost rc: int32, ghost cc: int32, out: Output, ghost o: Outline, ghost rows: seq<Json>)
    returns (ok: bool)
    requires Right(o) && o.all == WindowProps(w, rc, cc, out.flash, rows) && out.InObject(o, 19)
    modifies out`po, out`left, out`hasProp, out.buf
    ensures out.Valid() && if ok then out.InObject(o, 24) else out.TooLong(o)
  {
    ok := out.StrField("fill_opacity", OpacityName(w.fillOpacity), o, 19);
    if !ok { return; }
    ok := out.IntField("fill_color", w.fillColor, o, 20);
    if !ok { return; }
    ok := out.StrField("border_type", EdgeName(w.borderType), o, 21);
    if !ok { return; }
    ok := out.IntField("border_color", w.borderColor, o, 22);
    if !ok { return; }
    ok := out.IntField("heart_beat", out.flash, o, 23);
  }

  /** Items written in a list so far, of all its items. */
  lemma MoreItems(list: string, js: seq<Json>, n: nat)
    requires n < |js|
    ensures list + "[" + SerItems(ItemsOf(js[..n])) + Comma(n > 0) + Ser(js[n])
      == list + "[" + SerItems(ItemsOf(js[..n + 1]))
    ensures |SerItems(ItemsOf(js[..n + 1]))| <= |SerItems(ItemsOf(js))|
  {
    assert js[..n + 1] == js[..n] + [js[n]];
    ItemAdded(list, js[..n], js[n]);
    ItemsGrow(js, n + 1);
  }

  lemma {:induction false} RowJsonsAt(rows: seq<seq<Cell>>, n: nat, columns: nat, i: nat)
    requires i < n <= |rows| && forall i :: 0 <= i < |rows| ==> columns <= |rows[i]|
    ensures RowJsons(rows, n, columns)[i] == RowJson(rows[i][..columns])
  {
    if i < n - 1 {
      RowJsonsAt(rows, n - 1, columns, i);
    }
  }

  method WriteRows(win: Window, out: Output, ghost list: string, ghost js: seq<Json>) returns (ok: bool)
    requires Fits(win.Final()) && win.Final() == Sheet(win.style, win.rowCount, win.columnCount)
    requires js == SheetRows(win.Final()) && out.InList(list, [])
    modifies out`po, out`left, out`hasProp, out.buf
    ensures out.Valid() && if ok then out.InList(list, js) else |list| + 1 + |SerItems(ItemsOf(js))| >= out.buf.Length
  {
    var pt := Pen(0, 0, 0, false, false, 0, 0, 0, 0, 0, 0, false, false);
    for i := 0 to win.rowCount
      invariant out.InList(list, js[..i])
    {
      MoreItems(list, js, i);
      RowJsonsAt(win.style.rows, win.rowCount, win.columnCount, i);
      ok, pt := RowToJson(win.style.rows[i][..win.columnCount], pt, out);
      if !ok { return; }
    }
    assert js[..win.rowCount] == js;
    ok := true;
  }

  /** The last property: the rows, one object each. */
  method WriteRowList(win: Window, out: Output, ghost o: Outline, ghost js: seq<Json>) returns (ok: bool)
    requires Fits(win.Final()) && win.Final() == Sheet(win.style, win.rowCount, win.columnCount)
      && js == SheetRows(win.Final())
    requires Right(o) && |o.all| == 25 && o.all[24] == Prop("rows", List(ItemsOf(js))) && out.InObject(o, 24)
    modifies out`po, out`left, out`hasProp, out.buf
    ensures out.Valid() && if ok then out.InObject(o, 25) else out.TooLong(o)
  {
    ListFits(o, 24);
    ok := out.OpenListField("rows", o, 24);
    if !ok { return; }
    ok := WriteRows(win, out, ListStart(o, 24), js);
    if !ok { return; }
    ok := out.CloseListField(o, 24, js);
  }

  method WriteProps(win: Window, out: Output, ghost o: Outline) returns (ok: bool)
    requires Fits(win.Final()) && Right(o) && o.all == SheetProps(win.Final(), out.flash) && out.InObject(o, 0)
    modifies win, out`po, out`left, out`hasProp, out.buf
    ensures out.Valid() && if ok then out.InObject(o, 25) else out.TooLong(o)
    ensures win.Final() == old(win.Final())
  {
    ghost var s := win.Final();
    ghost var rows := SheetRows(s);
    ok := WriteAnchor(win.style, s.rowCount, s.columnCount, out, o, out.flash, rows);
    if !ok { return; }
    ok := WriteCounts(win, out, o, out.flash, rows);
    if !ok { return; }
    ok := WriteStyle(win.style, s.rowCount, s.columnCount, out, o, out.flash, rows);
    if !ok { return; }
    ok := WriteEffect(win.style, s.rowCount, s.columnCount, out, o, out.flash, rows);
    if !ok { return; }
    ok := WriteColors(win.style, s.rowCount, s.columnCount, out, o, rows);
    if !ok { return; }
    ok := WriteRowList(win, out, o, rows);
  }

  /** Writes a window.  What is written does not change when the counts settle. */
  method WindowToJson(win: Window, out: Output) returns (ok: bool)
    requires Fits(win.Final()) && out.Valid()
    modifies win, out`po, out`left, out`hasProp, out.buf
    ensures win.Final() == old(win.Final())
    ensures out.Valid() && out.Emitted(ok, old(out.Text()), old(out.hasProp), SheetJson(win.Final(), out.flash))
  {
    ghost var o: Outline;
    ok, o := out.OpenObject(SheetProps(win.Final(), out.flash));
    if !ok { return; }
    ok := WriteProps(win, out, o);
    if !ok { return; }
    ok := out.CloseObject(o);
    if !ok { return; }
    out.OPropEnd();
  }

  // ---- The order of the windows ----

  /** A pointer to a window of the service: its place there, and its priority. */
  datatype Pointer = Pointer(place: nat, priority: nat)

  /** Pointers to the visible windows, in the order of the service. */
  function Visible(styles: seq<Style>): (v: seq<Pointer>)
    ensures |v| <= |styles|
    ensures forall i :: 0 <= i < |v| ==> v[i].place < |styles| && styles[v[i].place].visible
    ensures forall i :: 0 <= i < |v| ==> v[i].priority == styles[v[i].place].priority
  {
    if styles == [] then []
    else
      var last := styles[|styles|-1];
      Visible(styles[..|styles|-1]) + if last.visible then [Pointer(|styles|-1, last.priority)] else []
  }

  /** Every visible window is listed, once. */
  lemma {:induction false} VisibleHasAll(styles: seq<Style>, k: nat)
    requires k < |styles|
    ensures multiset(Visible(styles))[Pointer(k, styles[k].priority)] == if styles[k].visible then 1 else 0
  {
    var front := Visible(styles[..|styles|-1]);
    if k < |styles| - 1 {
      VisibleHasAll(styles[..|styles|-1], k);
    } else {
      assert Pointer(k, styles[k].priority) !in front;
      assert Pointer(k, styles[k].priority) !in multiset(front);
    }
  }

  predicate ByPriority(order: seq<Pointer>) {
    forall i, j :: 0 <= i < j < |order| ==> order[i].priority <= order[j].priority
  }

  /** The first `i` are in their places, and the next is not behind those before `j`. */
  predicate Placed(order: seq<Pointer>, i: nat, j: nat) {
    && (forall a, b :: 0 <= a < i && a < b < |order| ==> order[a].priority <= order[b].priority)
    && (forall b :: i < b < j && b < |order| ==> order[i].priority <= order[b].priority)
  }

  function Exchanged(order: seq<Pointer>, i: nat, j: nat): (e: seq<Pointer>)
    requires i < j < |order|
    ensures |e| == |order|
  {
    if order[i].priority > order[j].priority then order[i := order[j]][j := order[i]] else order
  }

  lemma ExchangePermutes(order: seq<Pointer>, i: nat, j: nat)
    requires i < j < |order|
    ensures multiset(Exchanged(order, i, j)) == multiset(order)
  {
  }

  lemma ExchangePlaces(order: seq<Pointer>, i: nat, j: nat)
    requires i < j < |order| && Placed(order, i, j)
    ensures Placed(Exchanged(order, i, j), i, j + 1)
  {
  }

  lemma PassPlaces(order: seq<Pointer>, i: nat)
    requires Placed(order, i, |order|)
    ensures Placed(order, i + 1, i + 2)
  {
  }

  method Exchange(wins: array<Pointer>, n: nat, i: nat, j: nat)
    requires i < j < n <= wins.Length
    modifies wins
    ensures wins[..n] == Exchanged(old(wins[..n]), i, j)
  {
    if wins[i].priority > wins[j].priority {
      wins[i], wins[j] := wins[j], wins[i];
    }
  }

  /** One pass of the sort brings the first of the rest to place `i`. */
  method SortPass(wins: array<Pointer>, n: nat, i: nat)
    requires i < n <= wins.Length && Placed(wins[..n], i, i + 1)
    modifies wins
    ensures Placed(wins[..n], i + 1, i + 2) && multiset(wins[..n]) == multiset(old(wins[..n]))
  {
    ghost var order := wins[..n];
    for j := i + 1 to n
      invariant wins[..n] == order && Placed(order, i, j)
      invariant multiset(order) == multiset(old(wins[..n]))
    {
      ExchangePermutes(order, i, j);
      ExchangePlaces(order, i, j);
      Exchange(wins, n, i, j);
      order := Exchanged(order, i, j);
    }
    PassPlaces(order, i);
  }

  /** The exchange sort in the service writer. */
  method SortByPriority(wins: array<Pointer>, n: nat)
    requires n <= wins.Length
    modifies wins
    ensures ByPriority(wins[..n]) && multiset(wins[..n]) == multiset(old(wins[..n]))
  {
    for i := 0 to n
      invariant Placed(wins[..n], i, i + 1)
      invariant multiset(wins[..n]) == multiset(old(wins[..n]))
    {
      SortPass(wins, n, i);
    }
  }

  /** The visible windows, the most important first. */
  method VisibleByPriority(styles: seq<Style>) returns (order: seq<Pointer>)
    requires |styles| == 8
    ensures multiset(order) == multiset(Visible(styles)) && ByPriority(order)
    ensures forall i :: 0 <= i < |order| ==> order[i].place < 8
  {
    var wins := new Pointer[8](_ => Pointer(0, 0));
    var n: nat := 0;
    for i := 0 to 8
      invariant n <= i && wins[..n] == Visible(styles[..i])
    {
      assert styles[..i + 1][..i] == styles[..i];
      if styles[i].visible {
        wins[n] := Pointer(i, styles[i].priority);
        n := n + 1;
      }
    }
    assert styles[..8] == styles;
    SortByPriority(wins, n);
    order := wins[..n];
    forall i | 0 <= i < |order| ensures order[i].place < 8 {
      assert order[i] in multiset(order);
      assert order[i] in Visible(styles);
    }
  }

  // ---- The service ----

  /** The windows are written as these sheets. */
  ghost predicate WrittenAs(ws: seq<Window>, sheets: seq<Sheet>)
    reads ws
  {
    |ws| == |sheets| && forall i :: 0 <= i < |ws| ==> ws[i].Final() == sheets[i]
  }

  predicate AllFit(sheets: seq<Sheet>) {
    forall i :: 0 <= i < |sheets| ==> Fits(sheets[i])
  }

  /** The items of the service's list: the sheets that the pointers lead to, in their order. */
  ghost predicate ItemsFor(js: seq<Json>, sheets: seq<Sheet>, order: seq<Pointer>, flash: int32) {
    && AllFit(sheets) && |js| == |order|
    && (forall i {:trigger order[i]} :: 0 <= i < |order| ==> order[i].place < |sheets|)
    && (forall i {:trigger order[i]} :: 0 <= i < |js| ==> js[i] == SheetJson(sheets[order[i].place], flash))
  }

  ghost function SheetJsons(sheets: seq<Sheet>, order: seq<Pointer>, flash: int32): (js: seq<Json>)
    requires AllFit(sheets) && forall i :: 0 <= i < |order| ==> order[i].place < |sheets|
    ensures ItemsFor(js, sheets, order, flash)
  {
    seq(|order|, i requires 0 <= i < |order| => SheetJson(sheets[order[i].place], flash))
  }

  function ServiceProps(js: seq<Json>): (ps: seq<Prop>)
    ensures |ps| == 2
  {
    [Prop("type", Str("cea708")), Prop("windows", List(ItemsOf(js)))]
  }

  function ServiceJson(js: seq<Json>): Json {
    Object(FieldsOf(ServiceProps(js)))
  }

  method WriteItem(win: Window, out: Output, ghost list: string, ghost js: seq<Json>, ghost i: nat) returns (ok: bool)
    requires Fits(win.Final()) && i < |js| && js[i] == SheetJson(win.Final(), out.flash) && out.InList(list, js[..i])
    modifies win, out`po, out`left, out`hasProp, out.buf
    ensures win.Final() == old(win.Final())
    ensures out.Valid()
      && if ok then out.InList(list, js[..i + 1]) else |list| + 1 + |SerItems(ItemsOf(js))| >= out.buf.Length
  {
    MoreItems(list, js, i);
    ok := WindowToJson(win, out);
  }

  /** Writes one window of the service; the others are not touched. */
  method WriteNth(windows: seq<Window>, k: nat, i: nat, out: Output, ghost list: string, ghost sheets: seq<Sheet>,
                  ghost js: seq<Json>)
    returns (ok: bool)
    requires k < |windows| && WrittenAs(windows, sheets) && Fits(sheets[k])
    requires i < |js| && js[i] == SheetJson(sheets[k], out.flash) && out.InList(list, js[..i])
    modifies windows[k], out`po, out`left, out`hasProp, out.buf
    ensures WrittenAs(windows, sheets)
    ensures out.Valid()
      && if ok then out.InList(list, js[..i + 1]) else |list| + 1 + |SerItems(ItemsOf(js))| >= out.buf.Length
  {
    var win := windows[k];
    ok := WriteItem(win, out, list, js, i);
    forall n | 0 <= n < |windows| ensures windows[n].Final() == sheets[n] {
      assert old(windows[n].Final()) == sheets[n];
      if windows[n] != win {
        assert windows[n].Final() == old(windows[n].Final());
      }
    }
  }

  /** Writes some windows as the items of an open list. */
  method WriteWindows(windows: seq<Window>, order: seq<Pointer>, out: Output, ghost list: string,
                      ghost sheets: seq<Sheet>, ghost js: seq<Json>, ghost nodes: set<Window>)
    returns (ok: bool)
    requires forall i :: 0 <= i < |windows| ==> windows[i] in nodes
    requires WrittenAs(windows, sheets) && ItemsFor(js, sheets, order, out.flash) && out.InList(list, [])
    modifies nodes, out`po, out`left, out`hasProp, out.buf
    ensures WrittenAs(windows, sheets)
    ensures out.Valid() && if ok then out.InList(list, js) else |list| + 1 + |SerItems(ItemsOf(js))| >= out.buf.Length
  {
    for i := 0 to |order|
      invariant WrittenAs(windows, sheets) && out.InList(list, js[..i])
    {
      assert js[i] == SheetJson(sheets[order[i].place], out.flash);
      ok := WriteNth(windows, order[i].place, i, out, list, sheets, js);
      if !ok { return; }
    }
    assert js[..|order|] == js;
    ok := true;
  }

  method OpenWindowList(windows: seq<Window>, out: Output, ghost o: Outline, ghost sheets: seq<Sheet>)
    returns (ok: bool)
    requires WrittenAs(windows, sheets)
    requires Right(o) && |o.all| == 2 && o.all[1].key == "windows" && o.all[1].value.List? && out.InObject(o, 1)
    modifies out`po, out`left, out`hasProp, out.buf
    ensures WrittenAs(windows, sheets)
    ensures out.Valid() && if ok then out.InList(ListStart(o, 1), []) else out.TooLong(o)
  {
    ok := out.OpenListField("windows", o, 1);
    forall n | 0 <= n < |windows| ensures windows[n].Final() == sheets[n] {
      assert old(windows[n].Final()) == sheets[n];
    }
  }

  method WriteWindowItems(windows: seq<Window>, order: seq<Pointer>, out: Output, ghost o: Outline,
                          ghost sheets: seq<Sheet>, ghost js: seq<Json>, ghost nodes: set<Window>)
    returns (ok: bool)
    requires forall i :: 0 <= i < |windows| ==> windows[i] in nodes
    requires WrittenAs(windows, sheets) && ItemsFor(js, sheets, order, out.flash)
    requires Right(o) && |o.all| == 2 && o.all[1].value == List(ItemsOf(js)) && out.InList(ListStart(o, 1), [])
    modifies nodes, out`po, out`left, out`hasProp, out.buf
    ensures out.Valid() && if ok then out.InObject(o, 2) else out.TooLong(o)
  {
    ListFits(o, 1);
    ok := WriteWindows(windows, order, out, ListStart(o, 1), sheets, js, nodes);
    if !ok { return; }
    ok := out.CloseListField(o, 1, js);
  }

  /** Writes the visible windows of a service, the most important first.  `sheets` are all windows
      as they are written; the result tells whether the text of the listed ones, with a terminator
      behind it, fits. */
  method ServiceToJson(windows: seq<Window>, out: Output, ghost sheets: seq<Sheet>, ghost nodes: set<Window>)
    returns (ok: bool, order: seq<Pointer>, ghost js: seq<Json>)
    requires |windows| == 8 && WrittenAs(windows, sheets) && AllFit(sheets) && out.Valid()
    requires forall i :: 0 <= i < 8 ==> windows[i] in nodes
    modifies nodes, out`po, out`left, out`hasProp, out.buf
    ensures multiset(order) == multiset(Visible(Styles(sheets))) && ByPriority(order)
    ensures ItemsFor(js, sheets, order, out.flash)
    ensures out.Valid() && out.Emitted(ok, old(out.Text()), old(out.hasProp), ServiceJson(js))
  {
    order := ListedWindows(windows, sheets);
    js := SheetJsons(sheets, order, out.flash);
    ghost var o: Outline;
    ok, o := OpenService(windows, out, sheets, js);
    if !ok { return; }
    ok := OpenWindowList(windows, out, o, sheets);
    if !ok { return; }
    ok := WriteWindowItems(windows, order, out, o, sheets, js, nodes);
    if !ok { return; }
    ok := out.CloseObject(o);
  }

  ghost function Styles(sheets: seq<Sheet>): (styles: seq<Style>)
    ensures |styles| == |sheets| && forall i :: 0 <= i < |styles| ==> styles[i] == sheets[i].style
  {
    seq(|sheets|, i requires 0 <= i < |sheets| => sheets[i].style)
  }

  method ListedWindows(windows: seq<Window>, ghost sheets: seq<Sheet>) returns (order: seq<Pointer>)
    requires |windows| == 8 && WrittenAs(windows, sheets)
    ensures multiset(order) == multiset(Visible(Styles(sheets))) && ByPriority(order)
    ensures forall i :: 0 <= i < |order| ==> order[i].place < 8
  {
    var styles := seq(8, i requires 0 <= i < 8 => windows[i].style);
    assert styles == Styles(sheets) by {
      forall i | 0 <= i < 8 ensures styles[i] == sheets[i].style {
        assert windows[i].Final() == sheets[i];
      }
    }
    order := VisibleByPriority(styles);
  }

  method OpenService(windows: seq<Window>, out: Output, ghost sheets: seq<Sheet>, ghost js: seq<Json>)
    returns (ok: bool, ghost o: Outline)
    requires WrittenAs(windows, sheets) && out.Valid()
    modifies out`po, out`left, out`hasProp, out.buf
    ensures WrittenAs(windows, sheets)
    ensures out.Valid() && Right(o) && Closes(o) && o.all == ServiceProps(js)
      && o.start == old(out.Text()) + Comma(old(out.hasProp))
    ensures if ok then out.InObject(o, 1) else out.TooLong(o)
  {
    ok, o := out.OpenObject(ServiceProps(js));
    if ok {
      ok := out.StrField("type", "cea708", o, 0);
    }
    forall n | 0 <= n < |windows| ensures windows[n].Final() == sheets[n] {
      assert old(windows[n].Final()) == sheets[n];
    }
  }

  /** The conversion into a caller's buffer: it succeeds exactly when the text and a terminator
      fit, and then they are what the buffer begins with. */
  method TvccToJson(windows: seq<Window>, buffer: array<char>, nsec: nat, ghost sheets: seq<Sheet>,
                    ghost nodes: set<Window>)
    returns (ok: bool, length: nat, order: seq<Pointer>, ghost js: seq<Json>, ghost flash: int32)
    requires |windows| == 8 && WrittenAs(windows, sheets) && AllFit(sheets)
    requires forall i :: 0 <= i < 8 ==> windows[i] in nodes
    modifies nodes, buffer
    ensures multiset(order) == multiset(Visible(Styles(sheets))) && ByPriority(order)
    ensures ItemsFor(js, sheets, order, flash)
    ensures ok == (|Ser(ServiceJson(js))| < buffer.Length)
    ensures ok ==> length < buffer.Length && buffer[..length] == Ser(ServiceJson(js)) && buffer[length] == '\0'
  {
    var out := new Output(buffer, nsec);
    flash := out.flash;
    ok, order, js := ServiceToJson(windows, out, sheets, nodes);
    length := out.po;
    EmptyStart(Ser(ServiceJson(js)));
  }

  lemma EmptyStart(t: string)
    ensures "" + "" + t == t
  {
  }

}
