/** What a reader of the text finds in it: the values under their names, and the characters of the
    rows. */
module CaptionReadBack {
  import opened Wrappers
  import opened Json
  import opened JsonGrammar
  import opened JsonOutput
  import opened CaptionRow
  import opened CaptionJson
  import opened CaptionService
  import opened CaptionLegal

  // ---- Looking up names ----

  function Lookup(fields: Fields, key: string): Option<Json> {
    match fields
    case NoFields => None
    case Fields(front, k, v) => if k == key then Some(v) else Lookup(front, key)
  }

  /** The value under a name of an object. */
  function Member(j: Json, key: string): Option<Json> {
    if j.Object? then Lookup(j.fields, key) else None
  }

  lemma {:induction false} LookupAt(ps: seq<Prop>, i: nat)
    requires i < |ps| && forall j :: i < j < |ps| ==> ps[j].key != ps[i].key
    ensures Lookup(FieldsOf(ps), ps[i].key) == Some(ps[i].value)
    decreases |ps|
  {
    if i < |ps| - 1 {
      LookupAt(ps[..|ps|-1], i);
    }
  }

  /** Tells the names of a window apart, and those of a run: by length, first and last character. */
  function Code(key: string): int {
    if key == "" then 0 else 65536 * |key| + 256 * (key[0] as int) + (key[|key|-1] as int)
  }

  predicate Coded(ps: seq<Prop>, codes: seq<int>) {
    |ps| == |codes| && forall i :: 0 <= i < |ps| ==> Code(ps[i].key) == codes[i]
  }

  predicate Distinct(codes: seq<int>) {
    forall i, j :: 0 <= i < j < |codes| ==> codes[i] != codes[j]
  }

  lemma LookupByCode(ps: seq<Prop>, codes: seq<int>, i: nat)
    requires Coded(ps, codes) && Distinct(codes) && i < |ps|
    ensures Member(Object(FieldsOf(ps)), ps[i].key) == Some(ps[i].value)
  {
    forall j | i < j < |ps| ensures ps[j].key != ps[i].key {
      assert codes[i] != codes[j];
    }
    LookupAt(ps, i);
  }

  predicate Apart(c: seq<int>, d: seq<int>) {
    forall i, j :: 0 <= i < |c| && 0 <= j < |d| ==> c[i] != d[j]
  }

  lemma ApartTogether(a: seq<int>, b: seq<int>, c: seq<int>)
    requires Apart(a, c) && Apart(b, c)
    ensures Apart(a + b, c)
  {
  }

  /** Groups of properties whose names differ. */
  lemma CodedTogether(a: seq<Prop>, b: seq<Prop>, c: seq<int>, d: seq<int>)
    requires Coded(a, c) && Coded(b, d) && Distinct(c) && Distinct(d) && Apart(c, d)
    ensures Coded(a + b, c + d) && Distinct(c + d)
  {
  }

  /** Each of these properties is found in the object. */
  predicate Found(j: Json, ps: seq<Prop>) {
    forall i {:trigger ps[i]} :: 0 <= i < |ps| ==> Member(j, ps[i].key) == Some(ps[i].value)
  }

  lemma AllFound(ps: seq<Prop>, codes: seq<int>)
    requires Coded(ps, codes) && Distinct(codes)
    ensures Found(Object(FieldsOf(ps)), ps)
  {
    forall i | 0 <= i < |ps| ensures Member(Object(FieldsOf(ps)), ps[i].key) == Some(ps[i].value) {
      LookupByCode(ps, codes, i);
    }
  }

  lemma FoundInGroups(j: Json, a: seq<Prop>, b: seq<Prop>)
    requires Found(j, a + b)
    ensures Found(j, a) && Found(j, b)
  {
    forall i | 0 <= i < |a| ensures Member(j, a[i].key) == Some(a[i].value) {
      assert (a + b)[i] == a[i];
    }
    forall i | 0 <= i < |b| ensures Member(j, b[i].key) == Some(b[i].value) {
      assert (a + b)[|a| + i] == b[i];
    }
  }

  // ---- Runs ----

  const RUN_CODES: seq<int> := [553061, 681573, 421748, 485747, 619877, 615781, 681330, 550514, 681593, 549490,
                                680569, 287841]

  lemma RunCodes(r: Run)
    ensures Coded(TextProps(r), RUN_CODES) && Distinct(RUN_CODES)
  {
  }

  /** A reader finds the octets of a run and each of its pen's values under their names. */
  lemma RunReadsBack(r: Run)
    ensures var j, pen := TextJson(r), r.pen;
            && Member(j, "data") == Some(Str(r.data))
            && Member(j, "pen_size") == Some(Str(PenSizeName(pen.penSize)))
            && Member(j, "font_style") == Some(Str(FontStyleName(pen.fontStyle)))
            && Member(j, "offset") == Some(Str(OffsetName(pen.offset)))
            && Member(j, "italics") == Some(Flag(pen.italics))
            && Member(j, "underline") == Some(Flag(pen.underline))
            && Member(j, "edge_type") == Some(Str(EdgeName(pen.edgeType)))
            && Member(j, "edge_color") == Some(Num(pen.edgeColor))
            && Member(j, "fg_color") == Some(Num(pen.fgColor))
            && Member(j, "fg_opacity") == Some(Str(OpacityName(pen.fgOpacity)))
            && Member(j, "bg_color") == Some(Num(pen.bgColor))
            && Member(j, "bg_opacity") == Some(Str(OpacityName(pen.bgOpacity)))
  {
    RunCodes(r);
    var ps := TextProps(r);
    AllFound(ps, RUN_CODES);
    assert ps[0].key == "pen_size" && ps[1].key == "font_style" && ps[2].key == "offset" && ps[3].key == "italics";
    assert ps[4].key == "underline" && ps[5].key == "edge_type" && ps[6].key == "edge_color";
    assert ps[7].key == "fg_color" && ps[8].key == "fg_opacity" && ps[9].key == "bg_color";
    assert ps[10].key == "bg_opacity" && ps[11].key == "data";
  }

  // ---- Rows ----

  /** The items of a list. */
  function ItemSeq(items: Items): seq<Json> {
    match items
    case NoItems => []
    case Items(front, last) => ItemSeq(front) + [last]
  }

  lemma {:induction false} ItemsReadBack(js: seq<Json>)
    ensures ItemSeq(ItemsOf(js)) == js
  {
    if js != [] {
      ItemsReadBack(js[..|js|-1]);
    }
  }

  /** The items under a name of an object. */
  function MemberItems(j: Json, key: string): seq<Json> {
    match Member(j, key)
    case Some(List(items)) => ItemSeq(items)
    case _ => []
  }

  /** The octets that a reader puts together from the runs of a row. */
  function Data(runs: seq<Json>): string {
    if runs == [] then ""
    else
      match Member(runs[|runs|-1], "data")
      case Some(Str(s)) => Data(runs[..|runs|-1]) + s
      case _ => Data(runs[..|runs|-1])
  }

  lemma {:induction false} DataOfRuns(runs: seq<Run>)
    ensures Data(TextJsons(runs)) == Octets(PaintedRuns(runs))
  {
    if runs != [] {
      var front, last := runs[..|runs|-1], runs[|runs|-1];
      DataOfRuns(front);
      RunReadsBack(last);
      assert TextJsons(runs)[..|front|] == TextJsons(front);
      OctetsAppend(PaintedRuns(front), last.data, last.pen);
    }
  }

  lemma TwoLookups(a: Prop, b: Prop)
    requires a.key != b.key
    ensures var j := Object(FieldsOf([a, b]));
            Member(j, a.key) == Some(a.value) && Member(j, b.key) == Some(b.value)
  {
    LookupAt([a, b], 0);
    LookupAt([a, b], 1);
  }

  /** A reader of a row decodes its characters, and finds where they start. */
  lemma RowReadsBack(cells: seq<Cell>)
    ensures var j := RowJson(cells);
            && DecodeAll(Data(MemberItems(j, "content"))) == ShownAll(cells)
            && Member(j, "row_start") == Some(Num(RowStart(cells)))
            && MemberItems(j, "content") == TextJsons(Runs(cells))
  {
    var ps, texts := RowProps(cells), TextJsons(Runs(cells));
    assert |ps[0].key| != |ps[1].key|;
    TwoLookups(ps[0], ps[1]);
    ItemsReadBack(texts);
    DataOfRuns(Runs(cells));
    RunsEncodeTheRow(cells);
    DecodeEncoded(cells);
  }

  // ---- Windows ----

  const PLACE_CODES: seq<int> := [811380, 1139052, 1007980, 1007973, 553579, 746347, 619124, 811892]
  const STYLE_CODES: seq<int> := [486009, 1011822, 1078126, 422512, 549751, 554864]
  const EFFECT_CODES: seq<int> := [943476, 877939, 943220, 1074542, 812388]
  const COLOR_CODES: seq<int> := [812665, 681586, 746085, 811634, 682100]
  const ROWS_CODES: seq<int> := [291443]

  lemma PlaceCodes(w: Style, rc: int32, cc: int32)
    ensures Coded(PlaceProps(w, rc, cc), PLACE_CODES)
  {
  }

  lemma PlacesDiffer()
    ensures Distinct(PLACE_CODES)
  {
  }

  lemma StyleCodes(w: Style)
    ensures Coded(StyleProps(w), STYLE_CODES) && Distinct(STYLE_CODES)
  {
  }

  lemma EffectCodes(w: Style)
    ensures Coded(EffectProps(w), EFFECT_CODES) && Distinct(EFFECT_CODES)
  {
  }

  lemma ColorCodes(w: Style, flash: int32)
    ensures Coded(ColorProps(w, flash), COLOR_CODES) && Distinct(COLOR_CODES)
  {
  }

  lemma GroupsApart()
    ensures Apart(PLACE_CODES, STYLE_CODES) && Apart(PLACE_CODES, EFFECT_CODES) && Apart(PLACE_CODES, COLOR_CODES)
    ensures Apart(STYLE_CODES, EFFECT_CODES) && Apart(STYLE_CODES, COLOR_CODES) && Apart(EFFECT_CODES, COLOR_CODES)
    ensures Apart(PLACE_CODES, ROWS_CODES) && Apart(STYLE_CODES, ROWS_CODES) && Apart(EFFECT_CODES, ROWS_CODES)
    ensures Apart(COLOR_CODES, ROWS_CODES)
  {
  }

  /** Five groups, all apart from each other. */
  lemma FiveGroups(a: seq<Prop>, b: seq<Prop>, c: seq<Prop>, d: seq<Prop>, e: seq<Prop>,
                   ka: seq<int>, kb: seq<int>, kc: seq<int>, kd: seq<int>, ke: seq<int>)
    requires Coded(a, ka) && Coded(b, kb) && Coded(c, kc) && Coded(d, kd) && Coded(e, ke)
    requires Distinct(ka) && Distinct(kb) && Distinct(kc) && Distinct(kd) && Distinct(ke)
    requires Apart(ka, kb) && Apart(ka, kc) && Apart(kb, kc) && Apart(ka, kd) && Apart(kb, kd) && Apart(kc, kd)
    requires Apart(ka, ke) && Apart(kb, ke) && Apart(kc, ke) && Apart(kd, ke)
    ensures var j := Object(FieldsOf(a + b + c + d + e));
            Found(j, a) && Found(j, b) && Found(j, c) && Found(j, d) && Found(j, e)
  {
    CodedTogether(a, b, ka, kb);
    ApartTogether(ka, kb, kc);
    CodedTogether(a + b, c, ka + kb, kc);
    ApartTogether(ka, kb, kd);
    ApartTogether(ka + kb, kc, kd);
    CodedTogether(a + b + c, d, ka + kb + kc, kd);
    ApartTogether(ka, kb, ke);
    ApartTogether(ka + kb, kc, ke);
    ApartTogether(ka + kb + kc, kd, ke);
    CodedTogether(a + b + c + d, e, ka + kb + kc + kd, ke);
    AllFound(a + b + c + d + e, ka + kb + kc + kd + ke);
    var j := Object(FieldsOf(a + b + c + d + e));
    FoundInGroups(j, a + b + c + d, e);
    FoundInGroups(j, a + b + c, d);
    FoundInGroups(j, a + b, c);
    FoundInGroups(j, a, b);
  }

  lemma WindowFound(w: Style, rc: int32, cc: int32, flash: int32, rows: seq<Json>)
    ensures var j := Object(FieldsOf(WindowProps(w, rc, cc, flash, rows)));
            && Found(j, PlaceProps(w, rc, cc)) && Found(j, StyleProps(w)) && Found(j, EffectProps(w))
            && Found(j, ColorProps(w, flash)) && Found(j, [Prop("rows", List(ItemsOf(rows)))])
  {
    PlaceCodes(w, rc, cc);
    PlacesDiffer();
    StyleCodes(w);
    EffectCodes(w);
    ColorCodes(w, flash);
    GroupsApart();
    FiveGroups(PlaceProps(w, rc, cc), StyleProps(w), EffectProps(w), ColorProps(w, flash),
               [Prop("rows", List(ItemsOf(rows)))],
               PLACE_CODES, STYLE_CODES, EFFECT_CODES, COLOR_CODES, ROWS_CODES);
  }

  /** How many rows or columns of a window are written: as many as it declares, or, when it is not
      locked, as its content has if those are more. */
  predicate Settled(n: nat, locked: bool, content: nat, declared: nat) {
    if locked then n == declared else n >= content && n >= declared && (n == content || n == declared)
  }

  /** Where the window is and how large. */
  predicate PlaceReads(j: Json, w: Style, rc: nat, cc: nat) {
    && Member(j, "anchor_point") == Some(Num(w.anchorPoint))
    && Member(j, "anchor_horizontal") == Some(Num(w.anchorHorizontal))
    && Member(j, "anchor_vertical") == Some(Num(w.anchorVertical))
    && Member(j, "anchor_relative") == Some(Flag(w.anchorRelative))
    && Member(j, "row_lock") == Some(Flag(w.rowLock)) && Member(j, "column_lock") == Some(Flag(w.columnLock))
    && Member(j, "row_count") == Some(Num(rc)) && Member(j, "column_count") == Some(Num(cc))
  }

  lemma PlaceReadsBack(j: Json, w: Style, rc: int32, cc: int32)
    requires Found(j, PlaceProps(w, rc, cc)) && rc >= 0 && cc >= 0
    ensures PlaceReads(j, w, rc, cc)
  {
    var ps := PlaceProps(w, rc, cc);
    assert ps[0].key == "anchor_point" && ps[1].key == "anchor_horizontal" && ps[2].key == "anchor_vertical";
    assert ps[3].key == "anchor_relative" && ps[4].key == "row_lock" && ps[5].key == "column_lock";
    assert ps[6].key == "row_count" && ps[7].key == "column_count";
  }

  /** How its text is laid out. */
  predicate StyleReads(j: Json, w: Style) {
    && Member(j, "justify") == Some(Str(JustifyName(w.justify)))
    && Member(j, "print_direction") == Some(Str(DirectionName(w.printDirection)))
    && Member(j, "scroll_direction") == Some(Str(DirectionName(w.scrollDirection)))
    && Member(j, "rollup") == Some(Flag(w.needRollup)) && Member(j, "curr_row") == Some(Num(w.currRow))
    && Member(j, "wordwrap") == Some(Flag(w.wordwrap))
  }

  lemma StyleReadsBack(j: Json, w: Style)
    requires Found(j, StyleProps(w))
    ensures StyleReads(j, w)
  {
    var ps := StyleProps(w);
    assert ps[0].key == "justify" && ps[1].key == "print_direction" && ps[2].key == "scroll_direction";
    assert ps[3].key == "rollup" && ps[4].key == "curr_row" && ps[5].key == "wordwrap";
  }

  /** How it appears, and its colors. */
  predicate EffectReads(j: Json, w: Style) {
    && Member(j, "effect_percent") == Some(Num(w.effectPercent))
    && Member(j, "effect_status") == Some(Str(EffectStatusName(w.effectStatus)))
    && Member(j, "display_effect") == Some(Str(DisplayEffectName(w.displayEffect)))
    && Member(j, "effect_direction") == Some(Str(DirectionName(w.effectDirection)))
    && Member(j, "effect_speed") == Some(Num(w.effectSpeed))
  }

  lemma EffectReadsBack(j: Json, w: Style)
    requires Found(j, EffectProps(w))
    ensures EffectReads(j, w)
  {
    var ps := EffectProps(w);
    assert ps[0].key == "effect_percent" && ps[1].key == "effect_status" && ps[2].key == "display_effect";
    assert ps[3].key == "effect_direction" && ps[4].key == "effect_speed";
  }

  predicate ColorReads(j: Json, w: Style, flash: int32) {
    && Member(j, "fill_opacity") == Some(Str(OpacityName(w.fillOpacity)))
    && Member(j, "fill_color") == Some(Num(w.fillColor))
    && Member(j, "border_type") == Some(Str(EdgeName(w.borderType)))
    && Member(j, "border_color") == Some(Num(w.borderColor)) && Member(j, "heart_beat") == Some(Num(flash))
  }

  lemma ColorReadsBack(j: Json, w: Style, flash: int32)
    requires Found(j, ColorProps(w, flash))
    ensures ColorReads(j, w, flash)
  {
    var ps := ColorProps(w, flash);
    assert ps[0].key == "fill_opacity" && ps[1].key == "fill_color" && ps[2].key == "border_type";
    assert ps[3].key == "border_color" && ps[4].key == "heart_beat";
  }

  /** One object for each row of the window, which decodes to the characters in its columns. */
  predicate RowsRead(rows: seq<Json>, s: Sheet)
    requires Fits(s)
  {
    && |rows| == s.rowCount
    && forall i :: 0 <= i < |rows| ==>
         var cells := s.style.rows[i][..s.columnCount];
         && DecodeAll(Data(MemberItems(rows[i], "content"))) == ShownAll(cells)
         && Member(rows[i], "row_start") == Some(Num(RowStart(cells)))
  }

  lemma RowsReadBack(s: Sheet)
    requires Fits(s)
    ensures RowsRead(SheetRows(s), s)
  {
    var rows := SheetRows(s);
    forall i | 0 <= i < |rows|
      ensures DecodeAll(Data(MemberItems(rows[i], "content"))) == ShownAll(s.style.rows[i][..s.columnCount])
      ensures Member(rows[i], "row_start") == Some(Num(RowStart(s.style.rows[i][..s.columnCount])))
    {
      RowJsonsAt(s.style.rows, s.rowCount, s.columnCount, i);
      RowReadsBack(s.style.rows[i][..s.columnCount]);
    }
  }

  /** What a reader finds in the object of a window. */
  predicate WindowReads(j: Json, s: Sheet, flash: int32)
    requires Fits(s)
  {
    && PlaceReads(j, s.style, s.rowCount, s.columnCount) && StyleReads(j, s.style)
    && EffectReads(j, s.style) && ColorReads(j, s.style, flash) && RowsRead(MemberItems(j, "rows"), s)
  }

  lemma SheetReadsBack(s: Sheet, flash: int32)
    requires Fits(s)
    ensures WindowReads(SheetJson(s, flash), s, flash)
  {
    var j, w, rows := SheetJson(s, flash), s.style, SheetRows(s);
    WindowFound(w, s.rowCount, s.columnCount, flash, rows);
    PlaceReadsBack(j, w, s.rowCount, s.columnCount);
    StyleReadsBack(j, w);
    EffectReadsBack(j, w);
    ColorReadsBack(j, w, flash);
    var p := [Prop("rows", List(ItemsOf(rows)))];
    assert p[0].key == "rows";
    ItemsReadBack(rows);
    RowsReadBack(s);
  }

  /** Of a window, the reader finds its values under their names, and as many rows and columns as
      it declares or, where it is not locked, as its content has if those are more. */
  lemma WindowReadsBack(win: Window, flash: int32)
    requires Fits(win.Final())
    ensures var s := win.Final();
            && s.style == win.style && WindowReads(SheetJson(s, flash), s, flash)
            && Settled(s.rowCount, win.style.rowLock, win.style.rowNoLockLength, win.rowCount)
            && Settled(s.columnCount, win.style.columnLock, win.style.columnNoLockLength, win.columnCount)
  {
    SheetReadsBack(win.Final(), flash);
  }

  // ---- The service ----

  /** The objects of the listed windows, in their order. */
  predicate WindowsRead(windows: seq<Json>, sheets: seq<Sheet>, order: seq<Pointer>, flash: int32) {
    && |windows| == |order| && AllFit(sheets)
    && forall i {:trigger order[i]} :: 0 <= i < |order| ==>
         order[i].place < |sheets| && WindowReads(windows[i], sheets[order[i].place], flash)
  }

  lemma WindowsReadBack(js: seq<Json>, sheets: seq<Sheet>, order: seq<Pointer>, flash: int32)
    requires ItemsFor(js, sheets, order, flash)
    ensures WindowsRead(js, sheets, order, flash)
  {
    forall i | 0 <= i < |order|
      ensures order[i].place < |sheets| && WindowReads(js[i], sheets[order[i].place], flash)
    {
      SheetReadsBack(sheets[order[i].place], flash);
    }
  }

  lemma ServiceMembers(js: seq<Json>)
    ensures Member(ServiceJson(js), "type") == Some(Str("cea708"))
    ensures MemberItems(ServiceJson(js), "windows") == js
  {
    var ps := ServiceProps(js);
    assert ps[0].key == "type" && ps[1].key == "windows" && |ps[0].key| != |ps[1].key|;
    TwoLookups(ps[0], ps[1]);
    ItemsReadBack(js);
  }

  /** The text reads back as an object with the windows in their order, each of which shows its
      values and its rows. */
  lemma ServiceShowsItsWindows(js: seq<Json>, sheets: seq<Sheet>, order: seq<Pointer>, flash: int32)
    requires ItemsFor(js, sheets, order, flash)
    ensures var p := ParseValue(Ser(ServiceJson(js)));
            && p.Parsed? && p.rest == "" && Member(p.value, "type") == Some(Str("cea708"))
            && WindowsRead(MemberItems(p.value, "windows"), sheets, order, flash)
  {
    ServiceReadsBack(js, sheets, order, flash);
    ServiceMembers(js);
    WindowsReadBack(js, sheets, order, flash);
  }

}
