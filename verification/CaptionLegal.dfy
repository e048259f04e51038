/** The text of a caption service as JSON: it reads back as the service, and it is legal JSON
    exactly when no control character but LF and CR is shown. */
module CaptionLegal {
  import opened Json
  import opened JsonGrammar
  import opened JsonOutput
  import opened CaptionRow
  import opened CaptionJson
  import opened CaptionService

  // ---- Lists of properties ----

  predicate BareProps(ps: seq<Prop>) {
    forall i :: 0 <= i < |ps| ==> BareKey(ps[i].key) && Bare(ps[i].value)
  }

  predicate CleanProps(ps: seq<Prop>) {
    forall i :: 0 <= i < |ps| ==> Clean(ps[i].value)
  }

  lemma {:induction false} PropsAsFields(ps: seq<Prop>)
    ensures BareProps(ps) ==> BareFields(FieldsOf(ps))
    ensures CleanFields(FieldsOf(ps)) <==> CleanProps(ps)
  {
    if ps != [] {
      var front, last := ps[..|ps|-1], ps[|ps|-1];
      PropsAsFields(front);
      assert ps == front + [last];
    }
  }

  predicate BareList(js: seq<Json>) {
    forall i :: 0 <= i < |js| ==> Bare(js[i])
  }

  predicate CleanList(js: seq<Json>) {
    forall i :: 0 <= i < |js| ==> Clean(js[i])
  }

  lemma {:induction false} ListAsItems(js: seq<Json>)
    ensures BareList(js) ==> BareItems(ItemsOf(js))
    ensures CleanItems(ItemsOf(js)) <==> CleanList(js)
  {
    if js != [] {
      var front, last := js[..|js|-1], js[|js|-1];
      ListAsItems(front);
      assert js == front + [last];
    }
  }

  lemma PropsTogether(a: seq<Prop>, b: seq<Prop>)
    ensures BareProps(a) && BareProps(b) ==> BareProps(a + b)
    ensures CleanProps(a + b) <==> CleanProps(a) && CleanProps(b)
  {
    assert (a + b)[..|a|] == a && (a + b)[|a|..] == b;
    assert forall i :: 0 <= i < |a| ==> (a + b)[i] == a[i];
    assert forall i :: 0 <= i < |b| ==> (a + b)[|a| + i] == b[i];
  }

  /** A property with a fixed name, and a number or a name out of a table. */
  predicate FixedProp(p: Prop) {
    BareKey(p.key) && (p.value.Num? || p.value.Flag? || (p.value.Str? && BareKey(p.value.s)))
  }

  predicate Fixed(ps: seq<Prop>) {
    forall i :: 0 <= i < |ps| ==> FixedProp(ps[i])
  }

  lemma FixedTogether(a: seq<Prop>, b: seq<Prop>)
    requires Fixed(a) && Fixed(b)
    ensures Fixed(a + b)
  {
  }

  lemma FixedIsClean(ps: seq<Prop>)
    requires Fixed(ps)
    ensures BareProps(ps) && CleanProps(ps)
  {
    forall i | 0 <= i < |ps| ensures BareKey(ps[i].key) && Bare(ps[i].value) && Clean(ps[i].value) {
      assert FixedProp(ps[i]);
    }
  }

  lemma PenNames(v: int)
    ensures BareKey(PenSizeName(v)) && BareKey(OffsetName(v))
  {
  }

  lemma FontNames(v: int)
    ensures BareKey(FontStyleName(v))
  {
  }

  lemma EdgeNames(v: int)
    ensures BareKey(EdgeName(v))
  {
  }

  lemma OpacityNames(v: int)
    ensures BareKey(OpacityName(v))
  {
  }

  lemma EffectNames(v: int)
    ensures BareKey(EffectStatusName(v)) && BareKey(DisplayEffectName(v))
  {
  }

  lemma JustifyNames(v: int)
    ensures BareKey(JustifyName(v))
  {
  }

  lemma DirectionNames(v: int)
    ensures BareKey(DirectionName(v))
  {
  }

  // ---- Rows ----

  lemma PenIsFixed(pen: Pen)
    ensures Fixed(PenProps(pen))
  {
    PenNames(pen.penSize);
    FontNames(pen.fontStyle);
    PenNames(pen.offset);
    EdgeNames(pen.edgeType);
    OpacityNames(pen.fgOpacity);
    OpacityNames(pen.bgOpacity);
    PenKeys();
    PenColorKeys();
  }

  lemma PenKeys()
    ensures BareKey("pen_size") && BareKey("font_style") && BareKey("offset") && BareKey("italics")
    ensures BareKey("underline") && BareKey("edge_type")
  {
  }

  lemma PenColorKeys()
    ensures BareKey("edge_color") && BareKey("fg_color")
    ensures BareKey("fg_opacity") && BareKey("bg_color") && BareKey("bg_opacity")
  {
  }

  lemma RunIsCleanIff(r: Run)
    ensures Bare(TextJson(r)) && (Clean(TextJson(r)) <==> NoOtherControl(r.data))
  {
    var data := [Prop("data", Str(r.data))];
    PenIsFixed(r.pen);
    FixedIsClean(PenProps(r.pen));
    assert BareKey("data");
    assert data[0].value == Str(r.data);
    PropsTogether(PenProps(r.pen), data);
    PropsAsFields(TextProps(r));
  }

  predicate CleanRuns(runs: seq<Run>) {
    forall i :: 0 <= i < |runs| ==> NoOtherControl(runs[i].data)
  }

  lemma {:induction false} TextsAreCleanIff(runs: seq<Run>)
    ensures BareList(TextJsons(runs)) && (CleanList(TextJsons(runs)) <==> CleanRuns(runs))
  {
    if runs != [] {
      var front, last := runs[..|runs|-1], runs[|runs|-1];
      TextsAreCleanIff(front);
      RunIsCleanIff(last);
      assert runs == front + [last];
      ListEndsClean(TextJsons(front), TextJson(last));
    }
  }

  lemma ListEndsClean(js: seq<Json>, j: Json)
    ensures CleanList(js + [j]) <==> CleanList(js) && Clean(j)
  {
    assert forall i :: 0 <= i < |js| ==> (js + [j])[i] == js[i];
    assert (js + [j])[|js|] == j;
  }

  /** Nothing is shown in the cell, or no control character but LF and CR. */
  predicate CleanCell(c: Cell) {
    c.Cell? ==> Shown(c) >= 0x20 || Shown(c) == 0x0A || Shown(c) == 0x0D
  }

  predicate CleanCells(cells: seq<Cell>) {
    forall i :: 0 <= i < |cells| ==> CleanCell(cells[i])
  }

  lemma Utf8IsCleanIff(c: Cell)
    requires c.Cell?
    ensures NoOtherControl(Utf8(Shown(c))) <==> CleanCell(c)
  {
    var u := Utf8(Shown(c));
    assert u[0] == if Shown(c) <= 0x7F then Shown(c) as char else u[0];
  }

  lemma TogetherClean(s: string, t: string)
    ensures NoOtherControl(s + t) <==> NoOtherControl(s) && NoOtherControl(t)
  {
    assert forall i :: 0 <= i < |s| ==> (s + t)[i] == s[i];
    assert forall i :: 0 <= i < |t| ==> (s + t)[|s| + i] == t[i];
  }

  lemma RunsEndClean(runs: seq<Run>, r: Run)
    ensures CleanRuns(runs + [r]) <==> CleanRuns(runs) && NoOtherControl(r.data)
  {
    assert forall i :: 0 <= i < |runs| ==> (runs + [r])[i] == runs[i];
    assert (runs + [r])[|runs|] == r;
  }

  lemma AddCellIsCleanIff(runs: seq<Run>, c: Cell)
    ensures CleanRuns(AddCell(runs, c)) <==> CleanRuns(runs) && CleanCell(c)
  {
    if c.Cell? {
      Utf8IsCleanIff(c);
      var u := Utf8(Shown(c));
      if runs == [] || runs[|runs|-1].pen != c.pen {
        RunsEndClean(runs, Run(u, c.pen));
      } else {
        var front, last := runs[..|runs|-1], runs[|runs|-1];
        TogetherClean(last.data, u);
        RunsEndClean(front, last);
        RunsEndClean(front, Run(last.data + u, c.pen));
        assert runs == front + [last];
      }
    }
  }

  lemma {:induction false} RunsAreCleanIff(cells: seq<Cell>)
    ensures CleanRuns(Runs(cells)) <==> CleanCells(cells)
  {
    if cells != [] {
      var front, last := cells[..|cells|-1], cells[|cells|-1];
      RunsAreCleanIff(front);
      AddCellIsCleanIff(Runs(front), last);
      assert cells == front + [last];
    }
  }

  lemma ContentIsCleanIff(items: Items, start: int)
    requires BareItems(items)
    ensures var ps := [Prop("content", List(items)), Prop("row_start", Num(start))];
            BareProps(ps) && (CleanProps(ps) <==> CleanItems(items))
  {
    var ps := [Prop("content", List(items)), Prop("row_start", Num(start))];
    assert BareKey("content") && BareKey("row_start");
    assert CleanProps(ps) <==> Clean(ps[0].value) && Clean(ps[1].value);
  }

  lemma RowIsCleanIff(cells: seq<Cell>)
    ensures Bare(RowJson(cells)) && (Clean(RowJson(cells)) <==> CleanCells(cells))
  {
    var texts := TextJsons(Runs(cells));
    TextsAreCleanIff(Runs(cells));
    ListAsItems(texts);
    RunsAreCleanIff(cells);
    ContentIsCleanIff(ItemsOf(texts), RowStart(cells));
    PropsAsFields(RowProps(cells));
  }

  lemma {:induction false} RowsAreCleanIff(rows: seq<seq<Cell>>, n: nat, columns: nat)
    requires n <= |rows| && forall i :: 0 <= i < |rows| ==> columns <= |rows[i]|
    ensures BareList(RowJsons(rows, n, columns))
    ensures CleanList(RowJsons(rows, n, columns)) <==> forall i :: 0 <= i < n ==> CleanCells(rows[i][..columns])
  {
    if n > 0 {
      RowsAreCleanIff(rows, n - 1, columns);
      RowIsCleanIff(rows[n - 1][..columns]);
      ListEndsClean(RowJsons(rows, n - 1, columns), RowJson(rows[n - 1][..columns]));
    }
  }

  // ---- Windows ----

  lemma PlaceIsFixed(w: Style, rc: int32, cc: int32)
    ensures Fixed(PlaceProps(w, rc, cc))
  {
    PlaceKeys();
  }

  lemma PlaceKeys()
    ensures BareKey("anchor_point") && BareKey("anchor_horizontal") && BareKey("anchor_vertical")
    ensures BareKey("anchor_relative") && BareKey("row_lock") && BareKey("column_lock")
    ensures BareKey("row_count") && BareKey("column_count")
  {
  }

  lemma StyleIsFixed(w: Style)
    ensures Fixed(StyleProps(w))
  {
    JustifyNames(w.justify);
    DirectionNames(w.printDirection);
    DirectionNames(w.scrollDirection);
    StyleKeys();
  }

  lemma StyleKeys()
    ensures BareKey("justify") && BareKey("print_direction") && BareKey("scroll_direction")
    ensures BareKey("rollup") && BareKey("curr_row") && BareKey("wordwrap")
  {
  }

  lemma EffectIsFixed(w: Style)
    ensures Fixed(EffectProps(w))
  {
    EffectNames(w.effectStatus);
    EffectNames(w.displayEffect);
    DirectionNames(w.effectDirection);
    EffectKeys();
  }

  lemma EffectKeys()
    ensures BareKey("effect_percent") && BareKey("effect_status") && BareKey("display_effect")
    ensures BareKey("effect_direction") && BareKey("effect_speed")
  {
  }

  lemma ColorIsFixed(w: Style, flash: int32)
    ensures Fixed(ColorProps(w, flash))
  {
    OpacityNames(w.fillOpacity);
    EdgeNames(w.borderType);
    ColorKeys();
  }

  lemma ColorKeys()
    ensures BareKey("fill_opacity") && BareKey("fill_color") && BareKey("border_type")
    ensures BareKey("border_color") && BareKey("heart_beat")
  {
  }

  lemma WindowPropsAreCleanIff(w: Style, rc: int32, cc: int32, flash: int32, rows: seq<Json>)
    requires BareItems(ItemsOf(rows))
    ensures var ps := WindowProps(w, rc, cc, flash, rows);
            BareProps(ps) && (CleanProps(ps) <==> CleanItems(ItemsOf(rows)))
  {
    PlaceIsFixed(w, rc, cc);
    StyleIsFixed(w);
    EffectIsFixed(w);
    ColorIsFixed(w, flash);
    RowsPropIsCleanIff(ItemsOf(rows));
    var a, b, c, d := PlaceProps(w, rc, cc), StyleProps(w), EffectProps(w), ColorProps(w, flash);
    FixedTogether(a, b);
    FixedTogether(a + b, c);
    FixedTogether(a + b + c, d);
    FixedIsClean(a + b + c + d);
    PropsTogether(a + b + c + d, [Prop("rows", List(ItemsOf(rows)))]);
  }

  lemma RowsPropIsCleanIff(items: Items)
    requires BareItems(items)
    ensures var ps := [Prop("rows", List(items))];
            BareProps(ps) && (CleanProps(ps) <==> CleanItems(items))
  {
    var ps := [Prop("rows", List(items))];
    assert BareKey("rows");
    assert CleanProps(ps) <==> Clean(ps[0].value);
  }

  /** The cells of a window that are written show no control character but LF and CR. */
  predicate CleanSheet(s: Sheet)
    requires Fits(s)
  {
    forall i :: 0 <= i < s.rowCount ==> CleanCells(s.style.rows[i][..s.columnCount])
  }

  lemma WindowIsCleanIff(s: Sheet, flash: int32)
    requires Fits(s)
    ensures Bare(SheetJson(s, flash)) && (Clean(SheetJson(s, flash)) <==> CleanSheet(s))
  {
    RowsAreCleanIff(s.style.rows, s.rowCount, s.columnCount);
    ListAsItems(SheetRows(s));
    WindowPropsAreCleanIff(s.style, s.rowCount, s.columnCount, flash, SheetRows(s));
    PropsAsFields(SheetProps(s, flash));
  }

  // ---- The service ----

  lemma ServiceIsCleanIff(js: seq<Json>)
    requires BareList(js)
    ensures Bare(ServiceJson(js)) && (Clean(ServiceJson(js)) <==> CleanList(js))
  {
    ListAsItems(js);
    assert BareKey("type") && BareKey("windows") && NoOtherControl("cea708");
    var ps := ServiceProps(js);
    assert CleanProps(ps) <==> Clean(ps[0].value) && Clean(ps[1].value);
    PropsAsFields(ps);
  }

  lemma ListedAreCleanIff(js: seq<Json>, sheets: seq<Sheet>, order: seq<Pointer>, flash: int32)
    requires ItemsFor(js, sheets, order, flash)
    ensures BareList(js)
    ensures CleanList(js) <==> forall i :: 0 <= i < |order| ==> CleanSheet(sheets[order[i].place])
  {
    forall i | 0 <= i < |js| ensures Bare(js[i]) && (Clean(js[i]) <==> CleanSheet(sheets[order[i].place])) {
      WindowIsCleanIff(sheets[order[i].place], flash);
    }
  }

  /** The text of a service reads back as the service's value: one complete object. */
  lemma ServiceReadsBack(js: seq<Json>, sheets: seq<Sheet>, order: seq<Pointer>, flash: int32)
    requires ItemsFor(js, sheets, order, flash)
    ensures ParseValue(Ser(ServiceJson(js))) == Parsed(ServiceJson(js), "")
  {
    ListedAreCleanIff(js, sheets, order, flash);
    ServiceIsCleanIff(js);
    BareIsPlain(ServiceJson(js));
    SerRoundTrip(ServiceJson(js), "");
    assert Ser(ServiceJson(js)) + "" == Ser(ServiceJson(js));
  }

  /** It is legal JSON exactly when the rows of the listed windows show no control character
      but LF and CR. */
  lemma ServiceIsLegalIff(js: seq<Json>, sheets: seq<Sheet>, order: seq<Pointer>, flash: int32)
    requires ItemsFor(js, sheets, order, flash)
    ensures LegalText(Ser(ServiceJson(js)))
       <==> forall i :: 0 <= i < |order| ==> CleanSheet(sheets[order[i].place])
  {
    ListedAreCleanIff(js, sheets, order, flash);
    ServiceIsCleanIff(js);
    TextIsLegal(ServiceJson(js));
  }

}
