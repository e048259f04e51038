/** The text of a caption service: its visible windows by priority, their rows, and the runs of
    each row, as the writer puts them out. */
module CaptionJson {
  import opened Json
  import opened JsonOutput
  import opened CaptionRow

  // ---- Names ----

  function PenSizeName(v: int): string {
    if v == 0 then "small" else if v == 2 then "large" else "standard"
  }

  function FontStyleName(v: int): string {
    if v == 1 then "mono_serif" else if v == 2 then "prop_serif" else if v == 3 then "mono_sans"
    else if v == 4 then "prop_sans" else if v == 5 then "casual" else if v == 6 then "cursive"
    else if v == 7 then "small_caps" else "default"
  }

  /** A superscript is written as a subscript. */
  function OffsetName(v: int): string {
    if v == 0 || v == 2 then "subscript" else "normal"
  }

  function EdgeName(v: int): string {
    if v == 1 then "raised" else if v == 2 then "depressed" else if v == 3 then "uniform"
    else if v == 4 then "shadow_left" else if v == 5 then "shadow_right" else "none"
  }

  function OpacityName(v: int): string {
    if v == 1 then "flash" else if v == 2 then "translucent" else if v == 3 then "transparent" else "solid"
  }

  // ---- A run ----

  function PenProps(pen: Pen): (ps: seq<Prop>)
    ensures |ps| == 11
  {
    [Prop("pen_size", Str(PenSizeName(pen.penSize))),
     Prop("font_style", Str(FontStyleName(pen.fontStyle))),
     Prop("offset", Str(OffsetName(pen.offset))),
     Prop("italics", Flag(pen.italics)),
     Prop("underline", Flag(pen.underline)),
     Prop("edge_type", Str(EdgeName(pen.edgeType))),
     Prop("edge_color", Num(pen.edgeColor)),
     Prop("fg_color", Num(pen.fgColor)),
     Prop("fg_opacity", Str(OpacityName(pen.fgOpacity))),
     Prop("bg_color", Num(pen.bgColor)),
     Prop("bg_opacity", Str(OpacityName(pen.bgOpacity)))]
  }

  function TextProps(r: Run): (ps: seq<Prop>)
    ensures |ps| == 12
  {
    PenProps(r.pen) + [Prop("data", Str(r.data))]
  }

  function TextJson(r: Run): Json {
    Object(FieldsOf(TextProps(r)))
  }

  method PenShape(pt: Pen, out: Output, ghost o: Outline, ghost data: string) returns (ok: bool)
    requires Right(o) && o.all == PenProps(pt) + [Prop("data", Str(data))] && out.InObject(o, 0)
    modifies out`po, out`left, out`hasProp, out.buf
    ensures out.Valid() && if ok then out.InObject(o, 5) else out.TooLong(o)
  {
    ok := out.StrField("pen_size", PenSizeName(pt.penSize), o, 0);
    if !ok { return; }
    ok := out.StrField("font_style", FontStyleName(pt.fontStyle), o, 1);
    if !ok { return; }
    ok := out.StrField("offset", OffsetName(pt.offset), o, 2);
    if !ok { return; }
    ok := out.BoolField("italics", pt.italics, o, 3);
    if !ok { return; }
    ok := out.BoolField("underline", pt.underline, o, 4);
  }

  method PenEdge(pt: Pen, out: Output, ghost o: Outline, ghost data: string) returns (ok: bool)
    requires Right(o) && o.all == PenProps(pt) + [Prop("data", Str(data))] && out.InObject(o, 5)
    modifies out`po, out`left, out`hasProp, out.buf
    ensures out.Valid() && if ok then out.InObject(o, 7) else out.TooLong(o)
  {
    ok := out.StrField("edge_type", EdgeName(pt.edgeType), o, 5);
    if !ok { return; }
    ok := out.IntField("edge_color", pt.edgeColor, o, 6);
  }

  method PenColors(pt: Pen, out: Output, ghost o: Outline, ghost data: string) returns (ok: bool)
    requires Right(o) && o.all == PenProps(pt) + [Prop("data", Str(data))] && out.InObject(o, 7)
    modifies out`po, out`left, out`hasProp, out.buf
    ensures out.Valid() && if ok then out.InObject(o, 11) else out.TooLong(o)
  {
    ok := out.IntField("fg_color", pt.fgColor, o, 7);
    if !ok { return; }
    ok := out.StrField("fg_opacity", OpacityName(pt.fgOpacity), o, 8);
    if !ok { return; }
    ok := out.IntField("bg_color", pt.bgColor, o, 9);
    if !ok { return; }
    ok := out.StrField("bg_opacity", OpacityName(pt.bgOpacity), o, 10);
  }

  /** Writes a run: the first `len` octets of the row's buffer, terminated there. */
  method TextToJson(buf: array<char>, len: nat, pt: Pen, out: Output) returns (ok: bool)
    requires out.Valid() && len < buf.Length && buf != out.buf
    modifies buf, out`po, out`left, out`hasProp, out.buf
    ensures out.Valid() && out.Emitted(ok, old(out.Text()), old(out.hasProp), TextJson(Run(old(buf[..len]), pt)))
  {
    ghost var data := buf[..len];
    ghost var o: Outline;
    ok, o := out.OpenObject(TextProps(Run(data, pt)));
    if !ok { return; }
    ok := PenShape(pt, out, o, data);
    if !ok { return; }
    ok := PenEdge(pt, out, o, data);
    if !ok { return; }
    ok := PenColors(pt, out, o, data);
    if !ok { return; }
    buf[len] := '\0';
    assert buf[..len] == data;
    ok := out.StrField("data", buf[..len], o, 11);
    if !ok { return; }
    ok := out.CloseObject(o);
  }

  // ---- A row ----

  function TextJsons(runs: seq<Run>): (js: seq<Json>)
    ensures |js| == |runs|
  {
    if runs == [] then [] else TextJsons(runs[..|runs|-1]) + [TextJson(runs[|runs|-1])]
  }

  function RunsText(runs: seq<Run>): string {
    SerItems(ItemsOf(TextJsons(runs)))
  }

  function RowProps(cells: seq<Cell>): (ps: seq<Prop>)
    ensures |ps| == 2
  {
    [Prop("content", List(ItemsOf(TextJsons(Runs(cells))))), Prop("row_start", Num(RowStart(cells)))]
  }

  function RowJson(cells: seq<Cell>): Json {
    Object(FieldsOf(RowProps(cells)))
  }

  lemma OneMoreRun(runs: seq<Run>, r: Run)
    ensures TextJsons(runs + [r]) == TextJsons(runs) + [TextJson(r)]
    ensures RunsText(runs + [r]) == RunsText(runs) + Comma(runs != []) + Ser(TextJson(r))
  {
    assert (runs + [r])[..|runs|] == runs;
    assert (TextJsons(runs) + [TextJson(r)])[..|runs|] == TextJsons(runs);
  }

  lemma {:induction false} EscapeConcat(s: string, t: string)
    ensures |Escape(s + t)| == |Escape(s)| + |Escape(t)|
  {
    if s == "" {
      assert s + t == t;
    } else {
      EscapeConcat(s[1..], t);
      assert (s + t)[1..] == s[1..] + t;
    }
  }

  lemma LastField(ps: seq<Prop>, p: Prop)
    ensures |SerFields(FieldsOf(ps + [p]))|
      == |SerFields(FieldsOf(ps))| + |Comma(ps != [])| + |Key(p.key)| + |Ser(p.value)|
  {
    assert (ps + [p])[..|ps|] == ps;
  }

  /** The properties of a run before its data do not depend on the data. */
  lemma RunGrows(data: string, more: string, pen: Pen)
    ensures |Ser(TextJson(Run(data, pen)))| <= |Ser(TextJson(Run(data + more, pen)))|
  {
    EscapeConcat(data, more);
    LastField(PenProps(pen), Prop("data", Str(data)));
    LastField(PenProps(pen), Prop("data", Str(data + more)));
  }

  lemma LongerRun(front: seq<Run>, last: Run, more: string)
    ensures |RunsText(front + [last])| <= |RunsText(front + [Run(last.data + more, last.pen)])|
  {
    OneMoreRun(front, last);
    OneMoreRun(front, Run(last.data + more, last.pen));
    RunGrows(last.data, more, last.pen);
  }

  lemma AnotherRun(runs: seq<Run>, r: Run)
    ensures |RunsText(runs)| <= |RunsText(runs + [r])|
  {
    OneMoreRun(runs, r);
  }

  lemma CellGrows(runs: seq<Run>, c: Cell)
    ensures |RunsText(runs)| <= |RunsText(AddCell(runs, c))|
  {
    if c == Empty {
    } else if runs == [] || runs[|runs|-1].pen != c.pen {
      AnotherRun(runs, Run(Utf8(Shown(c)), c.pen));
    } else {
      LongerRun(runs[..|runs|-1], runs[|runs|-1], Utf8(Shown(c)));
      assert runs == runs[..|runs|-1] + [runs[|runs|-1]];
    }
  }

  /** The text of a row's runs only gets longer with more cells. */
  lemma {:induction false} RowGrows(cells: seq<Cell>, n: nat)
    requires n <= |cells|
    ensures |RunsText(Runs(cells[..n]))| <= |RunsText(Runs(cells))|
  {
    if n < |cells| {
      var butLast := cells[..|cells|-1];
      RowGrows(butLast, n);
      assert butLast[..n] == cells[..n];
      CellGrows(Runs(butLast), cells[|cells|-1]);
    } else {
      assert cells[..n] == cells;
    }
  }

  /** Puts a character's octets behind the others in the row's buffer. */
  method PutUc(buf: array<char>, len: nat, uc: unicode) returns (next: nat)
    requires len + 3 <= buf.Length
    modifies buf
    ensures next == len + |Utf8(uc)|
    ensures buf[..next] == old(buf[..len]) + Utf8(uc)
  {
    if uc <= 0x7F {
      buf[len] := uc as char;
      next := len + 1;
    } else if uc <= 0x7FF {
      buf[len] := (uc / 64 + 0xC0) as char;
      buf[len + 1] := (uc % 64 + 0x80) as char;
      next := len + 2;
    } else {
      buf[len] := (uc / 4096 + 0xE0) as char;
      buf[len + 1] := (uc / 64 % 64 + 0x80) as char;
      buf[len + 2] := (uc % 64 + 0x80) as char;
      next := len + 3;
    }
  }

  /** The runs of the cells read so far: those written, and one in the buffer. */
  ghost predicate Pending(data: string, pt: Pen, done: seq<Run>, runs: seq<Run>) {
    if data == "" then done == [] && runs == [] else runs == done + [Run(data, pt)]
  }

  lemma PendingAdd(data: string, pt: Pen, done: seq<Run>, runs: seq<Run>, c: Cell)
    requires c.Cell? && Pending(data, pt, done, runs)
    ensures pt == c.pen || data == "" ==> Pending(data + Utf8(Shown(c)), c.pen, done, AddCell(runs, c))
    ensures pt != c.pen && data != "" ==> Pending(Utf8(Shown(c)), c.pen, runs, AddCell(runs, c))
  {
    if data != "" {
      assert runs[|runs|-1] == Run(data, pt) && runs[..|runs|-1] == done;
    } else {
      assert data + Utf8(Shown(c)) == Utf8(Shown(c));
    }
  }

  /** The run in the buffer is complete: it is written, as an item of the open list. */
  method FlushRun(buf: array<char>, len: nat, pt: Pen, out: Output, ghost list: string, ghost done: seq<Run>)
    returns (ok: bool)
    requires 0 < len < buf.Length && buf != out.buf && out.InList(list, TextJsons(done))
    modifies buf, out`po, out`left, out`hasProp, out.buf
    ensures out.Valid() && ok == (|list| + 1 + |RunsText(done + [Run(old(buf[..len]), pt)])| < out.buf.Length)
    ensures ok ==> out.InList(list, TextJsons(done + [Run(old(buf[..len]), pt)]))
  {
    ghost var r := Run(buf[..len], pt);
    ItemAdded(list, TextJsons(done), TextJson(r));
    OneMoreRun(done, r);
    ok := TextToJson(buf, len, pt, out);
  }

  /** Reads a cell that is not empty: when the pen changes, the run in the buffer is written. */
  method RowCell(c: Cell, buf: array<char>, len: nat, pt: Pen, out: Output, ghost list: string, ghost done: seq<Run>,
                 ghost runs: seq<Run>)
    returns (ok: bool, next: nat, pen: Pen, ghost done': seq<Run>)
    requires c.Cell? && len + 3 < buf.Length && buf != out.buf
    requires out.InList(list, TextJsons(done)) && Pending(buf[..len], pt, done, runs)
    modifies buf, out`po, out`left, out`hasProp, out.buf
    ensures out.Valid()
    ensures ok ==> next <= len + 3 && next < buf.Length && Pending(buf[..next], pen, done', AddCell(runs, c))
    ensures ok ==> out.InList(list, TextJsons(done'))
    ensures !ok ==> |list| + 1 + |RunsText(runs)| >= out.buf.Length
  {
    PendingAdd(buf[..len], pt, done, runs, c);
    next, pen, done', ok := len, pt, done, true;
    if pt != c.pen {
      if len > 0 {
        ok := FlushRun(buf, len, pt, out, list, done);
        if !ok { return; }
        next := 0;
        done' := runs;
      }
      pen := c.pen;
    }
    next := PutUc(buf, next, Shown(c));
    assert pt != c.pen && len > 0 ==> buf[..next] == Utf8(Shown(c));
  }

  /** The columns of the decoder's windows. */
  const MAX_COLUMNS: nat := 84

  lemma RowStartStep(cells: seq<Cell>, col: nat)
    requires col < |cells|
    ensures RowStart(cells[..col + 1]) ==
            if RowStart(cells[..col]) == col && cells[col] == Empty then col + 1 else RowStart(cells[..col])
  {
    var m, n := RowStart(cells[..col]), RowStart(cells[..col + 1]);
    assert m < col ==> cells[..col + 1][m] == cells[..col][m];
    assert n < col ==> cells[..col][n] == cells[..col + 1][n];
    assert cells[..col + 1][col] == cells[col];
    assert forall i :: 0 <= i < n && i < col ==> cells[..col][i] == cells[..col + 1][i];
    assert forall i :: 0 <= i < m ==> cells[..col + 1][i] == cells[..col][i];
  }

  lemma RunsStep(cells: seq<Cell>, col: nat)
    requires col < |cells|
    ensures Runs(cells[..col + 1]) == AddCell(Runs(cells[..col]), cells[col])
  {
    assert cells[..col + 1][..col] == cells[..col];
  }

  /** Reads the cells of a row and writes its runs. */
  method RowCells(cells: seq<Cell>, pt: Pen, buf: array<char>, out: Output, ghost list: string)
    returns (ok: bool, pen: Pen, start: nat)
    requires |cells| <= MAX_COLUMNS && buf.Length == 1024 && buf != out.buf && out.InList(list, [])
    modifies buf, out`po, out`left, out`hasProp, out.buf
    ensures out.Valid() && start <= |cells|
    ensures ok ==> out.InList(list, TextJsons(Runs(cells))) && start == RowStart(cells)
    ensures !ok ==> |list| + 1 + |RunsText(Runs(cells))| >= out.buf.Length
  {
    var len: nat, continuance := 0, false;
    pen, start := pt, 0;
    ghost var done: seq<Run> := [];
    for col := 0 to |cells|
      invariant start == RowStart(cells[..col]) <= col && continuance == (start < col)
      invariant len <= 3 * col < buf.Length && Pending(buf[..len], pen, done, Runs(cells[..col]))
      invariant out.InList(list, TextJsons(done))
    {
      RowStartStep(cells, col);
      RunsStep(cells, col);
      var c := cells[col];
      if c == Empty && !continuance {
        start := start + 1;
      } else {
        continuance := true;
      }
      if c.Cell? {
        RowGrows(cells, col);
        ok, len, pen, done := RowCell(c, buf, len, pen, out, list, done, Runs(cells[..col]));
        if !ok { return; }
      }
    }
    assert cells[..|cells|] == cells;
    if len > 0 {
      ok := FlushRun(buf, len, pen, out, list, done);
    } else {
      ok := true;
    }
  }

  method RowContent(cells: seq<Cell>, pt: Pen, out: Output, ghost o: Outline) returns (ok: bool, pen: Pen, start: nat)
    requires |cells| <= MAX_COLUMNS && Right(o) && o.all == RowProps(cells) && out.InObject(o, 0)
    modifies out`po, out`left, out`hasProp, out.buf
    ensures out.Valid() && start <= |cells|
    ensures if ok then out.InObject(o, 1) && start == RowStart(cells) else out.TooLong(o)
  {
    pen, start := pt, 0;
    var buf := new char[1024];
    ListFits(o, 0);
    ok := out.OpenListField("content", o, 0);
    if !ok { return; }
    ok, pen, start := RowCells(cells, pt, buf, out, ListStart(o, 0));
    if !ok { return; }
    ok := out.CloseListField(o, 0, TextJsons(Runs(cells)));
  }

  /** Writes a row; `pt` goes from row to row, but what is written does not depend on it. */
  method RowToJson(cells: seq<Cell>, pt: Pen, out: Output) returns (ok: bool, pen: Pen)
    requires |cells| <= MAX_COLUMNS && out.Valid()
    modifies out`po, out`left, out`hasProp, out.buf
    ensures out.Valid() && out.Emitted(ok, old(out.Text()), old(out.hasProp), RowJson(cells))
  {
    pen := pt;
    ghost var o: Outline;
    ok, o := out.OpenObject(RowProps(cells));
    if !ok { return; }
    var start: nat;
    ok, pen, start := RowContent(cells, pt, out, o);
    if !ok { return; }
    out.OPropEnd();
    ok := out.IntField("row_start", start, o, 1);
    if !ok { return; }
    ok := out.CloseObject(o);
  }

}
