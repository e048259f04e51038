/** Rows of a caption window: cells with a character and a pen each, encoded in UTF-8 and split
    into runs of one pen. */
module CaptionRow {

  type unicode = x: int | 0 <= x <= 0xFFFF
  type color = x: int | 0 <= x < 256

  /** A pen's style; the enumerations are their numbers in the decoder. */
  datatype Pen = Pen(penSize: int, fontStyle: int, offset: int, italics: bool, underline: bool, edgeType: int,
                     fgColor: color, fgOpacity: int, bgColor: color, bgOpacity: int, edgeColor: color,
                     fgFlash: bool, bgFlash: bool)

  /** A place in a row: nothing, or a caption code with its Unicode character, 0 when it has none. */
  datatype Cell = Empty | Cell(uc: unicode, pen: Pen)

  /** The character that is shown. */
  function Shown(c: Cell): (uc: unicode)
    requires c.Cell?
    ensures uc > 0
  {
    if c.uc == 0 then 0x20 else c.uc
  }

  // ---- UTF-8 ----

  /** The encoding of section 3 of RFC 3629, for characters of up to 16 bits. */
  function Utf8(uc: unicode): (s: string)
    ensures 1 <= |s| <= 3
    ensures uc > 0 ==> forall i :: 0 <= i < |s| ==> s[i] != '\0'
  {
    if uc <= 0x7F then [uc as char]
    else if uc <= 0x7FF then [(uc / 64 + 0xC0) as char, (uc % 64 + 0x80) as char]
    else [(uc / 4096 + 0xE0) as char, (uc / 64 % 64 + 0x80) as char, (uc % 64 + 0x80) as char]
  }

  datatype Decoded = Nothing | Decoded(uc: nat, length: nat)

  /** The first character of some octets: as many octets as the leading one tells. */
  function DecodeFirst(s: string): (d: Decoded)
    ensures d.Decoded? ==> 1 <= d.length <= |s|
  {
    if s == "" then Nothing
    else
      var a := s[0] as int;
      if a < 0x80 then Decoded(a, 1)
      else if 0xC0 <= a < 0xE0 && |s| >= 2 && 0x80 <= s[1] as int < 0xC0 then
        Decoded((a - 0xC0) * 64 + (s[1] as int - 0x80), 2)
      else if 0xE0 <= a < 0xF0 && |s| >= 3 && 0x80 <= s[1] as int < 0xC0 && 0x80 <= s[2] as int < 0xC0 then
        Decoded((a - 0xE0) * 4096 + (s[1] as int - 0x80) * 64 + (s[2] as int - 0x80), 3)
      else Nothing
  }

  lemma DecodeOne(uc: unicode, rest: string)
    ensures DecodeFirst(Utf8(uc) + rest) == Decoded(uc, |Utf8(uc)|)
  {
    var s := Utf8(uc) + rest;
    assert s[..|Utf8(uc)|] == Utf8(uc);
    if uc > 0x7FF {
      assert s[0] == Utf8(uc)[0] && s[1] == Utf8(uc)[1] && s[2] == Utf8(uc)[2];
    } else if uc > 0x7F {
      assert s[0] == Utf8(uc)[0] && s[1] == Utf8(uc)[1];
    }
  }

  function DecodeAll(s: string): seq<nat> {
    var d := DecodeFirst(s);
    if d == Nothing then [] else [d.uc] + DecodeAll(s[d.length..])
  }

  /** The characters of the cells that are not empty, in order. */
  function ShownAll(cells: seq<Cell>): seq<nat> {
    if cells == [] then []
    else (if cells[0].Cell? then [Shown(cells[0])] else []) + ShownAll(cells[1..])
  }

  /** Their encoding. */
  function Encoded(cells: seq<Cell>): string {
    if cells == [] then ""
    else (if cells[0].Cell? then Utf8(Shown(cells[0])) else "") + Encoded(cells[1..])
  }

  /** The encoding of a row reads back as its characters. */
  lemma {:induction false} DecodeEncoded(cells: seq<Cell>)
    ensures DecodeAll(Encoded(cells)) == ShownAll(cells)
  {
    if cells == [] {
    } else {
      DecodeEncoded(cells[1..]);
      var rest := Encoded(cells[1..]);
      if cells[0].Cell? {
        var u := Utf8(Shown(cells[0]));
        DecodeOne(Shown(cells[0]), rest);
        assert (u + rest)[|u|..] == rest;
      } else {
        assert "" + rest == rest && [] + ShownAll(cells[1..]) == ShownAll(cells[1..]);
      }
    }
  }

  // ---- Runs ----

  /** Octets that are drawn with one pen. */
  datatype Run = Run(data: string, pen: Pen)

  function AddCell(runs: seq<Run>, c: Cell): seq<Run> {
    if c == Empty then runs
    else if runs == [] || runs[|runs|-1].pen != c.pen then runs + [Run(Utf8(Shown(c)), c.pen)]
    else runs[..|runs|-1] + [Run(runs[|runs|-1].data + Utf8(Shown(c)), c.pen)]
  }

  function Runs(cells: seq<Cell>): seq<Run> {
    if cells == [] then [] else AddCell(Runs(cells[..|cells|-1]), cells[|cells|-1])
  }

  /** Each octet with its pen. */
  function Painted(s: string, pen: Pen): (p: seq<(char, Pen)>)
    ensures |p| == |s|
  {
    seq(|s|, i requires 0 <= i < |s| => (s[i], pen))
  }

  function PaintedRuns(runs: seq<Run>): seq<(char, Pen)> {
    if runs == [] then []
    else PaintedRuns(runs[..|runs|-1]) + Painted(runs[|runs|-1].data, runs[|runs|-1].pen)
  }

  function PaintedCells(cells: seq<Cell>): seq<(char, Pen)> {
    if cells == [] then []
    else
      var c := cells[|cells|-1];
      PaintedCells(cells[..|cells|-1]) + if c.Cell? then Painted(Utf8(Shown(c)), c.pen) else []
  }

  lemma AddCellPaints(runs: seq<Run>, c: Cell)
    requires c.Cell?
    ensures PaintedRuns(AddCell(runs, c)) == PaintedRuns(runs) + Painted(Utf8(Shown(c)), c.pen)
  {
    var u := Utf8(Shown(c));
    if runs == [] || runs[|runs|-1].pen != c.pen {
      assert (runs + [Run(u, c.pen)])[..|runs|] == runs;
    } else {
      var last := runs[|runs|-1];
      var front := runs[..|runs|-1];
      assert AddCell(runs, c)[..|runs|-1] == front;
      assert Painted(last.data + u, c.pen) == Painted(last.data, c.pen) + Painted(u, c.pen);
      assert PaintedRuns(AddCell(runs, c)) == PaintedRuns(front) + Painted(last.data + u, c.pen);
      assert PaintedRuns(runs) == PaintedRuns(front) + Painted(last.data, c.pen);
    }
  }

  /** The runs give each cell's octets with the cell's own pen, in order. */
  lemma {:induction false} RunsPaintTheCells(cells: seq<Cell>)
    ensures PaintedRuns(Runs(cells)) == PaintedCells(cells)
  {
    if cells != [] {
      RunsPaintTheCells(cells[..|cells|-1]);
      if cells[|cells|-1].Cell? {
        AddCellPaints(Runs(cells[..|cells|-1]), cells[|cells|-1]);
      }
    }
  }

  function Octets(p: seq<(char, Pen)>): (s: string)
    ensures |s| == |p|
  {
    seq(|p|, i requires 0 <= i < |p| => p[i].0)
  }

  lemma {:induction false} EncodedAppend(cells: seq<Cell>, c: Cell)
    ensures Encoded(cells + [c]) == Encoded(cells) + if c.Cell? then Utf8(Shown(c)) else ""
  {
    if cells == [] {
      assert [] + [c] == [c] && [c][1..] == [];
      assert Encoded([c]) == (if c.Cell? then Utf8(Shown(c)) else "") + Encoded([]);
    } else {
      assert (cells + [c])[1..] == cells[1..] + [c];
      EncodedAppend(cells[1..], c);
    }
  }

  lemma OctetsAppend(p: seq<(char, Pen)>, s: string, pen: Pen)
    ensures Octets(p + Painted(s, pen)) == Octets(p) + s
  {
  }

  lemma {:induction false} PaintedAreEncoded(cells: seq<Cell>)
    ensures Octets(PaintedCells(cells)) == Encoded(cells)
  {
    if cells != [] {
      var front, c := cells[..|cells|-1], cells[|cells|-1];
      PaintedAreEncoded(front);
      EncodedAppend(front, c);
      assert cells == front + [c];
      if c.Cell? {
        OctetsAppend(PaintedCells(front), Utf8(Shown(c)), c.pen);
      } else {
        assert PaintedCells(front) + [] == PaintedCells(front) && Encoded(front) + "" == Encoded(front);
      }
    }
  }

  /** Without the pens, the octets of the runs are the encoding of the row. */
  lemma RunsEncodeTheRow(cells: seq<Cell>)
    ensures Octets(PaintedRuns(Runs(cells))) == Encoded(cells)
  {
    RunsPaintTheCells(cells);
    PaintedAreEncoded(cells);
  }

  /** Runs are not empty, and the pen changes between them. */
  predicate ProperRuns(runs: seq<Run>) {
    && (forall i :: 0 <= i < |runs| ==>
          runs[i].data != "" && forall k :: 0 <= k < |runs[i].data| ==> runs[i].data[k] != '\0')
    && (forall i :: 0 <= i < |runs| - 1 ==> runs[i].pen != runs[i + 1].pen)
  }

  lemma {:induction false} RunsAreProper(cells: seq<Cell>)
    ensures ProperRuns(Runs(cells))
  {
    if cells != [] {
      RunsAreProper(cells[..|cells|-1]);
    }
  }

  /** The number of empty cells before the first that is not. */
  function RowStart(cells: seq<Cell>): (n: nat)
    ensures n <= |cells|
    ensures forall i :: 0 <= i < n ==> cells[i] == Empty
    ensures n < |cells| ==> cells[n].Cell?
  {
    if cells == [] || cells[0].Cell? then 0 else 1 + RowStart(cells[1..])
  }

  /** No run is longer than the octets of the row. */
  lemma {:induction false} RunsAreShort(cells: seq<Cell>)
    ensures forall i :: 0 <= i < |Runs(cells)| ==> |Runs(cells)[i].data| <= 3 * |cells|
  {
    if cells != [] {
      RunsAreShort(cells[..|cells|-1]);
    }
  }

}
