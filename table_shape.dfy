/** Properties of the rendered table (scriptit/shape.py:134-157, 205-206):
    every line it appends is `table_width` characters and a newline, and,
    when no cell holds a line break, that newline is the line's only one;
    the column separators sit at the same offsets on every cell line, blank
    cells fill short columns, and the rules appear exactly where `header`
    and `row_dividers` ask. */
module TableShape {
  import opened Text
  import opened TableRender

  /** Every subline of column `c` fits in `cw[c] - 2` characters, and every
      width leaves room for the two-character cell prefix. */
  predicate CellsFit(wrapped: seq<seq<seq<string>>>, cw: seq<int>)
    requires |cw| == |wrapped|
  {
    (forall c :: 0 <= c < |cw| ==> cw[c] >= 2) &&
    forall c, r, k :: 0 <= c < |wrapped| && 0 <= r < |wrapped[c]| && 0 <= k < |wrapped[c][r]| ==>
      |wrapped[c][r][k]| <= cw[c] - 2
  }

  /** Every value shown on subline `i` of a row fits its column. */
  predicate LineFits(entries: seq<seq<string>>, cw: seq<int>, i: nat)
    requires |entries| == |cw|
  {
    forall c :: 0 <= c < |cw| ==> |Cell(entries[c], i)| <= cw[c] - 2
  }

  /** Every line has `tw` characters and then a newline. */
  predicate Rectangular(ls: seq<string>, tw: nat)
  {
    forall k :: 0 <= k < |ls| ==> |ls[k]| == tw + 1 && ls[k][tw] == '\n'
  }

  lemma SumPrefix(cw: seq<int>, c: nat)
    requires c < |cw|
    ensures Sum(cw[..c + 1]) == Sum(cw[..c]) + cw[c]
  {
    assert cw[..c + 1][..c] == cw[..c];
  }

  lemma {:induction false} SumPrefixMono(cw: seq<int>, a: nat, b: nat)
    requires a <= b <= |cw|
    requires forall c :: 0 <= c < |cw| ==> cw[c] >= 0
    ensures Sum(cw[..a]) <= Sum(cw[..b])
    decreases b
  {
    if a < b {
      SumPrefixMono(cw, a, b - 1);
      SumPrefix(cw, b - 1);
    }
  }

  /** One cell segment: `"| "`, the value, then spaces up to the column width. */
  lemma SegmentShape(val: string, w: int)
    requires |val| <= w - 2
    ensures var s := Segment(val, w);
      |s| == w && s[0] == '|' && s[1] == ' ' && s[2..2 + |val|] == val &&
      forall j :: 2 + |val| <= j < w ==> s[j] == ' '
  {
    var pad := Fill(' ', w - |val| - 2);
    var s := Segment(val, w);
    assert s == "| " + val + pad;
    assert forall j :: 2 + |val| <= j < w ==> s[j] == pad[j - 2 - |val|];
  }

  /** Where segment `c` starts on a cell line: the widths of the columns before it. */
  function Offset(cw: seq<int>, c: nat): int
    requires c <= |cw|
  {
    if c == 0 then 0 else Offset(cw, c - 1) + cw[c - 1]
  }

  lemma {:induction false} OffsetIsSum(cw: seq<int>, c: nat)
    requires c <= |cw|
    ensures Offset(cw, c) == Sum(cw[..c])
  {
    if c > 0 {
      OffsetIsSum(cw, c - 1);
      SumPrefix(cw, c - 1);
    }
  }

  /** The first `n` segments take `Offset(cw, n)` characters. */
  lemma {:induction false} SegmentsLength(entries: seq<seq<string>>, cw: seq<int>, i: nat, n: nat)
    requires n <= |entries| == |cw|
    requires LineFits(entries, cw, i)
    ensures |Segments(entries, cw, i, n)| == Offset(cw, n)
  {
    if n > 0 {
      SegmentsLength(entries, cw, i, n - 1);
      SegmentShape(Cell(entries[n - 1], i), cw[n - 1]);
    }
  }

  /** Fewer segments form a prefix of more. */
  lemma {:induction false} SegmentsPrefix(entries: seq<seq<string>>, cw: seq<int>, i: nat, m: nat, n: nat)
    requires m <= n <= |entries| == |cw|
    ensures var a := Segments(entries, cw, i, m);
      var b := Segments(entries, cw, i, n);
      |a| <= |b| && b[..|a|] == a
    decreases n
  {
    if m < n {
      SegmentsPrefix(entries, cw, i, m, n - 1);
      var a := Segments(entries, cw, i, m);
      var c := Segments(entries, cw, i, n - 1);
      var b := Segments(entries, cw, i, n);
      assert b == c + Segment(Cell(entries[n - 1], i), cw[n - 1]);
      assert b[..|c|] == c;
      assert b[..|a|] == c[..|a|];
    }
  }

  /** A piece of a prefix sits in the whole where it sits in the prefix. */
  lemma PieceOfPrefix(s: string, pre: string, seg: string)
    requires |pre + seg| <= |s| && s[..|pre + seg|] == pre + seg
    ensures s[|pre|..|pre| + |seg|] == seg
  {
    var t := pre + seg;
    assert s[|pre|..|pre| + |seg|] == s[..|t|][|pre|..];
  }

  /** Segment `c` of a line occupies `cw[c]` characters from `Offset(cw, c)`. */
  lemma SegmentPlaced(entries: seq<seq<string>>, cw: seq<int>, i: nat, c: nat)
    requires c < |entries| == |cw|
    requires LineFits(entries, cw, i)
    ensures var s := Segments(entries, cw, i, |entries|);
      0 <= Offset(cw, c) && Offset(cw, c) + cw[c] <= |s| &&
      s[Offset(cw, c)..Offset(cw, c) + cw[c]] == Segment(Cell(entries[c], i), cw[c])
  {
    var s := Segments(entries, cw, i, |entries|);
    var pre := Segments(entries, cw, i, c);
    var seg := Segment(Cell(entries[c], i), cw[c]);
    assert Segments(entries, cw, i, c + 1) == pre + seg;
    SegmentsLength(entries, cw, i, c);
    SegmentShape(Cell(entries[c], i), cw[c]);
    SegmentsPrefix(entries, cw, i, c + 1, |entries|);
    PieceOfPrefix(s, pre, seg);
  }

  /** Line `l` shows value `v` in a segment of width `w` at offset `o`:
      `"| "`, the value, then spaces up to the segment's end. */
  predicate Shows(l: string, o: int, v: string, w: int)
  {
    0 <= o && o + 2 + |v| <= o + w <= |l| &&
    l[o] == '|' && l[o + 1] == ' ' && l[o + 2..o + 2 + |v|] == v &&
    forall j :: o + 2 + |v| <= j < o + w ==> l[j] == ' '
  }

  /** A cell line, column by column: segment `c` starts at `Offset(cw, c)`
      and shows its value padded to its width; the closing `|` sits at
      `Sum(cw)`, followed by the newline. The offsets depend only on the
      widths, so every cell line of the table has its separators in the
      same columns. */
  lemma ColumnAligned(entries: seq<seq<string>>, cw: seq<int>, i: nat)
    requires |entries| == |cw|
    requires LineFits(entries, cw, i)
    ensures var l := CellLine(entries, cw, i);
      |l| == Sum(cw) + 2 && l[Sum(cw)] == '|' && l[Sum(cw) + 1] == '\n'
    ensures forall c :: 0 <= c < |cw| ==>
      Offset(cw, c) + cw[c] <= Sum(cw) &&
      Shows(CellLine(entries, cw, i), Offset(cw, c), Cell(entries[c], i), cw[c])
  {
    var s := Segments(entries, cw, i, |entries|);
    var l := CellLine(entries, cw, i);
    SegmentsLength(entries, cw, i, |entries|);
    OffsetIsSum(cw, |cw|);
    TakeAll(cw);
    assert l == s + "|\n";
    forall c | 0 <= c < |cw|
      ensures Offset(cw, c) + cw[c] <= Sum(cw)
      ensures Shows(l, Offset(cw, c), Cell(entries[c], i), cw[c])
    {
      SegmentPlaced(entries, cw, i, c);
      SegmentAt(s, "|\n", Offset(cw, c), Cell(entries[c], i), cw[c]);
    }
  }

  /** A segment found at offset `o` of `s` is shown at `o` in `s + t`. */
  lemma SegmentAt(s: string, t: string, o: int, v: string, w: int)
    requires 0 <= o && o + w <= |s| && |v| <= w - 2
    requires s[o..o + w] == Segment(v, w)
    ensures Shows(s + t, o, v, w)
  {
    var l := s + t;
    var seg := Segment(v, w);
    SegmentShape(v, w);
    assert l[o..o + w] == seg;
    forall j | 0 <= j < |v|
      ensures l[o + 2 + j] == v[j]
    {
      assert l[o + 2 + j] == seg[2 + j];
    }
    forall j | o + 2 + |v| <= j < o + w
      ensures l[j] == ' '
    {
      assert l[j] == seg[j - o];
    }
  }

  /** What a cell line shows in column `c` of row `r`: subline `i` of the
      entry, or blank where the entry has fewer sublines or the column has
      fewer entries. */
  lemma RowCells(wrapped: seq<seq<seq<string>>>, r: nat, c: nat, i: nat)
    requires c < |wrapped|
    ensures Cell(RowEntries(wrapped, r)[c], i) ==
      if r < |wrapped[c]| && i < |wrapped[c][r]| then wrapped[c][r][i] else ""
  {
  }

  /** A row is as tall as its tallest cell, and at least one line when
      every entry has a subline. */
  lemma RowHeight(wrapped: seq<seq<seq<string>>>, cw: seq<int>, r: nat)
    requires |cw| == |wrapped|
    ensures forall c :: 0 <= c < |wrapped| && r < |wrapped[c]| ==>
      |wrapped[c][r]| <= |RowLines(RowEntries(wrapped, r), cw)|
    ensures |wrapped| > 0 && (forall c :: 0 <= c < |wrapped| && r < |wrapped[c]| ==> wrapped[c][r] != []) ==>
      |RowLines(RowEntries(wrapped, r), cw)| >= 1
  {
    var es := RowEntries(wrapped, r);
    assert forall c :: 0 <= c < |wrapped| && r < |wrapped[c]| ==> es[c] == wrapped[c][r];
    if |wrapped| > 0 && (forall c :: 0 <= c < |wrapped| && r < |wrapped[c]| ==> wrapped[c][r] != []) {
      assert |es[0]| <= MaxCount(es);
    }
  }

  /** Fitting cells give fitting lines in every row. */
  lemma RowFits(wrapped: seq<seq<seq<string>>>, cw: seq<int>, r: nat, i: nat)
    requires |cw| == |wrapped| && CellsFit(wrapped, cw)
    ensures LineFits(RowEntries(wrapped, r), cw, i)
  {
    forall c | 0 <= c < |cw|
      ensures |Cell(RowEntries(wrapped, r)[c], i)| <= cw[c] - 2
    {
      RowCells(wrapped, r, c, i);
    }
  }

  /** Cell lines always start with `|`, and with `"| "` when there is a column. */
  lemma {:induction false} LineStart(entries: seq<seq<string>>, cw: seq<int>, i: nat, n: nat)
    requires n <= |entries| == |cw|
    ensures var s := Segments(entries, cw, i, n);
      n > 0 ==> |s| >= 2 && s[0] == '|' && s[1] == ' '
  {
    if n > 1 {
      LineStart(entries, cw, i, n - 1);
    } else if n == 1 {
      assert Segments(entries, cw, i, 0) == "";
    }
  }

  lemma CellLineStart(entries: seq<seq<string>>, cw: seq<int>, i: nat)
    requires |entries| == |cw|
    ensures var l := CellLine(entries, cw, i);
      |l| >= 2 && l[0] == '|' && (|cw| > 0 ==> l[1] == ' ') && (|cw| == 0 ==> |l| == 2)
  {
    LineStart(entries, cw, i, |entries|);
  }

  /** Every row block of a fitting table is rectangular. */
  lemma RowRect(wrapped: seq<seq<seq<string>>>, cw: seq<int>, tw: nat, r: nat)
    requires |cw| == |wrapped| && CellsFit(wrapped, cw) && Sum(cw) == tw - 1
    ensures Rectangular(RowLines(RowEntries(wrapped, r), cw), tw)
  {
    var es := RowEntries(wrapped, r);
    forall i | 0 <= i < MaxCount(es)
      ensures |CellLine(es, cw, i)| == tw + 1 && CellLine(es, cw, i)[tw] == '\n'
    {
      RowFits(wrapped, cw, r, i);
      ColumnAligned(es, cw, i);
    }
  }

  lemma RectAppend(a: seq<string>, b: seq<string>, tw: nat)
    requires Rectangular(a, tw) && Rectangular(b, tw)
    ensures Rectangular(a + b, tw)
  {
    assert forall k :: |a| <= k < |a| + |b| ==> (a + b)[k] == b[k - |a|];
  }

  lemma {:induction false} BodyRect(blocks: seq<seq<string>>, tw: nat, header: bool, rowDividers: bool, n: nat)
    requires n <= |blocks| && tw >= 2
    requires forall r :: 0 <= r < |blocks| ==> Rectangular(blocks[r], tw)
    ensures Rectangular(BodyLines(blocks, tw, header, rowDividers, n), tw)
  {
    if n > 0 {
      BodyRect(blocks, tw, header, rowDividers, n - 1);
      var a := BodyLines(blocks, tw, header, rowDividers, n - 1);
      var d := Divider(n - 1, |blocks|, tw, header, rowDividers);
      assert Rectangular(d, tw);
      RectAppend(a, blocks[n - 1], tw);
      RectAppend(a + blocks[n - 1], d, tw);
    }
  }

  /** The table is a rectangle: the top border, every cell line, every rule
      and the closing border have exactly `table_width` characters before
      their newline, when the widths add up to `table_width - 1` and every
      subline fits its column. */
  lemma TableRectangle(wrapped: seq<seq<seq<string>>>, cw: seq<int>, tw: nat, header: bool, rowDividers: bool)
    requires |cw| == |wrapped| && CellsFit(wrapped, cw) && Sum(cw) == tw - 1 && tw >= 2
    ensures Rectangular(TableLines(wrapped, cw, tw, header, rowDividers), tw)
  {
    var blocks := RowBlocks(wrapped, cw);
    forall r | 0 <= r < |blocks|
      ensures Rectangular(blocks[r], tw)
    {
      RowRect(wrapped, cw, tw, r);
    }
    BodyRect(blocks, tw, header, rowDividers, |blocks|);
    RectAppend([Border(tw)], BodyLines(blocks, tw, header, rowDividers, |blocks|), tw);
  }

  /** No line break in line `l` before its last character. */
  predicate LineUnbroken(l: string)
  {
    forall j :: 0 <= j < |l| - 1 ==> l[j] != '\n'
  }

  /** Every line of `ls` ends at its only line break. */
  predicate Unbroken(ls: seq<string>)
  {
    forall k :: 0 <= k < |ls| ==> LineUnbroken(ls[k])
  }

  /** No subline of any cell holds a line break. */
  predicate CellsUnbroken(wrapped: seq<seq<seq<string>>>)
  {
    forall c, r, k :: 0 <= c < |wrapped| && 0 <= r < |wrapped[c]| && 0 <= k < |wrapped[c][r]| ==>
      '\n' !in wrapped[c][r][k]
  }

  /** A rule drawn with characters other than a line break breaks only at its end. */
  lemma HLineUnbroken(tw: int, ch: char, edge: char)
    requires ch != '\n' && edge != '\n'
    ensures LineUnbroken(MakeHLine(tw, ch, edge))
  {
  }

  /** Segments of values without a line break hold no line break. */
  lemma {:induction false} SegmentsUnbroken(entries: seq<seq<string>>, cw: seq<int>, i: nat, n: nat)
    requires n <= |entries| == |cw|
    requires forall c :: 0 <= c < |entries| ==> '\n' !in Cell(entries[c], i)
    ensures '\n' !in Segments(entries, cw, i, n)
  {
    if n > 0 {
      SegmentsUnbroken(entries, cw, i, n - 1);
      var v := Cell(entries[n - 1], i);
      var pad := Fill(' ', cw[n - 1] - |v| - 2);
      assert '\n' !in pad;
      assert Segment(v, cw[n - 1]) == "| " + v + pad;
    }
  }

  /** A row of cells without line breaks: each of its lines breaks only at its end. */
  lemma RowUnbroken(wrapped: seq<seq<seq<string>>>, cw: seq<int>, r: nat)
    requires |cw| == |wrapped| && CellsUnbroken(wrapped)
    ensures Unbroken(RowLines(RowEntries(wrapped, r), cw))
  {
    var es := RowEntries(wrapped, r);
    forall i | 0 <= i < MaxCount(es)
      ensures LineUnbroken(CellLine(es, cw, i))
    {
      forall c | 0 <= c < |es|
        ensures '\n' !in Cell(es[c], i)
      {
        RowCells(wrapped, r, c, i);
      }
      SegmentsUnbroken(es, cw, i, |es|);
      var s := Segments(es, cw, i, |es|);
      assert CellLine(es, cw, i) == s + "|\n";
      assert forall j :: 0 <= j < |s| ==> (s + "|\n")[j] == s[j];
    }
  }

  lemma UnbrokenAppend(a: seq<string>, b: seq<string>)
    requires Unbroken(a) && Unbroken(b)
    ensures Unbroken(a + b)
  {
    assert forall k :: |a| <= k < |a| + |b| ==> (a + b)[k] == b[k - |a|];
  }

  lemma {:induction false} BodyUnbroken(blocks: seq<seq<string>>, tw: int, header: bool, rowDividers: bool, n: nat)
    requires n <= |blocks|
    requires forall r :: 0 <= r < |blocks| ==> Unbroken(blocks[r])
    ensures Unbroken(BodyLines(blocks, tw, header, rowDividers, n))
  {
    if n > 0 {
      BodyUnbroken(blocks, tw, header, rowDividers, n - 1);
      var a := BodyLines(blocks, tw, header, rowDividers, n - 1);
      var d := Divider(n - 1, |blocks|, tw, header, rowDividers);
      HLineUnbroken(tw, '=', '|');
      HLineUnbroken(tw, '-', '|');
      HLineUnbroken(tw, '-', '+');
      assert Unbroken(d);
      UnbrokenAppend(a, blocks[n - 1]);
      UnbrokenAppend(a + blocks[n - 1], d);
    }
  }

  /** Cells are put on a line as they are (lines 142-145), so the printed
      table is a rectangle only when no cell holds a line break: then every
      line of the table breaks only at its end. */
  lemma TableUnbroken(wrapped: seq<seq<seq<string>>>, cw: seq<int>, tw: int, header: bool, rowDividers: bool)
    requires |cw| == |wrapped| && CellsUnbroken(wrapped)
    ensures Unbroken(TableLines(wrapped, cw, tw, header, rowDividers))
  {
    var blocks := RowBlocks(wrapped, cw);
    forall r | 0 <= r < |blocks|
      ensures Unbroken(blocks[r])
    {
      RowUnbroken(wrapped, cw, r);
    }
    BodyUnbroken(blocks, tw, header, rowDividers, |blocks|);
    HLineUnbroken(tw, '-', '+');
    UnbrokenAppend([Border(tw)], BodyLines(blocks, tw, header, rowDividers, |blocks|));
  }

  /** The cell line of a single cell `"a\nb"` in a column of width 6. */
  lemma BrokenCellLine()
    ensures CellLine([["a\nb"]], [6], 0) == "| a\nb |\n"
  {
    var es := [["a\nb"]];
    assert Cell(es[0], 0) == "a\nb";
    assert Segments(es, [6], 0, 0) == "";
    assert Fill(' ', 1) == " ";
    assert Segment("a\nb", 6) == "| a\nb ";
    assert Segments(es, [6], 0, 1) == "| a\nb ";
  }

  lemma BrokenCellLines()
    ensures TableLines([[["a\nb"]]], [6], 7, true, true) == [Border(7), "| a\nb |\n", HeaderRule(7)]
  {
    var wrapped := [[["a\nb"]]];
    var es := RowEntries(wrapped, 0);
    assert es == [["a\nb"]];
    assert MaxCount(es) == 1;
    BrokenCellLine();
    assert RowLines(es, [6]) == ["| a\nb |\n"];
    assert MaxCount(wrapped) == 1;
    var blocks := RowBlocks(wrapped, [6]);
    assert blocks == [["| a\nb |\n"]];
    assert BodyLines(blocks, 7, true, true, 1) == ["| a\nb |\n", HeaderRule(7)];
  }

  /** A cell holding a line break: the lines of the table are all
      `table_width` characters and a newline, yet the cell line carries a
      second line break inside, so the printed table is not a rectangle. */
  lemma BrokenCell()
    ensures var ls := TableLines([[["a\nb"]]], [6], 7, true, true);
      Rectangular(ls, 7) && |ls| == 3 && ls[1] == "| a\nb |\n" && !LineUnbroken(ls[1])
  {
    BrokenCellLines();
    var l := "| a\nb |\n";
    assert |l| == 8 && l[7] == '\n' && l[3] == '\n';
  }

  /** Every line starts with `|`. */
  predicate PipeEdged(ls: seq<string>)
  {
    forall k :: 0 <= k < |ls| ==> |ls[k]| > 0 && ls[k][0] == '|'
  }

  lemma PipeAppend(a: seq<string>, b: seq<string>)
    requires PipeEdged(a) && PipeEdged(b)
    ensures PipeEdged(a + b)
  {
    assert forall k :: |a| <= k < |a| + |b| ==> (a + b)[k] == b[k - |a|];
  }

  lemma RowPiped(entries: seq<seq<string>>, cw: seq<int>)
    requires |entries| == |cw|
    ensures PipeEdged(RowLines(entries, cw))
  {
    forall i | 0 <= i < MaxCount(entries)
      ensures |CellLine(entries, cw, i)| > 0 && CellLine(entries, cw, i)[0] == '|'
    {
      CellLineStart(entries, cw, i);
    }
  }

  /** Before the last row, and after a sole row, every line starts with `|`. */
  lemma {:induction false} BodyPiped(blocks: seq<seq<string>>, tw: int, header: bool, rowDividers: bool, n: nat)
    requires n <= |blocks| && (n < |blocks| || n <= 1)
    requires forall r :: 0 <= r < |blocks| ==> PipeEdged(blocks[r])
    ensures PipeEdged(BodyLines(blocks, tw, header, rowDividers, n))
  {
    if n > 0 {
      BodyPiped(blocks, tw, header, rowDividers, n - 1);
      var a := BodyLines(blocks, tw, header, rowDividers, n - 1);
      var d := Divider(n - 1, |blocks|, tw, header, rowDividers);
      assert PipeEdged(d);
      PipeAppend(a, blocks[n - 1]);
      PipeAppend(a + blocks[n - 1], d);
    }
  }

  /** The lines of all rows: `|`-edged lines, then the border when there
      are at least two rows. */
  lemma BodyEdges(blocks: seq<seq<string>>, tw: int, header: bool, rowDividers: bool) returns (p: seq<string>)
    requires forall r :: 0 <= r < |blocks| ==> PipeEdged(blocks[r])
    ensures PipeEdged(p)
    ensures BodyLines(blocks, tw, header, rowDividers, |blocks|) == p + (if |blocks| >= 2 then [Border(tw)] else [])
  {
    var nRows := |blocks|;
    if nRows >= 2 {
      BodyPiped(blocks, tw, header, rowDividers, nRows - 1);
      var a := BodyLines(blocks, tw, header, rowDividers, nRows - 1);
      PipeAppend(a, blocks[nRows - 1]);
      p := a + blocks[nRows - 1];
    } else {
      BodyPiped(blocks, tw, header, rowDividers, nRows);
      p := BodyLines(blocks, tw, header, rowDividers, nRows);
    }
  }

  /** `|`-edged lines between an opening border and, if `closed`, a closing one. */
  lemma Bordered(p: seq<string>, tw: int, closed: bool)
    requires PipeEdged(p)
    ensures var ls := [Border(tw)] + p + (if closed then [Border(tw)] else []);
      (closed ==> ls[|ls| - 1] == Border(tw)) &&
      forall k :: 1 <= k < |ls| ==>
        |ls[k]| > 0 && (ls[k][0] == '+' <==> closed && k == |ls| - 1) &&
        (ls[k][0] == '+' || ls[k][0] == '|')
  {
    var ls := [Border(tw)] + p + (if closed then [Border(tw)] else []);
    forall k | 1 <= k < |ls|
      ensures |ls[k]| > 0 && (ls[k][0] == '+' <==> closed && k == |ls| - 1) && (ls[k][0] == '+' || ls[k][0] == '|')
    {
      if k <= |p| {
        assert ls[k] == p[k - 1];
      } else {
        assert ls[k] == Border(tw);
      }
    }
  }

  /** The `+`-edged border opens the table and closes it only when there are
      at least two rows: a one-row table has no closing border, and every
      other line is `|`-edged. */
  lemma TableEdges(wrapped: seq<seq<seq<string>>>, cw: seq<int>, tw: int, header: bool, rowDividers: bool)
    requires |cw| == |wrapped|
    ensures var ls := TableLines(wrapped, cw, tw, header, rowDividers);
      |ls| >= 1 && ls[0] == MakeHLine(tw, '-', '+') &&
      (MaxCount(wrapped) >= 2 ==> ls[|ls| - 1] == MakeHLine(tw, '-', '+')) &&
      forall k :: 1 <= k < |ls| ==>
        |ls[k]| > 0 && (ls[k][0] == '+' <==> MaxCount(wrapped) >= 2 && k == |ls| - 1) &&
        (ls[k][0] == '+' || ls[k][0] == '|')
  {
    var blocks := RowBlocks(wrapped, cw);
    forall r | 0 <= r < |blocks|
      ensures PipeEdged(blocks[r])
    {
      RowPiped(RowEntries(wrapped, r), cw);
    }
    var p := BodyEdges(blocks, tw, header, rowDividers);
    Bordered(p, tw, |blocks| >= 2);
    var tail: seq<string> := if |blocks| >= 2 then [Border(tw)] else [];
    assert TableLines(wrapped, cw, tw, header, rowDividers) == [Border(tw)] + (p + tail);
    AppendAssoc([Border(tw)], p, tail);
  }

  /** The first rows' lines are a prefix of all the lines. */
  lemma {:induction false} BodyPrefix(blocks: seq<seq<string>>, tw: int, header: bool, rowDividers: bool, m: nat, n: nat)
    requires m <= n <= |blocks|
    ensures var a := BodyLines(blocks, tw, header, rowDividers, m);
      var b := BodyLines(blocks, tw, header, rowDividers, n);
      |a| <= |b| && b[..|a|] == a
    decreases n
  {
    if m < n {
      BodyPrefix(blocks, tw, header, rowDividers, m, n - 1);
      var a := BodyLines(blocks, tw, header, rowDividers, m);
      var c := BodyLines(blocks, tw, header, rowDividers, n - 1);
      var e := blocks[n - 1] + Divider(n - 1, |blocks|, tw, header, rowDividers);
      AppendAssoc(c, blocks[n - 1], Divider(n - 1, |blocks|, tw, header, rowDividers));
      PrefixExtend(a, c, e);
    }
  }

  lemma PrefixExtend(a: seq<string>, c: seq<string>, e: seq<string>)
    requires |a| <= |c| && c[..|a|] == a
    ensures |a| <= |c + e| && (c + e)[..|a|] == a
  {
    assert (c + e)[..|a|] == c[..|a|];
  }

  /** Membership in the first rows persists as rows are added. */
  lemma BodyGrows(blocks: seq<seq<string>>, tw: int, header: bool, rowDividers: bool, m: nat, n: nat, x: string)
    requires m <= n <= |blocks|
    requires x in BodyLines(blocks, tw, header, rowDividers, m)
    ensures x in BodyLines(blocks, tw, header, rowDividers, n)
  {
    BodyPrefix(blocks, tw, header, rowDividers, m, n);
    var a := BodyLines(blocks, tw, header, rowDividers, m);
    var b := BodyLines(blocks, tw, header, rowDividers, n);
    var k :| 0 <= k < |a| && a[k] == x;
    assert b[k] == x;
  }

  /** No cell line is a rule, once rules are at least four characters long. */
  lemma NotARule(entries: seq<seq<string>>, cw: seq<int>, i: nat, tw: int, ch: char)
    requires |entries| == |cw| && tw >= 3 && ch != ' '
    ensures CellLine(entries, cw, i) != MakeHLine(tw, ch, '|')
  {
    CellLineStart(entries, cw, i);
    var rule := MakeHLine(tw, ch, '|');
    assert rule[1] == ch;
  }

  lemma RowHasNoRule(entries: seq<seq<string>>, cw: seq<int>, tw: int, ch: char)
    requires |entries| == |cw| && tw >= 3 && ch != ' '
    ensures MakeHLine(tw, ch, '|') !in RowLines(entries, cw)
  {
    forall i | 0 <= i < MaxCount(entries)
      ensures RowLines(entries, cw)[i] != MakeHLine(tw, ch, '|')
    {
      NotARule(entries, cw, i, tw, ch);
    }
  }

  /** No row block of the table contains a `|`-edged rule. */
  lemma BlocksHaveNoRule(wrapped: seq<seq<seq<string>>>, cw: seq<int>, tw: int, ch: char)
    requires |cw| == |wrapped| && tw >= 3 && ch != ' '
    ensures forall r :: 0 <= r < |RowBlocks(wrapped, cw)| ==> MakeHLine(tw, ch, '|') !in RowBlocks(wrapped, cw)[r]
  {
    forall r | 0 <= r < |RowBlocks(wrapped, cw)|
      ensures MakeHLine(tw, ch, '|') !in RowBlocks(wrapped, cw)[r]
    {
      RowHasNoRule(RowEntries(wrapped, r), cw, tw, ch);
    }
  }

  /** The three rules differ from one another once `tw >= 3`. */
  lemma RulesDiffer(tw: int)
    requires tw >= 3
    ensures Border(tw) != HeaderRule(tw) && Border(tw) != RowRule(tw) && HeaderRule(tw) != RowRule(tw)
  {
    assert Border(tw)[0] == '+' && HeaderRule(tw)[0] == '|';
    assert RowRule(tw)[1] == '-' && HeaderRule(tw)[1] == '=';
  }

  /** With `header` off the `=` rule is never emitted. */
  lemma {:induction false} NoHeaderRule(blocks: seq<seq<string>>, tw: int, rowDividers: bool, n: nat)
    requires n <= |blocks| && tw >= 3
    requires forall r :: 0 <= r < |blocks| ==> HeaderRule(tw) !in blocks[r]
    ensures HeaderRule(tw) !in BodyLines(blocks, tw, false, rowDividers, n)
  {
    if n > 0 {
      NoHeaderRule(blocks, tw, rowDividers, n - 1);
      RulesDiffer(tw);
    }
  }

  /** Over any rows without rules: the `=` rule appears exactly when
      `header` is set, right after the lines of row 0. */
  lemma HeaderRuleInBody(blocks: seq<seq<string>>, tw: int, header: bool, rowDividers: bool)
    requires |blocks| >= 1 && tw >= 3
    requires forall r :: 0 <= r < |blocks| ==> HeaderRule(tw) !in blocks[r]
    ensures var ls := [Border(tw)] + BodyLines(blocks, tw, header, rowDividers, |blocks|);
      (HeaderRule(tw) in ls <==> header) &&
      (header ==> 1 + |blocks[0]| < |ls| && ls[1 + |blocks[0]|] == HeaderRule(tw))
  {
    var nRows := |blocks|;
    var body := BodyLines(blocks, tw, header, rowDividers, nRows);
    RulesDiffer(tw);
    if header {
      var first := BodyLines(blocks, tw, header, rowDividers, 1);
      assert first == BodyLines(blocks, tw, header, rowDividers, 0) + blocks[0] + Divider(0, nRows, tw, header, rowDividers);
      var h := |blocks[0]|;
      assert first[h] == HeaderRule(tw);
      BodyPrefix(blocks, tw, header, rowDividers, 1, nRows);
      assert body[h] == first[h];
      assert ([Border(tw)] + body)[1 + h] == body[h];
    } else {
      NoHeaderRule(blocks, tw, rowDividers, nRows);
    }
  }

  /** The `=` rule appears in a table with rows exactly when `header` is set,
      right after the lines of row 0. */
  lemma HeaderRuleIff(wrapped: seq<seq<seq<string>>>, cw: seq<int>, tw: int, header: bool, rowDividers: bool)
    requires |cw| == |wrapped| && tw >= 3 && MaxCount(wrapped) >= 1
    ensures MakeHLine(tw, '=', '|') in TableLines(wrapped, cw, tw, header, rowDividers) <==> header
    ensures var ls := TableLines(wrapped, cw, tw, header, rowDividers);
      var h := |RowLines(RowEntries(wrapped, 0), cw)|;
      header ==> 1 + h < |ls| && ls[1 + h] == MakeHLine(tw, '=', '|')
  {
    BlocksHaveNoRule(wrapped, cw, tw, '=');
    HeaderRuleInBody(RowBlocks(wrapped, cw), tw, header, rowDividers);
  }

  /** Without `row_dividers`, and with `header` on at most two rows, no
      `-` rule with `|` edges is emitted. */
  lemma {:induction false} NoRowRule(blocks: seq<seq<string>>, tw: int, header: bool, rowDividers: bool, n: nat)
    requires n <= |blocks| && tw >= 3
    requires !rowDividers || (header && |blocks| <= 2)
    requires forall r :: 0 <= r < |blocks| ==> RowRule(tw) !in blocks[r]
    ensures RowRule(tw) !in BodyLines(blocks, tw, header, rowDividers, n)
  {
    if n > 0 {
      NoRowRule(blocks, tw, header, rowDividers, n - 1);
      DividerNotRowRule(n - 1, |blocks|, tw, header, rowDividers);
      NotInAppend(RowRule(tw), BodyLines(blocks, tw, header, rowDividers, n - 1), blocks[n - 1],
        Divider(n - 1, |blocks|, tw, header, rowDividers));
    }
  }

  lemma DividerNotRowRule(r: nat, nRows: nat, tw: int, header: bool, rowDividers: bool)
    requires tw >= 3 && r < nRows && (!rowDividers || (header && nRows <= 2))
    ensures RowRule(tw) !in Divider(r, nRows, tw, header, rowDividers)
  {
    RulesDiffer(tw);
  }

  lemma NotInAppend(x: string, a: seq<string>, b: seq<string>, c: seq<string>)
    requires x !in a && x !in b && x !in c
    ensures x !in a + b + c
  {
  }

  /** Over any rows without rules: a `-` rule with `|` edges appears
      exactly when `row_dividers` is set and row 0 (with `header` off) or a
      middle row (with at least three rows) is followed by one. */
  lemma RowRuleInBody(blocks: seq<seq<string>>, tw: int, header: bool, rowDividers: bool)
    requires |blocks| >= 1 && tw >= 3
    requires forall r :: 0 <= r < |blocks| ==> RowRule(tw) !in blocks[r]
    ensures RowRule(tw) in [Border(tw)] + BodyLines(blocks, tw, header, rowDividers, |blocks|) <==>
      rowDividers && (!header || |blocks| >= 3)
  {
    var nRows := |blocks|;
    RulesDiffer(tw);
    if rowDividers && (!header || nRows >= 3) {
      var r := if header then 1 else 0;
      var upTo := BodyLines(blocks, tw, header, rowDividers, r + 1);
      assert upTo == BodyLines(blocks, tw, header, rowDividers, r) + blocks[r] + Divider(r, nRows, tw, header, rowDividers);
      assert RowRule(tw) in upTo by {
        assert upTo[|upTo| - 1] == RowRule(tw);
      }
      BodyGrows(blocks, tw, header, rowDividers, r + 1, nRows, RowRule(tw));
    } else {
      NoRowRule(blocks, tw, header, rowDividers, nRows);
    }
  }

  /** A `-` rule with `|` edges appears exactly when `row_dividers` is set
      and some row other than the last is followed by one: row 0 when
      `header` is off, a middle row when there are at least three rows. */
  lemma RowRuleIff(wrapped: seq<seq<seq<string>>>, cw: seq<int>, tw: int, header: bool, rowDividers: bool)
    requires |cw| == |wrapped| && tw >= 3 && MaxCount(wrapped) >= 1
    ensures MakeHLine(tw, '-', '|') in TableLines(wrapped, cw, tw, header, rowDividers) <==>
      rowDividers && (!header || MaxCount(wrapped) >= 3)
  {
    BlocksHaveNoRule(wrapped, cw, tw, '-');
    RowRuleInBody(RowBlocks(wrapped, cw), tw, header, rowDividers);
  }

  lemma {:induction false} PlainRows(blocks: seq<seq<string>>, tw: int, n: nat)
    requires n <= |blocks| && (n < |blocks| || n <= 1)
    ensures BodyLines(blocks, tw, false, false, n) == Flatten(blocks[..n])
  {
    if n > 0 {
      PlainRows(blocks, tw, n - 1);
      assert Divider(n - 1, |blocks|, tw, false, false) == [];
      assert blocks[..n] == blocks[..n - 1] + [blocks[n - 1]];
      FlattenSnoc(blocks[..n - 1], blocks[n - 1]);
    } else {
      assert blocks[..0] == [];
    }
  }

  /** Without rules, the rows follow one another, closed by the border when
      there are two rows or more. */
  lemma PlainBody(blocks: seq<seq<string>>, tw: int)
    requires |blocks| >= 1
    ensures [Border(tw)] + BodyLines(blocks, tw, false, false, |blocks|) ==
      [Border(tw)] + Flatten(blocks) + (if |blocks| >= 2 then [Border(tw)] else [])
  {
    var nRows := |blocks|;
    TakeAll(blocks);
    if nRows >= 2 {
      PlainRows(blocks, tw, nRows - 1);
      assert blocks == blocks[..nRows - 1] + [blocks[nRows - 1]];
      FlattenSnoc(blocks[..nRows - 1], blocks[nRows - 1]);
      AppendAssoc([Border(tw)], Flatten(blocks), [Border(tw)]);
    } else {
      PlainRows(blocks, tw, nRows);
      assert Flatten(blocks) + [] == Flatten(blocks);
    }
  }

  /** With neither `header` nor `row_dividers`, the table is the top border,
      the rows' lines in order, and the closing border when there are two
      rows or more. */
  lemma PlainTable(wrapped: seq<seq<seq<string>>>, cw: seq<int>, tw: int)
    requires |cw| == |wrapped| && MaxCount(wrapped) >= 1
    ensures var blocks := RowBlocks(wrapped, cw);
      TableLines(wrapped, cw, tw, false, false) ==
        [MakeHLine(tw, '-', '+')] + Flatten(blocks) +
        (if |blocks| >= 2 then [MakeHLine(tw, '-', '+')] else [])
  {
    PlainBody(RowBlocks(wrapped, cw), tw);
  }
}
