/** Rendering half of `table` (scriptit/shape.py:134-157) and the rule
    helper `_make_hline` (scriptit/shape.py:205-206).

    The input is the wrapped cells, `wrapped[c][r]` being the sublines of
    entry `r` of column `c`, with the final column widths and the table
    width. The output is modelled as its sequence of lines; the string the
    source returns is their concatenation. */
module TableRender {
  import opened Text

  /** `_make_hline(table_width, char, edge)`: an edge, `table_width - 2`
      copies of the rule character, an edge and a newline. */
  function MakeHLine(tableWidth: int, ch: char, edge: char): (r: string)
    ensures |r| == Max(tableWidth - 2, 0) + 3
    ensures r[0] == edge && r[|r| - 2] == edge && r[|r| - 1] == '\n'
    ensures forall k :: 1 <= k < |r| - 2 ==> r[k] == ch
  {
    var r := [edge] + Fill(ch, tableWidth - 2) + [edge] + "\n";
    assert forall k :: 1 <= k < |r| - 2 ==> r[k] == Fill(ch, tableWidth - 2)[k - 1];
    r
  }

  /** The closing `+` border, the `=` header rule and the `-` row rule. */
  function Border(tw: int): string { MakeHLine(tw, '-', '+') }
  function HeaderRule(tw: int): string { MakeHLine(tw, '=', '|') }
  function RowRule(tw: int): string { MakeHLine(tw, '-', '|') }

  /** `entry[i] if len(entry) > i else ""` (line 142). */
  function Cell(entry: seq<string>, i: nat): string
  {
    if |entry| > i then entry[i] else ""
  }

  /** Line 137: the entry of each column for row `r`, the blank cell `[""]`
      where a column has fewer entries. */
  function RowEntries(wrapped: seq<seq<seq<string>>>, r: nat): (es: seq<seq<string>>)
    ensures |es| == |wrapped|
  {
    seq(|wrapped|, c requires 0 <= c < |wrapped| => if r < |wrapped[c]| then wrapped[c][r] else [""])
  }

  /** `"| {}{}".format(val, " " * (w - len(val) - 2))` (lines 143-145). */
  function Segment(val: string, w: int): (s: string)
    ensures |s| == Max(w, |val| + 2)
    ensures s[..2 + |val|] == "| " + val
  {
    "| " + val + Fill(' ', w - |val| - 2)
  }

  /** The first `n` segments of subline `i` of a row. */
  function Segments(entries: seq<seq<string>>, cw: seq<int>, i: nat, n: nat): string
    requires n <= |entries| == |cw|
  {
    if n == 0 then ""
    else Segments(entries, cw, i, n - 1) + Segment(Cell(entries[n - 1], i), cw[n - 1])
  }

  /** Subline `i` of a row: every column's segment, then `"|\n"` (lines 140-147). */
  function CellLine(entries: seq<seq<string>>, cw: seq<int>, i: nat): (l: string)
    requires |entries| == |cw|
    ensures |l| >= 2 && l[|l| - 2] == '|' && l[|l| - 1] == '\n'
  {
    Segments(entries, cw, i, |entries|) + "|\n"
  }

  /** All lines of one row: as many as its tallest cell has sublines (line 138). */
  function RowLines(entries: seq<seq<string>>, cw: seq<int>): (ls: seq<string>)
    requires |entries| == |cw|
    ensures |ls| == MaxCount(entries)
  {
    seq(MaxCount(entries), i requires 0 <= i < MaxCount(entries) => CellLine(entries, cw, i))
  }

  /** The rule emitted after row `r` of `nRows` (lines 148-157). */
  function Divider(r: nat, nRows: nat, tw: int, header: bool, rowDividers: bool): (d: seq<string>)
    ensures |d| <= 1
    ensures d == [] <==> if r == 0 then !header && !rowDividers else r < nRows - 1 && !rowDividers
    ensures 0 < r && nRows - 1 <= r ==> d == [Border(tw)]
  {
    if r == 0 then
      if header then [HeaderRule(tw)]
      else if rowDividers then [RowRule(tw)]
      else []
    else if r < nRows - 1 then
      if rowDividers then [RowRule(tw)] else []
    else [Border(tw)]
  }

  /** The lines of every row, `max(len(col))` rows in all (lines 135-147). */
  function RowBlocks(wrapped: seq<seq<seq<string>>>, cw: seq<int>): seq<seq<string>>
    requires |cw| == |wrapped|
  {
    seq(MaxCount(wrapped), r requires 0 <= r < MaxCount(wrapped) => RowLines(RowEntries(wrapped, r), cw))
  }

  /** The lines emitted for the first `n` of the rows `blocks`, each row
      followed by its rule. */
  function BodyLines(blocks: seq<seq<string>>, tw: int, header: bool, rowDividers: bool, n: nat): seq<string>
    requires n <= |blocks|
  {
    if n == 0 then []
    else BodyLines(blocks, tw, header, rowDividers, n - 1) + blocks[n - 1] + Divider(n - 1, |blocks|, tw, header, rowDividers)
  }

  /** Every line of the table: the top border, then each row followed by its rule. */
  function TableLines(wrapped: seq<seq<seq<string>>>, cw: seq<int>, tw: int, header: bool, rowDividers: bool): (ls: seq<string>)
    requires |cw| == |wrapped|
    ensures |ls| >= 1 && ls[0] == Border(tw)
    ensures MaxCount(wrapped) >= 2 ==> ls[|ls| - 1] == Border(tw)
  {
    var blocks := RowBlocks(wrapped, cw);
    BodyCloses(blocks, tw, header, rowDividers);
    [Border(tw)] + BodyLines(blocks, tw, header, rowDividers, |blocks|)
  }

  /** From two rows on, the last rule is the closing border (line 157). */
  lemma BodyCloses(blocks: seq<seq<string>>, tw: int, header: bool, rowDividers: bool)
    ensures var ls := BodyLines(blocks, tw, header, rowDividers, |blocks|);
      |blocks| >= 2 ==> |ls| >= 1 && ls[|ls| - 1] == Border(tw)
  {
    if |blocks| >= 2 {
      var n := |blocks|;
      assert Divider(n - 1, n, tw, header, rowDividers) == [Border(tw)];
    }
  }

  /** Lines 140-147: build subline `i` of a row segment by segment. */
  method BuildLine(entries: seq<seq<string>>, cw: seq<int>, i: nat) returns (line: string)
    requires |entries| == |cw|
    ensures line == CellLine(entries, cw, i)
  {
    line := "";
    for c := 0 to |entries|
      invariant line == Segments(entries, cw, i, c)
    {
      var entry := entries[c];
      var val := if |entry| > i then entry[i] else "";
      line := line + ("| " + val + Fill(' ', cw[c] - |val| - 2));
    }
    line := line + "|\n";
  }

  /** Lines 138-147: the text of one row, one cell line per subline. */
  method EmitRow(entries: seq<seq<string>>, cw: seq<int>) returns (s: string)
    requires |entries| == |cw|
    ensures s == Flatten(RowLines(entries, cw))
  {
    var mostSublines := MaxCount(entries);
    s := "";
    for i := 0 to mostSublines
      invariant s == Flatten(RowLines(entries, cw)[..i])
    {
      var line := BuildLine(entries, cw, i);
      var rows := RowLines(entries, cw);
      assert rows[..i + 1] == rows[..i] + [line];
      FlattenSnoc(rows[..i], line);
      s := s + line;
    }
    TakeAll(RowLines(entries, cw));
  }

  /** Lines 148-157: the rule after row `r`, or nothing. */
  method EmitDivider(r: nat, nRows: nat, tw: int, header: bool, rowDividers: bool) returns (s: string)
    ensures s == Flatten(Divider(r, nRows, tw, header, rowDividers))
  {
    s := "";
    if r == 0 {
      if header {
        s := MakeHLine(tw, '=', '|');
      } else if rowDividers {
        s := MakeHLine(tw, '-', '|');
      }
    } else if r < nRows - 1 {
      if rowDividers {
        s := MakeHLine(tw, '-', '|');
      }
    } else {
      s := MakeHLine(tw, '-', '+');
    }
    var div := Divider(r, nRows, tw, header, rowDividers);
    assert div == [] || Flatten(div) == div[0] + Flatten([]);
  }

  /** `BodyLines` grows by one row and its rule. */
  lemma BodyStep(blocks: seq<seq<string>>, tw: int, header: bool, rowDividers: bool, r: nat)
    requires r < |blocks|
    ensures Flatten([Border(tw)] + BodyLines(blocks, tw, header, rowDividers, r + 1))
         == Flatten([Border(tw)] + BodyLines(blocks, tw, header, rowDividers, r)) +
            Flatten(blocks[r]) + Flatten(Divider(r, |blocks|, tw, header, rowDividers))
  {
    var top := [Border(tw)];
    var body := BodyLines(blocks, tw, header, rowDividers, r);
    var rows := blocks[r];
    var div := Divider(r, |blocks|, tw, header, rowDividers);
    assert top + (body + rows + div) == (top + body) + rows + div;
    FlattenAppend((top + body) + rows, div);
    FlattenAppend(top + body, rows);
  }

  /** Lines 134-157: the top border, then every row and the rule after it. */
  method Render(wrapped: seq<seq<seq<string>>>, cw: seq<int>, tw: int, header: bool, rowDividers: bool)
    returns (out: string)
    requires |cw| == |wrapped|
    ensures out == Flatten(TableLines(wrapped, cw, tw, header, rowDividers))
  {
    out := MakeHLine(tw, '-', '+');
    assert Flatten([Border(tw)]) == out + Flatten([]);
    assert [Border(tw)] + [] == [Border(tw)];
    var nRows := MaxCount(wrapped);
    ghost var blocks := RowBlocks(wrapped, cw);
    for r := 0 to nRows
      invariant out == Flatten([Border(tw)] + BodyLines(blocks, tw, header, rowDividers, r))
    {
      var entries := RowEntries(wrapped, r);
      var rowText := EmitRow(entries, cw);
      BodyStep(blocks, tw, header, rowDividers, r);
      var rule := EmitDivider(r, nRows, tw, header, rowDividers);
      out := out + rowText + rule;
    }
  }
}
