/** `table(columns, width, max_width, min_width, row_dividers, header)`
    (scriptit/shape.py:71-159): the layout, the collapse pass, the wrapping
    of every entry to its column (lines 126-132), and the rendering. */
module Table {
  import opened Text
  import opened WordWrap
  import opened TableLayout
  import opened TableRender
  import opened TableShape

  /** The entries of one column, each wrapped to `maxLen` (lines 129-132). */
  function WrapColumn(col: seq<string>, maxLen: int): (r: seq<seq<string>>)
    requires col != [] ==> maxLen >= 2
    ensures |r| == |col|
  {
    seq(|col|, e requires 0 <= e < |col| => Wrapped(col[e], maxLen))
  }

  /** Column `c` has an entry, and its width fails `col_widths[i] - 2 > 1` (line 130). */
  predicate Narrow(columns: seq<seq<string>>, cw: seq<int>, c: int)
    requires |cw| == |columns|
  {
    0 <= c < |columns| && columns[c] != [] && cw[c] - 2 <= 1
  }

  /** The first column from `i` on that the wrapping loop rejects, or `|columns|` if none. */
  function FirstNarrowFrom(columns: seq<seq<string>>, cw: seq<int>, i: nat): (c: nat)
    requires |cw| == |columns| && i <= |columns|
    ensures i <= c <= |columns|
    ensures c < |columns| ==> Narrow(columns, cw, c)
    ensures forall d :: i <= d < c ==> !Narrow(columns, cw, d)
    decreases |columns| - i
  {
    if i == |columns| then i
    else if Narrow(columns, cw, i) then i
    else FirstNarrowFrom(columns, cw, i + 1)
  }

  /** The first column the wrapping loop rejects, or `|columns|` if none. */
  function FirstNarrow(columns: seq<seq<string>>, cw: seq<int>): nat
    requires |cw| == |columns|
  {
    FirstNarrowFrom(columns, cw, 0)
  }

  /** Every column's entries, wrapped (the value of `wrapped_cols`). */
  function WrapAll(columns: seq<seq<string>>, cw: seq<int>): (w: seq<seq<seq<string>>>)
    requires |cw| == |columns|
    requires forall c :: 0 <= c < |columns| ==> !Narrow(columns, cw, c)
    ensures |w| == |columns|
  {
    seq(|columns|, c requires 0 <= c < |columns| =>
      assert !Narrow(columns, cw, c);
      WrapColumn(columns[c], cw[c] - 2))
  }

  /** Lines 128-132 for one column: the first entry trips the assertion when
      the column is too narrow; otherwise each entry is wrapped in turn. */
  method WrapEntries(col: seq<string>, i: nat, width: int) returns (r: Result<seq<seq<string>>>)
    ensures r.Failure? <==> col != [] && width - 2 <= 1
    ensures r.Failure? ==> r.error == ColumnCollapsed(i)
    ensures r.Success? ==> r.value == WrapColumn(col, width - 2)
  {
    var column := [];
    for e := 0 to |col|
      invariant e > 0 ==> width - 2 > 1
      invariant column == WrapColumn(col[..e], width - 2)
    {
      if !(width - 2 > 1) {
        return Failure(ColumnCollapsed(i));
      }
      var wrapped, _ := WordWrapToLen(col[e], width - 2);
      WrapColumnStep(col, e, width - 2);
      column := column + [wrapped];
    }
    assert col[..|col|] == col;
    return Success(column);
  }

  lemma WrapColumnStep(col: seq<string>, e: nat, maxLen: int)
    requires e < |col| && maxLen >= 2
    ensures WrapColumn(col[..e + 1], maxLen) == WrapColumn(col[..e], maxLen) + [Wrapped(col[e], maxLen)]
  {
  }

  /** Lines 126-132: wrap every column, stopping at the first one whose
      width has collapsed. */
  method WrapColumns(columns: seq<seq<string>>, colWidths: seq<int>) returns (r: Result<seq<seq<seq<string>>>>)
    requires |colWidths| == |columns|
    ensures r.Failure? <==> FirstNarrow(columns, colWidths) < |columns|
    ensures r.Failure? ==> r.error == ColumnCollapsed(FirstNarrow(columns, colWidths))
    ensures r.Success? ==> r.value == WrapAll(columns, colWidths)
  {
    var wrappedCols := [];
    for i := 0 to |columns|
      invariant |wrappedCols| == i
      invariant forall d :: 0 <= d < i ==>
        !Narrow(columns, colWidths, d) && wrappedCols[d] == WrapColumn(columns[d], colWidths[d] - 2)
    {
      var column := WrapEntries(columns[i], i, colWidths[i]);
      if column.Failure? {
        assert Narrow(columns, colWidths, i);
        return Failure(column.error);
      }
      wrappedCols := wrappedCols + [column.value];
    }
    return Success(wrappedCols);
  }

  /** The whole of `table`: it fails with the layout's error, with "No extra
      to borrow from", or with a collapsed column; a table is produced
      exactly when the layout succeeds and no column is narrower than 4,
      and it is then the rendering of the wrapped columns at the initial
      widths. */
  method Table(columns: seq<seq<string>>, width: Option<int>, maxWidth: int, minWidth: Option<int>,
               rowDividers: bool, header: bool) returns (r: Result<string>)
    ensures var layout := ComputeLayout(columns, width, maxWidth, minWidth);
      layout.Failure? ==> r == Failure(layout.error)
    ensures var layout := ComputeLayout(columns, width, maxWidth, minWidth);
      layout.Success? ==> (r.Success? <==> forall c :: 0 <= c < |columns| ==> layout.value.colWidths[c] >= 4)
    ensures var layout := ComputeLayout(columns, width, maxWidth, minWidth);
      layout.Success? && Collapsed(layout.value.colWidths) != [] && !CanBorrow(layout.value.colWidths) ==>
        r == Failure(NoExtraToBorrow)
    ensures var layout := ComputeLayout(columns, width, maxWidth, minWidth);
      layout.Success? && Collapsed(layout.value.colWidths) != [] && CanBorrow(layout.value.colWidths) ==>
        var final := FinalWidths(layout.value.colWidths);
        FirstNarrow(columns, final) < |columns| &&
        r == Failure(ColumnCollapsed(FirstNarrow(columns, final)))
    ensures r.Success? ==>
      var layout := ComputeLayout(columns, width, maxWidth, minWidth).value;
      (forall c :: 0 <= c < |columns| ==> !Narrow(columns, layout.colWidths, c)) &&
      r.value == Flatten(TableLines(WrapAll(columns, layout.colWidths), layout.colWidths,
                                    layout.tableWidth, header, rowDividers))
  {
    var layout := ComputeLayout(columns, width, maxWidth, minWidth);
    if layout.Failure? {
      return Failure(layout.error);
    }
    var tableWidth := layout.value.tableWidth;
    var initial := layout.value.colWidths;
    var collapse := CollapsePass(initial);
    if collapse.Failure? {
      return Failure(collapse.error);
    }
    var colWidths := collapse.value;
    CollapseRejected(columns, initial);
    var wrappedCols := WrapColumns(columns, colWidths);
    if wrappedCols.Failure? {
      return Failure(wrappedCols.error);
    }
    var out := Render(wrappedCols.value, colWidths, tableWidth, header, rowDividers);
    return Success(out);
  }

  /** Every column narrower than 4 that the collapse pass sets to 2 is then
      rejected: after a successful pass the wrapping loop succeeds exactly
      when no column was collapsed, and otherwise stops no later than the
      first collapsed column. */
  lemma CollapseRejected(columns: seq<seq<string>>, cw: seq<int>)
    requires |cw| == |columns| && forall c :: 0 <= c < |columns| ==> columns[c] != []
    requires Collapsed(cw) == [] || CanBorrow(cw)
    ensures FirstNarrow(columns, FinalWidths(cw)) < |columns| <==> Collapsed(cw) != []
    ensures Collapsed(cw) != [] ==> FirstNarrow(columns, FinalWidths(cw)) <= Collapsed(cw)[0]
    ensures Collapsed(cw) == [] <==> forall c :: 0 <= c < |cw| ==> cw[c] >= 4
  {
    var final := FinalWidths(cw);
    if Collapsed(cw) != [] {
      var i := Collapsed(cw)[0];
      CollapseOutcome(cw);
      assert final[i] == 2;
      assert Narrow(columns, final, i);
    } else {
      forall c | 0 <= c < |cw|
        ensures cw[c] >= 4
      {
        if cw[c] < 4 {
          CollapsedComplete(cw, c);
        }
      }
      assert forall c :: 0 <= c < |columns| ==> !Narrow(columns, final, c);
    }
  }

  /** A sum of entries each at least `lo`. */
  lemma {:induction false} SumAtLeast(xs: seq<int>, lo: int)
    requires forall i :: 0 <= i < |xs| ==> xs[i] >= lo
    ensures Sum(xs) >= lo * |xs|
  {
    if xs != [] {
      SumAtLeast(xs[..|xs| - 1], lo);
    }
  }

  /** Two lists whose members have the same lengths have the same longest member. */
  lemma MaxCountSame<S, T>(a: seq<seq<S>>, b: seq<seq<T>>)
    requires |a| == |b| && forall i :: 0 <= i < |a| ==> |a[i]| == |b[i]|
    ensures MaxCount(a) == MaxCount(b)
  {
    if |a| > 0 {
      var i :| 0 <= i < |a| && |a[i]| == MaxCount(a);
      var j :| 0 <= j < |b| && |b[j]| == MaxCount(b);
      assert |a[j]| <= MaxCount(a) && |b[i]| <= MaxCount(b);
    }
  }

  /** Once every column is at least 4 wide, each wrapped subline fits its
      column, every entry has a subline, and there are as many rows as the
      longest column has entries (`n_rows`, line 135). */
  lemma WrappedFit(columns: seq<seq<string>>, cw: seq<int>)
    requires |cw| == |columns| && forall c :: 0 <= c < |cw| ==> cw[c] >= 4
    ensures var w := WrapAll(columns, cw);
      CellsFit(w, cw) && MaxCount(w) == MaxCount(columns) &&
      forall c, r :: 0 <= c < |w| && 0 <= r < |w[c]| ==> w[c][r] != []
  {
    var w := WrapAll(columns, cw);
    assert forall c :: 0 <= c < |w| ==> w[c] == WrapColumn(columns[c], cw[c] - 2);
    MaxCountSame(w, columns);
  }

  /** No entry of any column holds a line break. */
  predicate NoLineBreaks(columns: seq<seq<string>>)
  {
    forall c, e :: 0 <= c < |columns| && 0 <= e < |columns[c]| ==> '\n' !in columns[c][e]
  }

  /** Wrapping splits only at spaces and hyphens, so it adds no line break. */
  lemma WrappedUnbroken(columns: seq<seq<string>>, cw: seq<int>)
    requires |cw| == |columns| && forall c :: 0 <= c < |columns| ==> !Narrow(columns, cw, c)
    requires NoLineBreaks(columns)
    ensures CellsUnbroken(WrapAll(columns, cw))
  {
    var w := WrapAll(columns, cw);
    forall c, r | 0 <= c < |w| && 0 <= r < |w[c]|
      ensures forall k :: 0 <= k < |w[c][r]| ==> '\n' !in w[c][r][k]
    {
      assert !Narrow(columns, cw, c);
      assert w[c][r] == Wrapped(columns[c][r], cw[c] - 2);
      WrappedAvoids(columns[c][r], cw[c] - 2, '\n');
    }
  }

  /** What a successful table looks like (lines 134-157): every line is
      `table_width` characters and a newline, and when no entry holds a line
      break that newline is the line's only one; it starts with the `+` border
      and, from two rows on, ends with it; the `=` rule appears exactly when
      a header is asked for; the `-` row rule appears exactly when row
      dividers are asked for and some row other than the first and last is
      there to carry it. */
  lemma TableOutput(columns: seq<seq<string>>, width: Option<int>, maxWidth: int, minWidth: Option<int>,
                    rowDividers: bool, header: bool)
    requires ComputeLayout(columns, width, maxWidth, minWidth).Success?
    requires forall c :: 0 <= c < |columns| ==> ComputeLayout(columns, width, maxWidth, minWidth).value.colWidths[c] >= 4
    ensures var layout := ComputeLayout(columns, width, maxWidth, minWidth).value;
      var cw := layout.colWidths;
      var tw := layout.tableWidth;
      var ls := TableLines(WrapAll(columns, cw), cw, tw, header, rowDividers);
      tw >= 4 * |columns| + 1 && Rectangular(ls, tw) &&
      ls[0] == MakeHLine(tw, '-', '+') &&
      (MaxCount(columns) >= 2 ==> ls[|ls| - 1] == MakeHLine(tw, '-', '+')) &&
      (MakeHLine(tw, '=', '|') in ls <==> header) &&
      (MakeHLine(tw, '-', '|') in ls <==> rowDividers && (!header || MaxCount(columns) >= 3)) &&
      (NoLineBreaks(columns) ==> Unbroken(ls))
  {
    var layout := ComputeLayout(columns, width, maxWidth, minWidth).value;
    var cw := layout.colWidths;
    var tw := layout.tableWidth;
    var w := WrapAll(columns, cw);
    SumAtLeast(cw, 4);
    WrappedFit(columns, cw);
    assert MaxCount(columns) >= 1 by {
      assert |columns[0]| <= MaxCount(columns);
    }
    TableRectangle(w, cw, tw, header, rowDividers);
    TableEdges(w, cw, tw, header, rowDividers);
    HeaderRuleIff(w, cw, tw, header, rowDividers);
    RowRuleIff(w, cw, tw, header, rowDividers);
    if NoLineBreaks(columns) {
      WrappedUnbroken(columns, cw);
      TableUnbroken(w, cw, tw, header, rowDividers);
    }
  }
}
