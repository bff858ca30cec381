/** Column-width layout of `table` (scriptit/shape.py:94-124): the clamped
    table width, the proportional column widths, and the collapse pass.

    The terminal-width default of `max_width` is not modelled, so it is a
    parameter; `width` and `min_width` stay optional. Cells are strings and
    printed length is plain length. The float arithmetic of lines 110-111 is
    taken over exact reals. */
module TableLayout {
  import opened Text

  datatype Option<T> = None | Some(value: T)

  /** The ways `table` fails, with the source line that raises. */
  datatype TableError =
    | NoColumns            // IndexError on `col_widths[-1]` (line 112)
    | EmptyColumn(col: nat) // ValueError from `max()` of an empty column (line 103)
    | ZeroTotalWidth       // ZeroDivisionError in `w / total_width` (line 110)
    | NoExtraToBorrow      // assertion "No extra to borrow from" (line 120)
    | ColumnCollapsed(col: nat) // assertion "Column width collapsed" (line 130)

  datatype Result<T> = Success(value: T) | Failure(error: TableError)

  /** The table width and the width of every column, borders included. */
  datatype Layout = Layout(tableWidth: int, colWidths: seq<int>)

  /** Lower bound on the table width (line 97): an explicit `min_width`,
      else `width` when given, else room for two characters per column. */
  function MinWidth(nColumns: nat, width: Option<int>, minWidth: Option<int>): int
  {
    if minWidth.Some? then minWidth.value
    else if width.None? then 2 * nColumns + 1
    else width.value
  }

  /** Cap on a column's natural width (line 101): one column this wide,
      with its 3 characters of border, next to columns of 2 characters
      each, takes exactly `max_width`. */
  function MaxColWidth(maxWidth: int, nColumns: nat): int
  {
    maxWidth - 3 - 2 * (nColumns - 1)
  }

  /** Natural width of each column: its longest cell, capped (lines 102-104). */
  function NaturalWidths(columns: seq<seq<string>>, maxColWidth: int): (ws: seq<int>)
    ensures |ws| == |columns|
    ensures forall c :: 0 <= c < |ws| ==>
      ws[c] <= maxColWidth && ws[c] <= MaxLen(columns[c]) &&
      (ws[c] == maxColWidth || ws[c] == MaxLen(columns[c]))
  {
    seq(|columns|, c requires 0 <= c < |columns| => Min(MaxLen(columns[c]), maxColWidth))
  }

  /** `sum([w + 3 for w in widths]) + 1` (line 106): the widths, 3 border
      characters per column, and the closing `|`. */
  function TotalWidth(widths: seq<int>): (t: int)
    ensures t == Sum(widths) + 3 * |widths| + 1
  {
    SumShifted(widths, 3);
    Sum(seq(|widths|, i requires 0 <= i < |widths| => widths[i] + 3)) + 1
  }

  lemma {:induction false} SumShifted(xs: seq<int>, k: int)
    ensures Sum(seq(|xs|, i requires 0 <= i < |xs| => xs[i] + k)) == Sum(xs) + k * |xs|
  {
    if xs != [] {
      var n := |xs|;
      var ys := seq(n, i requires 0 <= i < n => xs[i] + k);
      SumShifted(xs[..n - 1], k);
      assert ys[..n - 1] == seq(n - 1, i requires 0 <= i < n - 1 => xs[..n - 1][i] + k);
    }
  }

  /** `max(min(total_width, max_width), min_width)` (line 107). */
  function ClampWidth(totalWidth: int, maxWidth: int, minWidth: int): (tw: int)
    ensures tw >= minWidth
    ensures minWidth <= maxWidth ==> tw <= maxWidth
    ensures minWidth <= totalWidth <= maxWidth ==> tw == totalWidth
  {
    Max(Min(totalWidth, maxWidth), minWidth)
  }

  /** Width of the `i`-th column before the last: its share of the usable
      width, truncated toward zero, plus 3 (lines 110-111). */
  function Share(w: int, totalWidth: int, usable: int): (s: int)
    requires totalWidth != 0
    ensures 0 <= w && 0 < totalWidth && 0 <= usable ==> s == (w * usable) / totalWidth + 3
  {
    var s := Trunc(w as real / totalWidth as real * usable as real) + 3;
    if 0 <= w && 0 < totalWidth && 0 <= usable then ShareQuotient(w, totalWidth, usable); s else s
  }

  /** For non-negative operands, truncating `w / total * usable` gives the
      integer quotient of `w * usable` by `total`. */
  lemma ShareQuotient(w: int, totalWidth: int, usable: int)
    requires 0 <= w && 0 < totalWidth && 0 <= usable
    ensures Trunc(w as real / totalWidth as real * usable as real) == (w * usable) / totalWidth
  {
    var n, t := w * usable, totalWidth as real;
    assert w as real / t * usable as real == n as real / t;
    var q, r := n / totalWidth, n % totalWidth;
    assert n as real == q as real * t + r as real;
    assert n as real / t == q as real + r as real / t;
    assert 0.0 <= r as real / t < 1.0;
  }

  /** `col_widths` after line 112: every column but the last gets its share,
      and the last absorbs the remainder, so the widths add up to exactly
      `usable`. */
  function InitialColWidths(widths: seq<int>, totalWidth: int, usable: int): (cw: seq<int>)
    requires |widths| > 0 && totalWidth != 0
    ensures |cw| == |widths|
    ensures Sum(cw) == usable
    ensures forall i :: 0 <= i < |cw| - 1 ==> cw[i] == Share(widths[i], totalWidth, usable)
  {
    var head := seq(|widths| - 1, i requires 0 <= i < |widths| - 1 => Share(widths[i], totalWidth, usable));
    var cw := head + [usable - Sum(head)];
    assert cw[..|cw| - 1] == head;
    cw
  }

  /** Index of the first empty column, or `|columns|` if there is none. */
  function FirstEmpty(columns: seq<seq<string>>): (r: nat)
    ensures r <= |columns|
    ensures r < |columns| ==> columns[r] == []
    ensures forall c :: 0 <= c < r ==> columns[c] != []
  {
    if columns == [] then 0
    else if columns[0] == [] then 0
    else 1 + FirstEmpty(columns[1..])
  }

  /** Lines 94-112 of `table`: the table width and the initial column widths. */
  function ComputeLayout(columns: seq<seq<string>>, width: Option<int>, maxWidth: int, minWidth: Option<int>): (r: Result<Layout>)
    ensures r.Success? <==>
      columns != [] && FirstEmpty(columns) == |columns| &&
      TotalWidth(NaturalWidths(columns, MaxColWidth(maxWidth, |columns|))) != 0
    ensures r.Failure? && FirstEmpty(columns) < |columns| ==> r.error == EmptyColumn(FirstEmpty(columns))
    ensures columns == [] ==> r == Failure(NoColumns)
    ensures (columns != [] && FirstEmpty(columns) == |columns| &&
             TotalWidth(NaturalWidths(columns, MaxColWidth(maxWidth, |columns|))) == 0) ==>
      r == Failure(ZeroTotalWidth)
    ensures r.Success? ==>
      |r.value.colWidths| == |columns| && Sum(r.value.colWidths) == r.value.tableWidth - 1
  {
    var n := |columns|;
    var minW := MinWidth(n, width, minWidth);
    if FirstEmpty(columns) < n then Failure(EmptyColumn(FirstEmpty(columns)))
    else
      var widths := NaturalWidths(columns, MaxColWidth(maxWidth, n));
      var total := TotalWidth(widths);
      if n == 0 then
        assert total == 1;
        Failure(NoColumns)
      else if total == 0 then Failure(ZeroTotalWidth)
      else
        var tw := ClampWidth(total, maxWidth, minW);
        Success(Layout(tw, InitialColWidths(widths, total, tw - 1)))
  }

  /** A layout that succeeds has the clamped width: never below the minimum,
      never above the maximum when the two bounds are consistent, and exactly
      the content width when that lies between them. */
  lemma LayoutWidth(columns: seq<seq<string>>, width: Option<int>, maxWidth: int, minWidth: Option<int>)
    requires ComputeLayout(columns, width, maxWidth, minWidth).Success?
    ensures var tw := ComputeLayout(columns, width, maxWidth, minWidth).value.tableWidth;
      var minW := MinWidth(|columns|, width, minWidth);
      var total := TotalWidth(NaturalWidths(columns, MaxColWidth(maxWidth, |columns|)));
      tw == Max(Min(total, maxWidth), minW) &&
      tw >= minW && (minW <= maxWidth ==> tw <= maxWidth)
  {
  }

  /** The columns too narrow to show two characters (line 114), in order. */
  function Collapsed(cw: seq<int>): (r: seq<nat>)
    ensures forall k :: 0 <= k < |r| ==> r[k] < |cw| && cw[r[k]] < 4
    ensures forall k, l :: 0 <= k < l < |r| ==> r[k] < r[l]
  {
    if cw == [] then []
    else
      var prefix := Collapsed(cw[..|cw| - 1]);
      if cw[|cw| - 1] < 4 then prefix + [|cw| - 1] else prefix
  }

  /** Every column narrower than 4 is collapsed. */
  lemma {:induction false} CollapsedComplete(cw: seq<int>, i: nat)
    requires i < |cw| && cw[i] < 4
    ensures i in Collapsed(cw)
  {
    if i < |cw| - 1 {
      CollapsedComplete(cw[..|cw| - 1], i);
    }
  }

  /** `extra[0]` (lines 115-118): the pairs `(w, i)` of the other columns
      sorted by width with a stable sort, so the first is the narrowest
      column of width at least 4, the leftmost among equal widths. `None`
      when `extra` is empty. */
  function Donor(cw: seq<int>): (d: Option<nat>)
    ensures d.None? <==> forall j :: 0 <= j < |cw| ==> cw[j] < 4
    ensures d.Some? ==> d.value < |cw| && cw[d.value] >= 4
    ensures d.Some? ==> forall j :: 0 <= j < |cw| && cw[j] >= 4 ==> cw[d.value] <= cw[j]
    ensures d.Some? ==> forall j :: 0 <= j < d.value && cw[j] >= 4 ==> cw[d.value] < cw[j]
  {
    if cw == [] then None
    else
      var prefix := cw[..|cw| - 1];
      var d := Donor(prefix);
      var last := cw[|cw| - 1];
      if last >= 4 && (d.None? || last < prefix[d.value]) then Some(|cw| - 1)
      else d
  }

  /** The collapse pass can borrow for every collapsed column: a donor exists
      and its original width exceeds each collapsed width by more than 2
      (the assertion on line 120, against tuples that are never refreshed). */
  predicate CanBorrow(cw: seq<int>)
  {
    var d := Donor(cw);
    d.Some? && forall i :: 0 <= i < |cw| && cw[i] < 4 ==> cw[d.value] - cw[i] > 2
  }

  /** `col_widths` after the first `k` iterations of the loop on lines
      119-124 with donor `d`: each step lowers the donor to its original
      width minus the padding and raises the collapsed column by the padding. */
  function Borrowed(cw: seq<int>, d: nat, collapsed: seq<nat>, k: nat): (r: seq<int>)
    requires d < |cw| && k <= |collapsed|
    requires forall j :: 0 <= j < |collapsed| ==> collapsed[j] < |cw|
    ensures |r| == |cw|
  {
    if k == 0 then cw
    else
      var i := collapsed[k - 1];
      var padding := 2 - cw[i];
      Borrowed(cw, d, collapsed, k - 1)[d := cw[d] - padding][i := cw[i] + padding]
  }

  /** After `k > 0` steps the donor holds its original width minus the last
      padding, every collapsed column visited holds 2, and every other column
      is untouched. */
  lemma {:induction false} BorrowedShape(cw: seq<int>, d: nat, collapsed: seq<nat>, k: nat)
    requires d < |cw| && k <= |collapsed|
    requires forall j :: 0 <= j < |collapsed| ==> collapsed[j] < |cw| && collapsed[j] != d
    ensures var r := Borrowed(cw, d, collapsed, k);
      (k > 0 ==> r[d] == cw[d] - (2 - cw[collapsed[k - 1]])) &&
      (forall j :: 0 <= j < k ==> r[collapsed[j]] == 2) &&
      (forall i :: 0 <= i < |cw| && i != d && (forall j :: 0 <= j < k ==> collapsed[j] != i) ==> r[i] == cw[i])
  {
    if k > 0 {
      BorrowedShape(cw, d, collapsed, k - 1);
    }
  }

  /** After the whole pass the donor holds its original width minus the
      padding of the last collapsed column, every collapsed column holds 2,
      and every other column keeps its width. */
  lemma CollapseOutcome(cw: seq<int>)
    requires Collapsed(cw) != [] && Donor(cw).Some?
    ensures var d := Donor(cw).value;
      var collapsed := Collapsed(cw);
      var r := Borrowed(cw, d, collapsed, |collapsed|);
      r[d] == cw[d] - (2 - cw[collapsed[|collapsed| - 1]]) &&
      forall i :: 0 <= i < |cw| && i != d ==> r[i] == if cw[i] < 4 then 2 else cw[i]
  {
    var d := Donor(cw).value;
    var collapsed := Collapsed(cw);
    BorrowedShape(cw, d, collapsed, |collapsed|);
    var r := Borrowed(cw, d, collapsed, |collapsed|);
    forall i | 0 <= i < |cw| && i != d
      ensures r[i] == if cw[i] < 4 then 2 else cw[i]
    {
      if cw[i] < 4 {
        CollapsedComplete(cw, i);
        var j :| 0 <= j < |collapsed| && collapsed[j] == i;
      }
    }
  }

  /** Passing the check of line 120 for every collapsed column is `CanBorrow`. */
  lemma BorrowChecked(cw: seq<int>)
    requires Donor(cw).Some?
    requires forall j :: 0 <= j < |Collapsed(cw)| ==> cw[Donor(cw).value] - cw[Collapsed(cw)[j]] > 2
    ensures CanBorrow(cw)
  {
    var collapsed := Collapsed(cw);
    forall i | 0 <= i < |cw| && cw[i] < 4
      ensures cw[Donor(cw).value] - cw[i] > 2
    {
      CollapsedComplete(cw, i);
      var j :| 0 <= j < |collapsed| && collapsed[j] == i;
    }
  }

  /** The donor exists and exceeds each of the first `k` collapsed widths by more than 2. */
  predicate Covers(colWidths: seq<int>, collapsed: seq<nat>, extra: Option<nat>, k: nat)
    requires k <= |collapsed|
    requires forall j :: 0 <= j < |collapsed| ==> collapsed[j] < |colWidths|
    requires extra.Some? ==> extra.value < |colWidths|
  {
    k > 0 ==> extra.Some? && forall j :: 0 <= j < k ==> colWidths[extra.value] - colWidths[collapsed[j]] > 2
  }

  /** The loop of lines 119-124, exactly as written: for each collapsed column
      `(i, w)` it checks that the donor `extra[0]` exceeds `w` by more than
      2, sets the donor to `extra[0][0] - (2 - w)` and the collapsed column
      to `w + (2 - w)`, that is 2. The donor entry is never updated, so every
      step reads the donor's original width, and the re-sort on line 124
      sorts an unchanged list. */
  method BorrowLoop(colWidths: seq<int>, collapsed: seq<nat>, extra: Option<nat>) returns (r: Result<seq<int>>)
    requires forall j :: 0 <= j < |collapsed| ==> collapsed[j] < |colWidths|
    requires extra.Some? ==> extra.value < |colWidths|
    ensures r.Failure? ==>
      r.error == NoExtraToBorrow && collapsed != [] &&
      (extra.None? || exists j :: 0 <= j < |collapsed| && colWidths[extra.value] - colWidths[collapsed[j]] <= 2)
    ensures r.Success? ==>
      Covers(colWidths, collapsed, extra, |collapsed|) &&
      r.value == if extra.Some? then Borrowed(colWidths, extra.value, collapsed, |collapsed|) else colWidths
  {
    var cw := colWidths;
    var k := 0;
    while k < |collapsed|
      invariant k <= |collapsed|
      invariant Covers(colWidths, collapsed, extra, k)
      invariant cw == if extra.Some? then Borrowed(colWidths, extra.value, collapsed, k) else colWidths
    {
      var i := collapsed[k];
      var w := colWidths[i];
      if extra.None? || colWidths[extra.value] - w <= 2 {
        return Failure(NoExtraToBorrow);
      }
      var d := extra.value;
      var padding := 2 - w;
      cw := cw[d := colWidths[d] - padding];
      cw := cw[i := w + padding];
      k := k + 1;
    }
    return Success(cw);
  }

  /** `col_widths` after the collapse pass, when it passes line 120. */
  function FinalWidths(cw: seq<int>): (r: seq<int>)
    requires Collapsed(cw) == [] || CanBorrow(cw)
    ensures |r| == |cw|
  {
    if Collapsed(cw) == [] then cw
    else Borrowed(cw, Donor(cw).value, Collapsed(cw), |Collapsed(cw)|)
  }

  /** Lines 114-124: the collapsed columns and the donor, then the borrowing
      loop. It fails exactly when some column is collapsed and the donor
      cannot cover one of them; otherwise every collapsed column ends at 2,
      the donor at its width minus the last padding, and the rest unchanged. */
  method CollapsePass(colWidths: seq<int>) returns (r: Result<seq<int>>)
    ensures r.Failure? <==> Collapsed(colWidths) != [] && !CanBorrow(colWidths)
    ensures r.Failure? ==> r.error == NoExtraToBorrow
    ensures Collapsed(colWidths) == [] ==> r == Success(colWidths)
    ensures r.Success? && Collapsed(colWidths) != [] ==>
      var d := Donor(colWidths).value;
      var collapsed := Collapsed(colWidths);
      var lastW := colWidths[collapsed[|collapsed| - 1]];
      |r.value| == |colWidths| &&
      r.value[d] == colWidths[d] - (2 - lastW) &&
      forall i :: 0 <= i < |colWidths| && i != d ==>
        r.value[i] == if colWidths[i] < 4 then 2 else colWidths[i]
    ensures r.Success? ==> (Collapsed(colWidths) == [] || CanBorrow(colWidths)) && r.value == FinalWidths(colWidths)
  {
    var collapsed := Collapsed(colWidths);
    var extra := Donor(colWidths);
    r := BorrowLoop(colWidths, collapsed, extra);
    if r.Success? && collapsed != [] {
      CollapseOutcome(colWidths);
      BorrowChecked(colWidths);
    }
  }
}
