/** Progress bar (`progress_bar`, scriptit/shape.py:9-36).

    The completion fraction is an exact real; the terminal-width default is
    not modelled, so the width is a parameter. */
module ProgressBar {
  import opened Text

  /** Number of done glyphs: `int((width - 3) * complete_pct)`. */
  function DoneCount(completePct: real, width: int): int
  {
    Trunc((width - 3) as real * completePct)
  }

  /** `progress_bar(complete_pct, width, done_char, undone_char, head_char)`;
      the three glyph assertions become the precondition. */
  function Bar(completePct: real, width: int, done: string, undone: string, head: string): (r: string)
    requires |done| == 1 && |undone| == 1 && |head| == 1
    ensures width >= 3 && 0.0 <= completePct <= 1.0 ==> |r| == width
    ensures |r| >= 3 && r[0] == '[' && r[|r| - 1] == ']'
  {
    var nDone := DoneCount(completePct, width);
    var nUndone := width - 3 - nDone;
    var r := "[" + Fill(done[0], nDone) + head + Fill(undone[0], nUndone) + "]";
    if width >= 3 && 0.0 <= completePct <= 1.0 then DoneCountRange(completePct, width); r else r
  }

  /** For a fraction in [0, 1] the done count is the floor of the scaled
      fraction and lies between 0 and `width - 3`. */
  lemma DoneCountRange(completePct: real, width: int)
    requires width >= 3 && 0.0 <= completePct <= 1.0
    ensures DoneCount(completePct, width) == ((width - 3) as real * completePct).Floor
    ensures 0 <= DoneCount(completePct, width) <= width - 3
  {
    var w := (width - 3) as real;
    assert 0.0 <= w * completePct by {
      assert 0.0 <= w;
    }
    assert w * completePct <= w by {
      assert w * completePct <= w * 1.0;
    }
    var n := DoneCount(completePct, width);
    assert n == (w * completePct).Floor;
    assert n as real <= (width - 3) as real;
  }

  /** The bar reads, position by position: `[`, `n` done glyphs, the head,
      `width - 3 - n` undone glyphs, `]`, with `n = floor((width - 3) * pct)`. */
  lemma BarShape(completePct: real, width: int, done: string, undone: string, head: string)
    requires |done| == 1 && |undone| == 1 && |head| == 1
    requires width >= 3 && 0.0 <= completePct <= 1.0
    ensures var r := Bar(completePct, width, done, undone, head);
      var n := ((width - 3) as real * completePct).Floor;
      0 <= n <= width - 3 && |r| == width &&
      r[0] == '[' && r[n + 1] == head[0] && r[width - 1] == ']' &&
      (forall k :: 1 <= k <= n ==> r[k] == done[0]) &&
      (forall k :: n + 2 <= k < width - 1 ==> r[k] == undone[0])
  {
    DoneCountRange(completePct, width);
    var n := DoneCount(completePct, width);
    var r := Bar(completePct, width, done, undone, head);
    var d, u := Fill(done[0], n), Fill(undone[0], width - 3 - n);
    assert r == "[" + d + head + u + "]";
    forall k | 1 <= k <= n ensures r[k] == done[0] {
      assert r[k] == d[k - 1];
    }
    forall k | n + 2 <= k < width - 1 ensures r[k] == undone[0] {
      assert r[k] == u[k - n - 2];
    }
  }

  /** At 0% no done glyph is drawn. */
  lemma BarEmpty(width: int, done: string, undone: string, head: string)
    requires |done| == 1 && |undone| == 1 && |head| == 1 && width >= 3
    ensures Bar(0.0, width, done, undone, head) == "[" + head + Fill(undone[0], width - 3) + "]"
  {
    assert DoneCount(0.0, width) == 0;
  }

  /** At 100% no undone glyph is drawn. */
  lemma BarFull(width: int, done: string, undone: string, head: string)
    requires |done| == 1 && |undone| == 1 && |head| == 1 && width >= 3
    ensures Bar(1.0, width, done, undone, head) == "[" + Fill(done[0], width - 3) + head + "]"
  {
    assert DoneCount(1.0, width) == width - 3;
  }

  /** More progress never draws fewer done glyphs. */
  lemma DoneCountMonotone(p: real, q: real, width: int)
    requires width >= 3 && 0.0 <= p <= q
    ensures DoneCount(p, width) <= DoneCount(q, width)
  {
    var w := (width - 3) as real;
    assert w * p <= w * q by {
      assert 0.0 <= w;
      assert w * q - w * p == w * (q - p);
    }
    assert 0.0 <= w * p;
    TruncMonotone(w * p, w * q);
  }
}
