/** Greedy word wrap (`_word_wrap_to_len`, scriptit/shape.py:166-202).

    The line is split on single spaces into tokens. Tokens are packed, each
    followed by one space, onto a subline while the subline stays within
    `maxLen`; a token too long for any line is hard-split with a `-` marker;
    the trailing space of every subline is then dropped.

    `Pack` is the inner loop and `Lines` the outer loop as functions; the
    method `WordWrapToLen` runs the loops over a mutable token list and is
    proved to compute `Wrapped`. */
module WordWrap {
  import opened Text

  /** Every token fits on a line of its own. */
  predicate AllFit(words: seq<string>, maxLen: int)
  {
    forall i :: 0 <= i < |words| ==> |words[i]| <= maxLen
  }

  /** Every pass of the outer loop consumes something: either a split leaves
      room for at least one character (`maxLen >= 2`) or no split is needed. */
  predicate Wrappable(words: seq<string>, maxLen: int)
  {
    maxLen >= 2 || AllFit(words, maxLen)
  }

  /** The inputs on which the source's loops stop: the line fits already, or
      its tokens are wrappable. With `maxLen <= 1` and a token longer than
      `maxLen`, the `cutoff <= 0` break leaves the token list unchanged and
      the outer loop never ends. */
  predicate Terminates(line: string, maxLen: int)
  {
    |line| <= maxLen || Wrappable(Split(line, ' '), maxLen)
  }

  function TotalLen(words: seq<string>): nat
  {
    if words == [] then 0 else |words[0]| + TotalLen(words[1..])
  }

  /** Tokens plus characters still to be packed. */
  function Measure(words: seq<string>): nat
  {
    |words| + TotalLen(words)
  }

  /** The inner loop (scriptit/shape.py:186-198) run on the token list `words`
      with the subline built so far; it returns the final subline (still with
      its trailing space) and the tokens left over. */
  function Pack(words: seq<string>, subline: string, maxLen: int): (r: (string, seq<string>))
    ensures Measure(r.1) <= Measure(words)
    ensures |r.0| >= |subline|
    ensures |r.0| > |subline| ==> Measure(r.1) < Measure(words)
    ensures |subline| <= maxLen + 1 ==> |r.0| <= maxLen + 1
    ensures subline == "" && words != [] && (maxLen >= 2 || |words[0]| <= maxLen) ==> r.0 != ""
    ensures AllFit(words, maxLen) ==> AllFit(r.1, maxLen)
    decreases Measure(words)
  {
    if words == [] then (subline, words)
    else if |subline| + |words[0]| <= maxLen then
      Pack(words[1..], subline + words[0] + " ", maxLen)
    else if |words[0]| > maxLen then
      var cutoff := maxLen - |subline| - 1;
      if cutoff <= 0 then (subline, words)
      else
        var rest := [words[0][cutoff..]] + words[1..];
        assert rest[1..] == words[1..];
        Pack(rest, subline + words[0][..cutoff] + "- ", maxLen)
    else (subline, words)
  }

  /** The outer loop (scriptit/shape.py:184-201): one subline per pass, with
      its trailing character dropped. */
  function Lines(words: seq<string>, maxLen: int): (r: seq<string>)
    requires Wrappable(words, maxLen)
    ensures |r| == 0 <==> words == []
    ensures forall i :: 0 <= i < |r| ==> |r[i]| <= maxLen
    decreases Measure(words)
  {
    if words == [] then []
    else
      var p := Pack(words, "", maxLen);
      [DropLast(p.0)] + Lines(p.1, maxLen)
  }

  /** The sublines `_word_wrap_to_len(line, maxLen)` returns. */
  function Wrapped(line: string, maxLen: int): (r: seq<string>)
    requires Terminates(line, maxLen)
    ensures |r| >= 1
    ensures forall i :: 0 <= i < |r| ==> |r[i]| <= maxLen
  {
    if |line| <= maxLen then [line] else Lines(Split(line, ' '), maxLen)
  }

  /** `_word_wrap_to_len` (scriptit/shape.py:166-202): the nested loops
      over a token list that shrinks from the front, with the subline,
      sublines and longest accumulators. */
  method WordWrapToLen(line: string, maxLen: int) returns (sublines: seq<string>, longest: int)
    requires Terminates(line, maxLen)
    ensures sublines == Wrapped(line, maxLen)
    ensures |line| <= maxLen ==> sublines == [line] && longest == |line|
    ensures |sublines| >= 1
    ensures forall i :: 0 <= i < |sublines| ==> |sublines[i]| <= maxLen
    ensures 0 <= longest <= maxLen
    ensures forall i :: 0 <= i < |sublines| ==> |sublines[i]| <= longest
    ensures exists i :: 0 <= i < |sublines| && |sublines[i]| == longest
    ensures longest == MaxLen(sublines)
  {
    if |line| <= maxLen {
      sublines, longest := [line], |line|;
      assert |sublines[0]| == longest;
      assert sublines[..0] == [];
      return;
    }
    sublines, longest := WrapLoop(Split(line, ' '), maxLen);
  }

  /** The outer loop of `_word_wrap_to_len` (scriptit/shape.py:181-202) on
      the token list, with the `sublines` and `longest` accumulators. */
  method WrapLoop(tokens: seq<string>, maxLen: int) returns (sublines: seq<string>, longest: int)
    requires Wrappable(tokens, maxLen)
    ensures sublines == Lines(tokens, maxLen)
    ensures longest == MaxLen(sublines)
  {
    longest := 0;
    sublines := [];
    var words := tokens;
    while |words| > 0
      invariant Wrappable(words, maxLen)
      invariant sublines + Lines(words, maxLen) == Lines(tokens, maxLen)
      invariant longest == MaxLen(sublines)
      decreases Measure(words)
    {
      ghost var start := words;
      var subline;
      subline, words := PackSubline(words, maxLen);
      LinesStep(start, maxLen);
      subline := DropLast(subline);
      MaxLenAppend(sublines, [subline]);
      AppendAssoc(sublines, [subline], Lines(words, maxLen));
      longest := Max(longest, |subline|);
      sublines := sublines + [subline];
    }
    assert sublines + [] == sublines;
  }

  lemma LinesStep(words: seq<string>, maxLen: int)
    requires words != [] && Wrappable(words, maxLen)
    ensures var p := Pack(words, "", maxLen);
      Wrappable(p.1, maxLen) && Lines(words, maxLen) == [DropLast(p.0)] + Lines(p.1, maxLen)
  {
  }

  /** One pass of the inner loop of `_word_wrap_to_len` (scriptit/shape.py:185-198),
      from an empty subline: tokens are consumed from the front of the list
      and the subline is returned with its trailing space. */
  method PackSubline(words: seq<string>, maxLen: int) returns (subline: string, rest: seq<string>)
    requires words != [] && Wrappable(words, maxLen)
    ensures (subline, rest) == Pack(words, "", maxLen)
    ensures Wrappable(rest, maxLen)
    ensures Measure(rest) < Measure(words)
    ensures 0 < |subline| <= maxLen + 1
  {
    subline, rest := "", words;
    while |rest| > 0
      invariant Wrappable(rest, maxLen)
      invariant Pack(rest, subline, maxLen) == Pack(words, "", maxLen)
      decreases Measure(rest)
    {
      if |subline| + |rest[0]| <= maxLen {
        subline := subline + rest[0] + " ";
        rest := rest[1..];
      } else if |rest[0]| > maxLen {
        var cutoff := maxLen - |subline| - 1;
        if cutoff <= 0 {
          break;
        } else {
          subline := subline + rest[0][..cutoff] + "- ";
          ghost var before := rest;
          rest := rest[0 := rest[0][cutoff..]];
          assert rest == [before[0][cutoff..]] + before[1..];
        }
      } else {
        break;
      }
    }
  }

  /** Number of tokens packed greedily onto a subline already holding `used`
      characters, when every token fits on a line of its own. */
  function Taken(words: seq<string>, used: int, maxLen: int): (k: nat)
    ensures k <= |words|
    ensures words != [] && used + |words[0]| <= maxLen ==> k >= 1
  {
    if words == [] then 0
    else if used + |words[0]| <= maxLen then 1 + Taken(words[1..], used + |words[0]| + 1, maxLen)
    else 0
  }

  /** Each token followed by one space, as the inner loop appends them. */
  function Spaced(words: seq<string>): string
  {
    if words == [] then "" else words[0] + " " + Spaced(words[1..])
  }

  /** The token groups that form the sublines when no token needs a split. */
  function Groups(words: seq<string>, maxLen: int): (g: seq<seq<string>>)
    requires AllFit(words, maxLen)
    decreases |words|
  {
    if words == [] then []
    else
      var k := Taken(words, 0, maxLen);
      [words[..k]] + Groups(words[k..], maxLen)
  }

  lemma {:induction false} SpacedJoin(words: seq<string>)
    requires words != []
    ensures Spaced(words) == Join(words, ' ') + " "
  {
    if |words| > 1 {
      SpacedJoin(words[1..]);
    } else {
      assert words[1..] == [];
    }
  }

  /** Without oversize tokens, the inner loop only appends whole tokens,
      as many as fit. */
  lemma {:induction false} PackFitting(words: seq<string>, subline: string, maxLen: int)
    requires AllFit(words, maxLen)
    ensures var k := Taken(words, |subline|, maxLen);
      Pack(words, subline, maxLen) == (subline + Spaced(words[..k]), words[k..])
    decreases |words|
  {
    if words != [] && |subline| + |words[0]| <= maxLen {
      var next := subline + words[0] + " ";
      PackFitting(words[1..], next, maxLen);
      var k' := Taken(words[1..], |next|, maxLen);
      var k := Taken(words, |subline|, maxLen);
      assert k == 1 + k';
      assert words[..k][0] == words[0];
      assert words[..k][1..] == words[1..][..k'];
      assert words[k..] == words[1..][k'..];
      assert Spaced(words[..k]) == words[0] + " " + Spaced(words[1..][..k']);
      assert Pack(words, subline, maxLen) == Pack(words[1..], next, maxLen);
      assert subline + Spaced(words[..k]) == next + Spaced(words[1..][..k']);
    } else {
      assert Taken(words, |subline|, maxLen) == 0;
      assert words[..0] == [];
      assert words[0..] == words;
      assert subline + Spaced([]) == subline;
    }
  }

  /** The token groups are non-empty and together make up the token list. */
  lemma {:induction false} GroupsPartition(words: seq<string>, maxLen: int)
    requires AllFit(words, maxLen)
    ensures var g := Groups(words, maxLen);
      Flatten(g) == words && forall i :: 0 <= i < |g| ==> g[i] != []
    decreases |words|
  {
    if words != [] {
      var k := Taken(words, 0, maxLen);
      GroupsPartition(words[k..], maxLen);
      var g := Groups(words, maxLen);
      assert g[1..] == Groups(words[k..], maxLen);
      assert words[..k] + words[k..] == words;
    }
  }

  /** Without oversize tokens, the first subline is the first group joined. */
  lemma FirstLine(words: seq<string>, maxLen: int)
    requires words != [] && AllFit(words, maxLen)
    ensures var k := Taken(words, 0, maxLen);
      Lines(words, maxLen) == [Join(words[..k], ' ')] + Lines(words[k..], maxLen)
  {
    var k := Taken(words, 0, maxLen);
    var sp := Spaced(words[..k]);
    var j := Join(words[..k], ' ');
    assert Pack(words, "", maxLen) == (sp, words[k..]) by {
      PackFitting(words, "", maxLen);
      assert "" + sp == sp;
    }
    assert DropLast(sp) == j by {
      SpacedJoin(words[..k]);
      assert (j + " ")[..|j|] == j;
    }
    LinesStep(words, maxLen);
  }

  /** Without oversize tokens, the sublines are the joins of contiguous,
      non-empty groups of tokens that together make up the token list. */
  lemma {:induction false} LinesAreGroups(words: seq<string>, maxLen: int)
    requires AllFit(words, maxLen)
    ensures var g := Groups(words, maxLen); var ls := Lines(words, maxLen);
      Flatten(g) == words && |g| == |ls| &&
      forall i :: 0 <= i < |g| ==> g[i] != [] && ls[i] == Join(g[i], ' ')
    decreases |words|
  {
    GroupsPartition(words, maxLen);
    if words != [] {
      var k := Taken(words, 0, maxLen);
      FirstLine(words, maxLen);
      LinesAreGroups(words[k..], maxLen);
      assert Groups(words, maxLen) == [words[..k]] + Groups(words[k..], maxLen);
    }
  }

  /** With `maxLen <= 1` and a token that does not fit, the inner loop
      leaves such a token behind: either it stops at it, or the `cutoff <= 0`
      break keeps it whole. */
  lemma PackStuck(words: seq<string>, subline: string, maxLen: int)
    requires maxLen <= 1 && !AllFit(words, maxLen)
    ensures !AllFit(Pack(words, subline, maxLen).1, maxLen)
    decreases Measure(words)
  {
    if |subline| + |words[0]| <= maxLen {
      var i :| 0 <= i < |words| && |words[i]| > maxLen;
      assert i > 0;
      assert |words[1..][i - 1]| > maxLen;
      PackStuck(words[1..], subline + words[0] + " ", maxLen);
    }
  }

  /** Outside `Wrappable`, one pass of the outer loop leaves tokens that are
      still outside it. */
  lemma OuterStuck(words: seq<string>, maxLen: int)
    requires words != [] && !Wrappable(words, maxLen)
    ensures var rest := Pack(words, "", maxLen).1; rest != [] && !Wrappable(rest, maxLen)
  {
    PackStuck(words, "", maxLen);
  }

  /** The tokens left after `k` passes of the outer loop. */
  function Passes(words: seq<string>, maxLen: int, k: nat): seq<string>
    decreases k
  {
    if k == 0 then words else Passes(Pack(words, "", maxLen).1, maxLen, k - 1)
  }

  /** Outside `Terminates` the outer loop never ends (lines 184-201): after
      any number of passes the token list is still not empty. */
  lemma {:induction false} NeverEnds(line: string, maxLen: int, k: nat)
    requires !Terminates(line, maxLen)
    ensures Passes(Split(line, ' '), maxLen, k) != []
  {
    StuckPasses(Split(line, ' '), maxLen, k);
  }

  lemma {:induction false} StuckPasses(words: seq<string>, maxLen: int, k: nat)
    requires words != [] && !Wrappable(words, maxLen)
    ensures Passes(words, maxLen, k) != []
    decreases k
  {
    if k > 0 {
      OuterStuck(words, maxLen);
      StuckPasses(Pack(words, "", maxLen).1, maxLen, k - 1);
    }
  }

  /** Wrapping a line that already fits returns it alone; every subline fits. */
  lemma WrapFits(line: string, maxLen: int)
    requires |line| <= maxLen
    ensures Terminates(line, maxLen)
    ensures Wrapped(line, maxLen) == [line]
  {
  }

  /** When no token is longer than `maxLen` the sublines are contiguous
      groups of the line's tokens, so joining them with single spaces gives
      the line back. */
  lemma {:induction false} WrapRoundTrip(line: string, maxLen: int)
    requires AllFit(Split(line, ' '), maxLen)
    ensures Terminates(line, maxLen)
    ensures Join(Wrapped(line, maxLen), ' ') == line
  {
    JoinSplit(line, ' ');
    if |line| > maxLen {
      var words := Split(line, ' ');
      LinesAreGroups(words, maxLen);
      var g := Groups(words, maxLen);
      var ls := Lines(words, maxLen);
      JoinFlatten(g, ' ');
      assert ls == seq(|g|, i requires 0 <= i < |g| => Join(g[i], ' '));
    } else {
      assert Wrapped(line, maxLen) == [line];
    }
  }

  /** The partition behind the round trip, for a line that needs wrapping. */
  lemma WrapPartition(line: string, maxLen: int)
    requires |line| > maxLen && AllFit(Split(line, ' '), maxLen)
    ensures Terminates(line, maxLen)
    ensures var g := Groups(Split(line, ' '), maxLen); var ls := Wrapped(line, maxLen);
      Flatten(g) == Split(line, ' ') && |g| == |ls| &&
      forall i :: 0 <= i < |g| ==> g[i] != [] && ls[i] == Join(g[i], ' ')
  {
    LinesAreGroups(Split(line, ' '), maxLen);
  }
  /** Wrapping only adds spaces and `-` markers: any other character absent
      from the line is absent from every subline. */
  lemma {:induction false} PackAvoids(words: seq<string>, subline: string, maxLen: int, c: char)
    requires c != ' ' && c != '-' && c !in subline
    requires forall i :: 0 <= i < |words| ==> c !in words[i]
    ensures var r := Pack(words, subline, maxLen);
      c !in r.0 && forall i :: 0 <= i < |r.1| ==> c !in r.1[i]
    decreases Measure(words)
  {
    if words != [] {
      if |subline| + |words[0]| <= maxLen {
        PackAvoids(words[1..], subline + words[0] + " ", maxLen, c);
      } else if |words[0]| > maxLen && maxLen - |subline| - 1 > 0 {
        var cutoff := maxLen - |subline| - 1;
        var rest := [words[0][cutoff..]] + words[1..];
        assert c !in words[0][cutoff..] && c !in words[0][..cutoff] by {
          assert words[0] == words[0][..cutoff] + words[0][cutoff..];
        }
        PackAvoids(rest, subline + words[0][..cutoff] + "- ", maxLen, c);
      }
    }
  }

  lemma {:induction false} LinesAvoid(words: seq<string>, maxLen: int, c: char)
    requires Wrappable(words, maxLen) && c != ' ' && c != '-'
    requires forall i :: 0 <= i < |words| ==> c !in words[i]
    ensures forall i :: 0 <= i < |Lines(words, maxLen)| ==> c !in Lines(words, maxLen)[i]
    decreases Measure(words)
  {
    if words != [] {
      var p := Pack(words, "", maxLen);
      PackAvoids(words, "", maxLen, c);
      assert c !in DropLast(p.0);
      LinesAvoid(p.1, maxLen, c);
    }
  }

  lemma WrappedAvoids(line: string, maxLen: int, c: char)
    requires Terminates(line, maxLen) && c != ' ' && c != '-' && c !in line
    ensures forall i :: 0 <= i < |Wrapped(line, maxLen)| ==> c !in Wrapped(line, maxLen)[i]
  {
    if |line| > maxLen {
      SplitAvoids(line, ' ', c);
      LinesAvoid(Split(line, ' '), maxLen, c);
    }
  }
}
