/** String and sequence helpers shared by the renderers: Python's string
    repetition, `str.split` on one separator, `str.join`, concatenation of a
    list of strings, and the maximum and sum accumulators the source builds
    up in its loops. Printed length is modelled as plain length `|s|`. */
module Text {

  function Max(a: int, b: int): int { if a >= b then a else b }

  function Min(a: int, b: int): int { if a <= b then a else b }

  /** Python's `int(x)` on a float, taken as an exact real: rounds toward zero. */
  function Trunc(x: real): (r: int)
    ensures x >= 0.0 ==> 0 <= r && r as real <= x < r as real + 1.0
    ensures x < 0.0 ==> r <= 0 && r as real - 1.0 < x <= r as real
  {
    if x >= 0.0 then x.Floor else -((-x).Floor)
  }

  lemma TruncMonotone(x: real, y: real)
    requires 0.0 <= x <= y
    ensures Trunc(x) <= Trunc(y)
  {
    assert Trunc(x) as real <= y < Trunc(y) as real + 1.0;
  }

  /** Python's `c * n` for a one-character string `c`: `n` copies, none when `n <= 0`. */
  function Fill(c: char, n: int): (r: string)
    ensures |r| == Max(n, 0)
    ensures forall k :: 0 <= k < |r| ==> r[k] == c
    decreases Max(n, 0)
  {
    if n <= 0 then "" else [c] + Fill(c, n - 1)
  }

  /** Python's `s.split(sep)`: the pieces between occurrences of `sep`,
      so there is always one more piece than separators. */
  function Split(s: string, sep: char): (r: seq<string>)
    ensures |r| >= 1
    ensures forall i :: 0 <= i < |r| ==> sep !in r[i]
  {
    if s == [] then [""]
    else
      var rest := Split(s[1..], sep);
      if s[0] == sep then [""] + rest
      else [[s[0]] + rest[0]] + rest[1..]
  }

  /** Python's `sep.join(parts)`. */
  function Join(parts: seq<string>, sep: char): string
  {
    if |parts| == 0 then ""
    else if |parts| == 1 then parts[0]
    else parts[0] + [sep] + Join(parts[1..], sep)
  }

  /** Concatenation of a sequence of sequences (`"".join(lines)` for strings). */
  function Flatten<T>(xss: seq<seq<T>>): seq<T>
  {
    if xss == [] then [] else xss[0] + Flatten(xss[1..])
  }

  /** Python's `s[:-1]`. */
  function DropLast(s: string): string
  {
    if s == [] then s else s[..|s| - 1]
  }

  /** The accumulator `longest = max(longest, len(x))` started at 0. */
  function MaxLen(ss: seq<string>): (r: int)
    ensures r >= 0
    ensures forall i :: 0 <= i < |ss| ==> |ss[i]| <= r
    ensures |ss| > 0 ==> exists i :: 0 <= i < |ss| && |ss[i]| == r
  {
    if |ss| == 0 then 0 else Max(MaxLen(ss[..|ss| - 1]), |ss[|ss| - 1]|)
  }

  /** Python's `sum(xs)`. */
  function Sum(xs: seq<int>): int
  {
    if xs == [] then 0 else Sum(xs[..|xs| - 1]) + xs[|xs| - 1]
  }

  /** Python's `max(len(x) for x in xss)` (0 for an empty list, where Python raises). */
  function MaxCount<T>(xss: seq<seq<T>>): (r: nat)
    ensures forall i :: 0 <= i < |xss| ==> |xss[i]| <= r
    ensures |xss| > 0 ==> exists i :: 0 <= i < |xss| && |xss[i]| == r
  {
    if |xss| == 0 then 0
    else
      var m := MaxCount(xss[..|xss| - 1]);
      if m >= |xss[|xss| - 1]| then m else |xss[|xss| - 1]|
  }

  lemma {:induction false} JoinSplit(s: string, sep: char)
    ensures Join(Split(s, sep), sep) == s
  {
    if s != [] {
      JoinSplit(s[1..], sep);
      var rest := Split(s[1..], sep);
      if s[0] == sep {
        assert Split(s, sep) == [""] + rest;
        assert ([""] + rest)[1..] == rest;
      } else {
        var parts := Split(s, sep);
        assert parts == [[s[0]] + rest[0]] + rest[1..];
        if |rest| == 1 {
          assert s == [s[0]] + s[1..];
        } else {
          assert parts[1..] == rest[1..];
          assert Join(rest, sep) == rest[0] + [sep] + Join(rest[1..], sep);
          assert s == [s[0]] + s[1..];
        }
      }
    }
  }

  /** Splitting never invents a character: a character absent from `s` is absent from every piece. */
  lemma {:induction false} SplitAvoids(s: string, sep: char, c: char)
    requires c !in s
    ensures forall i :: 0 <= i < |Split(s, sep)| ==> c !in Split(s, sep)[i]
  {
    if s != [] {
      assert c !in s[1..];
      SplitAvoids(s[1..], sep, c);
    }
  }

  lemma {:induction false} FlattenAppend<T>(a: seq<seq<T>>, b: seq<seq<T>>)
    ensures Flatten(a + b) == Flatten(a) + Flatten(b)
  {
    if a != [] {
      assert (a + b)[1..] == a[1..] + b;
      FlattenAppend(a[1..], b);
    } else {
      assert a + b == b;
    }
  }

  lemma AppendAssoc<T>(a: seq<T>, b: seq<T>, c: seq<T>)
    ensures (a + b) + c == a + (b + c)
  {
  }

  lemma TakeAll<T>(s: seq<T>)
    ensures s[..|s|] == s
  {
  }

  lemma FlattenSnoc<T>(a: seq<seq<T>>, x: seq<T>)
    ensures Flatten(a + [x]) == Flatten(a) + x
  {
    FlattenAppend(a, [x]);
    assert Flatten([x]) == x + Flatten([]);
  }

  lemma {:induction false} SumAppend(a: seq<int>, b: seq<int>)
    ensures Sum(a + b) == Sum(a) + Sum(b)
    decreases |b|
  {
    if b != [] {
      assert (a + b)[..|a + b| - 1] == a + b[..|b| - 1];
      SumAppend(a, b[..|b| - 1]);
    } else {
      assert a + b == a;
    }
  }

  /** A bound on every member survives concatenation. */
  lemma AppendWithin(a: seq<string>, b: seq<string>, n: int)
    requires forall i :: 0 <= i < |a| ==> |a[i]| <= n
    requires forall i :: 0 <= i < |b| ==> |b[i]| <= n
    ensures forall i :: 0 <= i < |a + b| ==> |(a + b)[i]| <= n
  {
    assert forall i :: |a| <= i < |a + b| ==> (a + b)[i] == b[i - |a|];
  }

  lemma {:induction false} MaxLenAppend(a: seq<string>, b: seq<string>)
    ensures MaxLen(a + b) == Max(MaxLen(a), MaxLen(b))
    decreases |b|
  {
    if b != [] {
      assert (a + b)[..|a + b| - 1] == a + b[..|b| - 1];
      MaxLenAppend(a, b[..|b| - 1]);
    } else {
      assert a + b == a;
    }
  }

  /** `sep.join` of the joined groups is the join of all their elements, when no group is empty. */
  lemma {:induction false} JoinFlatten(groups: seq<seq<string>>, sep: char)
    requires forall i :: 0 <= i < |groups| ==> groups[i] != []
    ensures Join(seq(|groups|, i requires 0 <= i < |groups| => Join(groups[i], sep)), sep)
         == Join(Flatten(groups), sep)
  {
    var joined := seq(|groups|, i requires 0 <= i < |groups| => Join(groups[i], sep));
    if |groups| == 1 {
      assert Flatten(groups) == groups[0] + Flatten(groups[1..]);
      assert groups[1..] == [];
      assert Flatten(groups) == groups[0];
    } else if |groups| > 1 {
      var tail := groups[1..];
      JoinFlatten(tail, sep);
      var joinedTail := seq(|tail|, i requires 0 <= i < |tail| => Join(tail[i], sep));
      assert joined[1..] == joinedTail;
      assert Flatten(groups) == groups[0] + Flatten(tail);
      assert Flatten(tail) != [] by {
        assert Flatten(tail) == tail[0] + Flatten(tail[1..]);
      }
      JoinAppend(groups[0], Flatten(tail), sep);
    }
  }

  /** Joining two non-empty lists puts one separator between their joins. */
  lemma {:induction false} JoinAppend(a: seq<string>, b: seq<string>, sep: char)
    requires a != [] && b != []
    ensures Join(a + b, sep) == Join(a, sep) + [sep] + Join(b, sep)
  {
    if |a| == 1 {
      assert (a + b)[1..] == b;
    } else {
      assert (a + b)[1..] == a[1..] + b;
      JoinAppend(a[1..], b, sep);
    }
  }
}
