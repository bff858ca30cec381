/** Box renderer (`box`, scriptit/shape.py:39-68).

    The text is split on line breaks, each line is wrapped to `width - 4`
    columns, and the wrapped lines are framed by a one-character border whose
    width follows the longest wrapped line. The value is taken as a string
    and the terminal-width default is not modelled. */
module Box {
  import opened Text
  import opened WordWrap

  /** Each of the lines `raw` can be wrapped to `maxLen`. */
  predicate AllTerminate(raw: seq<string>, maxLen: int)
  {
    forall i :: 0 <= i < |raw| ==> Terminates(raw[i], maxLen)
  }

  /** Every line of `x` can be wrapped to `width - 4` (always so when `width >= 6`). */
  predicate Renderable(x: string, width: int)
  {
    AllTerminate(Split(x, '\n'), width - 4)
  }

  /** The wrapped lines of `raw`, in order: what the first loop collects in `lines`. */
  function Content(raw: seq<string>, maxLen: int): (r: seq<string>)
    requires AllTerminate(raw, maxLen)
    ensures |r| >= |raw|
    ensures forall i :: 0 <= i < |r| ==> |r[i]| <= maxLen
  {
    if raw == [] then []
    else
      assert forall i :: 0 <= i < |raw| - 1 ==> raw[..|raw| - 1][i] == raw[i];
      var prefix := Content(raw[..|raw| - 1], maxLen);
      var last := Wrapped(raw[|raw| - 1], maxLen);
      AppendWithin(prefix, last, maxLen);
      prefix + last
  }

  /** Top and bottom border: `char * (longest + 4)` and a newline. */
  function Border(frame: char, longest: int): (b: string)
    ensures |b| == Max(longest + 4, 0) + 1 && b[|b| - 1] == '\n'
    ensures forall k :: 0 <= k < |b| - 1 ==> b[k] == frame
  {
    Fill(frame, longest + 4) + "\n"
  }

  /** One framed content line: `char + " " + line + padding + " " + char` and a newline. */
  function Framed(frame: char, line: string, longest: int): (f: string)
    ensures |f| == Max(longest, |line|) + 5
    ensures f[0] == frame && f[|f| - 2] == frame && f[|f| - 1] == '\n'
    ensures f[2..2 + |line|] == line
  {
    [frame] + " " + line + Fill(' ', longest - |line|) + " " + [frame] + "\n"
  }

  function FramedLines(frame: char, lines: seq<string>, longest: int): (r: seq<string>)
    ensures |r| == |lines|
    ensures forall i :: 0 <= i < |r| ==> r[i] == Framed(frame, lines[i], longest)
  {
    if lines == [] then []
    else FramedLines(frame, lines[..|lines| - 1], longest) + [Framed(frame, lines[|lines| - 1], longest)]
  }

  /** Line `l` is `longest + 4` characters and a newline. */
  predicate Closed(l: string, longest: int)
  {
    0 <= longest && |l| == longest + 5 && l[longest + 4] == '\n'
  }

  /** Line `l` frames `c`: the frame, a space, `c`, spaces up to `longest`,
      a space and the frame. */
  predicate FramesLine(l: string, frame: char, c: string, longest: int)
  {
    |c| <= longest && |l| == longest + 5 &&
    l[0] == frame && l[1] == ' ' && l[longest + 2] == ' ' && l[longest + 3] == frame &&
    l[2..2 + |c|] == c &&
    forall j :: 2 + |c| <= j < longest + 2 ==> l[j] == ' '
  }

  /** No line break before the end of line `l`. */
  predicate Unbroken(l: string, longest: int)
  {
    0 <= longest + 4 <= |l| && '\n' !in l[..longest + 4]
  }

  /** A framed line of content `c` no longer than `longest`, character by character. */
  lemma FramedShape(frame: char, c: string, longest: int)
    requires |c| <= longest
    ensures var f := Framed(frame, c, longest);
      Closed(f, longest) && FramesLine(f, frame, c, longest) &&
      ('\n' !in c && frame != '\n' ==> Unbroken(f, longest))
  {
    var f := Framed(frame, c, longest);
    var pad := Fill(' ', longest - |c|);
    var body := [frame] + " " + c + pad + " " + [frame];
    assert f == body + "\n";
    assert f[..longest + 4] == body;
    assert forall j :: 2 + |c| <= j < longest + 2 ==> body[j] == pad[j - 2 - |c|];
    assert body[2..2 + |c|] == c;
  }

  /** A border line, character by character. */
  lemma BorderShape(frame: char, longest: int)
    requires longest >= 0
    ensures var b := Border(frame, longest);
      Closed(b, longest) && (frame != '\n' ==> Unbroken(b, longest))
  {
    var b := Border(frame, longest);
    assert b[..longest + 4] == Fill(frame, longest + 4);
  }

  /** The lines `box` emits around `content`: a border, the framed lines, a border. */
  function Frame(frame: char, content: seq<string>, longest: int): (ls: seq<string>)
    ensures |ls| == |content| + 2
  {
    [Border(frame, longest)] + FramedLines(frame, content, longest) + [Border(frame, longest)]
  }

  /** The output of `box(x, frame, width)`, one element per output line. */
  function BoxLines(x: string, frame: char, width: int): (ls: seq<string>)
    requires Renderable(x, width)
    ensures |ls| >= 3 && ls[|ls| - 1] == ls[0] && Rectangle(ls)
  {
    var content := Content(Split(x, '\n'), width - 4);
    FrameRectangle(frame, content, MaxLen(content));
    ClosedRectangle(Frame(frame, content, MaxLen(content)), MaxLen(content));
    Frame(frame, content, MaxLen(content))
  }

  /** All lines of `ls` are as long as the first, which is not empty, and end in a newline. */
  predicate Rectangle(ls: seq<string>)
  {
    |ls| >= 1 && |ls[0]| >= 1 &&
    forall k :: 0 <= k < |ls| ==> |ls[k]| == |ls[0]| && ls[k][|ls[0]| - 1] == '\n'
  }

  lemma ClosedRectangle(ls: seq<string>, longest: int)
    requires |ls| >= 1 && forall k :: 0 <= k < |ls| ==> Closed(ls[k], longest)
    ensures Rectangle(ls)
  {
    assert Closed(ls[0], longest);
  }

  /** The first loop of `box` (scriptit/shape.py:56-62): wrap each raw line
      and collect the sublines and the longest subline length. */
  method WrapRawLines(rawLines: seq<string>, maxLen: int) returns (lines: seq<string>, longest: int)
    requires AllTerminate(rawLines, maxLen)
    ensures lines == Content(rawLines, maxLen)
    ensures longest == MaxLen(lines)
  {
    lines := [];
    longest := 0;
    for k := 0 to |rawLines|
      invariant lines == Content(rawLines[..k], maxLen)
      invariant longest == MaxLen(lines)
    {
      var sublines, longestSubline := WordWrapToLen(rawLines[k], maxLen);
      ContentStep(rawLines, k, maxLen);
      MaxLenAppend(lines, sublines);
      lines := lines + sublines;
      longest := Max(longest, longestSubline);
    }
    TakeAll(rawLines);
  }

  /** The second half of `box` (scriptit/shape.py:63-67): the top border, one
      framed line per wrapped line padded to `longest`, the bottom border. */
  method EmitFrame(frame: char, lines: seq<string>, longest: int) returns (out: string)
    ensures out == Flatten(Frame(frame, lines, longest))
  {
    out := Fill(frame, longest + 4) + "\n";
    ghost var emitted := [out];
    assert Flatten(emitted) == out;
    assert lines[..0] == [];
    assert emitted == [Border(frame, longest)] + FramedLines(frame, lines[..0], longest);
    for k := 0 to |lines|
      invariant emitted == [Border(frame, longest)] + FramedLines(frame, lines[..k], longest)
      invariant out == Flatten(emitted)
    {
      var padding := Fill(' ', longest - |lines[k]|);
      var framed := [frame] + " " + lines[k] + padding + " " + [frame] + "\n";
      assert framed == Framed(frame, lines[k], longest);
      FramedLinesStep(frame, lines, k, longest);
      FlattenSnoc(emitted, framed);
      out := out + framed;
      AppendAssoc([Border(frame, longest)], FramedLines(frame, lines[..k], longest), [framed]);
      emitted := emitted + [framed];
    }
    TakeAll(lines);
    var bottom := Fill(frame, longest + 4) + "\n";
    FlattenSnoc(emitted, bottom);
    out := out + bottom;
  }

  /** `box(x, char, width)`: the raw lines are wrapped to `width - 4`, then
      framed between two borders sized by the longest wrapped line. */
  method Box(x: string, frame: char, width: int) returns (out: string)
    requires Renderable(x, width)
    ensures out == Flatten(BoxLines(x, frame, width))
  {
    var lines, longest := WrapRawLines(Split(x, '\n'), width - 4);
    out := EmitFrame(frame, lines, longest);
  }

  lemma ContentStep(raw: seq<string>, k: nat, maxLen: int)
    requires k < |raw|
    requires AllTerminate(raw, maxLen)
    ensures AllTerminate(raw[..k], maxLen) && AllTerminate(raw[..k + 1], maxLen)
    ensures Content(raw[..k + 1], maxLen) == Content(raw[..k], maxLen) + Wrapped(raw[k], maxLen)
  {
    assert raw[..k + 1][..k] == raw[..k];
  }

  lemma FramedLinesStep(frame: char, lines: seq<string>, k: nat, longest: int)
    requires k < |lines|
    ensures FramedLines(frame, lines[..k + 1], longest)
         == FramedLines(frame, lines[..k], longest) + [Framed(frame, lines[k], longest)]
  {
    assert lines[..k + 1][..k] == lines[..k];
  }

  /** Any text can be boxed once the width leaves room for two characters. */
  lemma WideEnough(x: string, width: int)
    requires width >= 6
    ensures Renderable(x, width)
  {
  }

  /** Each content line is exactly one line of the input when no input line
      is longer than `width - 4`. */
  lemma {:induction false} ContentUnwrapped(raw: seq<string>, maxLen: int)
    requires forall i :: 0 <= i < |raw| ==> |raw[i]| <= maxLen
    ensures AllTerminate(raw, maxLen)
    ensures Content(raw, maxLen) == raw
  {
    if raw != [] {
      ContentUnwrapped(raw[..|raw| - 1], maxLen);
      assert raw[..|raw| - 1] + [raw[|raw| - 1]] == raw;
    }
  }

  /** No content line contains a line break. */
  lemma {:induction false} ContentSingleLines(raw: seq<string>, maxLen: int)
    requires AllTerminate(raw, maxLen) && forall i :: 0 <= i < |raw| ==> '\n' !in raw[i]
    ensures forall i :: 0 <= i < |Content(raw, maxLen)| ==> '\n' !in Content(raw, maxLen)[i]
  {
    if raw != [] {
      ContentSingleLines(raw[..|raw| - 1], maxLen);
      WrappedAvoids(raw[|raw| - 1], maxLen, '\n');
    }
  }

  /** Line `k` of the frame around `content`. */
  lemma FrameLineAt(frame: char, content: seq<string>, longest: int, k: nat)
    requires longest >= 0
    requires forall i :: 0 <= i < |content| ==> |content[i]| <= longest
    requires k < |content| + 2
    ensures var l := Frame(frame, content, longest)[k];
      Closed(l, longest) &&
      (1 <= k <= |content| ==> FramesLine(l, frame, content[k - 1], longest)) &&
      (frame != '\n' && (forall i :: 0 <= i < |content| ==> '\n' !in content[i]) ==> Unbroken(l, longest))
  {
    var ls := Frame(frame, content, longest);
    if 1 <= k <= |content| {
      assert ls[k] == FramedLines(frame, content, longest)[k - 1];
      FramedShape(frame, content[k - 1], longest);
    } else {
      assert ls[k] == Border(frame, longest);
      BorderShape(frame, longest);
    }
  }

  /** The frame around content lines no longer than `longest` is a rectangle:
      both borders are `char * (longest + 4)`, every line has `longest + 4`
      characters before its newline, each framed line shows its content
      after the frame and a space, padded with spaces, and no line breaks
      early when neither the frame nor the content holds a line break. */
  lemma FrameRectangle(frame: char, content: seq<string>, longest: int)
    requires longest >= 0
    requires forall i :: 0 <= i < |content| ==> |content[i]| <= longest
    ensures var ls := Frame(frame, content, longest);
      ls[0] == Fill(frame, longest + 4) + "\n" && ls[|ls| - 1] == ls[0]
    ensures forall k :: 0 <= k < |content| + 2 ==> Closed(Frame(frame, content, longest)[k], longest)
    ensures forall k :: 1 <= k <= |content| ==> FramesLine(Frame(frame, content, longest)[k], frame, content[k - 1], longest)
    ensures frame != '\n' && (forall i :: 0 <= i < |content| ==> '\n' !in content[i]) ==>
      forall k :: 0 <= k < |content| + 2 ==> Unbroken(Frame(frame, content, longest)[k], longest)
  {
    forall k | 0 <= k < |content| + 2
      ensures Closed(Frame(frame, content, longest)[k], longest)
      ensures 1 <= k <= |content| ==> FramesLine(Frame(frame, content, longest)[k], frame, content[k - 1], longest)
      ensures frame != '\n' && (forall i :: 0 <= i < |content| ==> '\n' !in content[i]) ==>
        Unbroken(Frame(frame, content, longest)[k], longest)
    {
      FrameLineAt(frame, content, longest, k);
    }
  }

  /** The box of `x`: its frame follows the longest wrapped line, which is at
      most `width - 4`; it is the rectangle of `FrameRectangle` around the
      wrapped lines, and no line contains a line break before its end. */
  lemma BoxShape(x: string, frame: char, width: int)
    requires Renderable(x, width)
    ensures var content := Content(Split(x, '\n'), width - 4);
      |content| >= 1 && 0 <= MaxLen(content) <= width - 4 &&
      BoxLines(x, frame, width) == Frame(frame, content, MaxLen(content))
    ensures var content := Content(Split(x, '\n'), width - 4);
      forall i :: 0 <= i < |content| ==> '\n' !in content[i]
  {
    ContentSingleLines(Split(x, '\n'), width - 4);
  }
}
