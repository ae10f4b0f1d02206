/**
  Line hunks: splitting a text into lines, replacing line ranges in place from the last hunk to the
  first, and the hunks that lead from one text to another.
 */
module Hunks {

  /** Lines `start` up to but not including `end`, counted from zero, become `newContent`. */
  datatype Hunk = Hunk(start: nat, end: nat, originalContent: string, newContent: string)

  /** The line boundaries of `str.splitlines`. */
  predicate IsBreak(c: char) {
    ('\n' <= c <= '\r') || ('\U{1C}' <= c <= '\U{1E}') || c in {'\U{85}', '\U{2028}', '\U{2029}'}
  }

  /** The length of the first line of `s`, its line break included; a carriage return and a line
      feed form one break. */
  function FirstLine(s: string): (n: nat)
    requires s != []
    ensures 1 <= n <= |s|
  {
    if IsBreak(s[0]) then if s[0] == '\r' && |s| > 1 && s[1] == '\n' then 2 else 1
    else if |s| == 1 then 1
    else 1 + FirstLine(s[1..])
  }

  /** `splitlines(keepends=True)`. */
  function SplitLines(s: string): seq<string> {
    if s == [] then [] else [s[..FirstLine(s)]] + SplitLines(s[FirstLine(s)..])
  }

  function Join(lines: seq<string>): string {
    if lines == [] then [] else lines[0] + Join(lines[1..])
  }

  lemma {:induction false} JoinSplit(s: string)
    ensures Join(SplitLines(s)) == s
    ensures forall i :: 0 <= i < |SplitLines(s)| ==> SplitLines(s)[i] != []
    ensures |SplitLines(s)| <= |s|
  {
    if s != [] {
      var n := FirstLine(s);
      JoinSplit(s[n..]);
      assert s == s[..n] + s[n..];
      assert SplitLines(s)[1..] == SplitLines(s[n..]);
    }
  }

  /** No break before its end, where a carriage return and a line feed count as one. */
  ghost predicate IsLine(l: string) {
    l != [] && forall k {:trigger l[k]} :: 0 <= k < |l| - 1 && IsBreak(l[k]) ==>
      k == |l| - 2 && l[k] == '\r' && l[|l| - 1] == '\n'
  }

  /** The line ends in a break that what follows does not belong to. */
  ghost predicate EndsBefore(l: string, rest: string) {
    l != [] && IsBreak(l[|l| - 1]) && !(l[|l| - 1] == '\r' && rest != [] && rest[0] == '\n')
  }

  /** Lines, all but the last of which end in a break. */
  ghost predicate Lines(ls: seq<string>) {
    && (forall i {:trigger ls[i]} :: 0 <= i < |ls| ==> IsLine(ls[i]))
    && forall i {:trigger EndsAt(ls, i)} :: 0 <= i < |ls| - 1 ==> EndsAt(ls, i)
  }

  ghost predicate EndsAt(ls: seq<string>, i: nat)
    requires i + 1 < |ls|
  {
    EndsBefore(ls[i], ls[i + 1])
  }

  /** The code points of the ten characters that break lines. */
  lemma BreaksInNumbers(c: char)
    ensures IsBreak(c) <==> c as int in {10, 11, 12, 13, 28, 29, 30, 0x85, 0x2028, 0x2029}
  {
  }

  lemma {:induction false} FirstLineShape(s: string)
    requires s != []
    ensures IsLine(s[..FirstLine(s)])
    ensures FirstLine(s) < |s| ==> EndsBefore(s[..FirstLine(s)], s[FirstLine(s)..])
  {
    if !IsBreak(s[0]) && |s| > 1 {
      FirstLineShape(s[1..]);
      var l, m := s[..FirstLine(s)], s[1..][..FirstLine(s[1..])];
      assert l == [s[0]] + m;
      assert s[FirstLine(s)..] == s[1..][FirstLine(s[1..])..];
    }
  }

  /** The split gives lines, and the only ones that join to the text. */
  lemma {:induction false} SplitGivesLines(s: string)
    ensures Lines(SplitLines(s))
  {
    if s != [] {
      var n := FirstLine(s);
      FirstLineShape(s);
      SplitGivesLines(s[n..]);
      var ls, tail := SplitLines(s), SplitLines(s[n..]);
      assert ls[0] == s[..n] && ls[1..] == tail;
      forall i | 0 <= i < |ls|
        ensures IsLine(ls[i])
      {
        if i > 0 { assert ls[i] == tail[i - 1]; }
      }
      forall i | 0 <= i < |ls| - 1
        ensures EndsAt(ls, i)
      {
        if i > 0 {
          assert EndsAt(tail, i - 1);
          assert ls[i] == tail[i - 1] && ls[i + 1] == tail[i];
        } else {
          assert ls[1] == tail[0] == s[n..][..FirstLine(s[n..])];
        }
      }
    }
  }

  lemma {:induction false} FirstLineIs(l: string, rest: string)
    requires IsLine(l) && (rest != [] ==> EndsBefore(l, rest))
    ensures FirstLine(l + rest) == |l|
  {
    var s := l + rest;
    if |l| == 1 {
      assert s[0] == l[0];
    } else if IsBreak(l[0]) {
      assert s[0] == l[0] && s[1] == l[1];
    } else {
      var m := l[1..];
      forall k | 0 <= k < |m| - 1 && IsBreak(m[k])
        ensures k == |m| - 2 && m[k] == '\r' && m[|m| - 1] == '\n'
      {
        assert m[k] == l[k + 1];
      }
      FirstLineIs(m, rest);
      assert s[1..] == m + rest;
    }
  }

  lemma {:induction false} LinesUnique(ls: seq<string>)
    requires Lines(ls)
    ensures SplitLines(Join(ls)) == ls
  {
    if ls != [] {
      var tail := ls[1..];
      LinesTail(ls);
      LinesUnique(tail);
      if tail != [] {
        assert EndsAt(ls, 0);
        assert Join(tail) == tail[0] + Join(tail[1..]) && tail[0] == ls[1] && IsLine(ls[1]);
      }
      FirstLineIs(ls[0], Join(tail));
      var s := Join(ls);
      assert s == ls[0] + Join(tail) && s[..|ls[0]|] == ls[0] && s[|ls[0]|..] == Join(tail);
    }
  }

  lemma LinesTail(ls: seq<string>)
    requires Lines(ls) && ls != []
    ensures Lines(ls[1..]) && IsLine(ls[0])
  {
    var tail := ls[1..];
    forall i | 0 <= i < |tail| ensures IsLine(tail[i]) { assert tail[i] == ls[i + 1]; }
    forall i | 0 <= i < |tail| - 1
      ensures EndsAt(tail, i)
    {
      assert EndsAt(ls, i + 1);
    }
  }

  lemma {:induction false} JoinConcat(a: seq<string>, b: seq<string>)
    ensures Join(a + b) == Join(a) + Join(b)
  {
    if a == [] {
      assert a + b == b;
    } else {
      calc {
        Join(a + b);
        { assert (a + b)[1..] == a[1..] + b; }
        a[0] + Join(a[1..] + b);
        { JoinConcat(a[1..], b); }
        a[0] + (Join(a[1..]) + Join(b));
        (a[0] + Join(a[1..])) + Join(b);
        Join(a) + Join(b);
      }
    }
  }

  /** Slice assignment `lines[a:b] = news` with its clamping. */
  function Assign(lines: seq<string>, a: nat, b: nat, news: seq<string>): seq<string> {
    var lo := if a < |lines| then a else |lines|;
    var hi := if b < lo then lo else if b < |lines| then b else |lines|;
    lines[..lo] + news + lines[hi..]
  }

  /** Out of range it appends, and a range that runs backwards is an insertion. */
  lemma AssignClamps(lines: seq<string>, a: nat, b: nat, news: seq<string>)
    ensures a >= |lines| ==> Assign(lines, a, b, news) == lines + news
    ensures b <= a <= |lines| ==> Assign(lines, a, b, news) == lines[..a] + news + lines[a..]
    ensures a <= |lines| <= b ==> Assign(lines, a, b, news) == lines[..a] + news
    ensures a <= b <= |lines| ==> Assign(lines, a, b, news) == lines[..a] + news + lines[b..]
  {
  }

  /** The lines after the hunks have been assigned one by one, the last one first. */
  function AssignAll(lines: seq<string>, hunks: seq<Hunk>): seq<string> {
    if hunks == [] then lines
    else
      var h := hunks[0];
      Assign(AssignAll(lines, hunks[1..]), h.start, h.end, SplitLines(h.newContent))
  }

  /** Reference: read the original lines once from `at`, replacing every range where it stands. */
  function ReplaceAll(lines: seq<string>, hunks: seq<Hunk>, at: nat): seq<string>
    requires Ordered(hunks, at, |lines|)
  {
    if hunks == [] then lines[at..]
    else
      var h := hunks[0];
      lines[at..h.start] + SplitLines(h.newContent) + ReplaceAll(lines, hunks[1..], h.end)
  }

  /** Hunks within lines `at` to `n`, in order and without overlap. */
  predicate Ordered(hunks: seq<Hunk>, at: nat, n: nat) {
    if hunks == [] then at <= n
    else at <= hunks[0].start <= hunks[0].end <= n && Ordered(hunks[1..], hunks[0].end, n)
  }

  /** The last-to-first assignment replaces all ranges at their original places. */
  lemma {:induction false} AssignIsReplace(lines: seq<string>, hunks: seq<Hunk>, at: nat)
    requires Ordered(hunks, at, |lines|)
    ensures AssignAll(lines, hunks) == lines[..at] + ReplaceAll(lines, hunks, at)
  {
    if hunks == [] {
      assert lines == lines[..at] + lines[at..];
    } else {
      var h, tail := hunks[0], ReplaceAll(lines, hunks[1..], hunks[0].end);
      var news := SplitLines(h.newContent);
      calc {
        AssignAll(lines, hunks);
        Assign(AssignAll(lines, hunks[1..]), h.start, h.end, news);
        { AssignIsReplace(lines, hunks[1..], h.end); }
        Assign(lines[..h.end] + tail, h.start, h.end, news);
        { AssignFirst(lines, h.start, h.end, news, tail); }
        lines[..h.start] + news + tail;
        { Regroup(lines, at, h.start, news, tail); }
        lines[..at] + ReplaceAll(lines, hunks, at);
      }
    }
  }

  lemma Regroup(lines: seq<string>, at: nat, start: nat, news: seq<string>, tail: seq<string>)
    requires at <= start <= |lines|
    ensures lines[..start] + news + tail == lines[..at] + (lines[at..start] + news + tail)
  {
    assert lines[..start] == lines[..at] + lines[at..start];
  }

  lemma AssignFirst(lines: seq<string>, a: nat, b: nat, news: seq<string>, tail: seq<string>)
    requires a <= b <= |lines|
    ensures Assign(lines[..b] + tail, a, b, news) == lines[..a] + news + tail
  {
    var l := lines[..b] + tail;
    assert l[..a] == lines[..a] && l[b..] == tail;
  }

  /** A single hunk at line 0 takes its new content for the whole text. */
  predicate Shortcut(hunks: seq<Hunk>) {
    |hunks| == 1 && hunks[0].start == 0
  }

  function Patched(content: string, hunks: seq<Hunk>): string {
    if hunks == [] then content
    else if Shortcut(hunks) then hunks[0].newContent
    else Join(AssignAll(SplitLines(content), hunks))
  }

  /** `_apply_hunks`. */
  method ApplyHunks(content: string, hunks: seq<Hunk>) returns (r: string)
    ensures r == Patched(content, hunks)
  {
    if hunks == [] { return content; }
    if |hunks| == 1 && hunks[0].start == 0 { return hunks[0].newContent; }
    var lines := SplitLines(content);
    for k := |hunks| downto 0
      invariant lines == AssignAll(SplitLines(content), hunks[k..])
    {
      var h := hunks[k];
      assert hunks[k..][1..] == hunks[k + 1..];
      lines := Assign(lines, h.start, h.end, SplitLines(h.newContent));
    }
    assert hunks[0..] == hunks;
    return Join(lines);
  }

  /** For ordered hunks in range the result is the simultaneous replacement, except that a single
      hunk at line 0 drops the lines behind it. */
  lemma PatchedExact(content: string, hunks: seq<Hunk>)
    requires Ordered(hunks, 0, |SplitLines(content)|)
    ensures Patched(content, hunks) == Join(ReplaceAll(SplitLines(content), hunks, 0)) <==>
      !(Shortcut(hunks) && hunks[0].end < |SplitLines(content)|)
  {
    JoinSplit(content);
    if hunks == [] {
      NoHunks(SplitLines(content));
    } else if Shortcut(hunks) {
      ShortcutExact(SplitLines(content), hunks[0]);
      assert hunks == [hunks[0]];
    } else {
      AssignFromTop(SplitLines(content), hunks);
    }
  }

  lemma NoHunks(lines: seq<string>)
    ensures ReplaceAll(lines, [], 0) == lines
  {
    assert lines[0..] == lines;
  }

  lemma AssignFromTop(lines: seq<string>, hunks: seq<Hunk>)
    requires Ordered(hunks, 0, |lines|)
    ensures AssignAll(lines, hunks) == ReplaceAll(lines, hunks, 0)
  {
    AssignIsReplace(lines, hunks, 0);
    assert lines[..0] == [];
  }

  /** Replacing lines from the top keeps what is behind them. */
  lemma ShortcutExact(lines: seq<string>, h: Hunk)
    requires h.start == 0 && h.end <= |lines| && forall i :: 0 <= i < |lines| ==> lines[i] != []
    ensures Ordered([h], 0, |lines|)
    ensures Join(ReplaceAll(lines, [h], 0)) == h.newContent <==> h.end == |lines|
  {
    var rest := lines[h.end..];
    assert [h][1..] == [];
    assert ReplaceAll(lines, [h], 0) == SplitLines(h.newContent) + rest;
    JoinSplit(h.newContent);
    JoinConcat(SplitLines(h.newContent), rest);
    if h.end < |lines| {
      assert Join(rest) == lines[h.end] + Join(rest[1..]);
    }
  }

  /** `_create_hunks`. */
  function CreateHunks(original: string, updated: string): seq<Hunk> {
    if original == "" && updated == "" then []
    else if original == "" then [Hunk(0, 0, "", updated)]
    else if updated == "" then [Hunk(0, |SplitLines(original)|, original, "")]
    else if original != updated then [Hunk(0, |SplitLines(original)|, original, updated)]
    else []
  }

  /** Applying the created hunks gives the new text; they are in range, and with or without the
      shortcut they replace exactly what they should. */
  lemma CreatedHunksApply(original: string, updated: string)
    ensures var hunks := CreateHunks(original, updated);
      && Patched(original, hunks) == updated
      && Ordered(hunks, 0, |SplitLines(original)|)
      && Join(ReplaceAll(SplitLines(original), hunks, 0)) == updated
  {
    var hunks := CreateHunks(original, updated);
    assert hunks != [] ==> hunks[1..] == [];
    PatchedExact(original, hunks);
  }

  /** An insertion before the first line replaces the whole file. */
  lemma InsertionAtTopReplacesFile(content: string, updated: string)
    requires content != ""
    ensures Patched(content, [Hunk(0, 0, "", updated)]) == updated != updated + content
  {
  }
}
