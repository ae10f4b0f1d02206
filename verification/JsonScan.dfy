/**
  Finding a JSON value in the text around it: printed JSON with arbitrary spacing and string
  spelling, and the string-aware bracket scanner that has to find exactly such a print.
 */
module JsonScan {
  import opened Options

  /** One unit of a string: a character as it is, or a backslash and the character it escapes. */
  datatype Unit = Plain(c: char) | Escape(c: char)

  /** A JSON text with its spacing. Elements are chained so that lists nest structurally; a comma
      may also be followed by nothing. */
  datatype Json =
    | Scalar(text: string)
    | Text(units: seq<Unit>)
    | Array(items: Items)
    | Object(members: Members)

  datatype Items =
    | NoItem(pad: string)
    | LastItem(before: string, value: Json, after: string)
    | Item(before: string, value: Json, after: string, rest: Items)

  datatype Members =
    | NoMember(pad: string)
    | LastMember(before: string, key: seq<Unit>, colon: string, gap: string, value: Json, after: string)
    | Member(before: string, key: seq<Unit>, colon: string, gap: string, value: Json, after: string, rest: Members)

  const QUOTE: char := '\"'
  const BACKSLASH: char := '\\'

  /** Text between structural characters and strings: spacing, numbers, `true`, `false`, `null`. */
  predicate Filler(s: string) {
    forall i :: 0 <= i < |s| ==> s[i] !in {QUOTE, '{', '}', '[', ']'}
  }

  predicate UnitsOk(units: seq<Unit>) {
    forall i :: 0 <= i < |units| && units[i].Plain? ==> units[i].c !in {QUOTE, BACKSLASH}
  }

  predicate JsonOk(v: Json) {
    match v
    case Scalar(text) => Filler(text)
    case Text(units) => UnitsOk(units)
    case Array(items) => ItemsOk(items)
    case Object(members) => MembersOk(members)
  }

  predicate ItemsOk(l: Items) {
    match l
    case NoItem(pad) => Filler(pad)
    case LastItem(before, value, after) => Filler(before) && JsonOk(value) && Filler(after)
    case Item(before, value, after, rest) => Filler(before) && JsonOk(value) && Filler(after) && ItemsOk(rest)
  }

  predicate MembersOk(l: Members) {
    match l
    case NoMember(pad) => Filler(pad)
    case LastMember(before, key, colon, gap, value, after) =>
      Filler(before) && UnitsOk(key) && Filler(colon) && Filler(gap) && JsonOk(value) && Filler(after)
    case Member(before, key, colon, gap, value, after, rest) =>
      Filler(before) && UnitsOk(key) && Filler(colon) && Filler(gap) && JsonOk(value) && Filler(after) &&
      MembersOk(rest)
  }

  function PrintUnits(units: seq<Unit>): string {
    if units == [] then []
    else
      var u := units[|units| - 1];
      PrintUnits(units[..|units| - 1]) + if u.Plain? then [u.c] else [BACKSLASH, u.c]
  }

  function PrintString(units: seq<Unit>): string {
    [QUOTE] + PrintUnits(units) + [QUOTE]
  }

  function Print(v: Json): string {
    match v
    case Scalar(text) => text
    case Text(units) => PrintString(units)
    case Array(items) => "[" + PrintItems(items) + "]"
    case Object(members) => "{" + PrintMembers(members) + "}"
  }

  function PrintItems(l: Items): string {
    match l
    case NoItem(pad) => pad
    case LastItem(before, value, after) => before + Print(value) + after
    case Item(before, value, after, rest) => before + Print(value) + after + "," + PrintItems(rest)
  }

  function PrintMembers(l: Members): string {
    match l
    case NoMember(pad) => pad
    case LastMember(before, key, colon, gap, value, after) =>
      before + PrintString(key) + colon + ":" + gap + Print(value) + after
    case Member(before, key, colon, gap, value, after, rest) =>
      before + PrintString(key) + colon + ":" + gap + Print(value) + after + "," + PrintMembers(rest)
  }

  /** The scanner's variables. */
  datatype Scan = Scan(depth: int, inString: bool, escaped: bool)

  /** A pair of brackets to balance. */
  predicate Brackets(o: char, c: char) {
    (o == '{' && c == '}') || (o == '[' && c == ']')
  }

  function Step(o: char, c: char, s: Scan, ch: char): Scan {
    if s.inString then
      if s.escaped then s.(escaped := false)
      else if ch == BACKSLASH then s.(escaped := true)
      else if ch == QUOTE then s.(inString := false)
      else s
    else if ch == QUOTE then s.(inString := true)
    else if ch == o then s.(depth := s.depth + 1)
    else if ch == c then s.(depth := s.depth - 1)
    else s
  }

  /** The scanner's state after `text`. */
  function Run(o: char, c: char, s: Scan, text: string): Scan {
    if text == [] then s else Step(o, c, Run(o, c, s, text[..|text| - 1]), text[|text| - 1])
  }

  lemma {:induction false} RunConcat(o: char, c: char, s: Scan, a: string, b: string)
    ensures Run(o, c, s, a + b) == Run(o, c, Run(o, c, s, a), b)
  {
    if b == [] {
      assert a + b == a;
    } else {
      RunConcat(o, c, s, a, b[..|b| - 1]);
      assert (a + b)[..|a + b| - 1] == a + b[..|b| - 1];
    }
  }

  /** Outside strings at depth `d`. */
  function Outside(d: int): Scan {
    Scan(d, false, false)
  }

  /** The depth at which the scan of a prefix of `s` stands. */
  function DepthAt(o: char, c: char, d: int, s: string, k: nat): int
    requires k <= |s|
  {
    Run(o, c, Outside(d), s[..k]).depth
  }

  /** Scanning `s` from depth `d` comes back outside strings at depth `d`, never below it. */
  ghost predicate Level(o: char, c: char, s: string, d: int) {
    && Run(o, c, Outside(d), s) == Outside(d)
    && forall k {:trigger DepthAt(o, c, d, s, k)} :: 0 <= k <= |s| ==> DepthAt(o, c, d, s, k) >= d
  }

  ghost predicate Neutral(o: char, c: char, s: string) {
    forall d {:trigger Level(o, c, s, d)} :: Level(o, c, s, d)
  }

  lemma NeutralConcat(o: char, c: char, a: string, b: string)
    requires Neutral(o, c, a) && Neutral(o, c, b)
    ensures Neutral(o, c, a + b)
  {
    forall d
      ensures Level(o, c, a + b, d)
    {
      assert Level(o, c, a, d) && Level(o, c, b, d);
      RunConcat(o, c, Outside(d), a, b);
      forall k | 0 <= k <= |a + b|
        ensures DepthAt(o, c, d, a + b, k) >= d
      {
        DepthConcat(o, c, d, a, b, k);
      }
    }
  }

  lemma DepthConcat(o: char, c: char, d: int, a: string, b: string, k: nat)
    requires Level(o, c, a, d) && k <= |a + b|
    ensures DepthAt(o, c, d, a + b, k) == if k <= |a| then DepthAt(o, c, d, a, k) else DepthAt(o, c, d, b, k - |a|)
  {
    if k <= |a| {
      assert (a + b)[..k] == a[..k];
    } else {
      assert (a + b)[..k] == a + b[..k - |a|];
      RunConcat(o, c, Outside(d), a, b[..k - |a|]);
    }
  }

  lemma {:induction false} FillerNeutral(o: char, c: char, s: string)
    requires forall i :: 0 <= i < |s| ==> s[i] !in {QUOTE, o, c}
    ensures Neutral(o, c, s)
  {
    forall d
      ensures Level(o, c, s, d)
    {
      FillerLevel(o, c, s, d);
    }
  }

  lemma {:induction false} FillerLevel(o: char, c: char, s: string, d: int)
    requires forall i :: 0 <= i < |s| ==> s[i] !in {QUOTE, o, c}
    ensures Level(o, c, s, d)
  {
    if s != [] {
      var init := s[..|s| - 1];
      FillerLevel(o, c, init, d);
      forall k | 0 <= k <= |s|
        ensures DepthAt(o, c, d, s, k) >= d
      {
        if k == |s| { assert s[..k] == s; } else { assert s[..k] == init[..k] && DepthAt(o, c, d, init, k) >= d; }
      }
    } else {
      assert s[..0] == s;
    }
  }

  /** Inside a string the depth never moves, and every unit ends where the next one can start. */
  lemma {:induction false} UnitsScan(o: char, c: char, units: seq<Unit>, d: int, k: nat)
    requires UnitsOk(units) && k <= |PrintUnits(units)|
    ensures Run(o, c, Scan(d, true, false), PrintUnits(units)) == Scan(d, true, false)
    ensures Run(o, c, Scan(d, true, false), PrintUnits(units)[..k]).depth == d
  {
    var p := PrintUnits(units);
    if units != [] {
      var init, u := PrintUnits(units[..|units| - 1]), units[|units| - 1];
      var tail := if u.Plain? then [u.c] else [BACKSLASH, u.c];
      assert p == init + tail;
      var s := Scan(d, true, false);
      UnitsScan(o, c, units[..|units| - 1], d, if k <= |init| then k else 0);
      RunConcat(o, c, s, init, tail);
      TailScan(o, c, u, d, if k <= |init| then 0 else k - |init|);
      if k <= |init| {
        assert p[..k] == init[..k];
      } else {
        assert p[..k] == init + tail[..k - |init|];
        RunConcat(o, c, s, init, tail[..k - |init|]);
      }
    }
  }

  lemma TailScan(o: char, c: char, u: Unit, d: int, k: nat)
    requires u.Plain? ==> u.c !in {QUOTE, BACKSLASH}
    requires k <= if u.Plain? then 1 else 2
    ensures var tail, s := if u.Plain? then [u.c] else [BACKSLASH, u.c], Scan(d, true, false);
      Run(o, c, s, tail) == s && Run(o, c, s, tail[..k]).depth == d
  {
    var tail, s := if u.Plain? then [u.c] else [BACKSLASH, u.c], Scan(d, true, false);
    assert tail[..0] == [];
    assert Run(o, c, s, tail[..1]) == Step(o, c, s, tail[0]) by { assert tail[..1][..0] == []; }
    if k == |tail| { assert tail[..k] == tail; }
    assert u.Plain? ==> tail[..1] == tail;
  }

  lemma StringNeutral(o: char, c: char, units: seq<Unit>)
    requires Brackets(o, c) && UnitsOk(units)
    ensures Neutral(o, c, PrintString(units))
  {
    var p, q := PrintString(units), [QUOTE] + PrintUnits(units);
    forall d
      ensures Level(o, c, p, d)
    {
      UnitsScan(o, c, units, d, 0);
      OneStep(o, c, Outside(d), QUOTE);
      RunConcat(o, c, Outside(d), [QUOTE], PrintUnits(units));
      RunConcat(o, c, Outside(d), q, [QUOTE]);
      OneStep(o, c, Scan(d, true, false), QUOTE);
      forall k | 0 <= k <= |p|
        ensures DepthAt(o, c, d, p, k) >= d
      {
        if k == |p| {
          assert p[..k] == p;
        } else if k > 0 {
          assert p[..k] == [QUOTE] + PrintUnits(units)[..k - 1];
          RunConcat(o, c, Outside(d), [QUOTE], PrintUnits(units)[..k - 1]);
          UnitsScan(o, c, units, d, k - 1);
        }
      }
    }
  }

  lemma OneStep(o: char, c: char, s: Scan, ch: char)
    ensures Run(o, c, s, [ch]) == Step(o, c, s, ch)
  {
    assert [ch][..0] == [];
  }

  /** Scanning a bracketed neutral text stays above the outer depth until the last character. */
  lemma BracketDepth(o: char, c: char, s: string, d: int, k: nat)
    requires Brackets(o, c) && Neutral(o, c, s) && k <= |[o] + s + [c]|
    ensures DepthAt(o, c, d, [o] + s + [c], k) == if k == 0 || k == |s| + 2 then d else DepthAt(o, c, d + 1, s, k - 1)
    ensures Level(o, c, s, d + 1)
    ensures Run(o, c, Outside(d), [o] + s + [c]) == Outside(d)
  {
    var p := [o] + s + [c];
    assert Level(o, c, s, d + 1);
    OneStep(o, c, Outside(d), o);
    RunConcat(o, c, Outside(d), [o], s);
    RunConcat(o, c, Outside(d), [o] + s, [c]);
    OneStep(o, c, Outside(d + 1), c);
    if k == |p| {
      assert p[..k] == p;
    } else if k > 0 {
      assert p[..k] == [o] + s[..k - 1];
      RunConcat(o, c, Outside(d), [o], s[..k - 1]);
    }
  }

  lemma BracketNeutral(o: char, c: char, s: string)
    requires Brackets(o, c) && Neutral(o, c, s)
    ensures Neutral(o, c, [o] + s + [c])
  {
    var p := [o] + s + [c];
    forall d
      ensures Level(o, c, p, d)
    {
      BracketDepth(o, c, s, d, 0);
      forall k | 0 <= k <= |p|
        ensures DepthAt(o, c, d, p, k) >= d
      {
        BracketDepth(o, c, s, d, k);
      }
    }
  }

  /** Three and more neutral pieces. */
  lemma NeutralThree(o: char, c: char, x: string, y: string, z: string)
    requires Neutral(o, c, x) && Neutral(o, c, y) && Neutral(o, c, z)
    ensures Neutral(o, c, x + y + z)
  {
    NeutralConcat(o, c, x, y);
    NeutralConcat(o, c, x + y, z);
  }

  /** A printed value is neutral for either kind of bracket. */
  lemma {:induction false} PrintNeutral(o: char, c: char, v: Json)
    requires Brackets(o, c) && JsonOk(v)
    ensures Neutral(o, c, Print(v))
    decreases v, 0
  {
    match v
    case Scalar(text) => FillerNeutral(o, c, text);
    case Text(units) => StringNeutral(o, c, units);
    case Array(items) =>
      ItemsNeutral(o, c, items);
      Enclosed(o, c, '[', ']', PrintItems(items));
    case Object(members) =>
      MembersNeutral(o, c, members);
      Enclosed(o, c, '{', '}', PrintMembers(members));
  }

  lemma Enclosed(o: char, c: char, p: char, q: char, s: string)
    requires Brackets(o, c) && Brackets(p, q) && Neutral(o, c, s)
    ensures Neutral(o, c, [p] + s + [q])
  {
    if p == o {
      BracketNeutral(o, c, s);
    } else {
      FillerNeutral(o, c, [p]);
      FillerNeutral(o, c, [q]);
      NeutralThree(o, c, [p], s, [q]);
    }
  }

  lemma {:induction false} ItemsNeutral(o: char, c: char, l: Items)
    requires Brackets(o, c) && ItemsOk(l)
    ensures Neutral(o, c, PrintItems(l))
    decreases l, 0
  {
    match l
    case NoItem(pad) => FillerNeutral(o, c, pad);
    case LastItem(before, value, after) => PaddedNeutral(o, c, before, value, after);
    case Item(before, value, after, rest) =>
      PaddedNeutral(o, c, before, value, after);
      ItemsNeutral(o, c, rest);
      FillerNeutral(o, c, ",");
      NeutralThree(o, c, before + Print(value) + after, ",", PrintItems(rest));
  }

  lemma {:induction false} PaddedNeutral(o: char, c: char, before: string, v: Json, after: string)
    requires Brackets(o, c) && JsonOk(v) && Filler(before) && Filler(after)
    ensures Neutral(o, c, before + Print(v) + after)
    decreases v, 1
  {
    FillerNeutral(o, c, before);
    PrintNeutral(o, c, v);
    FillerNeutral(o, c, after);
    NeutralThree(o, c, before, Print(v), after);
  }

  lemma KeyNeutral(o: char, c: char, before: string, key: seq<Unit>, colon: string)
    requires Brackets(o, c) && UnitsOk(key) && Filler(before) && Filler(colon)
    ensures Neutral(o, c, before + PrintString(key) + colon + ":")
  {
    FillerNeutral(o, c, before);
    StringNeutral(o, c, key);
    FillerNeutral(o, c, colon);
    NeutralThree(o, c, before, PrintString(key), colon);
    FillerNeutral(o, c, ":");
    NeutralConcat(o, c, before + PrintString(key) + colon, ":");
  }

  lemma {:induction false} MembersNeutral(o: char, c: char, l: Members)
    requires Brackets(o, c) && MembersOk(l)
    ensures Neutral(o, c, PrintMembers(l))
    decreases l, 0
  {
    match l
    case NoMember(pad) => FillerNeutral(o, c, pad);
    case LastMember(before, key, colon, gap, value, after) =>
      MemberNeutral(o, c, before, key, colon, gap, value, after);
    case Member(before, key, colon, gap, value, after, rest) =>
      MemberNeutral(o, c, before, key, colon, gap, value, after);
      FillerNeutral(o, c, ",");
      MembersNeutral(o, c, rest);
      NeutralThree(o, c, PrintMembers(LastMember(before, key, colon, gap, value, after)), ",", PrintMembers(rest));
  }

  lemma {:induction false} MemberNeutral(
    o: char, c: char, before: string, key: seq<Unit>, colon: string, gap: string, value: Json, after: string)
    requires Brackets(o, c) && UnitsOk(key) && JsonOk(value)
    requires Filler(before) && Filler(colon) && Filler(gap) && Filler(after)
    ensures Neutral(o, c, PrintMembers(LastMember(before, key, colon, gap, value, after)))
    decreases value, 2
  {
    KeyNeutral(o, c, before, key, colon);
    PaddedNeutral(o, c, gap, value, after);
    var k := before + PrintString(key) + colon + ":";
    NeutralConcat(o, c, k, gap + Print(value) + after);
    Associate(k, gap, Print(value), after);
  }

  lemma Associate<T>(a: seq<T>, b: seq<T>, c: seq<T>, d: seq<T>)
    ensures a + (b + c + d) == a + b + c + d
  {
  }

  /** `v` opens with `o`, and its scan returns to depth zero at its last character, not before. */
  ghost predicate Balanced(o: char, c: char, v: string) {
    && v != [] && v[0] == o && DepthAt(o, c, 0, v, |v|) == 0
    && forall k {:trigger DepthAt(o, c, 0, v, k)} :: 1 <= k < |v| ==> DepthAt(o, c, 0, v, k) > 0
  }

  lemma PrintBalanced(v: Json)
    requires JsonOk(v)
    ensures v.Object? ==> Balanced('{', '}', Print(v))
    ensures v.Array? ==> Balanced('[', ']', Print(v))
  {
    match v
    case Object(members) =>
      MembersNeutral('{', '}', members);
      EnclosedBalanced('{', '}', PrintMembers(members));
    case Array(items) =>
      ItemsNeutral('[', ']', items);
      EnclosedBalanced('[', ']', PrintItems(items));
    case _ =>
  }

  lemma EnclosedBalanced(o: char, c: char, s: string)
    requires Brackets(o, c) && Neutral(o, c, s)
    ensures Balanced(o, c, [o] + s + [c])
  {
    var p := [o] + s + [c];
    BracketDepth(o, c, s, 0, |p|);
    forall k | 1 <= k < |p|
      ensures DepthAt(o, c, 0, p, k) > 0
    {
      BracketDepth(o, c, s, 0, k);
    }
  }

  lemma BalancedPrefix(o: char, c: char, v: string, w: string)
    requires Balanced(o, c, v) && Balanced(o, c, w) && v <= w
    ensures v == w
  {
    assert w[..|v|] == v == v[..|v|];
    assert DepthAt(o, c, 0, w, |v|) == 0;
  }

  /** `v` stands at position `i`, which is that of the first opening bracket, and is balanced. */
  ghost predicate Found(text: string, o: char, c: char, i: nat, v: string) {
    i + |v| <= |text| && text[i..i + |v|] == v && o !in text[..i] && Balanced(o, c, v)
  }

  /** What the scan for one kind of bracket finds. */
  ghost predicate FirstBalanced(text: string, o: char, c: char, r: Option<string>) {
    match r
    case Some(v) => exists i :: Found(text, o, c, i, v)
    case None => forall i, v :: !Found(text, o, c, i, v)
  }

  lemma FirstPosition(text: string, o: char, i: nat, j: nat)
    requires i < |text| && j < |text| && text[i] == o && text[j] == o && o !in text[..i] && o !in text[..j]
    ensures i == j
  {
    assert forall k :: 0 <= k < i ==> text[..i][k] != o;
    assert forall k :: 0 <= k < j ==> text[..j][k] != o;
  }

  lemma FoundUnique(text: string, o: char, c: char, i: nat, v: string, j: nat, w: string)
    requires Found(text, o, c, i, v) && Found(text, o, c, j, w)
    ensures i == j && v == w
  {
    assert text[i] == v[0] == o && text[j] == w[0] == o;
    FirstPosition(text, o, i, j);
    if |v| <= |w| {
      assert v == w[..|v|];
      BalancedPrefix(o, c, v, w);
    } else {
      assert w == v[..|w|];
      BalancedPrefix(o, c, w, v);
    }
  }

  /** The scan of the first `n` characters has not come back to depth zero. */
  ghost predicate Unclosed(o: char, c: char, s: string, n: nat) {
    n <= |s| && forall k {:trigger DepthAt(o, c, 0, s, k)} :: 1 <= k <= n ==> DepthAt(o, c, 0, s, k) > 0
  }

  /** `text.find` of one character. */
  method IndexOf(text: string, ch: char) returns (i: int)
    ensures -1 <= i < |text|
    ensures i == -1 ==> ch !in text
    ensures i >= 0 ==> text[i] == ch && ch !in text[..i]
  {
    for k := 0 to |text|
      invariant ch !in text[..k]
    {
      if text[k] == ch { return k; }
    }
    return -1;
  }

  /** `_find_first_json_object` for braces, `_find_first_json_array` for square brackets. */
  method FindFirst(text: string, o: char, c: char) returns (r: Option<string>)
    requires Brackets(o, c)
    ensures FirstBalanced(text, o, c, r)
  {
    var start := IndexOf(text, o);
    if start == -1 {
      assert forall i: nat, v :: Found(text, o, c, i, v) ==> text[i] == v[0];
      return None;
    }
    var depth, inString, escaped := 0, false, false;
    for idx := start to |text|
      invariant Run(o, c, Outside(0), text[start..idx]) == Scan(depth, inString, escaped)
      invariant idx > start ==> depth > 0
      invariant Unclosed(o, c, text[start..], idx - start)
    {
      var ch := text[idx];
      Extend(o, c, text, start, idx);
      if inString {
        if escaped {
          escaped := false;
          continue;
        }
        if ch == BACKSLASH {
          escaped := true;
          continue;
        }
        if ch == QUOTE { inString := false; }
        continue;
      }
      if ch == QUOTE {
        inString := true;
        continue;
      }
      if ch == o {
        depth := depth + 1;
        continue;
      }
      if ch == c {
        depth := depth - 1;
        if depth == 0 {
          FoundHere(text, o, c, start, idx);
          return Some(text[start..idx + 1]);
        }
      }
    }
    NeverBalanced(text, o, c, start);
    return None;
  }

  lemma Extend(o: char, c: char, text: string, start: nat, idx: nat)
    requires start <= idx < |text|
    ensures var s := Step(o, c, Run(o, c, Outside(0), text[start..idx]), text[idx]);
      Run(o, c, Outside(0), text[start..idx + 1]) == s && DepthAt(o, c, 0, text[start..], idx + 1 - start) == s.depth
  {
    assert text[start..idx + 1][..idx - start] == text[start..idx];
    assert text[start..][..idx + 1 - start] == text[start..idx + 1];
  }

  lemma FoundHere(text: string, o: char, c: char, start: nat, idx: nat)
    requires start <= idx < |text| && text[start] == o && o !in text[..start]
    requires Unclosed(o, c, text[start..], idx - start)
    requires DepthAt(o, c, 0, text[start..], idx + 1 - start) == 0
    ensures Found(text, o, c, start, text[start..idx + 1])
  {
    var v := text[start..idx + 1];
    forall k | 1 <= k <= |v|
      ensures DepthAt(o, c, 0, v, k) == DepthAt(o, c, 0, text[start..], k)
    {
      assert v[..k] == text[start..][..k];
    }
  }

  lemma NeverBalanced(text: string, o: char, c: char, start: nat)
    requires start < |text| && text[start] == o && o !in text[..start]
    requires Unclosed(o, c, text[start..], |text| - start)
    ensures forall i, v :: !Found(text, o, c, i, v)
  {
    forall i, v
      ensures !Found(text, o, c, i, v)
    {
      if Found(text, o, c, i, v) { NotAtStart(text, o, c, start, i, v); }
    }
  }

  lemma NotAtStart(text: string, o: char, c: char, start: nat, i: nat, v: string)
    requires start < |text| && text[start] == o && o !in text[..start] && Found(text, o, c, i, v)
    ensures i == start && 1 <= |v| <= |text| - start && DepthAt(o, c, 0, text[start..], |v|) == 0
  {
    assert text[i] == v[0] == o;
    FirstPosition(text, o, i, start);
    assert text[start..][..|v|] == v == v[..|v|];
  }
}
