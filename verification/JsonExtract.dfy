/**
  Extraction of the JSON payload from an agent's answer: the first balanced value, or the body of a
  fenced block.
 */
module JsonExtract {
  import opened Options
  import opened JsonScan

  /** A balanced object or array at the first bracket of its kind. */
  ghost predicate FoundAny(text: string, i: nat, v: string) {
    Found(text, '{', '}', i, v) || Found(text, '[', ']', i, v)
  }

  /** The earlier of the two candidates, if there is any. */
  ghost predicate FirstValue(text: string, r: Option<string>) {
    match r
    case None => forall i, v :: !FoundAny(text, i, v)
    case Some(v) => exists i :: FoundAny(text, i, v) && NoneBefore(text, i)
  }

  ghost predicate NoneBefore(text: string, i: nat) {
    forall j, w :: FoundAny(text, j, w) ==> i <= j
  }

  predicate OccursAt(text: string, sub: string, i: nat) {
    i + |sub| <= |text| && text[i..i + |sub|] == sub
  }

  /** `text.find(sub)`, from position `i` on. */
  function Find(text: string, sub: string, i: nat := 0): (r: int)
    ensures r == -1 || i <= r
    ensures r == -1 ==> forall k :: i <= k ==> !OccursAt(text, sub, k)
    ensures r >= 0 ==> OccursAt(text, sub, r) && forall k :: i <= k < r ==> !OccursAt(text, sub, k)
    decreases |text| - i
  {
    if i + |sub| > |text| then -1
    else if OccursAt(text, sub, i) then i
    else Find(text, sub, i + 1)
  }

  /** `text.find` of a balanced text is the place where the scan found it. */
  lemma FindFound(text: string, o: char, c: char, i: nat, v: string)
    requires Found(text, o, c, i, v)
    ensures Find(text, v) == i
  {
    assert OccursAt(text, v, i);
    var k := Find(text, v);
    assert text[k] == v[0] == o && text[i] == v[0];
    assert forall m :: 0 <= m < i ==> text[..i][m] != o;
  }

  /** `_find_first_json_value`. */
  method FindFirstValue(text: string) returns (r: Option<string>)
    ensures FirstValue(text, r)
  {
    var obj := FindFirst(text, '{', '}');
    var arr := FindFirst(text, '[', ']');
    if obj.None? {
      OnlyOne(text, '{', '}', '[', ']', arr);
      return arr;
    }
    if arr.None? {
      OnlyOne(text, '[', ']', '{', '}', obj);
      return obj;
    }
    ghost var i :| Found(text, '{', '}', i, obj.value);
    ghost var j :| Found(text, '[', ']', j, arr.value);
    FindFound(text, '{', '}', i, obj.value);
    FindFound(text, '[', ']', j, arr.value);
    Earlier(text, i, obj.value, j, arr.value);
    var objIdx, arrIdx := Find(text, obj.value), Find(text, arr.value);
    return if 0 <= objIdx < arrIdx || arrIdx == -1 then obj else arr;
  }

  lemma OnlyOne(text: string, o: char, c: char, p: char, q: char, r: Option<string>)
    requires Brackets(o, c) && Brackets(p, q) && o != p
    requires FirstBalanced(text, o, c, None) && FirstBalanced(text, p, q, r)
    ensures FirstValue(text, r)
  {
    if r.Some? {
      var i: nat :| Found(text, p, q, i, r.value);
      forall j: nat, w | FoundAny(text, j, w)
        ensures i <= j
      {
        FoundUnique(text, p, q, i, r.value, j, w);
      }
      assert FoundAny(text, i, r.value) && NoneBefore(text, i);
    }
  }

  lemma Earlier(text: string, i: nat, obj: string, j: nat, arr: string)
    requires Found(text, '{', '}', i, obj) && Found(text, '[', ']', j, arr)
    ensures FirstValue(text, Some(if i < j then obj else arr))
  {
    forall k: nat, w | FoundAny(text, k, w)
      ensures k == i || k == j
    {
      if Found(text, '{', '}', k, w) {
        FoundUnique(text, '{', '}', i, obj, k, w);
      } else {
        FoundUnique(text, '[', ']', j, arr, k, w);
      }
    }
    var m := if i < j then i else j;
    assert NoneBefore(text, m) && FoundAny(text, m, if i < j then obj else arr);
  }

  predicate IsContainer(v: Json) {
    JsonOk(v) && (v.Object? || v.Array?)
  }

  function Opening(v: Json): char
    requires IsContainer(v)
  {
    if v.Object? then '{' else '['
  }

  function Closing(v: Json): char
    requires IsContainer(v)
  {
    if v.Object? then '}' else ']'
  }

  lemma PrintFound(prefix: string, v: Json, suffix: string)
    requires IsContainer(v) && Opening(v) !in prefix
    ensures Found(prefix + Print(v) + suffix, Opening(v), Closing(v), |prefix|, Print(v))
  {
    var text := prefix + Print(v) + suffix;
    PrintBalanced(v);
    assert text[..|prefix|] == prefix;
    assert text[|prefix|..|prefix| + |Print(v)|] == Print(v);
  }

  /** The other kind of bracket. */
  function OtherOpening(v: Json): char
    requires IsContainer(v)
  {
    if v.Object? then '[' else '{'
  }

  function OtherClosing(v: Json): char
    requires IsContainer(v)
  {
    if v.Object? then ']' else '}'
  }

  function FirstPos(s: string, ch: char): (i: nat)
    requires ch in s
    ensures i < |s| && s[i] == ch && ch !in s[..i]
  {
    if s[0] == ch then 0
    else
      var k := FirstPos(s[1..], ch);
      assert s[..k + 1] == [s[0]] + s[1..][..k];
      k + 1
  }

  /** `v` at position `i` is what the search finds. */
  ghost predicate FoundFirst(text: string, i: nat, v: string) {
    FoundAny(text, i, v) && NoneBefore(text, i)
  }

  /** What is found first is the result. */
  lemma FoundFirstIsResult(text: string, i: nat, v: string, r: Option<string>)
    requires FoundFirst(text, i, v) && FirstValue(text, r)
    ensures r == Some(v)
  {
    var j: nat :| FoundAny(text, j, r.value) && NoneBefore(text, j);
    SameStart(text, i, v, r.value);
  }

  lemma SameStart(text: string, i: nat, v: string, w: string)
    requires FoundAny(text, i, v) && FoundAny(text, i, w)
    ensures v == w
  {
    assert text[i] == v[0] == w[0];
    if Found(text, '{', '}', i, v) {
      FoundUnique(text, '{', '}', i, v, i, w);
    } else {
      FoundUnique(text, '[', ']', i, v, i, w);
    }
  }

  /** The value after `prefix` is found if and only if the prefix has no bracket of the value's own kind,
      and the scan from its first bracket of the other kind, if there is one, never comes back to
      depth zero. */
  lemma ExtractionExact(prefix: string, v: Json, suffix: string)
    requires IsContainer(v)
    ensures var text, p := prefix + Print(v) + suffix, OtherOpening(v);
      FoundFirst(text, |prefix|, Print(v)) <==>
        Opening(v) !in prefix && (p in prefix ==> StaysOpen(p, OtherClosing(v), text[FirstPos(prefix, p)..]))
  {
    var text, p, q := prefix + Print(v) + suffix, OtherOpening(v), OtherClosing(v);
    assert text[..|prefix|] == prefix && text[|prefix|] == Print(v)[0] == Opening(v);
    if Opening(v) !in prefix {
      PrintFound(prefix, v, suffix);
      OnlyOther(prefix, v, suffix);
      OtherInPrefix(text, prefix, p, q);
    }
  }

  /** Nothing of this kind is found before the end of the prefix exactly if its scan stays open. */
  lemma OtherInPrefix(text: string, prefix: string, o: char, c: char)
    requires Brackets(o, c) && prefix <= text
    ensures (forall j, w :: Found(text, o, c, j, w) ==> |prefix| <= j) <==>
      (o in prefix ==> StaysOpen(o, c, text[FirstPos(prefix, o)..]))
  {
    if o in prefix {
      var j := FirstPos(prefix, o);
      assert text[..j] == prefix[..j] && text[j] == o;
      StaysOpenExact(text, o, c, j);
    } else {
      assert forall j: nat, w :: Found(text, o, c, j, w) ==> text[j] == o;
      assert forall j :: 0 <= j < |prefix| ==> text[j] == prefix[j] && text[j] in prefix;
    }
  }

  /** The scan from the start of `s` never comes back to depth zero. */
  ghost predicate StaysOpen(o: char, c: char, s: string) {
    Unclosed(o, c, s, |s|)
  }

  /** Met at depth `d`, `s` never brings the scan to depth zero. */
  ghost predicate NeverCloses(o: char, c: char, d: int, s: string) {
    forall k {:trigger DepthAt(o, c, d, s, k)} :: 0 <= k <= |s| ==> DepthAt(o, c, d, s, k) > 0
  }

  /** With no own bracket in the prefix, only a text of the other kind can be found before the value. */
  lemma OnlyOther(prefix: string, v: Json, suffix: string)
    requires IsContainer(v) && Opening(v) !in prefix
    ensures var text := prefix + Print(v) + suffix;
      NoneBefore(text, |prefix|) <==>
        forall j, w :: Found(text, OtherOpening(v), OtherClosing(v), j, w) ==> |prefix| <= j
  {
    var text := prefix + Print(v) + suffix;
    PrintFound(prefix, v, suffix);
    forall j: nat, w | FoundAny(text, j, w) && !Found(text, OtherOpening(v), OtherClosing(v), j, w)
      ensures j == |prefix|
    {
      FoundUnique(text, Opening(v), Closing(v), |prefix|, Print(v), j, w);
    }
    assert forall j, w :: Found(text, OtherOpening(v), OtherClosing(v), j, w) ==> FoundAny(text, j, w);
  }

  /** From the first bracket nothing balanced is found exactly if the scan stays open. */
  lemma StaysOpenExact(text: string, o: char, c: char, j: nat)
    requires Brackets(o, c) && j < |text| && text[j] == o && o !in text[..j]
    ensures StaysOpen(o, c, text[j..]) <==> forall i, w :: !Found(text, o, c, i, w)
    ensures forall i, w :: Found(text, o, c, i, w) ==> i == j
  {
    forall i: nat, w | Found(text, o, c, i, w)
      ensures i == j
    {
      NotAtStart(text, o, c, j, i, w);
    }
    if StaysOpen(o, c, text[j..]) {
      NeverBalanced(text, o, c, j);
    } else {
      var k :| 1 <= k <= |text| - j && DepthAt(o, c, 0, text[j..], k) <= 0;
      FirstClose(text, o, c, j, k);
    }
  }

  lemma {:induction false} FirstClose(text: string, o: char, c: char, j: nat, k: nat)
    requires Brackets(o, c) && j < |text| && text[j] == o && o !in text[..j]
    requires 1 <= k <= |text| - j && DepthAt(o, c, 0, text[j..], k) <= 0
    ensures exists w :: Found(text, o, c, j, w)
  {
    if m :| 1 <= m < k && DepthAt(o, c, 0, text[j..], m) <= 0 {
      FirstClose(text, o, c, j, m);
    } else {
      Extend(o, c, text, j, j + k - 1);
      assert text[j..][..k - 1] == text[j..j + k - 1];
      assert k == 1 || DepthAt(o, c, 0, text[j..], k - 1) > 0;
      FoundHere(text, o, c, j, j + k - 1);
    }
  }

  /** When the prefix leaves such a scan outside strings at depth `d`, the printed value drops out: only
      what follows it decides. */
  lemma ValueDropsOut(o: char, c: char, open: string, v: Json, suffix: string, d: int)
    requires Brackets(o, c) && JsonOk(v) && d > 0
    requires StaysOpen(o, c, open) && Run(o, c, Outside(0), open) == Outside(d)
    ensures StaysOpen(o, c, open + Print(v) + suffix) <==> NeverCloses(o, c, d, suffix)
  {
    PrintNeutral(o, c, v);
    var p := Print(v);
    assert Level(o, c, p, d);
    var s, n := open + p + suffix, |open| + |p|;
    if NeverCloses(o, c, d, suffix) {
      forall k | 1 <= k <= |s|
        ensures DepthAt(o, c, 0, s, k) > 0
      {
        DepthSplit(o, c, open, p, suffix, d, k);
        if k <= |open| {
          assert DepthAt(o, c, 0, open, k) > 0;
        } else if k <= n {
          assert DepthAt(o, c, d, p, k - |open|) >= d;
        }
      }
    } else {
      var k :| 0 <= k <= |suffix| && DepthAt(o, c, d, suffix, k) <= 0;
      DepthSplit(o, c, open, p, suffix, d, n + k);
      assert suffix[..0] == [];
      assert DepthAt(o, c, 0, s, n + k) <= 0;
    }
  }

  /** So behind a bracket of the other kind that the prefix leaves open, the value is found if and only
      if what follows it does not close that bracket. */
  lemma FoundBehindOpenBracket(prefix: string, v: Json, suffix: string, d: int)
    requires IsContainer(v) && Opening(v) !in prefix && OtherOpening(v) in prefix && d > 0
    requires var p, q, open := OtherOpening(v), OtherClosing(v), prefix[FirstPos(prefix, OtherOpening(v))..];
      StaysOpen(p, q, open) && Run(p, q, Outside(0), open) == Outside(d)
    ensures FoundFirst(prefix + Print(v) + suffix, |prefix|, Print(v)) <==>
      NeverCloses(OtherOpening(v), OtherClosing(v), d, suffix)
  {
    var j := FirstPos(prefix, OtherOpening(v));
    ExtractionExact(prefix, v, suffix);
    ValueDropsOut(OtherOpening(v), OtherClosing(v), prefix[j..], v, suffix, d);
    Behind(prefix, j, Print(v), suffix);
  }

  lemma Behind(prefix: string, j: nat, p: string, suffix: string)
    requires j <= |prefix|
    ensures (prefix + p + suffix)[j..] == prefix[j..] + p + suffix
  {
  }

  lemma DepthSplit(o: char, c: char, open: string, p: string, suffix: string, d: int, k: nat)
    requires Run(o, c, Outside(0), open) == Outside(d) && Level(o, c, p, d) && k <= |open + p + suffix|
    ensures var n := |open| + |p|;
      DepthAt(o, c, 0, open + p + suffix, k) ==
        if k <= |open| then DepthAt(o, c, 0, open, k)
        else if k <= n then DepthAt(o, c, d, p, k - |open|)
        else DepthAt(o, c, d, suffix, k - n)
  {
    var s, n := open + p + suffix, |open| + |p|;
    if k <= |open| {
      assert s[..k] == open[..k];
    } else if k <= n {
      assert s[..k] == open + p[..k - |open|];
      RunConcat(o, c, Outside(0), open, p[..k - |open|]);
    } else {
      assert s[..k] == open + p + suffix[..k - n];
      RunConcat(o, c, Outside(0), open + p, suffix[..k - n]);
      RunConcat(o, c, Outside(0), open, p);
    }
  }

  /** Extraction inverts printing, whatever follows and whatever bracket-free text precedes. */
  lemma ExtractionInvertsPrinting(prefix: string, v: Json, suffix: string, r: Option<string>)
    requires IsContainer(v) && '{' !in prefix && '[' !in prefix && FirstValue(prefix + Print(v) + suffix, r)
    ensures r == Some(Print(v))
  {
    ExtractionExact(prefix, v, suffix);
    FoundFirstIsResult(prefix + Print(v) + suffix, |prefix|, Print(v), r);
  }

  /** Brackets in the prose before the value hide it. */
  lemma BracketedProseHidesValue(r: Option<string>)
    requires FirstValue("[1] " + Print(Object(NoMember(""))), r)
    ensures r == Some("[1]")
  {
    var v := Array(LastItem("", Scalar("1"), ""));
    var text := "[1] " + Print(Object(NoMember("")));
    assert Print(v) == "[1]" && Print(Object(NoMember(""))) == "{}";
    assert text == "" + Print(v) + " {}";
    ExtractionInvertsPrinting("", v, " {}", r);
  }

  /** The characters `str.strip` removes. */
  predicate IsSpace(c: char) {
    ('\t' <= c <= '\r') || ('\U{1C}' <= c <= ' ') || c in {'\U{85}', '\U{A0}', '\U{1680}'} ||
    ('\U{2000}' <= c <= '\U{200A}') || c in {'\U{2028}', '\U{2029}', '\U{202F}', '\U{205F}', '\U{3000}'}
  }

  /** Their code points: the four spaces of JSON are among them, and no visible character of ASCII is. */
  lemma SpacesInNumbers(c: char)
    ensures IsSpace(c) <==> var n := c as int;
      || n in {0x09, 0x0A, 0x0B, 0x0C, 0x0D, 0x1C, 0x1D, 0x1E, 0x1F, 0x20, 0x85, 0xA0, 0x1680}
      || n in {0x2000, 0x2001, 0x2002, 0x2003, 0x2004, 0x2005, 0x2006, 0x2007, 0x2008, 0x2009, 0x200A}
      || n in {0x2028, 0x2029, 0x202F, 0x205F, 0x3000}
  {
  }

  predicate AllSpace(s: string) {
    forall i :: 0 <= i < |s| ==> IsSpace(s[i])
  }

  function LStrip(s: string): string {
    if s != [] && IsSpace(s[0]) then LStrip(s[1..]) else s
  }

  function RStrip(s: string): string {
    if s != [] && IsSpace(s[|s| - 1]) then RStrip(s[..|s| - 1]) else s
  }

  function Strip(s: string): string {
    RStrip(LStrip(s))
  }

  lemma {:induction false} LStripAppend(a: string, b: string)
    requires b != [] && !IsSpace(b[0])
    ensures LStrip(a + b) == LStrip(a) + b
  {
    if a == [] {
      assert a + b == b;
    } else if IsSpace(a[0]) {
      LStripAppend(a[1..], b);
      assert (a + b)[1..] == a[1..] + b;
    }
  }

  lemma {:induction false} RStripAppend(a: string, b: string)
    requires a != [] && !IsSpace(a[|a| - 1])
    ensures RStrip(a + b) == a + RStrip(b)
  {
    if b == [] {
      assert a + b == a;
    } else if IsSpace(b[|b| - 1]) {
      RStripAppend(a, b[..|b| - 1]);
      assert (a + b)[..|a + b| - 1] == a + b[..|b| - 1];
    }
  }

  lemma {:induction false} StripSpaces(s: string)
    requires AllSpace(s)
    ensures LStrip(s) == [] && RStrip(s) == []
  {
    if s != [] {
      StripSpaces(s[1..]);
      StripSpaces(s[..|s| - 1]);
    }
  }

  /** What stripping drops on the left. */
  lemma {:induction false} LStripSuffix(s: string) returns (k: nat)
    ensures k <= |s| && LStrip(s) == s[k..]
  {
    if s != [] && IsSpace(s[0]) {
      var m := LStripSuffix(s[1..]);
      k := m + 1;
    } else {
      k := 0;
    }
  }

  /** Stripping reaches what stands around a text that neither starts nor ends with a space. */
  lemma StripAround(a: string, m: string, b: string)
    requires m != [] && !IsSpace(m[0]) && !IsSpace(m[|m| - 1])
    ensures Strip(a + m + b) == LStrip(a) + m + RStrip(b)
  {
    var l := LStrip(a);
    assert a + m + b == a + (m + b);
    LStripAppend(a, m + b);
    assert l + (m + b) == (l + m) + b;
    RStripAppend(l + m, b);
  }

  const FENCE := "```"
  const JSON_FENCE := "```json"

  /** The body of the first fenced JSON block, stripped; empty when there is none. */
  function FencedBody(text: string): string {
    var fence := Find(text, JSON_FENCE);
    if fence == -1 then ""
    else
      var after := text[fence + |JSON_FENCE|..];
      var end := Find(after, FENCE);
      Strip(if end != -1 then after[..end] else after)
  }

  /** `extract_json_payload`. */
  method ExtractPayload(response: string) returns (r: string)
    ensures Payload(response, r)
  {
    var text := Strip(response);
    var candidate := FencedBody(text);
    if candidate != "" { return candidate; }
    var value := FindFirstValue(text);
    return if value.Some? then value.value else text;
  }

  ghost predicate Payload(response: string, r: string) {
    var text := Strip(response);
    if FencedBody(text) != "" then r == FencedBody(text)
    else exists v :: FirstValue(text, v) && r == if v.Some? then v.value else text
  }

  lemma ContainerEnds(v: Json)
    requires IsContainer(v)
    ensures Print(v) != [] && Print(v)[0] in {'{', '['} && Print(v)[|Print(v)| - 1] in {'}', ']'}
    ensures !IsSpace(Print(v)[0]) && !IsSpace(Print(v)[|Print(v)| - 1])
  {
  }

  /** An unfenced value in bracket-free prose comes back whole. */
  lemma UnfencedPayload(prefix: string, v: Json, suffix: string, r: string)
    requires IsContainer(v) && '{' !in prefix && '[' !in prefix
    requires Payload(prefix + Print(v) + suffix, r) && Find(Strip(prefix + Print(v) + suffix), JSON_FENCE) == -1
    ensures r == Print(v)
  {
    ContainerEnds(v);
    StripAround(prefix, Print(v), suffix);
    var k := LStripSuffix(prefix);
    var text := LStrip(prefix) + Print(v) + RStrip(suffix);
    assert forall c :: c in LStrip(prefix) ==> c in prefix;
    var first :| FirstValue(text, first) && r == if first.Some? then first.value else text;
    ExtractionInvertsPrinting(LStrip(prefix), v, RStrip(suffix), first);
  }

  lemma OccursChar(text: string, sub: string, i: nat, j: nat)
    requires OccursAt(text, sub, i) && j < |sub|
    ensures text[i + j] == sub[j]
  {
    assert text[i..i + |sub|][j] == text[i + j];
  }

  lemma OccursInPart(a: string, b: string, c: string, sub: string, k: nat)
    requires k + |sub| <= |b|
    ensures OccursAt(a + b + c, sub, |a| + k) <==> OccursAt(b, sub, k)
  {
    assert (a + b + c)[|a| + k..|a| + k + |sub|] == b[k..k + |sub|];
  }

  lemma OccursHere(a: string, sub: string, c: string)
    ensures OccursAt(a + sub + c, sub, |a|)
  {
    OccursInPart(a, sub, c, sub, 0);
    assert sub[0..|sub|] == sub;
  }

  /** The fence of a JSON block cannot overlap what stands before it. */
  lemma FencePosition(a: string, b: string)
    requires forall i :: !OccursAt(a, JSON_FENCE, i)
    ensures Find(a + JSON_FENCE + b, JSON_FENCE) == |a|
  {
    var text := a + JSON_FENCE + b;
    OccursHere(a, JSON_FENCE, b);
    var k := Find(text, JSON_FENCE);
    if k + 7 <= |a| {
      assert "" + a + (JSON_FENCE + b) == text;
      OccursInPart("", a, JSON_FENCE + b, JSON_FENCE, k);
    } else {
      FenceHasNoBorder(text, k, |a|);
    }
  }

  lemma FenceHasNoBorder(text: string, k: nat, n: nat)
    requires k <= n < k + 7 && OccursAt(text, JSON_FENCE, k) && OccursAt(text, JSON_FENCE, n)
    ensures k == n
  {
    // The fourth character is a letter, and a backquote never stands for it.
    var d := n - k;
    assert |JSON_FENCE| == 7 && JSON_FENCE[0] == JSON_FENCE[1] == JSON_FENCE[2] == '`';
    assert JSON_FENCE[3] == 'j' && JSON_FENCE[4] == 's' && JSON_FENCE[5] == 'o' && JSON_FENCE[6] == 'n';
    if d < 3 {
      OccursChar(text, JSON_FENCE, k, 3);
      OccursChar(text, JSON_FENCE, n, 3 - d);
    } else {
      OccursChar(text, JSON_FENCE, k, d);
      OccursChar(text, JSON_FENCE, n, 0);
    }
  }

  /** The closing fence is found right behind the spacing after the value, unless the value itself
      contains one. */
  lemma ClosingFence(w1: string, p: string, w2: string, rest: string)
    requires AllSpace(w1) && AllSpace(w2) && p != [] && p[0] != '`' && p[|p| - 1] != '`'
    ensures Find(w1 + p + w2 + FENCE + rest, FENCE) ==
      if Find(p, FENCE) == -1 then |w1 + p + w2| else |w1| + Find(p, FENCE)
  {
    Associate(w1 + p, w2, FENCE, rest);
    OccursHere(w1 + p + w2, FENCE, rest);
    var after, k := w1 + p + (w2 + FENCE + rest), Find(w1 + p + (w2 + FENCE + rest), FENCE);
    if k < |w1 + p + w2| {
      BackquotesInside(w1, p, w2, FENCE + rest, k);
      OccursInPart(w1, p, w2 + FENCE + rest, FENCE, k - |w1|);
    }
    if Find(p, FENCE) != -1 { OccursInPart(w1, p, w2 + FENCE + rest, FENCE, Find(p, FENCE)); }
  }

  /** Three backquotes that start before the end of the body lie within the value. */
  lemma BackquotesInside(w1: string, p: string, w2: string, rest: string, k: nat)
    requires AllSpace(w1) && AllSpace(w2) && p != [] && p[0] != '`' && p[|p| - 1] != '`'
    requires k < |w1 + p + w2| && OccursAt(w1 + p + (w2 + rest), FENCE, k)
    ensures |w1| <= k && k + 3 <= |w1 + p|
  {
    var after := w1 + p + (w2 + rest);
    var last := |w1| + |p| - 1;
    OccursChar(after, FENCE, k, 0);
    assert after[last] == p[|p| - 1];
    assert forall i :: 0 <= i < |w1| ==> after[i] == w1[i];
    assert forall i :: 0 <= i < |w2| ==> after[last + 1 + i] == w2[i];
    if k <= last < k + 3 {
      OccursChar(after, FENCE, k, last - k);
    }
  }

  /** A fenced value comes back whole exactly when its print contains no fence of its own. */
  lemma FencedPayload(prefix: string, w1: string, v: Json, w2: string, suffix: string, r: string)
    requires IsContainer(v) && AllSpace(w1) && AllSpace(w2) && Find(prefix, JSON_FENCE) == -1
    requires Payload(prefix + (JSON_FENCE + (w1 + Print(v) + w2 + FENCE)) + suffix, r)
    ensures r == Print(v) <==> Find(Print(v), FENCE) == -1
  {
    var p := Print(v);
    ContainerEnds(v);
    StripFenced(prefix, w1 + p + w2, suffix);
    NoFenceLeft(prefix);
    BodyOf(LStrip(prefix), w1, p, w2, RStrip(suffix));
  }

  lemma StripFenced(prefix: string, body: string, suffix: string)
    ensures Strip(prefix + (JSON_FENCE + (body + FENCE)) + suffix) ==
      LStrip(prefix) + JSON_FENCE + (body + FENCE + RStrip(suffix))
  {
    var m := JSON_FENCE + (body + FENCE);
    assert m[0] == '`' && m[|m| - 1] == '`';
    StripAround(prefix, m, suffix);
    Regroup(LStrip(prefix), JSON_FENCE, body, FENCE, RStrip(suffix));
  }

  lemma Regroup(a: string, f: string, body: string, e: string, b: string)
    ensures a + (f + (body + e)) + b == a + f + (body + e + b)
  {
  }

  lemma NoFenceLeft(prefix: string)
    requires Find(prefix, JSON_FENCE) == -1
    ensures forall i :: !OccursAt(LStrip(prefix), JSON_FENCE, i)
  {
    var k := LStripSuffix(prefix);
    var a, b := prefix[..k], prefix[k..];
    assert a + b + "" == prefix;
    forall i: nat
      ensures !OccursAt(b, JSON_FENCE, i)
    {
      if i + 7 <= |b| { OccursInPart(a, b, "", JSON_FENCE, i); }
    }
  }

  /** The body of the block in a stripped answer. */
  lemma BodyOf(a: string, w1: string, p: string, w2: string, b: string)
    requires AllSpace(w1) && AllSpace(w2) && forall i :: !OccursAt(a, JSON_FENCE, i)
    requires p != [] && p[0] in {'{', '['} && p[|p| - 1] in {'}', ']'}
    ensures var r := FencedBody(a + JSON_FENCE + (w1 + p + w2 + FENCE + b));
      r != "" && (r == p <==> Find(p, FENCE) == -1)
  {
    var k := Find(p, FENCE);
    var end := if k == -1 then |w1 + p + w2| else |w1| + k;
    BodyIs(a, w1, p, w2, b, end);
    if k == -1 {
      WholeValue(w1, p, w2, FENCE, b, end);
    } else {
      CutValue(w1, p, w2, b, k, end);
    }
  }

  lemma BodyIs(a: string, w1: string, p: string, w2: string, b: string, end: nat)
    requires AllSpace(w1) && AllSpace(w2) && (forall i :: !OccursAt(a, JSON_FENCE, i))
    requires p != [] && p[0] != '`' && p[|p| - 1] != '`'
    requires end == if Find(p, FENCE) == -1 then |w1 + p + w2| else |w1| + Find(p, FENCE)
    ensures FencedBody(a + JSON_FENCE + (w1 + p + w2 + FENCE + b)) == Strip((w1 + p + w2 + FENCE + b)[..end])
  {
    BlockOf(a, w1 + p + w2 + FENCE + b);
    ClosingFence(w1, p, w2, b);
  }

  lemma WholeValue(w1: string, p: string, w2: string, f: string, b: string, end: nat)
    requires end == |w1 + p + w2| && AllSpace(w1) && AllSpace(w2) && p != [] && !IsSpace(p[0]) && !IsSpace(p[|p| - 1])
    ensures Strip((w1 + p + w2 + f + b)[..end]) == p
  {
    Cut(w1, p, w2, f, b, |p|);
    StripExact(w1, p, w2);
  }

  lemma CutValue(w1: string, p: string, w2: string, b: string, k: nat, end: nat)
    requires end == |w1| + k && AllSpace(w1) && p != [] && p[0] in {'{', '['} && OccursAt(p, FENCE, k)
    ensures Strip((w1 + p + w2 + FENCE + b)[..end]) !in {"", p}
  {
    OccursChar(p, FENCE, k, 0);
    Cut(w1, p, w2, FENCE, b, k);
    StripCut(w1, p[..k]);
  }

  lemma Cut(w1: string, p: string, w2: string, f: string, b: string, k: nat)
    requires k <= |p|
    ensures (w1 + p + w2 + f + b)[..|w1| + k] == w1 + p[..k]
    ensures (w1 + p + w2 + f + b)[..|w1 + p + w2|] == w1 + p + w2
  {
  }

  lemma BlockOf(a: string, after: string)
    requires forall i :: !OccursAt(a, JSON_FENCE, i)
    ensures var end := Find(after, FENCE);
      FencedBody(a + JSON_FENCE + after) == Strip(if end != -1 then after[..end] else after)
  {
    FencePosition(a, after);
    Rest(a, JSON_FENCE, after);
  }

  lemma Rest(a: string, f: string, after: string)
    ensures (a + f + after)[|a| + |f|..] == after
  {
  }

  lemma StripExact(w1: string, p: string, w2: string)
    requires AllSpace(w1) && AllSpace(w2) && p != [] && !IsSpace(p[0]) && !IsSpace(p[|p| - 1])
    ensures Strip(w1 + p + w2) == p
  {
    StripAround(w1, p, w2);
    StripSpaces(w1);
    StripSpaces(w2);
  }

  lemma StripCut(w1: string, q: string)
    requires AllSpace(w1) && q != [] && !IsSpace(q[0])
    ensures Strip(w1 + q) != "" && |Strip(w1 + q)| <= |q|
  {
    assert w1 + q == w1 + q[..1] + q[1..];
    StripAround(w1, q[..1], q[1..]);
    StripSpaces(w1);
    RStripShorter(q[1..]);
  }

  lemma {:induction false} RStripShorter(s: string)
    ensures |RStrip(s)| <= |s|
  {
    if s != [] && IsSpace(s[|s| - 1]) { RStripShorter(s[..|s| - 1]); }
  }
}
