/**
  The repair step that escapes raw control characters inside JSON strings.
 */
module JsonEscape {
  import opened JsonScan

  /** The scanner's state after `text`; the kind of bracket it counts does not matter here. */
  function After(s: Scan, text: string): Scan {
    Run('{', '}', s, text)
  }

  predicate IsControl(ch: char) {
    ch < ' '
  }

  function HexDigit(n: nat): char
    requires n < 16
  {
    "0123456789abcdef"[n]
  }

  /** The units that spell a control character. */
  function ControlUnits(ch: char): seq<Unit>
    requires IsControl(ch)
  {
    if ch == '\n' then [Escape('n')]
    else if ch == '\r' then [Escape('r')]
    else if ch == '\t' then [Escape('t')]
    else [Escape('u'), Plain('0'), Plain('0'), Plain(HexDigit(ch as int / 16)), Plain(HexDigit(ch as int % 16))]
  }

  /** Where the scanner stands inside a string and not behind a backslash. */
  predicate Exposed(s: Scan) {
    s.inString && !s.escaped
  }

  function EscapeOne(s: Scan, ch: char): string {
    if Exposed(s) && IsControl(ch) then PrintUnits(ControlUnits(ch)) else [ch]
  }

  /** What the text becomes when it is met in state `s`. */
  function EscapeText(s: Scan, text: string): string {
    if text == [] then []
    else
      var init, ch := text[..|text| - 1], text[|text| - 1];
      EscapeText(s, init) + EscapeOne(After(s, init), ch)
  }

  /** No raw control character stands inside a string, except directly behind a backslash. */
  ghost predicate Clean(s: Scan, text: string) {
    forall i {:trigger CleanAt(s, text, i)} :: 0 <= i < |text| ==> CleanAt(s, text, i)
  }

  ghost predicate CleanAt(s: Scan, text: string, i: nat)
    requires i < |text|
  {
    IsControl(text[i]) ==> !Exposed(After(s, text[..i]))
  }

  /** `_escape_control_chars_in_strings`. */
  method EscapeControlChars(raw: string) returns (out: string)
    ensures out == EscapeText(Outside(0), raw)
  {
    out := [];
    var inString, escaped := false, false;
    for k := 0 to |raw|
      invariant out == EscapeText(Outside(0), raw[..k])
      invariant After(Outside(0), raw[..k]).inString == inString && After(Outside(0), raw[..k]).escaped == escaped
      invariant escaped ==> inString
    {
      var ch := raw[k];
      assert raw[..k + 1][..k] == raw[..k];
      if inString {
        if escaped {
          out := out + [ch];
          escaped := false;
          continue;
        }
        if ch == BACKSLASH {
          out := out + [ch];
          escaped := true;
          continue;
        }
        if ch == QUOTE {
          out := out + [ch];
          inString := false;
          continue;
        }
        if IsControl(ch) {
          var spelled := SpellControl(ch);
          out := out + spelled;
          continue;
        }
        out := out + [ch];
        continue;
      }
      out := out + [ch];
      if ch == QUOTE {
        inString := true;
        escaped := false;
      }
    }
    assert raw[..|raw|] == raw;
  }

  method SpellControl(ch: char) returns (r: string)
    requires IsControl(ch)
    ensures r == PrintUnits(ControlUnits(ch))
  {
    PrintOne(Escape('n'));
    PrintOne(Escape('r'));
    PrintOne(Escape('t'));
    if ch == '\n' { return "\\n"; }
    if ch == '\r' { return "\\r"; }
    if ch == '\t' { return "\\t"; }
    r := "\\u00" + [HexDigit(ch as int / 16), HexDigit(ch as int % 16)];
    PrintLong(HexDigit(ch as int / 16), HexDigit(ch as int % 16));
  }

  lemma PrintOne(u: Unit)
    ensures PrintUnits([u]) == if u.Plain? then [u.c] else [BACKSLASH, u.c]
  {
    assert [u][..0] == [];
  }

  lemma {:induction false} PrintConcat(a: seq<Unit>, b: seq<Unit>)
    ensures PrintUnits(a + b) == PrintUnits(a) + PrintUnits(b)
  {
    if b == [] {
      assert a + b == a;
    } else {
      PrintConcat(a, b[..|b| - 1]);
      assert (a + b)[..|a + b| - 1] == a + b[..|b| - 1];
    }
  }

  lemma PrintLong(h: char, l: char)
    ensures PrintUnits([Escape('u'), Plain('0'), Plain('0'), Plain(h), Plain(l)]) == "\\u00" + [h, l]
  {
    var u := [Escape('u'), Plain('0'), Plain('0'), Plain(h), Plain(l)];
    assert u == [u[0]] + ([u[1]] + ([u[2]] + ([u[3]] + [u[4]])));
    PrintConcat([u[0]], [u[1]] + ([u[2]] + ([u[3]] + [u[4]])));
    PrintConcat([u[1]], [u[2]] + ([u[3]] + [u[4]]));
    PrintConcat([u[2]], [u[3]] + [u[4]]);
    PrintConcat([u[3]], [u[4]]);
    PrintOne(u[0]);
    PrintOne(u[1]);
    PrintOne(u[2]);
    PrintOne(u[3]);
    PrintOne(u[4]);
  }

  lemma EscapeAppend(s: Scan, text: string, ch: char)
    ensures EscapeText(s, text + [ch]) == EscapeText(s, text) + EscapeOne(After(s, text), ch)
  {
    assert (text + [ch])[..|text|] == text;
  }

  lemma EscapeConcat(s: Scan, a: string, b: string)
    ensures EscapeText(s, a + b) == EscapeText(s, a) + EscapeText(After(s, a), b)
    ensures After(s, a + b) == After(After(s, a), b)
  {
    RunConcat('{', '}', s, a, b);
    EscapeTextConcat(s, a, b);
  }

  lemma {:induction false} EscapeTextConcat(s: Scan, a: string, b: string)
    ensures EscapeText(s, a + b) == EscapeText(s, a) + EscapeText(After(s, a), b)
  {
    if b == [] {
      assert a + b == a;
    } else {
      var init := b[..|b| - 1];
      EscapeTextConcat(s, a, init);
      EscapeNext(s, a, init, b[|b| - 1]);
      SplitLast(a, b);
    }
  }

  lemma EscapeNext(s: Scan, a: string, init: string, ch: char)
    requires EscapeText(s, a + init) == EscapeText(s, a) + EscapeText(After(s, a), init)
    ensures EscapeText(s, a + init + [ch]) == EscapeText(s, a) + EscapeText(After(s, a), init + [ch])
  {
    var t := After(s, a);
    EscapeAppend(s, a + init, ch);
    RunConcat('{', '}', s, a, init);
    EscapeAppend(t, init, ch);
    Reassociate(EscapeText(s, a), EscapeText(t, init), EscapeOne(After(t, init), ch));
  }

  lemma Reassociate(x: string, y: string, z: string)
    ensures x + y + z == x + (y + z)
  {
  }

  lemma SplitLast(a: string, b: string)
    requires b != []
    ensures a + b == (a + b[..|b| - 1]) + [b[|b| - 1]] && b == b[..|b| - 1] + [b[|b| - 1]]
  {
  }

  lemma CleanConcat(s: Scan, a: string, b: string)
    ensures Clean(s, a + b) <==> Clean(s, a) && Clean(After(s, a), b)
  {
    forall i | 0 <= i < |a|
      ensures CleanAt(s, a + b, i) <==> CleanAt(s, a, i)
    {
      assert (a + b)[..i] == a[..i];
    }
    forall i | 0 <= i < |b|
      ensures CleanAt(s, a + b, |a| + i) <==> CleanAt(After(s, a), b, i)
    {
      assert (a + b)[..|a| + i] == a + b[..i];
      EscapeConcat(s, a, b[..i]);
    }
    forall i | |a| <= i < |a + b| && Clean(After(s, a), b)
      ensures CleanAt(s, a + b, i)
    {
      assert CleanAt(After(s, a), b, i - |a|);
    }
    if Clean(s, a + b) {
      forall i | 0 <= i < |a| ensures CleanAt(s, a, i) { assert CleanAt(s, a + b, i); }
      forall i | 0 <= i < |b| ensures CleanAt(After(s, a), b, i) { assert CleanAt(s, a + b, |a| + i); }
    } else if Clean(s, a) {
      forall i | 0 <= i < |a| ensures CleanAt(s, a + b, i) { assert CleanAt(s, a, i); }
    }
  }

  /** The spelling of a control character leaves the scanner where it was and is clean. */
  lemma ControlScan(s: Scan, ch: char)
    requires Exposed(s) && IsControl(ch)
    ensures After(s, PrintUnits(ControlUnits(ch))) == s && Clean(s, PrintUnits(ControlUnits(ch)))
    ensures UnitsOk(ControlUnits(ch))
  {
    var u := ControlUnits(ch);
    var p := PrintUnits(u);
    UnitsScan('{', '}', u, s.depth, 0);
    SpelledPlainly(ch);
    forall i | 0 <= i < |p|
      ensures CleanAt(s, p, i)
    {
      assert !IsControl(p[i]);
    }
  }

  /** The spelling of a control character has none. */
  lemma SpelledPlainly(ch: char)
    requires IsControl(ch)
    ensures forall i :: 0 <= i < |PrintUnits(ControlUnits(ch))| ==> !IsControl(PrintUnits(ControlUnits(ch))[i])
  {
    var u := ControlUnits(ch);
    if |u| == 1 {
      PrintOne(u[0]);
      assert u == [u[0]];
    } else {
      var h, l := HexDigit(ch as int / 16), HexDigit(ch as int % 16);
      PrintLong(h, l);
      assert PrintUnits(u) == "\\u00" + [h, l];
      DigitPlain(ch as int / 16);
      DigitPlain(ch as int % 16);
    }
  }

  lemma DigitPlain(n: nat)
    requires n < 16
    ensures !IsControl(HexDigit(n))
  {
  }

  lemma CleanOne(s: Scan, ch: char)
    ensures Clean(s, [ch]) <==> !(IsControl(ch) && Exposed(s))
  {
    assert [ch][..0] == [];
    if Clean(s, [ch]) {
      assert CleanAt(s, [ch], 0);
    }
  }

  /** Escaping leaves the scanner's state unchanged and the text clean. */
  lemma {:induction false} EscapedScan(s: Scan, text: string)
    ensures After(s, EscapeText(s, text)) == After(s, text)
    ensures Clean(s, EscapeText(s, text))
  {
    if text != [] {
      var init, ch := text[..|text| - 1], text[|text| - 1];
      var t := After(s, init);
      EscapedScan(s, init);
      var last := EscapeOne(t, ch);
      EscapeConcat(s, EscapeText(s, init), last);
      CleanConcat(s, EscapeText(s, init), last);
      if Exposed(t) && IsControl(ch) { ControlScan(t, ch); }
      OneStep('{', '}', t, ch);
      CleanOne(t, ch);
    }
  }

  /** Clean texts are exactly the ones that escaping does not change. */
  lemma {:induction false} EscapeIdentity(s: Scan, text: string)
    ensures Clean(s, text) <==> EscapeText(s, text) == text
  {
    if Clean(s, text) {
      if text != [] {
        var init, ch := text[..|text| - 1], text[|text| - 1];
        assert text == init + [ch];
        CleanConcat(s, init, [ch]);
        CleanOne(After(s, init), ch);
        EscapeIdentity(s, init);
      }
    } else {
      EscapedScan(s, text);
    }
  }

  /** In numbers: what is left below U+0020 in the repaired text stands outside strings or directly
      behind a backslash, and a text without such characters is not changed. */
  lemma EscapedBelowSpace(text: string, i: nat)
    ensures var out := EscapeText(Outside(0), text); i < |out| && out[i] as int < 32 ==>
      !After(Outside(0), out[..i]).inString || After(Outside(0), out[..i]).escaped
    ensures (forall k :: 0 <= k < |text| ==> text[k] as int >= 32) ==> EscapeText(Outside(0), text) == text
  {
    var out := EscapeText(Outside(0), text);
    EscapedScan(Outside(0), text);
    assert i < |out| ==> CleanAt(Outside(0), out, i);
    EscapeIdentity(Outside(0), text);
  }

  lemma EscapeIdempotent(s: Scan, text: string)
    ensures EscapeText(s, EscapeText(s, text)) == EscapeText(s, text)
  {
    EscapedScan(s, text);
    EscapeIdentity(s, EscapeText(s, text));
  }

  function SpellOne(u: Unit): seq<Unit> {
    if u.Plain? && IsControl(u.c) then ControlUnits(u.c) else [u]
  }

  /** The units with every raw control character spelled out. */
  function SpellUnits(units: seq<Unit>): seq<Unit> {
    if units == [] then [] else SpellUnits(units[..|units| - 1]) + SpellOne(units[|units| - 1])
  }

  /** The same value with the raw control characters of all its strings spelled out. */
  function Spell(v: Json): Json {
    match v
    case Scalar(text) => v
    case Text(units) => Text(SpellUnits(units))
    case Array(items) => Array(SpellItems(items))
    case Object(members) => Object(SpellMembers(members))
  }

  function SpellItems(l: Items): Items {
    match l
    case NoItem(pad) => l
    case LastItem(before, value, after) => LastItem(before, Spell(value), after)
    case Item(before, value, after, rest) => Item(before, Spell(value), after, SpellItems(rest))
  }

  function SpellMembers(l: Members): Members {
    match l
    case NoMember(pad) => l
    case LastMember(before, key, colon, gap, value, after) =>
      LastMember(before, SpellUnits(key), colon, gap, Spell(value), after)
    case Member(before, key, colon, gap, value, after, rest) =>
      Member(before, SpellUnits(key), colon, gap, Spell(value), after, SpellMembers(rest))
  }

  lemma {:induction false} SpellOk(v: Json)
    requires JsonOk(v)
    ensures JsonOk(Spell(v))
  {
    match v
    case Scalar(_) =>
    case Text(units) => SpelledOk(units);
    case Array(items) => SpellItemsOk(items);
    case Object(members) => SpellMembersOk(members);
  }

  lemma {:induction false} SpellItemsOk(l: Items)
    requires ItemsOk(l)
    ensures ItemsOk(SpellItems(l))
  {
    match l
    case NoItem(_) =>
    case LastItem(_, value, _) => SpellOk(value);
    case Item(_, value, _, rest) =>
      SpellOk(value);
      SpellItemsOk(rest);
  }

  lemma {:induction false} SpellMembersOk(l: Members)
    requires MembersOk(l)
    ensures MembersOk(SpellMembers(l))
  {
    match l
    case NoMember(_) =>
    case LastMember(_, key, _, _, value, _) =>
      SpelledOk(key);
      SpellOk(value);
    case Member(_, key, _, _, value, _, rest) =>
      SpelledOk(key);
      SpellOk(value);
      SpellMembersOk(rest);
  }

  /** Met outside a string, `a` becomes `b` and ends outside a string. */
  ghost predicate Becomes(a: string, b: string) {
    forall d {:trigger BecomesAt(a, b, d)} :: BecomesAt(a, b, d)
  }

  ghost predicate BecomesAt(a: string, b: string, d: int) {
    var s := After(Outside(d), a);
    EscapeText(Outside(d), a) == b && !s.inString && !s.escaped
  }

  lemma BecomesConcat(a: string, a2: string, b: string, b2: string)
    requires Becomes(a, a2) && Becomes(b, b2)
    ensures Becomes(a + b, a2 + b2)
  {
    forall d
      ensures BecomesAt(a + b, a2 + b2, d)
    {
      assert BecomesAt(a, a2, d);
      var s := After(Outside(d), a);
      assert s == Outside(s.depth) && BecomesAt(b, b2, s.depth);
      EscapeConcat(Outside(d), a, b);
    }
  }

  lemma {:induction false} StaysAt(a: string, d: int)
    requires QUOTE !in a
    ensures BecomesAt(a, a, d)
  {
    if a != [] {
      StaysAt(a[..|a| - 1], d);
    }
  }

  lemma Stays(a: string)
    requires QUOTE !in a
    ensures Becomes(a, a)
  {
    forall d
      ensures BecomesAt(a, a, d)
    {
      StaysAt(a, d);
    }
  }

  lemma {:induction false} SpelledOk(units: seq<Unit>)
    requires UnitsOk(units)
    ensures UnitsOk(SpellUnits(units))
  {
    if units != [] {
      var u := units[|units| - 1];
      SpelledOk(units[..|units| - 1]);
      if u.Plain? && IsControl(u.c) { ControlScan(Scan(0, true, false), u.c); }
    }
  }

  lemma {:induction false} UnitsSpelled(units: seq<Unit>, d: int)
    requires UnitsOk(units)
    ensures EscapeText(Scan(d, true, false), PrintUnits(units)) == PrintUnits(SpellUnits(units))
  {
    if units != [] {
      var init, u := units[..|units| - 1], units[|units| - 1];
      UnitsSpelled(init, d);
      UnitsScan('{', '}', init, d, 0);
      PrintOne(u);
      EscapeTextConcat(Scan(d, true, false), PrintUnits(init), PrintUnits([u]));
      UnitSpelled(u, Scan(d, true, false));
      PrintConcat(SpellUnits(init), SpellOne(u));
    }
  }

  lemma UnitSpelled(u: Unit, s: Scan)
    requires Exposed(s) && (u.Plain? ==> u.c !in {QUOTE, BACKSLASH})
    ensures EscapeText(s, PrintUnits([u])) == PrintUnits(SpellOne(u))
  {
    PrintOne(u);
    if u.Plain? {
      EscapeAppend(s, [], u.c);
      assert [] + [u.c] == [u.c];
    } else {
      EscapeAppend(s, [], BACKSLASH);
      assert [] + [BACKSLASH] == [BACKSLASH];
      OneStep('{', '}', s, BACKSLASH);
      EscapeAppend(s, [BACKSLASH], u.c);
      assert [BACKSLASH] + [u.c] == [BACKSLASH, u.c];
    }
  }

  lemma StringSpelled(units: seq<Unit>)
    requires UnitsOk(units)
    ensures Becomes(PrintString(units), PrintString(SpellUnits(units)))
  {
    forall d
      ensures BecomesAt(PrintString(units), PrintString(SpellUnits(units)), d)
    {
      var p := PrintUnits(units);
      UnitsSpelled(units, d);
      UnitsScan('{', '}', units, d, 0);
      EscapeConcat(Outside(d), [QUOTE], p);
      EscapeConcat(Outside(d), [QUOTE] + p, [QUOTE]);
      QuoteScan(d);
    }
  }

  lemma QuoteScan(d: int)
    ensures EscapeText(Outside(d), [QUOTE]) == [QUOTE] && After(Outside(d), [QUOTE]) == Scan(d, true, false)
    ensures EscapeText(Scan(d, true, false), [QUOTE]) == [QUOTE] && After(Scan(d, true, false), [QUOTE]) == Outside(d)
  {
    assert [QUOTE][..0] == [];
  }

  /** Escaping a printed value prints the value with its control characters spelled out. */
  lemma {:induction false} EscapePrinted(v: Json)
    requires JsonOk(v)
    ensures Becomes(Print(v), Print(Spell(v)))
    decreases v, 0
  {
    match v
    case Scalar(text) => Stays(text);
    case Text(units) => StringSpelled(units);
    case Array(items) =>
      EscapeItems(items);
      EscapeEnclosed("[", PrintItems(items), PrintItems(SpellItems(items)), "]");
    case Object(members) =>
      EscapeMembers(members);
      EscapeEnclosed("{", PrintMembers(members), PrintMembers(SpellMembers(members)), "}");
  }

  lemma EscapeEnclosed(p: string, a: string, b: string, q: string)
    requires QUOTE !in p && QUOTE !in q && Becomes(a, b)
    ensures Becomes(p + a + q, p + b + q)
  {
    Stays(p);
    Stays(q);
    BecomesConcat(p, p, a, b);
    BecomesConcat(p + a, p + b, q, q);
  }

  lemma {:induction false} EscapePadded(before: string, v: Json, after: string)
    requires Filler(before) && JsonOk(v) && Filler(after)
    ensures Becomes(before + Print(v) + after, before + Print(Spell(v)) + after)
    decreases v, 1
  {
    EscapePrinted(v);
    EscapeEnclosed(before, Print(v), Print(Spell(v)), after);
  }

  lemma {:induction false} EscapeItems(l: Items)
    requires ItemsOk(l)
    ensures Becomes(PrintItems(l), PrintItems(SpellItems(l)))
    decreases l, 0
  {
    match l
    case NoItem(pad) => Stays(pad);
    case LastItem(before, value, after) => EscapePadded(before, value, after);
    case Item(before, value, after, rest) =>
      EscapePadded(before, value, after);
      EscapeItems(rest);
      EscapeJoined(before + Print(value) + after, before + Print(Spell(value)) + after,
                   PrintItems(rest), PrintItems(SpellItems(rest)));
  }

  /** Two pieces with a comma between them. */
  lemma EscapeJoined(a: string, a2: string, b: string, b2: string)
    requires Becomes(a, a2) && Becomes(b, b2)
    ensures Becomes(a + "," + b, a2 + "," + b2)
  {
    Stays(",");
    BecomesConcat(a, a2, ",", ",");
    BecomesConcat(a + ",", a2 + ",", b, b2);
  }

  lemma EscapeKey(before: string, key: seq<Unit>, colon: string)
    requires Filler(before) && UnitsOk(key) && Filler(colon)
    ensures Becomes(before + PrintString(key) + colon + ":", before + PrintString(SpellUnits(key)) + colon + ":")
  {
    StringSpelled(key);
    EscapeEnclosed(before, PrintString(key), PrintString(SpellUnits(key)), colon);
    Stays(":");
    BecomesConcat(before + PrintString(key) + colon, before + PrintString(SpellUnits(key)) + colon, ":", ":");
  }

  lemma {:induction false} EscapeMembers(l: Members)
    requires MembersOk(l)
    ensures Becomes(PrintMembers(l), PrintMembers(SpellMembers(l)))
    decreases l, 0
  {
    match l
    case NoMember(pad) => Stays(pad);
    case LastMember(before, key, colon, gap, value, after) =>
      EscapeMember(before, key, colon, gap, value, after);
    case Member(before, key, colon, gap, value, after, rest) =>
      EscapeMember(before, key, colon, gap, value, after);
      EscapeMembers(rest);
      EscapeJoined(PrintMembers(LastMember(before, key, colon, gap, value, after)),
                   PrintMembers(LastMember(before, SpellUnits(key), colon, gap, Spell(value), after)),
                   PrintMembers(rest), PrintMembers(SpellMembers(rest)));
  }

  lemma {:induction false} EscapeMember(
    before: string, key: seq<Unit>, colon: string, gap: string, value: Json, after: string)
    requires Filler(before) && UnitsOk(key) && Filler(colon) && Filler(gap) && JsonOk(value) && Filler(after)
    ensures Becomes(PrintMembers(LastMember(before, key, colon, gap, value, after)),
                    PrintMembers(LastMember(before, SpellUnits(key), colon, gap, Spell(value), after)))
    decreases value, 2
  {
    EscapeKey(before, key, colon);
    EscapePadded(gap, value, after);
    var k, k2 := before + PrintString(key) + colon + ":", before + PrintString(SpellUnits(key)) + colon + ":";
    BecomesConcat(k, k2, gap + Print(value) + after, gap + Print(Spell(value)) + after);
    Associate(k, gap, Print(value), after);
    Associate(k2, gap, Print(Spell(value)), after);
  }
}
