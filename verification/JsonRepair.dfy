/**
  The whole repair of a JSON text: typographic quotes, trailing commas, then raw control characters.
  The first two steps do not know strings, so they may change what a string says; this is exactly when.
 */
module JsonRepair {
  import opened JsonScan
  import opened JsonExtract
  import opened JsonEscape
  import opened JsonMeaning

  const CURLY := {'\U{201C}', '\U{201D}', '\U{2019}'}
  const CLOSERS := {'}', ']'}

  function FixQuote(c: char): char {
    if c !in CURLY then c else if c == '\U{2019}' then '\'' else QUOTE
  }

  /** The three replacements of typographic quotes. */
  function FixQuotes(s: string): string {
    seq(|s|, i requires 0 <= i < |s| => FixQuote(s[i]))
  }

  /** A closing bracket is the next character that is not a space. */
  predicate ClosesNext(s: string) {
    LStrip(s) != [] && LStrip(s)[0] in CLOSERS
  }

  lemma {:induction false} LStripShorter(s: string)
    ensures |LStrip(s)| <= |s|
  {
    if s != [] && IsSpace(s[0]) { LStripShorter(s[1..]); }
  }

  /** The substitution of `,\s*([}\]])` by its group. */
  function TrimCommas(s: string): string
    decreases |s|
  {
    if s == [] then []
    else if s[0] == ',' && ClosesNext(s[1..]) then
      LStripShorter(s[1..]);
      TrimCommas(LStrip(s[1..]))
    else [s[0]] + TrimCommas(s[1..])
  }

  /** The first two steps. */
  function Mended(s: string): string {
    TrimCommas(FixQuotes(s))
  }

  /** `_repair_json`. */
  method RepairJson(raw: string) returns (repaired: string)
    ensures repaired == EscapeText(Outside(0), Mended(raw))
  {
    repaired := raw;
    repaired := FixQuotes(repaired);
    repaired := TrimCommas(repaired);
    repaired := EscapeControlChars(repaired);
  }

  /** The escapes of section 7 of RFC 8259. */
  predicate EscapeOk(u: Unit) {
    u.Escape? ==> u.c in {QUOTE, BACKSLASH, '/', 'b', 'f', 'n', 'r', 't', 'u'}
  }

  predicate Escapes(units: seq<Unit>) {
    forall i :: 0 <= i < |units| ==> EscapeOk(units[i])
  }

  predicate StringOk(units: seq<Unit>) {
    UnitsOk(units) && Escapes(units)
  }

  /** A number or a literal. */
  predicate IsToken(s: string) {
    s != [] && forall i :: 0 <= i < |s| ==> s[i] !in {',', QUOTE, '{', '}', '[', ']'} + CURLY && !IsSpace(s[i])
  }

  /** JSON of RFC 8259, but for raw control characters in strings and commas behind the last element. */
  predicate Lax(v: Json) {
    match v
    case Scalar(text) => IsToken(text)
    case Text(units) => StringOk(units)
    case Array(items) => LaxItems(items)
    case Object(members) => LaxMembers(members)
  }

  predicate LaxItems(l: Items) {
    match l
    case NoItem(pad) => AllSpace(pad)
    case LastItem(before, value, after) => AllSpace(before) && Lax(value) && AllSpace(after)
    case Item(before, value, after, rest) => AllSpace(before) && Lax(value) && AllSpace(after) && LaxItems(rest)
  }

  predicate LaxMembers(l: Members) {
    match l
    case NoMember(pad) => AllSpace(pad)
    case LastMember(before, key, colon, gap, value, after) =>
      AllSpace(before) && StringOk(key) && AllSpace(colon) && AllSpace(gap) && Lax(value) && AllSpace(after)
    case Member(before, key, colon, gap, value, after, rest) =>
      && AllSpace(before) && StringOk(key) && AllSpace(colon) && AllSpace(gap) && Lax(value) && AllSpace(after)
      && LaxMembers(rest)
  }

  function FixUnits(units: seq<Unit>): seq<Unit> {
    seq(|units|, i requires 0 <= i < |units| => units[i].(c := FixQuote(units[i].c)))
  }

  function SkipSpaces(units: seq<Unit>): (r: seq<Unit>)
    ensures |r| <= |units|
  {
    if units != [] && units[0].Plain? && IsSpace(units[0].c) then SkipSpaces(units[1..]) else units
  }

  predicate Closes(units: seq<Unit>) {
    SkipSpaces(units) != [] && SkipSpaces(units)[0].Plain? && SkipSpaces(units)[0].c in CLOSERS
  }

  /** A comma that only spaces separate from a closing bracket. */
  predicate CommaAt(units: seq<Unit>, i: nat)
    requires i < |units|
  {
    units[i] == Plain(',') && Closes(units[i + 1..])
  }

  function TrimUnits(units: seq<Unit>): (r: seq<Unit>)
    decreases |units|
  {
    if units == [] then []
    else if CommaAt(units, 0) then TrimUnits(SkipSpaces(units[1..]))
    else [units[0]] + TrimUnits(units[1..])
  }

  function MendUnits(units: seq<Unit>): seq<Unit> {
    TrimUnits(FixUnits(units))
  }

  /** The value without commas behind last elements, and with what becomes of its strings. */
  function Mend(v: Json): Json {
    match v
    case Scalar(_) => v
    case Text(units) => Text(MendUnits(units))
    case Array(items) => Array(MendItems(items))
    case Object(members) => Object(MendMembers(members))
  }

  function MendItems(l: Items): Items {
    match l
    case NoItem(_) => l
    case LastItem(before, value, after) => LastItem(before, Mend(value), after)
    case Item(before, value, after, rest) =>
      if rest.NoItem? then LastItem(before, Mend(value), after)
      else Item(before, Mend(value), after, MendItems(rest))
  }

  function MendMembers(l: Members): Members {
    match l
    case NoMember(_) => l
    case LastMember(before, key, colon, gap, value, after) =>
      LastMember(before, MendUnits(key), colon, gap, Mend(value), after)
    case Member(before, key, colon, gap, value, after, rest) =>
      if rest.NoMember? then LastMember(before, MendUnits(key), colon, gap, Mend(value), after)
      else Member(before, MendUnits(key), colon, gap, Mend(value), after, MendMembers(rest))
  }

  // What the two steps do to the pieces of a print, whatever follows them.

  lemma FixConcat(a: string, b: string)
    ensures FixQuotes(a + b) == FixQuotes(a) + FixQuotes(b)
  {
  }

  /** Neither a comma nor a typographic quote. */
  predicate Inert(s: string) {
    forall i :: 0 <= i < |s| ==> s[i] !in CURLY && s[i] != ','
  }

  lemma {:induction false} TrimPlain(a: string, b: string)
    requires ',' !in a
    ensures TrimCommas(a + b) == a + TrimCommas(b)
  {
    if a == [] {
      assert a + b == b;
    } else {
      TrimPlain(a[1..], b);
      assert (a + b)[1..] == a[1..] + b;
      assert [a[0]] + (a[1..] + TrimCommas(b)) == a + TrimCommas(b);
    }
  }

  lemma FixInert(a: string)
    requires Inert(a)
    ensures FixQuotes(a) == a
  {
  }

  lemma MendInert(a: string, b: string)
    requires Inert(a)
    ensures Mended(a + b) == a + Mended(b)
  {
    FixConcat(a, b);
    FixInert(a);
    TrimPlain(a, FixQuotes(b));
  }

  /** Replacing quotes changes no spaces and no brackets. */
  lemma {:induction false} FixStrip(s: string)
    ensures LStrip(FixQuotes(s)) == FixQuotes(LStrip(s)) && (ClosesNext(FixQuotes(s)) <==> ClosesNext(s))
  {
    if s != [] && IsSpace(s[0]) {
      FixStrip(s[1..]);
      assert FixQuotes(s)[0] == s[0] && FixQuotes(s)[1..] == FixQuotes(s[1..]);
    }
  }

  lemma FixSingle(c: char)
    ensures FixQuotes([c]) == [FixQuote(c)]
  {
  }

  lemma MendComma(b: string)
    ensures Mended("," + b) == if ClosesNext(b) then Mended(LStrip(b)) else "," + Mended(b)
  {
    FixStrip(b);
    FixConcat(",", b);
    FixSingle(',');
    TrimComma(FixQuotes(b));
  }

  /** After the spaces `pad` the text goes on with `ch`. */
  predicate StartsWith(s: string, pad: string, ch: char) {
    |pad| < |s| && s[..|pad|] == pad && s[|pad|] == ch
  }

  lemma StartsMore(s: string, t: string, pad: string, ch: char)
    requires StartsWith(s, pad, ch)
    ensures StartsWith(s + t, pad, ch)
  {
    assert (s + t)[..|pad|] == s[..|pad|];
  }

  lemma Starts(pad: string, s: string)
    requires s != []
    ensures StartsWith(pad + s, pad, s[0])
  {
  }

  // Strings.

  lemma {:induction false} FixPrint(units: seq<Unit>)
    requires Escapes(units)
    ensures FixQuotes(PrintUnits(units)) == PrintUnits(FixUnits(units)) && Escapes(FixUnits(units))
  {
    if units != [] {
      var u, rest := units[0], units[1..];
      FixPrint(rest);
      var f := u.(c := FixQuote(u.c));
      PrintFront(units);
      PrintFront(FixUnits(units));
      assert FixUnits(units)[0] == f && FixUnits(units)[1..] == FixUnits(rest);
      FixConcat(PrintUnits([u]), PrintUnits(rest));
      PrintOne(u);
      PrintOne(f);
      FixOne(u);
    }
  }

  lemma FixOne(u: Unit)
    requires Escapes([u])
    ensures FixQuotes(PrintUnits([u])) == PrintUnits([u.(c := FixQuote(u.c))])
  {
    PrintOne(u);
    PrintOne(u.(c := FixQuote(u.c)));
    assert [u][0] == u;
    FixSingle(u.c);
    if u.Escape? {
      FixSingle(BACKSLASH);
      FixConcat([BACKSLASH], [u.c]);
      assert [BACKSLASH] + [u.c] == [BACKSLASH, u.c];
    }
  }

  lemma PrintFront(units: seq<Unit>)
    requires units != []
    ensures PrintUnits(units) == PrintUnits([units[0]]) + PrintUnits(units[1..])
  {
    assert units == [units[0]] + units[1..];
    PrintConcat([units[0]], units[1..]);
  }

  /** The first character of the printed units, and what follows a plain one. */
  lemma FrontText(units: seq<Unit>, b: string)
    requires units != []
    ensures var u, t := units[0], PrintUnits(units) + b;
      && t != [] && t[0] == (if u.Plain? then u.c else BACKSLASH)
      && (u.Plain? ==> t[1..] == PrintUnits(units[1..]) + b)
  {
    var u, rest := units[0], PrintUnits(units[1..]);
    PrintFront(units);
    PrintOne(u);
    Associates(PrintUnits([u]), rest, b);
    if u.Plain? {
      assert ([u.c] + (rest + b))[1..] == rest + b;
    } else {
      assert ([BACKSLASH, u.c] + (rest + b))[0] == BACKSLASH;
    }
  }

  lemma Associates(a: string, b: string, c: string)
    ensures a + b + c == a + (b + c)
  {
  }

  lemma {:induction false} SkipPrint(units: seq<Unit>, b: string)
    requires b != [] && !IsSpace(b[0]) && b[0] !in CLOSERS
    ensures LStrip(PrintUnits(units) + b) == PrintUnits(SkipSpaces(units)) + b
    ensures ClosesNext(PrintUnits(units) + b) <==> Closes(units)
  {
    if units == [] {
      assert PrintUnits(units) + b == b;
    } else {
      FrontText(units, b);
      if units[0].Plain? && IsSpace(units[0].c) { SkipPrint(units[1..], b); }
    }
  }

  lemma {:induction false} TrimPrint(units: seq<Unit>, b: string)
    requires Escapes(units) && b != [] && !IsSpace(b[0]) && b[0] !in CLOSERS
    ensures TrimCommas(PrintUnits(units) + b) == PrintUnits(TrimUnits(units)) + TrimCommas(b)
    decreases |units|
  {
    if units == [] {
      assert PrintUnits(units) + b == b;
    } else {
      var rest := units[1..];
      EscapesFront(units);
      SkipPrint(rest, b);
      TrimPrintFirst(units, b);
      if CommaAt(units, 0) {
        TrimPrint(SkipSpaces(rest), b);
      } else {
        TrimPrint(rest, b);
        Kept(units[0], TrimUnits(rest), TrimCommas(b));
      }
    }
  }

  lemma EscapesFront(units: seq<Unit>)
    requires units != [] && Escapes(units)
    ensures EscapeOk(units[0]) && Escapes(units[1..]) && Escapes(SkipSpaces(units[1..]))
  {
    SkipsSuffix(units[1..]);
  }

  lemma TrimPrintFirst(units: seq<Unit>, b: string)
    requires units != [] && EscapeOk(units[0])
    ensures var t := PrintUnits(units[1..]) + b;
      (TrimCommas(PrintUnits(units) + b) ==
         if units[0] == Plain(',') && ClosesNext(t) then TrimCommas(LStrip(t))
         else PrintUnits([units[0]]) + TrimCommas(t))
  {
    var p, t := PrintUnits([units[0]]), PrintUnits(units[1..]) + b;
    PrintFront(units);
    Associates(p, PrintUnits(units[1..]), b);
    CommaPrint(units[0]);
    if p == "," {
      TrimComma(t);
    } else {
      TrimPlain(p, t);
    }
  }

  lemma CommaPrint(u: Unit)
    requires EscapeOk(u)
    ensures if u == Plain(',') then PrintUnits([u]) == "," else ',' !in PrintUnits([u])
  {
    PrintOne(u);
  }

  lemma TrimComma(t: string)
    ensures TrimCommas("," + t) == if ClosesNext(t) then TrimCommas(LStrip(t)) else "," + TrimCommas(t)
  {
    assert ("," + t)[1..] == t;
  }

  lemma Kept(u: Unit, rest: seq<Unit>, b: string)
    ensures PrintUnits([u] + rest) + b == PrintUnits([u]) + (PrintUnits(rest) + b)
  {
    PrintConcat([u], rest);
  }

  lemma {:induction false} SkipsSuffix(units: seq<Unit>)
    ensures |SkipSpaces(units)| <= |units| && SkipSpaces(units) == units[|units| - |SkipSpaces(units)|..]
  {
    if units != [] && units[0].Plain? && IsSpace(units[0].c) { SkipsSuffix(units[1..]); }
  }

  lemma MendString(units: seq<Unit>, b: string)
    requires Escapes(units)
    ensures Mended(PrintString(units) + b) == PrintString(MendUnits(units)) + Mended(b)
  {
    var p, close := PrintUnits(units), [QUOTE] + b;
    Enclose(p, b);
    MendInert([QUOTE], p + close);
    FixPrint(units);
    FixConcat(p, close);
    MendInert([QUOTE], b);
    TrimPrint(FixUnits(units), FixQuotes(close));
    Enclose(PrintUnits(MendUnits(units)), Mended(b));
  }

  lemma Enclose(p: string, b: string)
    ensures [QUOTE] + p + [QUOTE] + b == [QUOTE] + (p + ([QUOTE] + b))
  {
  }

  // Values.

  lemma {:induction false} MendPrinted(v: Json, b: string)
    requires Lax(v)
    ensures Mended(Print(v) + b) == Print(Mend(v)) + Mended(b)
    decreases v, 0
  {
    match v
    case Scalar(text) => MendInert(text, b);
    case Text(units) => MendString(units, b);
    case Array(items) =>
      MendPrintedItems(items, b);
      MendArray(items, b);
    case Object(members) =>
      MendPrintedMembers(members, b);
      MendObject(members, b);
  }

  lemma MendArray(items: Items, b: string)
    requires Mended(PrintItems(items) + ("]" + b)) == PrintItems(MendItems(items)) + ("]" + Mended(b))
    ensures Mended(Print(Array(items)) + b) == Print(Mend(Array(items))) + Mended(b)
  {
    MendEnclosed("[", PrintItems(items), "]", b, PrintItems(MendItems(items)));
  }

  lemma MendObject(members: Members, b: string)
    requires Mended(PrintMembers(members) + ("}" + b)) == PrintMembers(MendMembers(members)) + ("}" + Mended(b))
    ensures Mended(Print(Object(members)) + b) == Print(Mend(Object(members))) + Mended(b)
  {
    MendEnclosed("{", PrintMembers(members), "}", b, PrintMembers(MendMembers(members)));
  }

  lemma MendEnclosed(o: string, s: string, c: string, b: string, t: string)
    requires Inert(o) && Mended(s + (c + b)) == t + (c + Mended(b))
    ensures Mended(o + s + c + b) == o + t + c + Mended(b)
  {
    Nest(o, s, c, b);
    MendInert(o, s + (c + b));
    Nest(o, t, c, Mended(b));
  }

  lemma {:induction false} MendPadded(before: string, v: Json, after: string, b: string)
    requires AllSpace(before) && Lax(v) && AllSpace(after)
    ensures Mended(before + Print(v) + after + b) == before + Print(Mend(v)) + after + Mended(b)
    decreases v, 1
  {
    MendPrinted(v, after + b);
    MendInert(after, b);
    Nest(before, Print(v), after, b);
    MendInert(before, Print(v) + (after + b));
    Nest(before, Print(Mend(v)), after, Mended(b));
  }

  lemma Nest(a: string, b: string, c: string, d: string)
    ensures a + b + c + d == a + (b + (c + d))
  {
  }

  /** The comma behind an element, kept if another element follows and dropped if a bracket does. */
  lemma MendSeparator(t: string, pad: string, ch: char)
    requires AllSpace(pad) && StartsWith(t, pad, ch) && !IsSpace(ch)
    ensures Mended("," + t) == if ch in CLOSERS then Mended(t[|pad|..]) else "," + Mended(t)
  {
    var first := t[|pad|..];
    assert t == pad + first;
    LStripAppend(pad, first);
    StripSpaces(pad);
    assert [] + first == first;
    MendComma(t);
  }

  lemma OpensPlainly(v: Json)
    requires Lax(v)
    ensures Print(v) != [] && !IsSpace(Print(v)[0]) && Print(v)[0] !in CLOSERS
  {
  }

  lemma {:induction false} MendPrintedItems(l: Items, b: string)
    requires LaxItems(l)
    ensures Mended(PrintItems(l) + ("]" + b)) == PrintItems(MendItems(l)) + ("]" + Mended(b))
    decreases l, 0
  {
    var close := "]" + b;
    MendInert("]", b);
    match l
    case NoItem(pad) => MendInert(pad, close);
    case LastItem(before, value, after) => MendPadded(before, value, after, close);
    case Item(before, value, after, rest) =>
      var tail := PrintItems(rest) + close;
      MendPadded(before, value, after, "," + tail);
      MendPrintedItems(rest, b);
      ItemsSeparator(rest, close);
      Nest(before + Print(value) + after, ",", PrintItems(rest), close);
      Nest(before + Print(Mend(value)) + after, ",", PrintItems(MendItems(rest)), "]" + Mended(b));
  }

  lemma ItemsSeparator(l: Items, close: string)
    requires LaxItems(l) && close != [] && close[0] == ']'
    ensures Mended("," + (PrintItems(l) + close)) ==
      if l.NoItem? then Mended(close) else "," + Mended(PrintItems(l) + close)
  {
    if l.NoItem? {
      Starts(l.pad, close);
      MendSeparator(l.pad + close, l.pad, ']');
    } else {
      var ch := Print(l.value)[0];
      OpensPlainly(l.value);
      ItemFirst(l);
      StartsMore(PrintItems(l), close, l.before, ch);
      MendSeparator(PrintItems(l) + close, l.before, ch);
    }
  }

  lemma ItemFirst(l: Items)
    requires !l.NoItem? && Print(l.value) != []
    ensures StartsWith(PrintItems(l), l.before, Print(l.value)[0])
  {
    var ch, t := Print(l.value)[0], l.before + Print(l.value);
    Starts(l.before, Print(l.value));
    StartsMore(t, l.after, l.before, ch);
    if l.Item? {
      StartsMore(t + l.after, ",", l.before, ch);
      StartsMore(t + l.after + ",", PrintItems(l.rest), l.before, ch);
    }
  }

  lemma MendKey(before: string, key: seq<Unit>, colon: string, b: string)
    requires AllSpace(before) && StringOk(key) && AllSpace(colon)
    ensures Mended(before + PrintString(key) + colon + ":" + b) ==
      before + PrintString(MendUnits(key)) + colon + ":" + Mended(b)
  {
    MendInert(":", b);
    MendInert(colon, ":" + b);
    MendString(key, colon + (":" + b));
    MendInert(before, PrintString(key) + (colon + (":" + b)));
    NestKey(before, PrintString(key), colon, ":", b);
    NestKey(before, PrintString(MendUnits(key)), colon, ":", Mended(b));
  }

  lemma NestKey(a: string, b: string, c: string, d: string, e: string)
    ensures a + b + c + d + e == a + (b + (c + (d + e)))
  {
    Nest(a, b, c, d + e);
    Associates(a + b + c, d, e);
  }

  function KeyText(before: string, key: seq<Unit>, colon: string): string {
    before + PrintString(key) + colon + ":"
  }

  lemma {:induction false} MendMember(before: string, key: seq<Unit>, colon: string, gap: string, value: Json,
                                      after: string, b: string)
    requires AllSpace(before) && StringOk(key) && AllSpace(colon) && AllSpace(gap) && Lax(value) && AllSpace(after)
    ensures Mended(PrintMembers(LastMember(before, key, colon, gap, value, after)) + b) ==
      PrintMembers(LastMember(before, MendUnits(key), colon, gap, Mend(value), after)) + Mended(b)
    decreases value, 2
  {
    MendPadded(gap, value, after, b);
    MendKey(before, key, colon, gap + Print(value) + after + b);
    Unnest(KeyText(before, key, colon), gap, Print(value), after, b);
    Unnest(KeyText(before, MendUnits(key), colon), gap, Print(Mend(value)), after, Mended(b));
  }

  lemma Unnest(k: string, a: string, b: string, c: string, d: string)
    ensures k + a + b + c + d == k + (a + b + c + d)
  {
  }

  lemma {:induction false} MendPrintedMembers(l: Members, b: string)
    requires LaxMembers(l)
    ensures Mended(PrintMembers(l) + ("}" + b)) == PrintMembers(MendMembers(l)) + ("}" + Mended(b))
    decreases l, 0
  {
    var close := "}" + b;
    MendInert("}", b);
    match l
    case NoMember(pad) => MendInert(pad, close);
    case LastMember(before, key, colon, gap, value, after) =>
      MendMember(before, key, colon, gap, value, after, close);
    case Member(before, key, colon, gap, value, after, rest) =>
      var tail := PrintMembers(rest) + close;
      MendMember(before, key, colon, gap, value, after, "," + tail);
      MendPrintedMembers(rest, b);
      MembersSeparator(rest, close);
      Nest(PrintMembers(LastMember(before, key, colon, gap, value, after)), ",", PrintMembers(rest), close);
      Nest(PrintMembers(LastMember(before, MendUnits(key), colon, gap, Mend(value), after)), ",",
           PrintMembers(MendMembers(rest)), "}" + Mended(b));
  }

  lemma MembersSeparator(l: Members, close: string)
    requires LaxMembers(l) && close != [] && close[0] == '}'
    ensures Mended("," + (PrintMembers(l) + close)) ==
      if l.NoMember? then Mended(close) else "," + Mended(PrintMembers(l) + close)
  {
    if l.NoMember? {
      Starts(l.pad, close);
      MendSeparator(l.pad + close, l.pad, '}');
    } else {
      KeyFirst(l);
      StartsMore(PrintMembers(l), close, l.before, QUOTE);
      MendSeparator(PrintMembers(l) + close, l.before, QUOTE);
    }
  }

  /** A member starts with the quote of its key. */
  lemma KeyFirst(l: Members)
    requires !l.NoMember?
    ensures StartsWith(PrintMembers(l), l.before, QUOTE)
  {
    var t := l.before + PrintString(l.key);
    Starts(l.before, PrintString(l.key));
    StartsMore(t, l.colon, l.before, QUOTE);
    StartsMore(t + l.colon, ":", l.before, QUOTE);
    t := t + l.colon + ":";
    StartsMore(t, l.gap, l.before, QUOTE);
    StartsMore(t + l.gap, Print(l.value), l.before, QUOTE);
    t := t + l.gap + Print(l.value);
    StartsMore(t, l.after, l.before, QUOTE);
    if l.Member? {
      StartsMore(t + l.after, ",", l.before, QUOTE);
      StartsMore(t + l.after + ",", PrintMembers(l.rest), l.before, QUOTE);
    }
  }

  // The meaning of a mended string.

  /** No typographic double quote, which becomes a plain one. */
  predicate Straight(units: seq<Unit>) {
    Plain('\U{201C}') !in units && Plain('\U{201D}') !in units
  }

  predicate NoCurly(units: seq<Unit>) {
    forall i :: 0 <= i < |units| ==> units[i].c !in CURLY
  }

  /** No comma is followed so. */
  predicate NoTrailingComma(units: seq<Unit>) {
    forall i {:trigger CommaAt(units, i)} :: 0 <= i < |units| ==> !CommaAt(units, i)
  }

  /** Nothing in the string is taken for something else. */
  predicate Harmless(units: seq<Unit>) {
    NoCurly(units) && NoTrailingComma(units)
  }

  lemma FixedDrop(units: seq<Unit>, n: nat)
    requires n <= |units|
    ensures |FixUnits(units)| == |units| && FixUnits(units)[n..] == FixUnits(units[n..])
  {
  }

  lemma FixKeepsHex(units: seq<Unit>, n: nat)
    ensures HexRun(FixUnits(units), n) <==> HexRun(units, n)
    ensures HexRun(units, n) ==> FixUnits(units)[..n] == units[..n]
  {
    if HexRun(FixUnits(units), n) {
      forall i | 0 <= i < n
        ensures IsHex(units[i])
      {
        assert IsHex(FixUnits(units)[i]);
      }
    }
  }

  lemma {:induction false} FixCloses(units: seq<Unit>)
    ensures Closes(FixUnits(units)) <==> Closes(units)
  {
    if units != [] && units[0].Plain? && IsSpace(units[0].c) {
      FixCloses(units[1..]);
      assert FixUnits(units)[1..] == FixUnits(units[1..]);
    }
  }

  lemma FixCommaAt(units: seq<Unit>, i: nat)
    requires i < |units|
    ensures CommaAt(FixUnits(units), i) <==> CommaAt(units, i)
  {
    FixedDrop(units, i + 1);
    FixCloses(units[i + 1..]);
  }

  lemma FixCommas(units: seq<Unit>)
    ensures NoTrailingComma(FixUnits(units)) <==> NoTrailingComma(units)
  {
    var fixed := FixUnits(units);
    if NoTrailingComma(units) {
      forall i: nat | i < |fixed| ensures !CommaAt(fixed, i) { FixCommaAt(units, i); }
    }
    if NoTrailingComma(fixed) {
      forall i: nat | i < |units| ensures !CommaAt(units, i) { FixCommaAt(units, i); }
    }
  }

  lemma SameLength<T>(a: seq<T>, x: seq<T>, b: seq<T>, y: seq<T>)
    requires |a| == |b|
    ensures a + x == b + y <==> a == b && x == y
  {
    if a + x == b + y {
      assert a == (a + x)[..|a|] && x == (a + x)[|a|..];
    }
  }

  /** Replacing a typographic quote changes what a string says, but not its length. */
  lemma {:induction false} FixMeaning(units: seq<Unit>)
    requires Escapes(units)
    ensures |Meaning(FixUnits(units))| == |Meaning(units)|
    ensures Meaning(FixUnits(units)) == Meaning(units) <==> NoCurly(units)
    decreases |units|
  {
    if units != [] {
      var u, rest, fixed := units[0], units[1..], FixUnits(units);
      assert fixed[1..] == FixUnits(rest);
      FixKeepsHex(rest, 4);
      if u == Escape('u') && HexRun(rest, 4) {
        FixMeaning(units[5..]);
        var d := rest[..4];
        FixKeepsEscape(units, d, units[5..]);
        HexStraight(units);
        var code := [CodeUnit(d[0].c, d[1].c, d[2].c, d[3].c)];
        SameLength(code, Meaning(FixUnits(units[5..])), code, Meaning(units[5..]));
      } else {
        FixMeaning(rest);
        SameLength(UnitMeaning(fixed[0]), Meaning(FixUnits(rest)), UnitMeaning(u), Meaning(rest));
        assert NoCurly(units) <==> u.c !in CURLY && NoCurly(rest) by { CurlyFront(units); }
      }
    }
  }

  /** Four hexadecimal digits behind `\u` make one code unit. */
  lemma EscapeMeaning(units: seq<Unit>, digits: seq<Unit>, rest: seq<Unit>)
    requires units == [Escape('u')] + (digits + rest) && |digits| == 4 && HexRun(digits, 4)
    ensures Meaning(units) == [CodeUnit(digits[0].c, digits[1].c, digits[2].c, digits[3].c)] + Meaning(rest)
  {
    assert units[1..] == digits + rest && units[5..] == rest;
    assert forall i :: 0 <= i < 4 ==> units[1..][i] == digits[i];
  }

  /** The digits of such an escape, and what follows it. */
  lemma SplitEscape(units: seq<Unit>, digits: seq<Unit>, rest: seq<Unit>)
    requires |units| >= 5 && digits == units[1..][..4] && rest == units[5..] && HexRun(units[1..], 4)
    ensures units == [units[0]] + (digits + rest) && units[1..][4..] == rest && |digits| == 4 && HexRun(digits, 4)
  {
  }

  /** A hexadecimal escape stays where it is. */
  lemma FixKeepsEscape(units: seq<Unit>, digits: seq<Unit>, rest: seq<Unit>)
    requires |units| >= 5 && units[0] == Escape('u') && HexRun(units[1..], 4)
    requires digits == units[1..][..4] && rest == units[5..]
    ensures |digits| == 4
    ensures var code := [CodeUnit(digits[0].c, digits[1].c, digits[2].c, digits[3].c)];
      Meaning(units) == code + Meaning(rest) && Meaning(FixUnits(units)) == code + Meaning(FixUnits(rest))
  {
    SplitEscape(units, digits, rest);
    var fixed := FixUnits(units[1..]);
    FixKeepsHex(units[1..], 4);
    FixedDrop(units[1..], 4);
    assert fixed == fixed[..4] + fixed[4..];
    assert FixUnits(units) == [units[0]] + fixed;
    EscapeMeaning(units, digits, rest);
    EscapeMeaning(FixUnits(units), digits, FixUnits(rest));
  }

  lemma CurlyFront(units: seq<Unit>)
    requires units != []
    ensures NoCurly(units) <==> units[0].c !in CURLY && NoCurly(units[1..])
  {
    var rest := units[1..];
    assert forall i :: 0 <= i < |rest| ==> rest[i] == units[i + 1];
    if NoCurly(rest) && units[0].c !in CURLY {
      assert forall i :: 1 <= i < |units| ==> units[i] == rest[i - 1];
    }
  }

  lemma HexStraight(units: seq<Unit>)
    requires units != [] && units[0].c !in CURLY && HexRun(units[1..], 4)
    ensures NoCurly(units) <==> NoCurly(units[5..])
  {
    forall i | 1 <= i < 5
      ensures units[i].c !in CURLY
    {
      assert IsHex(units[1..][i - 1]);
    }
    var rest := units[5..];
    assert forall i :: 0 <= i < |rest| ==> rest[i] == units[i + 5];
    if NoCurly(rest) {
      assert forall i :: 5 <= i < |units| ==> units[i] == rest[i - 5];
    }
  }

  lemma CommaFront(units: seq<Unit>)
    requires units != []
    ensures NoTrailingComma(units) <==> NoTrailingComma(units[1..]) && !CommaAt(units, 0)
  {
    var rest := units[1..];
    forall i: nat | i < |rest|
      ensures CommaAt(units, i + 1) <==> CommaAt(rest, i)
    {
      assert units[i + 2..] == rest[i + 1..];
    }
    if NoTrailingComma(units) {
      assert !CommaAt(units, 0);
      forall i: nat | i < |rest| ensures !CommaAt(rest, i) { assert !CommaAt(units, i + 1); }
    }
    if NoTrailingComma(rest) && !CommaAt(units, 0) {
      forall i: nat | i < |units| ensures !CommaAt(units, i) { if i > 0 { assert !CommaAt(rest, i - 1); } }
    }
  }

  lemma {:induction false} TrimKeepsHex(units: seq<Unit>, n: nat)
    requires HexRun(units, n)
    ensures TrimUnits(units) == units[..n] + TrimUnits(units[n..])
    ensures NoTrailingComma(units) <==> NoTrailingComma(units[n..])
  {
    if n > 0 {
      assert IsHex(units[0]);
      TrimKeepsHex(units[1..], n - 1);
      CommaFront(units);
      PeelFirst(units, n);
      JsonMeaning.Regroup([units[0]], units[1..][..n - 1], TrimUnits(units[n..]));
    } else {
      assert units[0..] == units;
    }
  }

  lemma HexFront(units: seq<Unit>, n: nat)
    ensures n > 0 ==> (HexRun(units, n) <==> units != [] && IsHex(units[0]) && HexRun(units[1..], n - 1))
  {
    if n > 0 && units != [] && IsHex(units[0]) && HexRun(units[1..], n - 1) {
      assert forall i :: 1 <= i < n ==> units[i] == units[1..][i - 1];
    }
    if n > 0 && HexRun(units, n) {
      assert forall i :: 0 <= i < n - 1 ==> units[1..][i] == units[i + 1];
    }
  }

  lemma {:induction false} TrimMakesNoHex(units: seq<Unit>, n: nat)
    requires HexRun(TrimUnits(units), n)
    ensures HexRun(units, n)
    decreases |units|
  {
    if n > 0 {
      HexFront(TrimUnits(units), n);
      if CommaAt(units, 0) {
        ClosingStays(SkipSpaces(units[1..]));
        assert false;
      } else {
        assert TrimUnits(units)[1..] == TrimUnits(units[1..]);
        TrimMakesNoHex(units[1..], n - 1);
        HexFront(units, n);
      }
    }
  }

  lemma ClosingStays(units: seq<Unit>)
    requires units != [] && units[0].Plain? && units[0].c in CLOSERS
    ensures TrimUnits(units) != [] && TrimUnits(units)[0] == units[0]
  {
  }

  lemma {:induction false} SkipShortens(units: seq<Unit>)
    ensures |Meaning(SkipSpaces(units))| <= |Meaning(units)|
  {
    if units != [] && units[0].Plain? && IsSpace(units[0].c) { SkipShortens(units[1..]); }
  }

  /** A removed comma shortens what a string says. */
  lemma {:induction false} TrimShortens(units: seq<Unit>)
    ensures |Meaning(TrimUnits(units))| <= |Meaning(units)|
    ensures !NoTrailingComma(units) ==> |Meaning(TrimUnits(units))| < |Meaning(units)|
    decreases |units|
  {
    if units != [] {
      var u, rest, trimmed := units[0], units[1..], TrimUnits(units);
      CommaFront(units);
      if CommaAt(units, 0) {
        TrimShortens(SkipSpaces(rest));
        SkipShortens(rest);
      } else if u == Escape('u') && HexRun(rest, 4) {
        TrimShortens(units[5..]);
        TrimKeepsEscape(units, units[5..]);
      } else {
        TrimShortens(rest);
        assert trimmed[1..] == TrimUnits(rest);
        if HexRun(TrimUnits(rest), 4) { TrimMakesNoHex(rest, 4); }
      }
    }
  }

  lemma TrimKeepsEscape(units: seq<Unit>, rest: seq<Unit>)
    requires |units| >= 5 && units[0] == Escape('u') && HexRun(units[1..], 4) && rest == units[5..]
    ensures |Meaning(units)| == 1 + |Meaning(rest)| && |Meaning(TrimUnits(units))| == 1 + |Meaning(TrimUnits(rest))|
    ensures NoTrailingComma(units) <==> NoTrailingComma(rest)
  {
    var digits := units[1..][..4];
    SplitEscape(units, digits, rest);
    CommaFront(units);
    TrimKeepsHex(units[1..], 4);
    EscapeMeaning(units, digits, rest);
    EscapeMeaning(TrimUnits(units), digits, TrimUnits(rest));
  }

  lemma {:induction false} TrimNone(units: seq<Unit>)
    requires NoTrailingComma(units)
    ensures TrimUnits(units) == units
  {
    if units != [] {
      CommaFront(units);
      TrimNone(units[1..]);
    }
  }

  /** A string still says the same if and only if nothing in it was taken for something else. */
  lemma MendKeepsMeaning(units: seq<Unit>)
    requires Escapes(units)
    ensures Meaning(MendUnits(units)) == Meaning(units) <==> Harmless(units)
  {
    var fixed := FixUnits(units);
    FixMeaning(units);
    FixCommas(units);
    TrimShortens(fixed);
    if NoTrailingComma(fixed) { TrimNone(fixed); }
  }

  lemma {:induction false} SkipMembers(units: seq<Unit>, u: Unit)
    requires u.Plain? ==> !IsSpace(u.c)
    ensures u in SkipSpaces(units) <==> u in units
  {
    if units != [] && units[0].Plain? && IsSpace(units[0].c) {
      SkipMembers(units[1..], u);
      assert units == [units[0]] + units[1..];
    }
  }

  lemma {:induction false} TrimMembers(units: seq<Unit>, u: Unit)
    requires u.Plain? ==> !IsSpace(u.c) && u.c != ','
    ensures u in TrimUnits(units) <==> u in units
    decreases |units|
  {
    if units != [] {
      assert units == [units[0]] + units[1..];
      if CommaAt(units, 0) {
        SkipMembers(units[1..], u);
        TrimMembers(SkipSpaces(units[1..]), u);
      } else {
        TrimMembers(units[1..], u);
      }
    }
  }

  /** A mended string ends where it did if and only if no typographic double quote was in it. */
  lemma MendedOk(units: seq<Unit>)
    requires StringOk(units)
    ensures UnitsOk(MendUnits(units)) <==> Straight(units)
  {
    var fixed := FixUnits(units);
    TrimMembers(fixed, Plain(QUOTE));
    TrimMembers(fixed, Plain(BACKSLASH));
    assert Plain(BACKSLASH) !in fixed;
    assert Plain(QUOTE) in fixed <==> !Straight(units) by { QuoteMade(units); }
    OkMembers(MendUnits(units));
  }

  lemma QuoteMade(units: seq<Unit>)
    requires UnitsOk(units)
    ensures Plain(QUOTE) in FixUnits(units) <==> !Straight(units)
  {
    if i :| 0 <= i < |units| && units[i] in {Plain('\U{201C}'), Plain('\U{201D}')} {
      assert FixUnits(units)[i] == Plain(QUOTE);
    }
  }

  lemma OkMembers(units: seq<Unit>)
    ensures UnitsOk(units) <==> Plain(QUOTE) !in units && Plain(BACKSLASH) !in units
  {
  }

  /** All strings of the value, keys included, are such. */
  predicate Every(p: seq<Unit> -> bool, v: Json) {
    match v
    case Scalar(_) => true
    case Text(units) => p(units)
    case Array(items) => EveryItem(p, items)
    case Object(members) => EveryMember(p, members)
  }

  predicate EveryItem(p: seq<Unit> -> bool, l: Items) {
    match l
    case NoItem(_) => true
    case LastItem(_, value, _) => Every(p, value)
    case Item(_, value, _, rest) => Every(p, value) && EveryItem(p, rest)
  }

  predicate EveryMember(p: seq<Unit> -> bool, l: Members) {
    match l
    case NoMember(_) => true
    case LastMember(_, key, _, _, value, _) => p(key) && Every(p, value)
    case Member(_, key, _, _, value, _, rest) => p(key) && Every(p, value) && EveryMember(p, rest)
  }

  /** No comma stands behind a last element. */
  predicate Strict(v: Json) {
    match v
    case Array(items) => StrictItems(items)
    case Object(members) => StrictMembers(members)
    case _ => true
  }

  predicate StrictItems(l: Items) {
    match l
    case NoItem(_) => true
    case LastItem(_, value, _) => Strict(value)
    case Item(_, value, _, rest) => Strict(value) && StrictItems(rest) && !rest.NoItem?
  }

  predicate StrictMembers(l: Members) {
    match l
    case NoMember(_) => true
    case LastMember(_, _, _, _, value, _) => Strict(value)
    case Member(_, _, _, _, value, _, rest) => Strict(value) && StrictMembers(rest) && !rest.NoMember?
  }

  /** The mended value is strict, and well-formed exactly if all its strings were straight. */
  lemma {:induction false} MendedShape(v: Json)
    requires Lax(v)
    ensures Strict(Mend(v)) && (JsonOk(Mend(v)) <==> Every(Straight, v))
  {
    match v
    case Scalar(_) =>
    case Text(units) => MendedOk(units);
    case Array(items) => MendedItems(items);
    case Object(members) => MendedMembers(members);
  }

  lemma {:induction false} MendedItems(l: Items)
    requires LaxItems(l)
    ensures StrictItems(MendItems(l)) && (ItemsOk(MendItems(l)) <==> EveryItem(Straight, l))
  {
    match l
    case NoItem(_) =>
    case LastItem(_, value, _) => MendedShape(value);
    case Item(_, value, _, rest) =>
      MendedShape(value);
      MendedItems(rest);
  }

  lemma {:induction false} MendedMembers(l: Members)
    requires LaxMembers(l)
    ensures StrictMembers(MendMembers(l)) && (MembersOk(MendMembers(l)) <==> EveryMember(Straight, l))
  {
    match l
    case NoMember(_) =>
    case LastMember(_, key, _, _, value, _) =>
      MendedShape(value);
      MendedMember(l);
    case Member(before, key, colon, gap, value, after, rest) =>
      MendedShape(value);
      MendedMember(LastMember(before, key, colon, gap, value, after));
      MendedMembers(rest);
  }

  lemma MendedMember(l: Members)
    requires LaxMembers(l) && l.LastMember?
    requires Strict(Mend(l.value)) && (JsonOk(Mend(l.value)) <==> Every(Straight, l.value))
    ensures StrictMembers(MendMembers(l)) && (MembersOk(MendMembers(l)) <==> EveryMember(Straight, l))
  {
    MendedOk(l.key);
  }

  /** The mended value stands for the same data exactly if all strings were harmless. */
  lemma {:induction false} MendedData(v: Json)
    requires Lax(v)
    ensures Read(Mend(v)) == Read(v) <==> Every(Harmless, v)
  {
    match v
    case Scalar(_) =>
    case Text(units) => MendKeepsMeaning(units);
    case Array(items) => ItemsData(items);
    case Object(members) => MembersData(members);
  }

  lemma {:induction false} ItemsData(l: Items)
    requires LaxItems(l)
    ensures ReadItems(MendItems(l)) == ReadItems(l) <==> EveryItem(Harmless, l)
  {
    match l
    case NoItem(_) =>
    case LastItem(_, value, _) => MendedData(value);
    case Item(_, value, _, rest) =>
      MendedData(value);
      ItemsData(rest);
      SameLength([Read(Mend(value))], ReadItems(MendItems(rest)), [Read(value)], ReadItems(rest));
  }

  lemma {:induction false} MembersData(l: Members)
    requires LaxMembers(l)
    ensures ReadMembers(MendMembers(l)) == ReadMembers(l) <==> EveryMember(Harmless, l)
  {
    match l
    case NoMember(_) =>
    case LastMember(_, key, _, _, value, _) =>
      MendKeepsMeaning(key);
      MendedData(value);
    case Member(_, key, _, _, value, _, rest) =>
      MendKeepsMeaning(key);
      MendedData(value);
      MembersData(rest);
      MembersFront(l);
      SameLength([(Meaning(MendUnits(key)), Read(Mend(value)))], ReadMembers(MendMembers(rest)),
                 [(Meaning(key), Read(value))], ReadMembers(rest));
  }

  lemma MembersFront(l: Members)
    requires l.Member?
    ensures ReadMembers(l) == [(Meaning(l.key), Read(l.value))] + ReadMembers(l.rest)
    ensures ReadMembers(MendMembers(l)) ==
      [(Meaning(MendUnits(l.key)), Read(Mend(l.value)))] + ReadMembers(MendMembers(l.rest))
  {
  }

  /** The repair of a printed value without typographic double quotes prints a strict value with its
      control characters spelled out; and that one stands for the same data if and only if all strings
      are harmless. */
  lemma RepairExact(v: Json)
    requires Lax(v) && Every(Straight, v)
    ensures EscapeText(Outside(0), Mended(Print(v))) == Print(Spell(Mend(v)))
    ensures JsonOk(Spell(Mend(v))) && Strict(Mend(v))
    ensures Read(Spell(Mend(v))) == Read(v) <==> Every(Harmless, v)
  {
    RepairedText(v);
    MendedShape(v);
    MendedData(v);
    RepairKeepsData(Mend(v));
  }

  /** Before the control characters are escaped, the text prints the mended value, whatever the strings. */
  lemma RepairedText(v: Json)
    requires Lax(v)
    ensures Mended(Print(v)) == Print(Mend(v))
  {
    MendPrinted(v, []);
    assert Print(v) + [] == Print(v);
    assert Mended([]) == [] && Print(Mend(v)) + [] == Print(Mend(v));
  }

  /** In a string without typographic double quotes and such commas, the typographic apostrophes become
      plain ones, and nothing else changes. */
  lemma ApostrophesStraightened(units: seq<Unit>)
    requires Straight(units) && Escapes(units) && NoTrailingComma(units)
    ensures |MendUnits(units)| == |units|
    ensures forall i :: 0 <= i < |units| ==>
      MendUnits(units)[i] == if units[i] == Plain('\U{2019}') then Plain('\'') else units[i]
  {
    FixCommas(units);
    TrimNone(FixUnits(units));
    forall i | 0 <= i < |units|
      ensures FixUnits(units)[i] == if units[i] == Plain('\U{2019}') then Plain('\'') else units[i]
    {
      assert EscapeOk(units[i]) && units[i] in units;
    }
  }

  /** Typographic double quotes end or begin strings from then on. */
  lemma DoubleQuotesStraightened(s: string)
    requires Inert(s)
    ensures Mended("\U{201C}" + s + "\U{201D}") == "\"" + s + "\""
  {
    FixConcat("\U{201C}" + s, "\U{201D}");
    FixConcat("\U{201C}", s);
    FixInert(s);
    FixSingle('\U{201C}');
    FixSingle('\U{201D}');
    var t := "\"" + s + "\"";
    assert FixQuotes("\U{201C}" + s + "\U{201D}") == t && ',' !in t;
    TrimPlain(t, []);
    assert t + [] == t && t + TrimCommas([]) == t;
  }

  /** A text in a string loses its comma. */
  lemma CommaInStringLost()
    ensures Mended("\"[1,]\"") == "\"[1]\""
  {
    var a, b := "\"[1", "]\"";
    assert "\"[1,]\"" == a + ("," + b);
    MendInert(a, "," + b);
    MendComma(b);
    MendInert(b, []);
    assert b + [] == b && Mended([]) == [];
  }
}
