/**
  The data a JSON text stands for, as section 7 of RFC 8259 reads its strings, and why escaping raw
  control characters does not change it.
 */
module JsonMeaning {
  import opened JsonScan
  import opened JsonEscape

  function HexValue(ch: char): int {
    if '0' <= ch <= '9' then ch as int - '0' as int
    else if 'a' <= ch <= 'f' then ch as int - 'a' as int + 10
    else if 'A' <= ch <= 'F' then ch as int - 'A' as int + 10
    else -1
  }

  predicate IsHex(u: Unit) {
    u.Plain? && HexValue(u.c) >= 0
  }

  /** The first `n` units are hexadecimal digits. */
  predicate HexRun(units: seq<Unit>, n: nat) {
    n <= |units| && forall i :: 0 <= i < n ==> IsHex(units[i])
  }

  /** The code units a string spells. A backslash that starts no known escape stands for itself. */
  function Meaning(units: seq<Unit>): seq<int> {
    if units == [] then []
    else if units[0] == Escape('u') && HexRun(units[1..], 4) then
      [CodeUnit(units[1].c, units[2].c, units[3].c, units[4].c)] + Meaning(units[5..])
    else UnitMeaning(units[0]) + Meaning(units[1..])
  }

  function CodeUnit(a: char, b: char, c: char, d: char): int {
    ((HexValue(a) * 16 + HexValue(b)) * 16 + HexValue(c)) * 16 + HexValue(d)
  }

  function UnitMeaning(u: Unit): seq<int> {
    match u
    case Plain(c) => [c as int]
    case Escape(c) =>
      if c in {QUOTE, BACKSLASH, '/'} then [c as int]
      else if c == 'n' then [10]
      else if c == 'r' then [13]
      else if c == 't' then [9]
      else if c == 'b' then [8]
      else if c == 'f' then [12]
      else [BACKSLASH as int, c as int]
  }

  /** `SpellUnits`, read from the front. */
  lemma {:induction false} SpellFront(units: seq<Unit>)
    requires units != []
    ensures SpellUnits(units) == SpellOne(units[0]) + SpellUnits(units[1..])
  {
    var init, last := units[..|units| - 1], units[|units| - 1];
    if init == [] {
      assert units[1..] == [];
    } else {
      SpellFront(init);
      assert units[1..][..|units| - 2] == init[1..];
    }
  }

  /** Escaping leaves a run of hexadecimal digits in place, and makes none. */
  lemma {:induction false} HexRunKept(units: seq<Unit>, n: nat)
    requires HexRun(units, n)
    ensures SpellUnits(units) == units[..n] + SpellUnits(units[n..])
  {
    if n == 0 {
      assert units[0..] == units;
    } else {
      HexRunKept(units[1..], n - 1);
      HexRunNext(units, n);
    }
  }

  lemma HexRunNext(units: seq<Unit>, n: nat)
    requires 0 < n <= |units| && IsHex(units[0])
    requires SpellUnits(units[1..]) == units[1..][..n - 1] + SpellUnits(units[1..][n - 1..])
    ensures SpellUnits(units) == units[..n] + SpellUnits(units[n..])
  {
    SpellFront(units);
    PeelFirst(units, n);
    Regroup([units[0]], units[1..][..n - 1], SpellUnits(units[n..]));
  }

  lemma Regroup<T>(a: seq<T>, b: seq<T>, c: seq<T>)
    ensures a + (b + c) == a + b + c
  {
  }

  lemma PeelFirst<T>(s: seq<T>, n: nat)
    requires 0 < n <= |s|
    ensures s[1..][n - 1..] == s[n..] && [s[0]] + s[1..][..n - 1] == s[..n]
  {
  }

  lemma {:induction false} HexRunOld(units: seq<Unit>, n: nat)
    requires HexRun(SpellUnits(units), n)
    ensures HexRun(units, n)
  {
    if n > 0 {
      HexHead(units, n);
      HexRunOld(units[1..], n - 1);
      assert forall i :: 1 <= i < n ==> units[i] == units[1..][i - 1];
    }
  }

  lemma HexHead(units: seq<Unit>, n: nat)
    requires n > 0 && HexRun(SpellUnits(units), n)
    ensures units != [] && IsHex(units[0]) && HexRun(SpellUnits(units[1..]), n - 1)
  {
    SpellFront(units);
    var all, rest := SpellUnits(units), SpellUnits(units[1..]);
    assert IsHex(all[0]);
    assert all == [units[0]] + rest;
    assert forall i :: 0 <= i < n - 1 ==> rest[i] == all[i + 1];
  }

  lemma HexRunSpelled(units: seq<Unit>, n: nat)
    ensures HexRun(units, n) <==> HexRun(SpellUnits(units), n)
  {
    if HexRun(units, n) {
      HexRunKept(units, n);
    } else if HexRun(SpellUnits(units), n) {
      HexRunOld(units, n);
    }
  }

  lemma ControlMeaning(ch: char, rest: seq<Unit>)
    requires IsControl(ch)
    ensures Meaning(ControlUnits(ch) + rest) == [ch as int] + Meaning(rest)
  {
    var c := ControlUnits(ch);
    var all := c + rest;
    if |c| == 1 {
      assert all[1..] == rest && !HexRun([], 4);
    } else {
      HexDigits(ch);
      assert all[5..] == rest;
    }
  }

  lemma HexDigits(ch: char)
    requires IsControl(ch)
    ensures var h, l := HexDigit(ch as int / 16), HexDigit(ch as int % 16);
      HexValue(h) >= 0 && HexValue(l) >= 0 && HexValue(h) * 16 + HexValue(l) == ch as int
  {
    HexDigitValue(ch as int / 16);
    HexDigitValue(ch as int % 16);
  }

  lemma HexDigitValue(n: nat)
    requires n < 16
    ensures HexValue(HexDigit(n)) == n
  {
  }

  /** A string keeps its meaning when its raw control characters are spelled out. */
  lemma {:induction false} SpellKeepsMeaning(units: seq<Unit>)
    ensures Meaning(SpellUnits(units)) == Meaning(units)
    decreases |units|
  {
    if units != [] {
      var u, rest := units[0], units[1..];
      SpellFront(units);
      HexRunSpelled(rest, 4);
      if u == Escape('u') && HexRun(rest, 4) {
        SpellKeepsMeaning(units[5..]);
        HexRunKept(rest, 4);
        assert rest[4..] == units[5..];
        var all := SpellUnits(units);
        assert all == units[..5] + SpellUnits(units[5..]);
        assert all[1..] == SpellUnits(rest) && all[5..] == SpellUnits(units[5..]);
      } else {
        SpellKeepsMeaning(rest);
        if SpellOne(u) == [u] {
          assert SpellUnits(units)[1..] == SpellUnits(rest);
        } else {
          ControlMeaning(u.c, SpellUnits(rest));
        }
      }
    }
  }

  lemma SpellOneControl(last: Unit, u: Unit)
    requires IsControl(u.c)
    ensures u in SpellOne(last) <==> u.Escape? && u == last
  {
    if last.Plain? && IsControl(last.c) {
      assert forall i :: 0 <= i < |ControlUnits(last.c)| ==> !IsControl(ControlUnits(last.c)[i].c);
    }
  }

  /** Afterwards the only raw control characters left are those directly behind a backslash. */
  lemma {:induction false} SpelledUnits(units: seq<Unit>, u: Unit)
    requires IsControl(u.c)
    ensures u in SpellUnits(units) <==> u.Escape? && u in units
  {
    if units != [] {
      var init, last := units[..|units| - 1], units[|units| - 1];
      SpelledUnits(init, u);
      SpellOneControl(last, u);
      assert units == init + [last];
    }
  }

  /** The data a text stands for. */
  datatype Data =
    | Token(text: string)
    | Str(codes: seq<int>)
    | List(items: seq<Data>)
    | Record(fields: seq<(seq<int>, Data)>)

  function Read(v: Json): Data {
    match v
    case Scalar(text) => Token(text)
    case Text(units) => Str(Meaning(units))
    case Array(items) => List(ReadItems(items))
    case Object(members) => Record(ReadMembers(members))
  }

  function ReadItems(l: Items): seq<Data> {
    match l
    case NoItem(_) => []
    case LastItem(_, value, _) => [Read(value)]
    case Item(_, value, _, rest) => [Read(value)] + ReadItems(rest)
  }

  function ReadMembers(l: Members): seq<(seq<int>, Data)> {
    match l
    case NoMember(_) => []
    case LastMember(_, key, _, _, value, _) => [(Meaning(key), Read(value))]
    case Member(_, key, _, _, value, _, rest) => [(Meaning(key), Read(value))] + ReadMembers(rest)
  }

  lemma {:induction false} SpellKeepsData(v: Json)
    ensures Read(Spell(v)) == Read(v)
  {
    match v
    case Scalar(_) =>
    case Text(units) => SpellKeepsMeaning(units);
    case Array(items) => ItemsKeepData(items);
    case Object(members) => MembersKeepData(members);
  }

  lemma {:induction false} ItemsKeepData(l: Items)
    ensures ReadItems(SpellItems(l)) == ReadItems(l)
  {
    match l
    case NoItem(_) =>
    case LastItem(_, value, _) => SpellKeepsData(value);
    case Item(_, value, _, rest) =>
      SpellKeepsData(value);
      ItemsKeepData(rest);
  }

  lemma {:induction false} MembersKeepData(l: Members)
    ensures ReadMembers(SpellMembers(l)) == ReadMembers(l)
  {
    match l
    case NoMember(_) =>
    case LastMember(_, key, _, _, value, _) =>
      SpellKeepsMeaning(key);
      SpellKeepsData(value);
    case Member(_, key, _, _, value, _, rest) =>
      SpellKeepsMeaning(key);
      SpellKeepsData(value);
      MembersKeepData(rest);
  }

  /** The repair of a printed value prints a value with the same data. */
  lemma RepairKeepsData(v: Json)
    requires JsonOk(v)
    ensures EscapeText(Outside(0), Print(v)) == Print(Spell(v)) && JsonOk(Spell(v)) && Read(Spell(v)) == Read(v)
  {
    SpellOk(v);
    EscapePrinted(v);
    assert BecomesAt(Print(v), Print(Spell(v)), 0);
    SpellKeepsData(v);
  }
}
