/** Task identifiers: strings under Python's code-point order, and `list.sort()` on them. */
module Ids {

  type Id = string

  /** Strict lexicographic order on identifiers. */
  predicate Lt(a: Id, b: Id) {
    if b == [] then false
    else if a == [] then true
    else a[0] < b[0] || (a[0] == b[0] && Lt(a[1..], b[1..]))
  }

  /** The same order, said by characters: a proper prefix comes first, and otherwise the smaller code
      point at the first difference decides. */
  ghost predicate Before(a: Id, b: Id) {
    (a <= b && a != b) || exists k {:trigger SmallerAt(a, b, k)} :: SmallerAt(a, b, k)
  }

  ghost predicate SmallerAt(a: Id, b: Id, k: nat) {
    k < |a| && k < |b| && a[..k] == b[..k] && a[k] < b[k]
  }

  lemma {:induction false} LtExact(a: Id, b: Id)
    ensures Lt(a, b) <==> Before(a, b)
  {
    forall k: nat | SmallerAt(a, b, k) ensures k == 0 || a[0] == b[0] { FirstAgrees(a, b, k); }
    if a != [] && b != [] && a[0] == b[0] {
      LtExact(a[1..], b[1..]);
      BeforeTail(a, b);
    } else if a != [] && b != [] {
      assert a[0] < b[0] ==> SmallerAt(a, b, 0);
    }
  }

  lemma FirstAgrees(a: Id, b: Id, k: nat)
    requires SmallerAt(a, b, k)
    ensures k == 0 || a[0] == b[0]
  {
    if k > 0 { assert a[..k][0] == b[..k][0]; }
  }

  lemma BeforeTail(a: Id, b: Id)
    requires a != [] && b != [] && a[0] == b[0]
    ensures Before(a, b) <==> Before(a[1..], b[1..])
  {
    var x, y := a[1..], b[1..];
    assert a == [a[0]] + x && b == [b[0]] + y;
    if k: nat :| SmallerAt(a, b, k) {
      assert x[..k - 1] == a[..k][1..] == b[..k][1..] == y[..k - 1];
      assert SmallerAt(x, y, k - 1);
    }
    if k: nat :| SmallerAt(x, y, k) {
      assert a[..k + 1] == [a[0]] + x[..k] && b[..k + 1] == [b[0]] + y[..k];
      assert SmallerAt(a, b, k + 1);
    }
  }

  lemma LtIrreflexive(a: Id)
    ensures !Lt(a, a)
  {
  }

  lemma {:induction false} LtTotal(a: Id, b: Id)
    ensures Lt(a, b) || a == b || Lt(b, a)
  {
    if a != [] && b != [] && a[0] == b[0] {
      LtTotal(a[1..], b[1..]);
      assert a == [a[0]] + a[1..] && b == [b[0]] + b[1..];
    }
  }

  lemma {:induction false} LtTransitive(a: Id, b: Id, c: Id)
    requires Lt(a, b) && Lt(b, c)
    ensures Lt(a, c)
  {
    if a != [] && a[0] == b[0] && b[0] == c[0] {
      LtTransitive(a[1..], b[1..], c[1..]);
    }
  }

  lemma LtAsymmetric(a: Id, b: Id)
    requires Lt(a, b)
    ensures !Lt(b, a)
  {
    if Lt(b, a) {
      LtTransitive(a, b, a);
      LtIrreflexive(a);
    }
  }

  ghost predicate Distinct<T>(s: seq<T>) {
    forall i, j :: 0 <= i < j < |s| ==> s[i] != s[j]
  }

  ghost predicate Ascending(s: seq<Id>) {
    forall i, j :: 0 <= i < j < |s| ==> !Lt(s[j], s[i])
  }

  function Insert(x: Id, s: seq<Id>): (r: seq<Id>)
    ensures multiset(r) == multiset(s) + multiset{x}
  {
    if s == [] then [x]
    else if !Lt(s[0], x) then
      [x] + s
    else
      assert s == [s[0]] + s[1..];
      [s[0]] + Insert(x, s[1..])
  }

  /** `list.sort()` on identifiers. */
  function Sort(s: seq<Id>): (r: seq<Id>)
    ensures multiset(r) == multiset(s)
  {
    if s == [] then []
    else
      assert s == [s[0]] + s[1..];
      Insert(s[0], Sort(s[1..]))
  }

  lemma {:induction false} InsertAscending(x: Id, s: seq<Id>)
    requires Ascending(s)
    ensures Ascending(Insert(x, s))
  {
    if s != [] {
      if !Lt(s[0], x) {
        forall j | 0 <= j < |s|
          ensures !Lt(s[j], x)
        {
          if Lt(s[j], x) {
            LtTotal(s[0], s[j]);
            if s[0] != s[j] { LtTransitive(s[0], s[j], x); }
          }
        }
      } else {
        InsertAscending(x, s[1..]);
        var r := Insert(x, s[1..]);
        LtAsymmetric(s[0], x);
        forall j | 0 <= j < |r|
          ensures !Lt(r[j], s[0])
        {
          assert r[j] in multiset(r);
        }
      }
    }
  }

  lemma {:induction false} SortAscending(s: seq<Id>)
    ensures Ascending(Sort(s))
  {
    if s != [] {
      SortAscending(s[1..]);
      InsertAscending(s[0], Sort(s[1..]));
    }
  }

  lemma DistinctMultiset(s: seq<Id>, t: seq<Id>)
    requires multiset(s) == multiset(t) && Distinct(s)
    ensures Distinct(t) && |s| == |t| && forall x :: x in s <==> x in t
  {
    assert |multiset(s)| == |s| && |multiset(t)| == |t|;
    forall x ensures x in s <==> x in t {
      assert x in s <==> x in multiset(s);
      assert x in t <==> x in multiset(t);
    }
    forall i, j | 0 <= i < j < |t|
      ensures t[i] != t[j]
    {
      DistinctCount(s, t[i]);
      assert t == t[..i] + [t[i]] + t[i + 1..j] + [t[j]] + t[j + 1..];
    }
  }

  lemma {:induction false} DistinctCount<T>(s: seq<T>, x: T)
    requires Distinct(s)
    ensures multiset(s)[x] == if x in s then 1 else 0
  {
    if s != [] {
      assert s == [s[0]] + s[1..];
      DistinctCount(s[1..], x);
    }
  }

  lemma DistinctCard<T>(s: seq<T>)
    requires Distinct(s)
    ensures |set x | x in s| == |s|
  {
    if s != [] {
      DistinctCard(s[1..]);
      assert s == [s[0]] + s[1..];
      assert (set x | x in s) == {s[0]} + (set x | x in s[1..]);
    }
  }

  lemma SubsetCard<T>(a: set<T>, b: set<T>)
    requires a <= b
    ensures |a| <= |b| && (|a| == |b| ==> a == b)
  {
    assert b == a + (b - a);
  }

  lemma SameLength(s: seq<Id>, t: seq<Id>)
    requires Distinct(s) && Distinct(t) && |s| == |t| && forall x :: x in s ==> x in t
    ensures forall x :: x in t ==> x in s
  {
    DistinctCard(s);
    DistinctCard(t);
    var a, b := set x | x in s, set x | x in t;
    SubsetCard(a, b);
    forall x | x in t ensures x in s { assert x in b; }
  }

  lemma SameElements(s: seq<Id>, t: seq<Id>)
    requires Distinct(s) && Distinct(t) && forall x :: x in s <==> x in t
    ensures |s| == |t|
  {
    DistinctCard(s);
    DistinctCard(t);
    assert (set x | x in s) == (set x | x in t);
  }

  /** The head of a sorted duplicate-free list is its least element. */
  lemma SortedHead(s: seq<Id>, c: Id, rest: seq<Id>)
    requires Distinct(s) && Sort(s) == [c] + rest
    ensures c !in rest && Distinct(rest)
    ensures forall x :: x in s <==> x == c || x in rest
    ensures forall x :: x in s ==> !Lt(x, c)
  {
    SortAscending(s);
    DistinctMultiset(s, [c] + rest);
    HeadLeast([c] + rest);
  }

  lemma HeadLeast(r: seq<Id>)
    requires Distinct(r) && Ascending(r) && r != []
    ensures r[0] !in r[1..] && Distinct(r[1..])
    ensures forall x :: x in r ==> !Lt(x, r[0])
  {
    LtIrreflexive(r[0]);
  }
}
