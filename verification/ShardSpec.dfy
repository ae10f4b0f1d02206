/**
  Cutting an ordered list of tasks into consecutive groups under the three shard limits: the
  admission test, what a greedy cut is, and why no admissible cut has fewer groups.
 */
module ShardSpec {
  import Ids

  datatype ShardConfig = ShardConfig(maxFiles: int, maxTasks: int, maxTokens: int)

  /** A task as the packing sees it: its target files, as listed, and their estimated tokens. */
  datatype Item = Item(id: string, files: seq<string>, tokens: int)

  type Group = seq<Item>

  function Names(files: seq<string>): set<string> {
    set f | f in files
  }

  function FilesOf(g: Group): set<string> {
    if g == [] then {} else FilesOf(g[..|g| - 1]) + Names(g[|g| - 1].files)
  }

  function TokensOf(g: Group): int {
    if g == [] then 0 else TokensOf(g[..|g| - 1]) + g[|g| - 1].tokens
  }

  function IdsOf(g: Group): seq<string> {
    seq(|g|, i requires 0 <= i < |g| => g[i].id)
  }

  /** The admission test for one more task. */
  ghost predicate Fits(c: ShardConfig, g: Group, t: Item) {
    && |g| < c.maxTasks && |FilesOf(g)| + |t.files| <= c.maxFiles && TokensOf(g) + t.tokens <= c.maxTokens
  }

  /** Every task but the first passed the admission test when it was added. */
  ghost predicate Admissible(c: ShardConfig, g: Group) {
    g != [] && forall i {:trigger Fits(c, g[..i], g[i])} :: 1 <= i < |g| ==> Fits(c, g[..i], g[i])
  }

  function Flatten<T>(gs: seq<seq<T>>): seq<T> {
    if gs == [] then [] else Flatten(gs[..|gs| - 1]) + gs[|gs| - 1]
  }

  /** A contiguous split of `s` into admissible groups. */
  ghost predicate Split(c: ShardConfig, s: seq<Item>, gs: seq<Group>) {
    Flatten(gs) == s && forall i {:trigger Admissible(c, gs[i])} :: 0 <= i < |gs| ==> Admissible(c, gs[i])
  }

  /** No group could have taken the first task of the next one. */
  ghost predicate Stopped(c: ShardConfig, gs: seq<Group>) {
    forall i {:trigger StoppedAt(c, gs, i)} :: 1 <= i < |gs| ==> StoppedAt(c, gs, i)
  }

  ghost predicate StoppedAt(c: ShardConfig, gs: seq<Group>, i: nat)
    requires 1 <= i < |gs|
  {
    gs[i] != [] && !Fits(c, gs[i - 1], gs[i][0])
  }

  ghost predicate NonNegative(s: seq<Item>) {
    forall i :: 0 <= i < |s| ==> s[i].tokens >= 0
  }

  lemma {:induction false} CountNames(s: seq<string>)
    ensures |Names(s)| <= |s|
  {
    if s != [] {
      CountNames(s[1..]);
      assert Names(s) == Names(s[1..]) + {s[0]};
    }
  }

  /** Dropping the first task makes a group no heavier. */
  lemma {:induction false} Lighter(g: Group)
    requires g != [] && NonNegative(g)
    ensures FilesOf(g[1..]) <= FilesOf(g) && TokensOf(g[1..]) <= TokensOf(g)
  {
    if |g| == 1 {
      assert g[..0] == [];
    } else {
      Lighter(g[..|g| - 1]);
      assert g[..|g| - 1][1..] == g[1..][..|g| - 2];
    }
  }

  lemma AdmissibleTail(c: ShardConfig, g: Group)
    requires Admissible(c, g) && |g| >= 2 && NonNegative(g)
    ensures Admissible(c, g[1..])
  {
    var h := g[1..];
    forall i | 1 <= i < |h|
      ensures Fits(c, h[..i], h[i])
    {
      var p := g[..i + 1];
      assert Fits(c, p, g[i + 1]) && p[1..] == h[..i];
      Lighter(p);
      Ids.SubsetCard(FilesOf(h[..i]), FilesOf(p));
    }
  }

  lemma {:induction false} AdmissibleSuffix(c: ShardConfig, g: Group, n: nat)
    requires Admissible(c, g) && n < |g| && NonNegative(g)
    ensures Admissible(c, g[n..])
  {
    if n > 0 {
      AdmissibleTail(c, g);
      AdmissibleSuffix(c, g[1..], n - 1);
      assert g[1..][n - 1..] == g[n..];
    }
  }

  /** A group of more than one task stays within all three limits. */
  lemma WithinLimits(c: ShardConfig, g: Group)
    requires Admissible(c, g) && |g| >= 2
    ensures |g| <= c.maxTasks && |FilesOf(g)| <= c.maxFiles && TokensOf(g) <= c.maxTokens
  {
    var n := |g| - 1;
    AdmittedAt(c, g, n);
    CountNames(g[n].files);
    assert |FilesOf(g)| <= |FilesOf(g[..n])| + |Names(g[n].files)|;
  }

  /** Where the groups before the `k`-th end. */
  function EndOf<T>(gs: seq<seq<T>>, k: nat): nat
    requires k <= |gs|
  {
    |Flatten(gs[..k])|
  }

  lemma {:induction false} FlattenAppend<T>(a: seq<seq<T>>, b: seq<seq<T>>)
    ensures Flatten(a + b) == Flatten(a) + Flatten(b)
  {
    if b == [] {
      assert a + b == a;
    } else {
      var all, init, last := a + b, b[..|b| - 1], b[|b| - 1];
      calc {
        Flatten(all);
        { SplitLast(a, b); }
        Flatten(a + init) + last;
        { FlattenAppend(a, init); }
        (Flatten(a) + Flatten(init)) + last;
        Flatten(a) + (Flatten(init) + last);
        Flatten(a) + Flatten(b);
      }
    }
  }

  lemma SplitLast<T>(a: seq<T>, b: seq<T>)
    requires b != []
    ensures var all := a + b; all != [] && all[..|all| - 1] == a + b[..|b| - 1] && all[|all| - 1] == b[|b| - 1]
  {
  }

  /** Group `k` is the slice between two ends. */
  lemma GroupSlice<T>(gs: seq<seq<T>>, k: nat)
    requires k < |gs|
    ensures EndOf(gs, k) + |gs[k]| == EndOf(gs, k + 1) <= |Flatten(gs)|
    ensures gs[k] == Flatten(gs)[EndOf(gs, k)..EndOf(gs, k + 1)]
  {
    assert gs[..k + 1][..k] == gs[..k];
    assert gs == gs[..k + 1] + gs[k + 1..];
    FlattenAppend(gs[..k + 1], gs[k + 1..]);
  }

  lemma Slices<T>(s: seq<T>, a: nat, b: nat, e: nat, z: nat)
    requires a <= b < e < z <= |s|
    ensures s[a..z][b - a..] == s[b..z]
    ensures s[b..z][..e - b] == s[b..e] && s[b..z][e - b] == s[e]
  {
  }

  /** In an admissible slice a task was admitted to any earlier piece that ends before it. */
  lemma AdmittedToPiece(c: ShardConfig, s: seq<Item>, a: nat, b: nat, e: nat, z: nat)
    requires a <= b < e < z <= |s| && Admissible(c, s[a..z]) && (a == b || NonNegative(s))
    ensures Fits(c, s[b..e], s[e])
  {
    Slices(s, a, b, e, z);
    if a < b { AdmissibleSuffix(c, s[a..z], b - a); }
    AdmittedAt(c, s[b..z], e - b);
  }

  lemma AdmittedAt(c: ShardConfig, g: Group, i: nat)
    requires Admissible(c, g) && 1 <= i < |g|
    ensures Fits(c, g[..i], g[i])
  {
  }

  /** Every group but the last one is stopped by the next task. */
  lemma GreedyStop(c: ShardConfig, s: seq<Item>, g: seq<Group>, k: nat)
    requires Split(c, s, g) && Stopped(c, g) && k < |g|
    ensures EndOf(g, k) < EndOf(g, k + 1) <= |s| && g[k] == s[EndOf(g, k)..EndOf(g, k + 1)]
    ensures k + 1 == |g| ==> EndOf(g, k + 1) == |s|
    ensures k + 1 < |g| ==> EndOf(g, k + 1) < |s| && !Fits(c, g[k], s[EndOf(g, k + 1)])
  {
    GroupSlice(g, k);
    assert Admissible(c, g[k]);
    if k + 1 == |g| {
      assert g[..k + 1] == g;
    } else {
      GroupSlice(g, k + 1);
      assert StoppedAt(c, g, k + 1);
      assert g[k + 1][0] == s[EndOf(g, k + 1)];
    }
  }

  /** The admissible split `h` never gets further with `k` groups than the greedy split `g`. */
  lemma {:induction false} GreedyAhead(c: ShardConfig, s: seq<Item>, g: seq<Group>, h: seq<Group>, k: nat)
    requires Split(c, s, g) && Stopped(c, g) && Split(c, s, h) && NonNegative(s)
    requires k <= |g| && k <= |h|
    ensures EndOf(h, k) <= EndOf(g, k)
  {
    if k > 0 {
      GreedyAhead(c, s, g, h, k - 1);
      GreedyStop(c, s, g, k - 1);
      GroupSlice(h, k - 1);
      assert Admissible(c, h[k - 1]);
      if EndOf(h, k) > EndOf(g, k) {
        AdmittedToPiece(c, s, EndOf(h, k - 1), EndOf(g, k - 1), EndOf(g, k), EndOf(h, k));
      }
    }
  }

  /** No contiguous split into admissible groups uses fewer groups than a greedy one. */
  lemma GreedyOptimal(c: ShardConfig, s: seq<Item>, g: seq<Group>, h: seq<Group>)
    requires Split(c, s, g) && Stopped(c, g) && Split(c, s, h) && NonNegative(s)
    ensures |g| <= |h|
  {
    assert h[..|h|] == h;
    if |h| < |g| {
      GreedyStop(c, s, g, |h|);
      GreedyAhead(c, s, g, h, |h|);
    }
  }

  /** Whatever the signs of the estimates, there is only one greedy split. */
  lemma GreedyUnique(c: ShardConfig, s: seq<Item>, g: seq<Group>, h: seq<Group>)
    requires Split(c, s, g) && Stopped(c, g) && Split(c, s, h) && Stopped(c, h)
    ensures g == h
  {
    var n := if |g| < |h| then |g| else |h|;
    SamePrefix(c, s, g, h, n);
    if n < |g| { GreedyStop(c, s, g, n); }
    if n < |h| { GreedyStop(c, s, h, n); }
    assert g[..|g|] == g && h[..|h|] == h;
  }

  lemma {:induction false} SamePrefix(c: ShardConfig, s: seq<Item>, g: seq<Group>, h: seq<Group>, k: nat)
    requires Split(c, s, g) && Stopped(c, g) && Split(c, s, h) && Stopped(c, h)
    requires k <= |g| && k <= |h|
    ensures g[..k] == h[..k]
  {
    if k > 0 {
      SamePrefix(c, s, g, h, k - 1);
      NotLonger(c, s, g, h, k - 1);
      NotLonger(c, s, h, g, k - 1);
      GreedyStop(c, s, g, k - 1);
      GreedyStop(c, s, h, k - 1);
      PrefixStep(g, h, k - 1);
    }
  }

  lemma PrefixStep<T>(g: seq<T>, h: seq<T>, k: nat)
    requires k < |g| && k < |h| && g[..k] == h[..k] && g[k] == h[k]
    ensures g[..k + 1] == h[..k + 1]
  {
    assert g[..k + 1] == g[..k] + [g[k]] && h[..k + 1] == h[..k] + [h[k]];
  }

  lemma NotLonger(c: ShardConfig, s: seq<Item>, g: seq<Group>, h: seq<Group>, k: nat)
    requires Split(c, s, g) && Stopped(c, g) && Split(c, s, h) && Stopped(c, h)
    requires k < |g| && k < |h| && g[..k] == h[..k]
    ensures EndOf(h, k + 1) <= EndOf(g, k + 1)
  {
    GreedyStop(c, s, g, k);
    GreedyStop(c, s, h, k);
    if EndOf(h, k + 1) > EndOf(g, k + 1) {
      assert Admissible(c, h[k]);
      AdmittedToPiece(c, s, EndOf(h, k), EndOf(g, k), EndOf(g, k + 1), EndOf(h, k + 1));
    }
  }

  /** Every task is estimated at `low` tokens or more. */
  ghost predicate AtLeast(s: seq<Item>, low: int) {
    forall i :: 0 <= i < |s| ==> s[i].tokens >= low
  }

  /** Greedy packing needs the fewest groups, for all limits and all tasks estimated at `low` or more. */
  ghost predicate AlwaysFewest(low: int) {
    forall c, s, g, h {:trigger Split(c, s, g), Split(c, s, h), AtLeast(s, low)} ::
      AtLeast(s, low) && Split(c, s, g) && Stopped(c, g) && Split(c, s, h) ==> |g| <= |h|
  }

  /** A lower bound on the estimates guarantees the fewest groups if and only if it is not negative. */
  lemma FewestExactly(low: int)
    ensures AlwaysFewest(low) <==> low >= 0
  {
    if low >= 0 {
      forall c, s, g, h | AtLeast(s, low) && Split(c, s, g) && Stopped(c, g) && Split(c, s, h)
        ensures |g| <= |h|
      {
        GreedyOptimal(c, s, g, h);
      }
    } else {
      var m := 1 - low;
      var c, s := ShardConfig(0, 9, m), [Item("a", [], m), Item("b", [], low), Item("c", [], m), Item("d", [], 1)];
      var g, h := [s[..2], [s[2]], [s[3]]], [[s[0]], s[1..]];
      NegativeEstimateLoses(low, c, s, g, h);
      assert AtLeast(s, low) && |h| < |g|;
    }
  }

  /** Any negative estimate can make greedy use three groups where two would do: it helps the group it
      closes, and would have helped the next one more. */
  lemma NegativeEstimateLoses(low: int, c: ShardConfig, s: seq<Item>, g: seq<Group>, h: seq<Group>)
    requires low < 0 && c == ShardConfig(0, 9, 1 - low)
    requires s == [Item("a", [], 1 - low), Item("b", [], low), Item("c", [], 1 - low), Item("d", [], 1)]
    requires g == [s[..2], [s[2]], [s[3]]] && h == [[s[0]], s[1..]]
    ensures Split(c, s, g) && Stopped(c, g) && Split(c, s, h) && |h| < |g|
  {
    FlattenThree(s[..2], [s[2]], [s[3]]);
    FlattenTwo([s[0]], s[1..]);
    var wide := s[1..];
    Two(s[0], s[1]);
    Two(s[1], s[2]);
    assert wide[..1] == [s[1]] && wide[..2] == [s[1], s[2]] && s[..2] == [s[0], s[1]];
    One(s[0]);
    One(s[1]);
    One(s[2]);
    assert forall i :: 1 <= i < |wide| ==> Fits(c, wide[..i], wide[i]);
    assert s[..2][..1] == [s[0]];
  }

  lemma One(t: Item)
    ensures FilesOf([t]) == Names(t.files) && TokensOf([t]) == t.tokens
  {
    assert [t][..0] == [];
  }

  lemma Two(t: Item, u: Item)
    ensures FilesOf([t, u]) == Names(t.files) + Names(u.files) && TokensOf([t, u]) == t.tokens + u.tokens
  {
    One(t);
    assert [t, u][..1] == [t];
  }

  lemma FlattenTwo<T>(a: seq<T>, b: seq<T>)
    ensures Flatten([a, b]) == a + b
  {
    assert [a, b][..1] == [a] && [a][..0] == [];
    assert Flatten([a]) == a;
  }

  lemma FlattenThree<T>(a: seq<T>, b: seq<T>, c: seq<T>)
    ensures Flatten([a, b, c]) == a + b + c
  {
    FlattenTwo(a, b);
    assert [a, b, c][..2] == [a, b];
  }
}
