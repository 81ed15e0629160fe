/** Dependency ordering: `topo-sort` and the Closure library loader built on it.

    An index maps a library to the names it requires; a name the index does not know
    requires nothing, as `(get index dep)` is then nil. */
module JsDeps {

  type Name = string
  type Index = map<Name, seq<Name>>

  function Requires(index: Index, n: Name): seq<Name> {
    if n in index then index[n] else []
  }

  /** The index says that `n` requires `r`. */
  ghost predicate Link(index: Index, n: Name, r: Name) {
    n in index && r in index[n]
  }

  ghost function Needs(index: Index, n: Name): (rs: set<Name>)
    ensures forall r :: r in rs <==> Link(index, n, r)
  {
    if n in index then set r | r in index[n] else {}
  }

  // ---------------------------------------------------------------- paths and cycles

  /** A chain of direct requirements, each link named by the index. */
  ghost predicate Path(index: Index, p: seq<Name>) {
    |p| > 0 && forall i :: 0 <= i < |p| - 1 ==> Edge(index, p, i)
  }

  ghost predicate Edge(index: Index, p: seq<Name>, i: nat)
    requires i + 1 < |p|
  {
    Link(index, p[i], p[i + 1])
  }

  lemma PathCons(index: Index, n: Name, p: seq<Name>)
    requires Path(index, p) && Link(index, n, p[0])
    ensures Path(index, [n] + p)
  {
    forall i | 0 <= i < |p| ensures Edge(index, [n] + p, i) {
      if i > 0 {
        assert Edge(index, p, i - 1);
      }
    }
  }

  ghost predicate Reaches(index: Index, n: Name, m: Name) {
    exists p :: Path(index, p) && p[0] == n && p[|p| - 1] == m
  }

  ghost predicate Cycle(index: Index, p: seq<Name>) {
    Path(index, p) && |p| > 1 && p[0] == p[|p| - 1]
  }

  ghost predicate Acyclic(index: Index) {
    forall p :: !Cycle(index, p)
  }

  /** No cycle can be reached from `dep`. */
  ghost predicate AcyclicFrom(index: Index, dep: Name) {
    forall p :: Cycle(index, p) ==> !Reaches(index, dep, p[0])
  }

  lemma ReachesSelf(index: Index, n: Name)
    ensures Reaches(index, n, n)
  {
    var p := [n];
    assert Path(index, p) && p[0] == n && p[|p| - 1] == n;
  }

  lemma ReachesStep(index: Index, n: Name, r: Name, m: Name)
    requires Link(index, n, r) && Reaches(index, r, m)
    ensures Reaches(index, n, m)
  {
    var p :| Path(index, p) && p[0] == r && p[|p| - 1] == m;
    var q := [n] + p;
    PathCons(index, n, p);
    assert Path(index, q) && q[0] == n && q[|q| - 1] == m;
  }

  lemma ReachesSnoc(index: Index, n: Name, m: Name, r: Name)
    requires Reaches(index, n, m) && Link(index, m, r)
    ensures Reaches(index, n, r)
  {
    var p :| Path(index, p) && p[0] == n && p[|p| - 1] == m;
    var q := p + [r];
    forall i | 0 <= i < |q| - 1 ensures Edge(index, q, i) {
      if i < |p| - 1 {
        assert Edge(index, p, i);
      }
    }
    assert Path(index, q) && q[0] == n && q[|q| - 1] == r;
  }

  // ---------------------------------------------------------------- ranking an acyclic index

  ghost function Mentioned(index: Index): set<Name> {
    index.Keys + set n, i | n in index && 0 <= i < |index[n]| :: index[n][i]
  }

  ghost function Reach(index: Index, n: Name): set<Name> {
    set m | m in Mentioned(index) + {n} && Reaches(index, n, m)
  }

  lemma ReachShrinks(index: Index, n: Name, r: Name)
    requires Acyclic(index) && Link(index, n, r)
    ensures Reach(index, r) < Reach(index, n)
  {
    var i :| 0 <= i < |index[n]| && index[n][i] == r;
    assert r in Mentioned(index);
    forall m | m in Reach(index, r) ensures m in Reach(index, n) {
      ReachesStep(index, n, r, m);
    }
    ReachesSelf(index, n);
    if Reaches(index, r, n) {
      var p :| Path(index, p) && p[0] == r && p[|p| - 1] == n;
      PathCons(index, n, p);
      assert Cycle(index, [n] + p);
    }
    assert n in Reach(index, n) && n !in Reach(index, r);
  }

  lemma StrictSubsetSmaller<T>(a: set<T>, b: set<T>)
    requires a < b
    ensures |a| < |b|
  {
    assert b == a + (b - a);
    assert |b - a| > 0 by { var x :| x in b - a; }
  }

  lemma RankDecreases(index: Index, n: Name, r: Name)
    requires Acyclic(index) && Link(index, n, r)
    ensures |Reach(index, r)| < |Reach(index, n)|
  {
    ReachShrinks(index, n, r);
    StrictSubsetSmaller(Reach(index, r), Reach(index, n));
  }

  // ---------------------------------------------------------------- the termination measure

  /** The largest name list entry first would do; any fixed choice serves the sum. */
  ghost function Pick(s: set<Name>): Name
    requires s != {}
  {
    var x :| x in s; x
  }

  /** w(n) = 1 + the weights of what n requires: the number of visits n can cause. */
  ghost function Weight(index: Index, n: Name): (w: nat)
    requires Acyclic(index)
    ensures w > 0
    decreases |Reach(index, n)|, 1, 0
  {
    assert forall r | r in Needs(index, n) :: |Reach(index, r)| < |Reach(index, n)| by {
      forall r | r in Needs(index, n) ensures |Reach(index, r)| < |Reach(index, n)| {
        RankDecreases(index, n, r);
      }
    }
    1 + WeightBelow(index, Needs(index, n), |Reach(index, n)|)
  }

  ghost function WeightBelow(index: Index, s: set<Name>, bound: nat): nat
    requires Acyclic(index)
    requires forall n | n in s :: |Reach(index, n)| < bound
    decreases bound, 0, |s|
  {
    if s == {} then 0 else
      var x := Pick(s);
      Weight(index, x) + WeightBelow(index, s - {x}, bound)
  }

  ghost function Weights(index: Index, s: set<Name>): nat
    requires Acyclic(index)
    decreases |s|
  {
    if s == {} then 0 else
      var x := Pick(s);
      Weight(index, x) + Weights(index, s - {x})
  }

  lemma {:induction false} WeightBelowIsWeights(index: Index, s: set<Name>, bound: nat)
    requires Acyclic(index)
    requires forall n | n in s :: |Reach(index, n)| < bound
    ensures WeightBelow(index, s, bound) == Weights(index, s)
    decreases |s|
  {
    if s != {} {
      WeightBelowIsWeights(index, s - {Pick(s)}, bound);
    }
  }

  lemma {:induction false} WeightsRemove(index: Index, s: set<Name>, x: Name)
    requires Acyclic(index) && x in s
    ensures Weights(index, s) == Weight(index, x) + Weights(index, s - {x})
    decreases |s|
  {
    var y := Pick(s);
    if y != x {
      WeightsRemove(index, s - {y}, x);
      assert s - {y} - {x} == s - {x} - {y};
      WeightsRemove(index, s - {x}, y);
    }
  }

  lemma {:induction false} WeightsUnion(index: Index, s: set<Name>, t: set<Name>)
    requires Acyclic(index)
    ensures Weights(index, s + t) <= Weights(index, s) + Weights(index, t)
    decreases |t|
  {
    hide Acyclic, Weight, Needs, Reach;
    if t == {} {
      assert s + t == s;
    } else {
      var x := Pick(t);
      WeightsUnion(index, s, t - {x});
      if x in s {
        assert s + t == s + (t - {x});
      } else {
        WeightsRemove(index, s + t, x);
        assert s + t - {x} == s + (t - {x});
      }
    }
  }

  /** Popping a name and pushing its requirements lowers the weight of the worklist. */
  lemma VisitLowersWeight(index: Index, s: set<Name>, d: Name)
    requires Acyclic(index) && d in s
    ensures Weights(index, s - {d} + Needs(index, d)) < Weights(index, s)
  {
    WeightsRemove(index, s, d);
    WeightsUnion(index, s - {d}, Needs(index, d));
    forall r | r in Needs(index, d) ensures |Reach(index, r)| < |Reach(index, d)| {
      RankDecreases(index, d, r);
    }
    WeightBelowIsWeights(index, Needs(index, d), |Reach(index, d)|);
  }

  // ---------------------------------------------------------------- distinct

  ghost predicate NoDup(s: seq<Name>) {
    forall i, j :: 0 <= i < j < |s| ==> s[i] != s[j]
  }

  lemma NoDupCons(x: Name, s: seq<Name>)
    requires NoDup(s) && x !in s
    ensures NoDup([x] + s)
  {
    var t := [x] + s;
    forall i, j | 0 <= i < j < |t| ensures t[i] != t[j] {
      assert t[j] == s[j - 1];
    }
  }

  /** `distinct`: the first occurrence of each name, in order. */
  function Distinct(s: seq<Name>): (d: seq<Name>)
    ensures forall n :: n in d <==> n in s
    ensures NoDup(d)
  {
    if s == [] then [] else
      var rest := Without(Distinct(s[1..]), s[0]);
      NoDupCons(s[0], rest);
      [s[0]] + rest
  }

  function Without(s: seq<Name>, x: Name): (d: seq<Name>)
    requires NoDup(s)
    ensures forall n :: n in d <==> n in s && n != x
    ensures NoDup(d)
  {
    if s == [] then [] else
      assert s[0] !in s[1..];
      var rest := Without(s[1..], x);
      NoDupCons(s[0], rest);
      if s[0] == x then rest else [s[0]] + rest
  }

  /** The position of the first occurrence, or the length when there is none. */
  ghost function First(s: seq<Name>, n: Name): (i: nat)
    ensures i <= |s| && (i < |s| <==> n in s)
    ensures i < |s| ==> s[i] == n
  {
    if s == [] || s[0] == n then 0 else 1 + First(s[1..], n)
  }

  lemma {:induction false} WithoutKeepsOrder(s: seq<Name>, x: Name, a: Name, b: Name)
    requires NoDup(s)
    requires a != x && b != x && First(s, a) < First(s, b)
    ensures First(Without(s, x), a) < First(Without(s, x), b)
  {
    if s[0] == x {
      assert Without(s, x) == Without(s[1..], x);
      WithoutKeepsOrder(s[1..], x, a, b);
    } else {
      var w := Without(s[1..], x);
      assert Without(s, x)[1..] == w;
      if s[0] != a {
        WithoutKeepsOrder(s[1..], x, a, b);
      }
    }
  }

  /** `distinct` keeps the order of first occurrences. */
  lemma {:induction false} DistinctKeepsOrder(s: seq<Name>, a: Name, b: Name)
    requires First(s, a) < First(s, b)
    ensures First(Distinct(s), a) < First(Distinct(s), b)
  {
    var w := Without(Distinct(s[1..]), s[0]);
    assert Distinct(s)[1..] == w;
    if s[0] != a {
      DistinctKeepsOrder(s[1..], a, b);
      WithoutKeepsOrder(Distinct(s[1..]), s[0], a, b);
    }
  }

  // ---------------------------------------------------------------- the part in reach

  /** The entries in reach of `dep`. */
  ghost function InReach(index: Index, dep: Name): Index {
    map n | n in index && Reaches(index, dep, n) :: index[n]
  }

  lemma InReachAcyclic(index: Index, dep: Name)
    requires AcyclicFrom(index, dep)
    ensures Acyclic(InReach(index, dep))
  {
    var sub := InReach(index, dep);
    forall p ensures !Cycle(sub, p) {
      if Cycle(sub, p) {
        assert Edge(sub, p, 0) && p[0] in sub;
        forall i | 0 <= i < |p| - 1 ensures Edge(index, p, i) {
          assert Edge(sub, p, i);
        }
        assert Cycle(index, p);
      }
    }
  }

  lemma InReachNeeds(index: Index, dep: Name, n: Name)
    requires Reaches(index, dep, n)
    ensures Needs(InReach(index, dep), n) == Needs(index, n)
  {
  }

  // ---------------------------------------------------------------- topo-sort

  /** What a caller of `topo-sort` needs: exactly the reachable names, each once, and every
      requirement placed before whoever requires it. */
  ghost predicate LoadOrder(index: Index, dep: Name, order: seq<Name>) {
    && (forall n :: n in order <==> Reaches(index, dep, n))
    && NoDup(order)
    && (forall n, r :: n in order && Link(index, n, r) ==> First(order, r) < First(order, n))
  }

  /** What the worklist loop keeps: each visited name's requirements are either visited more
      recently than it (nearer the front of `ret`) or still to be visited. */
  ghost predicate Pending(index: Index, ret: seq<Name>, s: set<Name>) {
    forall n, r :: n in ret && Link(index, n, r) ==> r in s || First(ret, r) < First(ret, n)
  }

  lemma VisitKeepsPending(index: Index, ret: seq<Name>, s: set<Name>, d: Name)
    requires Pending(index, ret, s) && d in s
    ensures Pending(index, [d] + ret, s - {d} + Needs(index, d))
  {
    var ret' := [d] + ret;
    assert ret'[1..] == ret;
    forall n, r | n in ret' && Link(index, n, r)
      ensures r in s - {d} + Needs(index, d) || First(ret', r) < First(ret', n)
    {
      if n != d {
        assert n in ret;
      }
    }
  }

  /** `topo-sort`: the choice of "first" element of the set is arbitrary. */
  method TopoSort(index: Index, dep: Name) returns (order: seq<Name>)
    requires AcyclicFrom(index, dep)
    ensures LoadOrder(index, dep, order)
  {
    hide Requires, Reaches, Link, Weights, InReach, AcyclicFrom, Pending;
    var ret: seq<Name> := [];
    var s := {dep};
    NothingPending(index, s);
    ReachesSelf(index, dep);
    ghost var sub := InReach(index, dep);
    InReachAcyclic(index, dep);
    while s != {}
      invariant forall n :: n in ret || n in s ==> Reaches(index, dep, n)
      invariant dep in s || dep in ret
      invariant Pending(index, ret, s)
      decreases Weights(sub, s)
    {
      var d :| d in s;
      forall r | r in Needs(index, d) ensures Reaches(index, dep, r) {
        ReachesSnoc(index, dep, d, r);
      }
      VisitKeepsPending(index, ret, s, d);
      InReachNeeds(index, dep, d);
      VisitLowersWeight(sub, s, d);
      AllRequired(index, d);
      ret, s := [d] + ret, s - {d} + set r | r in Requires(index, d);
    }
    order := Distinct(ret);
    VisitedInOrder(index, dep, ret, order);
  }

  /** The code collects just the names the index gives. */
  lemma AllRequired(index: Index, d: Name)
    ensures (set r | r in Requires(index, d)) == Needs(index, d)
  {
  }

  lemma NothingPending(index: Index, s: set<Name>)
    ensures Pending(index, [], s)
  {
  }

  lemma VisitedInOrder(index: Index, dep: Name, ret: seq<Name>, order: seq<Name>)
    requires Pending(index, ret, {}) && dep in ret && order == Distinct(ret)
    requires forall n :: n in ret ==> Reaches(index, dep, n)
    ensures LoadOrder(index, dep, order)
  {
    hide Link, Reaches, First, Pending;
    DistinctInOrder(index, ret);
    forall n | Reaches(index, dep, n) ensures n in order {
      ReachedVisited(index, dep, order, n);
    }
  }

  lemma DistinctInOrder(index: Index, ret: seq<Name>)
    requires Pending(index, ret, {})
    ensures forall n, r :: n in Distinct(ret) && Link(index, n, r) ==> First(Distinct(ret), r) < First(Distinct(ret), n)
  {
    hide Link, First;
    forall n, r | n in Distinct(ret) && Link(index, n, r) ensures First(Distinct(ret), r) < First(Distinct(ret), n) {
      DistinctKeepsOrder(ret, r, n);
    }
  }

  lemma ReachedVisited(index: Index, dep: Name, order: seq<Name>, n: Name)
    requires forall n, r :: n in order && Link(index, n, r) ==> First(order, r) < First(order, n)
    requires dep in order && Reaches(index, dep, n)
    ensures n in order
  {
    var p :| Path(index, p) && p[0] == dep && p[|p| - 1] == n;
    hide Path, Link, First;
    ClosedUnderPaths(index, order, p);
  }

  lemma PathTail(index: Index, p: seq<Name>)
    requires Path(index, p) && |p| > 1
    ensures Path(index, p[1..])
  {
    forall i | 0 <= i < |p[1..]| - 1 ensures Edge(index, p[1..], i) {
      assert Edge(index, p, i + 1);
    }
  }

  lemma {:induction false} ClosedUnderPaths(index: Index, order: seq<Name>, p: seq<Name>)
    requires Path(index, p) && p[0] in order
    requires forall n, r :: n in order && Link(index, n, r) ==> First(order, r) < First(order, n)
    ensures p[|p| - 1] in order
    decreases |p|
  {
    if |p| > 1 {
      assert Edge(index, p, 0);
      assert First(order, p[1]) < First(order, p[0]);
      PathTail(index, p);
      ClosedUnderPaths(index, order, p[1..]);
    }
  }

  // ---------------------------------------------------------------- when it ends

  /** The worklist after some rounds, given the names chosen in them. */
  ghost function WorklistAfter(index: Index, s: set<Name>, chosen: seq<Name>): set<Name>
    decreases |chosen|
  {
    if chosen == [] then s
    else WorklistAfter(index, s - {chosen[0]} + Needs(index, chosen[0]), chosen[1..])
  }

  ghost predicate ReachesAny(index: Index, s: set<Name>, m: Name) {
    exists n :: n in s && Reaches(index, n, m)
  }

  /** From a name that reaches a name of a cycle, some requirement reaches it too. */
  lemma NextReaches(index: Index, n: Name, p: seq<Name>) returns (r: Name)
    requires Cycle(index, p) && Reaches(index, n, p[0])
    ensures Link(index, n, r) && Reaches(index, r, p[0])
  {
    var q :| Path(index, q) && q[0] == n && q[|q| - 1] == p[0];
    var t := if |q| > 1 then q else p;
    assert Edge(index, t, 0);
    PathTail(index, t);
    r := t[1];
    assert Path(index, t[1..]) && t[1..][0] == r && t[1..][|t| - 2] == p[0];
  }

  /** A cycle in reach: no choice of elements ever empties the worklist. */
  lemma {:induction false} CycleNeverDrains(index: Index, p: seq<Name>, s: set<Name>, chosen: seq<Name>)
    requires Cycle(index, p) && ReachesAny(index, s, p[0])
    ensures WorklistAfter(index, s, chosen) != {}
    decreases |chosen|
  {
    hide Path, Reaches;
    var n :| n in s && Reaches(index, n, p[0]);
    if chosen != [] {
      var d := chosen[0];
      var s' := s - {d} + Needs(index, d);
      if n == d {
        var r := NextReaches(index, d, p);
        assert r in s';
      } else {
        assert n in s';
      }
      CycleNeverDrains(index, p, s', chosen[1..]);
    }
  }

  /** No cycle in reach: choices that empty it. */
  lemma {:induction false} Drains(index: Index, dep: Name, s: set<Name>) returns (chosen: seq<Name>)
    requires AcyclicFrom(index, dep) && Acyclic(InReach(index, dep))
    requires forall n :: n in s ==> Reaches(index, dep, n)
    ensures WorklistAfter(index, s, chosen) == {}
    decreases Weights(InReach(index, dep), s)
  {
    hide Cycle, Path, AcyclicFrom, Acyclic;
    if s == {} {
      chosen := [];
    } else {
      var d :| d in s;
      forall r | r in Needs(index, d) ensures Reaches(index, dep, r) {
        ReachesSnoc(index, dep, d, r);
      }
      InReachNeeds(index, dep, d);
      VisitLowersWeight(InReach(index, dep), s, d);
      var rest := Drains(index, dep, s - {d} + Needs(index, d));
      chosen := [d] + rest;
      assert chosen[1..] == rest;
    }
  }

  /** The loop can end exactly when no cycle is in reach, and then, by `TopoSort`, it ends
      whatever is chosen. */
  lemma EndsExactly(index: Index, dep: Name)
    ensures (exists chosen :: WorklistAfter(index, {dep}, chosen) == {}) <==> AcyclicFrom(index, dep)
  {
    hide Path, WorklistAfter;
    if AcyclicFrom(index, dep) {
      ReachesSelf(index, dep);
      InReachAcyclic(index, dep);
      var chosen := Drains(index, dep, {dep});
    } else {
      var p :| Cycle(index, p) && Reaches(index, dep, p[0]);
      assert ReachesAny(index, {dep}, p[0]);
      forall chosen ensures WorklistAfter(index, {dep}, chosen) != {} {
        CycleNeverDrains(index, p, {dep}, chosen);
      }
    }
  }

  // ---------------------------------------------------------------- goog-dep-source

  /** The names a call emits: the load order with the already loaded names removed. */
  function Remove(order: seq<Name>, loaded: set<Name>): (r: seq<Name>)
    requires NoDup(order)
    ensures forall n :: n in r <==> n in order && n !in loaded
    ensures NoDup(r)
  {
    if order == [] then [] else
      assert order[0] !in order[1..];
      var rest := Remove(order[1..], loaded);
      NoDupCons(order[0], rest);
      if order[0] in loaded then rest else [order[0]] + rest
  }

  lemma {:induction false} RemoveKeepsOrder(order: seq<Name>, loaded: set<Name>, a: Name, b: Name)
    requires NoDup(order) && a !in loaded && b !in loaded && First(order, a) < First(order, b)
    ensures First(Remove(order, loaded), a) < First(Remove(order, loaded), b)
  {
    hide First, NoDup;
    NoDupTail(order);
    FirstStep(order, a);
    FirstStep(order, b);
    if order[0] != a {
      RemoveKeepsOrder(order[1..], loaded, a, b);
    }
    if order[0] !in loaded {
      assert Remove(order, loaded)[1..] == Remove(order[1..], loaded);
      FirstStep(Remove(order, loaded), a);
      FirstStep(Remove(order, loaded), b);
    }
  }

  lemma NoDupTail(s: seq<Name>)
    requires NoDup(s) && s != []
    ensures NoDup(s[1..]) && s[0] !in s[1..]
  {
  }

  lemma FirstStep(s: seq<Name>, n: Name)
    ensures First(s, n) == if s == [] || s[0] == n then 0 else 1 + First(s[1..], n)
  {
  }

  lemma {:induction false} FirstConcat(a: seq<Name>, b: seq<Name>, n: Name)
    ensures First(a + b, n) == if n in a then First(a, n) else |a| + First(b, n)
    decreases |a|
  {
    if a == [] {
      assert a + b == b;
    } else {
      assert (a + b)[1..] == a[1..] + b;
      FirstConcat(a[1..], b, n);
    }
  }

  /** Each emitted library's requirements were there before it. */
  ghost predicate Justified(index: Index, initial: set<Name>, emitted: seq<Name>) {
    forall n, r :: n in emitted && Link(index, n, r) ==>
      r in initial || First(emitted, r) < First(emitted, n)
  }

  lemma NoDupConcat(a: seq<Name>, b: seq<Name>)
    requires NoDup(a) && NoDup(b) && forall n :: n in b ==> n !in a
    ensures NoDup(a + b)
  {
    forall i, j | 0 <= i < j < |a + b| ensures (a + b)[i] != (a + b)[j] {
      if i < |a| <= j {
        assert (a + b)[i] == a[i] && (a + b)[j] == b[j - |a|];
        assert a[i] in a && b[j - |a|] in b;
      }
    }
  }

  lemma EmitKeepsJustified(index: Index, initial: set<Name>, emitted: seq<Name>, loaded: set<Name>,
                           name: Name, order: seq<Name>)
    requires Justified(index, initial, emitted) && LoadOrder(index, name, order)
    requires forall n :: n in loaded <==> n in initial || n in emitted
    ensures Justified(index, initial, emitted + Remove(order, loaded))
  {
    var sources := Remove(order, loaded);
    forall n, r | n in emitted + sources && Link(index, n, r)
      ensures r in initial || First(emitted + sources, r) < First(emitted + sources, n)
    {
      FirstConcat(emitted, sources, n);
      FirstConcat(emitted, sources, r);
      if n in emitted {
        assert r in initial || First(emitted, r) < First(emitted, n);
      } else if r !in loaded {
        assert n in order;
        assert First(order, r) < First(order, n);
        RemoveKeepsOrder(order, loaded, r, n);
      }
    }
  }

  /** The Closure loader: `loaded` is the `goog-loaded` volatile, `emitted` lists the
      libraries whose source has been returned so far. */
  class GoogLoader {
    const index: Index
    const initial: set<Name>
    var loaded: set<Name>
    ghost var emitted: seq<Name>

    /** No library twice; what an emitted library requires was there before it. */
    ghost predicate Valid() reads this {
      && loaded == initial + (set n | n in emitted)
      && (forall n :: n in emitted ==> n !in initial)
      && NoDup(emitted)
      && Justified(index, initial, emitted)
    }

    constructor (index: Index, initial: set<Name>)
      ensures Valid() && this.index == index && this.initial == initial && emitted == []
    {
      this.index, this.initial := index, initial;
      loaded, emitted := initial, [];
    }

    /** `goog-dep-source`: afterwards everything `name` needs is loaded. */
    method DepSource(name: Name) returns (sources: seq<Name>)
      requires Valid() && AcyclicFrom(index, name)
      modifies this
      ensures Valid()
      ensures emitted == old(emitted) + sources
      ensures name !in index ==> sources == [] && loaded == old(loaded)
      ensures name in index ==> forall n :: Reaches(index, name, n) ==> n in loaded
      ensures forall n :: n in sources ==> name in index && Reaches(index, name, n) && n !in old(loaded)
    {
      sources := [];
      if name in index {
        var order := TopoSort(index, name);
        sources := Remove(order, loaded);
        EmitKeepsJustified(index, initial, emitted, loaded, name, order);
        NoDupConcat(emitted, sources);
        loaded, emitted := loaded + (set n | n in sources), emitted + sources;
      }
    }
  }
}
