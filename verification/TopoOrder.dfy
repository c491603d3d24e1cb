/**
 Topological ordering of a prerequisite graph, lowest index first: the order
 part of `order_schemata` (src/avro/schema_set.rs).

 `pre[i]` is the set of indices that have to come before `i`.
 */
module TopoOrder {
  import opened Prelude

  /** The numbers below `n`. */
  function Indices(n: nat): (r: set<nat>)
    ensures forall i: nat :: i in r <==> i < n
  {
    if n == 0 then {} else Indices(n - 1) + {n - 1}
  }

  lemma {:induction false} IndicesSize(n: nat)
    ensures |Indices(n)| == n
  {
    if n > 0 {
      IndicesSize(n - 1);
    }
  }

  ghost predicate IsGraph(pre: seq<set<nat>>) {
    forall i :: 0 <= i < |pre| ==> pre[i] <= Indices(|pre|)
  }

  /** Every emitted index comes after its prerequisites. */
  ghost predicate Grounded(pre: seq<set<nat>>, done: seq<nat>) {
    && Distinct(done) && Elements(done) <= Indices(|pre|)
    && (forall p :: 0 <= p < |done| ==> done[p] < |pre| && pre[done[p]] <= Elements(done[..p]))
  }

  /** A topological order of the whole graph. */
  ghost predicate IsTopological(pre: seq<set<nat>>, order: seq<nat>) {
    Grounded(pre, order) && |order| == |pre|
  }

  lemma TopologicalIsPermutation(pre: seq<set<nat>>, order: seq<nat>)
    requires IsTopological(pre, order)
    ensures Elements(order) == Indices(|pre|)
  {
    DistinctSize(order);
    IndicesSize(|pre|);
    SubsetSize(Elements(order), Indices(|pre|));
  }

  /** The indices whose prerequisites are all done. */
  function Ready(pre: seq<set<nat>>, done: seq<nat>): set<nat> {
    set i | i in Indices(|pre|) && i !in done && pre[i] <= Elements(done)
  }

  lemma {:induction false} LeastFrom(s: set<nat>, y: nat) returns (m: nat)
    requires y in s
    ensures m in s && forall x :: x in s ==> m <= x
  {
    if x :| x in s && x < y {
      m := LeastFrom(s, x);
    } else {
      m := y;
    }
  }

  lemma LeastExists(s: set<nat>)
    requires s != {}
    ensures exists m :: m in s && forall x :: x in s ==> m <= x
  {
    var y :| y in s;
    var m := LeastFrom(s, y);
  }

  ghost function Least(s: set<nat>): (m: nat)
    requires s != {}
    ensures m in s && forall x :: x in s ==> m <= x
  {
    LeastExists(s);
    var m :| m in s && forall x :: x in s ==> m <= x;
    m
  }

  /** Emit the least ready index until none is ready. */
  ghost function Greedy(pre: seq<set<nat>>, done: seq<nat>): seq<nat>
    decreases |Indices(|pre|) - Elements(done)|
  {
    var ready := Ready(pre, done);
    if ready == {} then done
    else
      var next := done + [Least(ready)];
      assert Elements(next) == Elements(done) + {Least(ready)};
      SubsetSize(Indices(|pre|) - Elements(next), Indices(|pre|) - Elements(done));
      Greedy(pre, next)
  }

  lemma {:induction false} ExtendGrounded(pre: seq<set<nat>>, done: seq<nat>, i: nat)
    requires Grounded(pre, done) && i in Ready(pre, done)
    ensures Grounded(pre, done + [i])
  {
    var next := done + [i];
    assert Elements(next) == Elements(done) + {i};
    forall p | 0 <= p < |next|
      ensures next[p] < |pre| && pre[next[p]] <= Elements(next[..p])
    {
      if p == |done| {
        assert next[..p] == done;
      } else {
        assert next[..p] == done[..p];
      }
    }
  }

  /** What the greedy order is: grounded, an extension of where it started, and
      complete in that nothing more is ready. */
  lemma {:induction false} GreedyGrounded(pre: seq<set<nat>>, done: seq<nat>)
    requires Grounded(pre, done)
    ensures Grounded(pre, Greedy(pre, done))
    ensures done <= Greedy(pre, done)
    ensures Ready(pre, Greedy(pre, done)) == {}
    decreases |Indices(|pre|) - Elements(done)|
  {
    var ready := Ready(pre, done);
    if ready != {} {
      var next := done + [Least(ready)];
      assert Elements(next) == Elements(done) + {Least(ready)};
      SubsetSize(Indices(|pre|) - Elements(next), Indices(|pre|) - Elements(done));
      ExtendGrounded(pre, done, Least(ready));
      GreedyGrounded(pre, next);
    }
  }

  // ── Lexicographically least ─────────────────────────────────────────────

  /** `a` comes no later than `b` in lexicographic order. */
  ghost predicate LexAtMost(a: seq<nat>, b: seq<nat>) {
    a == b || exists p :: 0 <= p < |a| && p < |b| && a[..p] == b[..p] && a[p] < b[p]
  }

  /** The element a topological order has next after `done` is ready. */
  lemma NextIsReady(pre: seq<set<nat>>, done: seq<nat>, order: seq<nat>)
    requires IsTopological(pre, order) && done <= order && |done| < |order|
    ensures order[|done|] in Ready(pre, done)
  {
    assert order[..|done|] == done;
    assert order[|done|] in Elements(order);
    assert forall p :: 0 <= p < |done| ==> done[p] == order[p];
  }

  lemma CompleteIsNotReady(pre: seq<set<nat>>, order: seq<nat>)
    requires IsTopological(pre, order)
    ensures Ready(pre, order) == {}
  {
    TopologicalIsPermutation(pre, order);
    assert forall i :: i in Ready(pre, order) ==> i in Elements(order);
  }

  /** Going wrong for the first time after `done` means going higher. */
  lemma FirstDifference(g: seq<nat>, order: seq<nat>, done: seq<nat>, m: nat)
    requires done <= order && |done| < |order| && done + [m] <= g && m < order[|done|]
    ensures LexAtMost(g, order)
  {
    assert g[..|done|] == done == order[..|done|];
    assert g[|done|] == m;
  }

  /** Below any topological order that starts with `done`. */
  lemma {:induction false} GreedyIsLeast(pre: seq<set<nat>>, done: seq<nat>, order: seq<nat>)
    requires Grounded(pre, done) && IsTopological(pre, order) && done <= order
    ensures LexAtMost(Greedy(pre, done), order)
    decreases |Indices(|pre|) - Elements(done)|
  {
    if |done| == |order| {
      assert done == order;
      CompleteIsNotReady(pre, order);
    } else {
      NextIsReady(pre, done, order);
      var m := Least(Ready(pre, done));
      var next := done + [m];
      assert Elements(next) == Elements(done) + {m};
      SubsetSize(Indices(|pre|) - Elements(next), Indices(|pre|) - Elements(done));
      ExtendGrounded(pre, done, m);
      if m == order[|done|] {
        assert next <= order;
        GreedyIsLeast(pre, next, order);
      } else {
        GreedyGrounded(pre, next);
        FirstDifference(Greedy(pre, next), order, done, m);
      }
    }
  }

  function Identity(n: nat): seq<nat> {
    seq(n, i requires 0 <= i < n => i)
  }

  /** An order that is already topological is left alone. */
  lemma {:induction false} GreedyKeepsIdentity(pre: seq<set<nat>>, k: nat)
    requires IsTopological(pre, Identity(|pre|)) && k <= |pre|
    ensures Greedy(pre, Identity(|pre|)[..k]) == Identity(|pre|)
    decreases |pre| - k
  {
    var id := Identity(|pre|);
    var done := id[..k];
    if k == |pre| {
      assert done == id;
      CompleteIsNotReady(pre, id);
    } else {
      NextIsReady(pre, done, id);
      assert id[|done|] == k;
      forall x: nat | x < k
        ensures x in done
      {
        assert done[x] == x;
      }
      assert forall x :: x in Ready(pre, done) ==> k <= x;
      assert Least(Ready(pre, done)) == k;
      assert done + [k] == id[..k + 1];
      GreedyKeepsIdentity(pre, k + 1);
    }
  }

  // ── Cycles ──────────────────────────────────────────────────────────────

  /** A walk along prerequisites. */
  ghost predicate IsPath(pre: seq<set<nat>>, p: seq<nat>) {
    && p != [] && (forall j :: 0 <= j < |p| ==> p[j] < |pre|)
    && (forall j :: 0 <= j < |p| - 1 ==> p[j + 1] in pre[p[j]])
  }

  ghost predicate OnCycle(pre: seq<set<nat>>, c: nat) {
    exists p :: IsPath(pre, p) && |p| >= 2 && p[0] == c && p[|p| - 1] == c
  }

  /** Some chain of prerequisites of `i` (or `i` itself) runs into a cycle. */
  ghost predicate DependsOnCycle(pre: seq<set<nat>>, i: nat) {
    exists p :: IsPath(pre, p) && p[0] == i && OnCycle(pre, p[|p| - 1])
  }

  ghost predicate Acyclic(pre: seq<set<nat>>) {
    forall c: nat :: c < |pre| ==> !OnCycle(pre, c)
  }

  function PositionOf(s: seq<nat>, x: nat): (i: nat)
    requires x in s
    ensures i < |s| && s[i] == x
  {
    if s[0] == x then 0 else 1 + PositionOf(s[1..], x)
  }

  /** Along a path, positions in a grounded order only go down. */
  lemma {:induction false} PathDescends(pre: seq<set<nat>>, done: seq<nat>, p: seq<nat>)
    requires Grounded(pre, done) && IsPath(pre, p) && p[0] in done
    ensures p[|p| - 1] in done
    ensures PositionOf(done, p[|p| - 1]) + |p| - 1 <= PositionOf(done, p[0])
    decreases |p|
  {
    if |p| > 1 {
      var at := PositionOf(done, p[0]);
      assert p[1] in pre[done[at]];
      assert p[1] in Elements(done[..at]);
      var q :| 0 <= q < at && done[q] == p[1];
      assert PositionOf(done, p[1]) == q;
      var rest := p[1..];
      assert forall j :: 0 <= j < |rest| ==> rest[j] == p[j + 1];
      PathDescends(pre, done, rest);
    }
  }

  /** Nothing emitted depends on a cycle. */
  lemma EmittedIsCycleFree(pre: seq<set<nat>>, done: seq<nat>, i: nat)
    requires Grounded(pre, done) && i in done
    ensures !DependsOnCycle(pre, i)
  {
    if DependsOnCycle(pre, i) {
      var p :| IsPath(pre, p) && p[0] == i && OnCycle(pre, p[|p| - 1]);
      PathDescends(pre, done, p);
      var c :| IsPath(pre, c) && |c| >= 2 && c[0] == p[|p| - 1] && c[|c| - 1] == p[|p| - 1];
      PathDescends(pre, done, c);
      assert false;
    }
  }

  /** Every leftover index has a leftover prerequisite. */
  ghost predicate Blocked(pre: seq<set<nat>>, left: set<nat>) {
    forall i :: i in left ==> i < |pre| && pre[i] * left != {}
  }

  /** Follow leftover prerequisites for `steps` steps. */
  lemma {:induction false} LongWalk(pre: seq<set<nat>>, left: set<nat>, i: nat, steps: nat) returns (p: seq<nat>)
    requires Blocked(pre, left) && i in left
    ensures IsPath(pre, p) && |p| == steps + 1 && p[0] == i
    ensures forall j :: 0 <= j < |p| ==> p[j] in left
    decreases steps
  {
    if steps == 0 {
      p := [i];
    } else {
      var j :| j in pre[i] * left;
      var rest := LongWalk(pre, left, j, steps - 1);
      p := [i] + rest;
      assert forall k :: 1 <= k < |p| ==> p[k] == rest[k - 1];
    }
  }

  /** A walk longer than the graph meets itself. */
  lemma Pigeonhole(p: seq<nat>, left: set<nat>) returns (a: nat, b: nat)
    requires |p| > |left| && forall j :: 0 <= j < |p| ==> p[j] in left
    ensures a < b < |p| && p[a] == p[b]
  {
    if Distinct(p) {
      DistinctSize(p);
      SubsetSize(Elements(p), left);
    }
    a, b :| 0 <= a < b < |p| && p[a] == p[b];
  }

  lemma BlockedDependsOnCycle(pre: seq<set<nat>>, left: set<nat>, i: nat)
    requires Blocked(pre, left) && i in left
    ensures DependsOnCycle(pre, i)
  {
    var p := LongWalk(pre, left, i, |left|);
    var a, b := Pigeonhole(p, left);
    var c := p[a..b + 1];
    assert IsPath(pre, c) && |c| >= 2 && c[0] == p[a] && c[|c| - 1] == p[a];
    assert OnCycle(pre, p[a]);
    var q := p[..a + 1];
    assert IsPath(pre, q) && q[0] == i && q[|q| - 1] == p[a];
  }

  /** The indices a finished greedy order leaves out are exactly those that
      depend on a cycle. */
  lemma LeftoverDependsOnCycle(pre: seq<set<nat>>, order: seq<nat>, i: nat)
    requires IsGraph(pre) && Grounded(pre, order) && Ready(pre, order) == {} && i < |pre|
    ensures i !in order <==> DependsOnCycle(pre, i)
  {
    var left := Indices(|pre|) - Elements(order);
    forall j | j in left
      ensures pre[j] * left != {}
    {
      assert j !in Ready(pre, order);
      var x :| x in pre[j] && x !in Elements(order);
      assert x in pre[j] * left;
    }
    if i !in order {
      BlockedDependsOnCycle(pre, left, i);
    } else {
      EmittedIsCycleFree(pre, order, i);
    }
  }

  lemma CycleDependsOnItself(pre: seq<set<nat>>, c: nat)
    requires c < |pre| && OnCycle(pre, c)
    ensures DependsOnCycle(pre, c)
  {
    var p := [c];
    assert IsPath(pre, p) && p[0] == c && OnCycle(pre, p[|p| - 1]);
  }

  lemma DependsMeansCycle(pre: seq<set<nat>>, i: nat)
    requires DependsOnCycle(pre, i)
    ensures !Acyclic(pre)
  {
    var p :| IsPath(pre, p) && p[0] == i && OnCycle(pre, p[|p| - 1]);
    assert p[|p| - 1] < |pre|;
  }

  lemma MissingIndex(pre: seq<set<nat>>, order: seq<nat>) returns (i: nat)
    requires Distinct(order) && Elements(order) <= Indices(|pre|) && |order| != |pre|
    ensures i < |pre| && i !in order
  {
    DistinctSize(order);
    IndicesSize(|pre|);
    assert Elements(order) != Indices(|pre|);
    i :| i in Indices(|pre|) && i !in Elements(order);
  }

  /** All indices are emitted just when the graph has no cycle. */
  lemma CompleteIffAcyclic(pre: seq<set<nat>>, order: seq<nat>)
    requires IsGraph(pre) && Grounded(pre, order) && Ready(pre, order) == {}
    ensures |order| == |pre| <==> Acyclic(pre)
  {
    if |order| == |pre| {
      TopologicalIsPermutation(pre, order);
      forall c: nat | c < |pre|
        ensures !OnCycle(pre, c)
      {
        assert c in Elements(order);
        EmittedIsCycleFree(pre, order, c);
        if OnCycle(pre, c) {
          CycleDependsOnItself(pre, c);
        }
      }
    } else {
      var i := MissingIndex(pre, order);
      LeftoverDependsOnCycle(pre, order, i);
      DependsMeansCycle(pre, i);
    }
  }
}
