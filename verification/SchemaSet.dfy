/** Ordering a set of schemas so that definitions precede their users:
    `order_schemata` of src/avro/schema_set.rs. */
module SchemaSet {
  import opened Prelude
  import opened TopoOrder
  import opened AvroNames
  import NameOccurrences

  /** The names a schema defines and references, and its top-level name. */
  datatype Info = Info(defines: set<string>, refs: set<string>, top: Option<string>)

  function InfoOf(s: Schema): Info {
    Info(Defined(Events(s)), Used(Events(s)), NameOf(s))
  }

  function InfosOf(ss: seq<Schema>): (infos: seq<Info>)
    ensures |infos| == |ss|
  {
    seq(|ss|, i requires 0 <= i < |ss| => InfoOf(ss[i]))
  }

  datatype OrderError =
    | DuplicateDefinition(name: string)
    | MissingDefinition(name: string, user: nat)
    | NestedDefinition(name: string, user: nat)
    | CircularReference(leftover: seq<nat>)

  // ── What makes a set orderable ──────────────────────────────────────────

  /** No name is defined by two schemas. */
  ghost predicate NoDuplicates(infos: seq<Info>) {
    forall i, j :: 0 <= i < j < |infos| ==> infos[i].defines !! infos[j].defines
  }

  /** The names schema `i` needs from another schema. */
  function External(info: Info): set<string> {
    info.refs - info.defines
  }

  ghost predicate DefinedAtTop(infos: seq<Info>, name: string) {
    exists j :: 0 <= j < |infos| && infos[j].top == Some(name)
  }

  /** Every cross-schema reference names another schema's top-level type. */
  ghost predicate RefsAreTopLevel(infos: seq<Info>) {
    forall i, name :: 0 <= i < |infos| && name in External(infos[i]) ==> DefinedAtTop(infos, name)
  }

  /** A named schema defines its own name. */
  ghost predicate TopsDefined(infos: seq<Info>) {
    forall j :: 0 <= j < |infos| && infos[j].top.Some? ==> infos[j].top.value in infos[j].defines
  }

  lemma InfosTopsDefined(ss: seq<Schema>)
    ensures TopsDefined(InfosOf(ss))
  {
    forall j | 0 <= j < |ss| && NameOf(ss[j]).Some?
      ensures NameOf(ss[j]).value in Defined(Events(ss[j]))
    {
      TopNameIsDefined(ss[j]);
    }
  }

  /** The schemas that define something `i` needs from outside. */
  function PrereqsOf(infos: seq<Info>, i: nat): (r: set<nat>)
    requires i < |infos|
  {
    set j | j in Indices(|infos|) && infos[j].defines * External(infos[i]) != {}
  }

  function Prereqs(infos: seq<Info>): (pre: seq<set<nat>>)
    ensures |pre| == |infos|
  {
    seq(|infos|, i requires 0 <= i < |infos| => PrereqsOf(infos, i))
  }

  lemma PrereqsIsGraph(infos: seq<Info>)
    ensures IsGraph(Prereqs(infos))
  {
  }

  // ── The algorithm ───────────────────────────────────────────────────────

  /** name -> the schema that defines it. */
  ghost predicate IsDefiner(infos: seq<Info>, upTo: nat, definer: map<string, nat>)
    requires upTo <= |infos|
  {
    && (forall name :: name in definer ==> definer[name] < upTo && name in infos[definer[name]].defines)
    && (forall i, name :: 0 <= i < upTo && name in infos[i].defines ==> name in definer && definer[name] == i)
  }

  ghost predicate DefinedTwice(infos: seq<Info>, name: string) {
    exists i, j :: 0 <= i < j < |infos| && name in infos[i].defines && name in infos[j].defines
  }

  lemma DefinerIsUnique(infos: seq<Info>, definer: map<string, nat>)
    requires IsDefiner(infos, |infos|, definer)
    ensures NoDuplicates(infos)
  {
    forall i, j | 0 <= i < j < |infos|
      ensures infos[i].defines !! infos[j].defines
    {
      assert forall name :: name in infos[i].defines ==> definer[name] == i;
      assert forall name :: name in infos[j].defines ==> definer[name] == j;
    }
  }

  method BuildDefiner(infos: seq<Info>) returns (definer: map<string, nat>, error: Option<OrderError>)
    ensures error.None? ==> IsDefiner(infos, |infos|, definer) && NoDuplicates(infos)
    ensures error.Some? ==> error.value.DuplicateDefinition? && DefinedTwice(infos, error.value.name)
  {
    definer := map[];
    for index := 0 to |infos|
      invariant IsDefiner(infos, index, definer)
    {
      var todo := infos[index].defines;
      while todo != {}
        invariant todo <= infos[index].defines
        invariant forall name :: name in definer ==> definer[name] <= index && name in infos[definer[name]].defines
        invariant forall i, name :: 0 <= i < index && name in infos[i].defines ==> name in definer && definer[name] == i
        invariant forall name :: name in infos[index].defines - todo ==> name in definer && definer[name] == index
        invariant forall name :: name in todo ==> name !in definer || definer[name] < index
        decreases |todo|
      {
        var name :| name in todo;
        if name in definer {
          assert name in infos[definer[name]].defines && name in infos[index].defines;
          return definer, Some(DuplicateDefinition(name));
        }
        definer := definer[name := index];
        todo := todo - {name};
      }
    }
    DefinerIsUnique(infos, definer);
    error := None;
  }

  /** `j` is a prerequisite of `i` just when `i` is a dependent of `j`. */
  ghost predicate IsEdge(pre: seq<set<nat>>, dependents: seq<seq<nat>>, i: nat, j: nat)
    requires j < |dependents|
  {
    i in dependents[j] <==> i < |pre| && j in pre[i]
  }

  ghost predicate IsDependents(pre: seq<set<nat>>, dependents: seq<seq<nat>>) {
    && |dependents| == |pre|
    && (forall j: nat :: j < |pre| ==> Distinct(dependents[j]))
    && (forall j: nat, i: nat :: j < |pre| ==> IsEdge(pre, dependents, i, j))
  }

  /** Schemas that define one of `names`. */
  ghost function DefinersOf(infos: seq<Info>, names: set<string>): set<nat> {
    set j | j in Indices(|infos|) && infos[j].defines * names != {}
  }

  lemma DefinersGrow(infos: seq<Info>, definer: map<string, nat>, names: set<string>, name: string)
    requires IsDefiner(infos, |infos|, definer) && name in definer
    ensures DefinersOf(infos, names + {name}) == DefinersOf(infos, names) + {definer[name]}
  {
    forall j: nat | j < |infos|
      ensures j in DefinersOf(infos, names + {name}) <==> j in DefinersOf(infos, names) || j == definer[name]
    {
      assert infos[j].defines * (names + {name}) == infos[j].defines * names + infos[j].defines * {name};
      assert name in infos[j].defines <==> j == definer[name];
      assert name in infos[j].defines ==> name in infos[j].defines * {name};
    }
  }

  /** A reference that fails to name a top-level type. */
  ghost predicate BadReference(infos: seq<Info>, user: nat, name: string) {
    user < |infos| && name in External(infos[user]) && !DefinedAtTop(infos, name)
  }

  lemma NotAtTop(infos: seq<Info>, definer: map<string, nat>, name: string)
    requires IsDefiner(infos, |infos|, definer) && TopsDefined(infos)
    requires name in definer ==> infos[definer[name]].top != Some(name)
    ensures !DefinedAtTop(infos, name)
  {
    assert forall j :: 0 <= j < |infos| && infos[j].top == Some(name) ==> name in infos[j].defines;
  }

  /** Insert one prerequisite edge, unless it is there. */
  lemma EdgeKeepsDependents(pre: seq<set<nat>>, dependents: seq<seq<nat>>, i: nat, j: nat)
    requires IsDependents(pre, dependents) && i < |pre| && j < |pre| && j !in pre[i]
    ensures IsDependents(pre[i := pre[i] + {j}], dependents[j := dependents[j] + [i]])
  {
    var pre', dependents' := pre[i := pre[i] + {j}], dependents[j := dependents[j] + [i]];
    assert IsEdge(pre, dependents, i, j);
    forall b: nat | b < |pre|
      ensures Distinct(dependents'[b])
    {
      assert b != j ==> dependents'[b] == dependents[b];
    }
    forall b: nat, a: nat | b < |pre|
      ensures IsEdge(pre', dependents', a, b)
    {
      assert IsEdge(pre, dependents, a, b);
      if b == j {
        assert dependents'[b] == dependents[j] + [i];
      } else {
        assert dependents'[b] == dependents[b];
      }
    }
  }

  /** What is known once the schemas below `upTo` have been looked at. */
  ghost predicate EdgesUpTo(infos: seq<Info>, upTo: nat, pre: seq<set<nat>>, dependents: seq<seq<nat>>) {
    && |pre| == |infos| && IsDependents(pre, dependents)
    && (forall i :: 0 <= i < |infos| ==> pre[i] == if i < upTo then PrereqsOf(infos, i) else {})
  }

  ghost predicate ErrorIsBadReference(infos: seq<Info>, error: OrderError) {
    && (error.MissingDefinition? || error.NestedDefinition?)
    && BadReference(infos, error.user, error.name)
    && (error.MissingDefinition? <==> forall j :: 0 <= j < |infos| ==> error.name !in infos[j].defines)
  }

  /** The prerequisite sets, and the same edges the other way round. */
  method BuildPrerequisites(infos: seq<Info>, definer: map<string, nat>)
    returns (pre: seq<set<nat>>, dependents: seq<seq<nat>>, error: Option<OrderError>)
    requires IsDefiner(infos, |infos|, definer) && TopsDefined(infos)
    ensures error.None? ==> RefsAreTopLevel(infos) && pre == Prereqs(infos) && IsDependents(pre, dependents)
    ensures error.Some? ==> ErrorIsBadReference(infos, error.value)
  {
    pre := seq(|infos|, _ => {});
    dependents := seq(|infos|, _ => []);
    error := None;
    for index := 0 to |infos|
      invariant error.None? && EdgesUpTo(infos, index, pre, dependents)
      invariant forall i, name :: 0 <= i < index && name in External(infos[i]) ==> DefinedAtTop(infos, name)
    {
      pre, dependents, error := AddPrerequisites(infos, definer, index, pre, dependents);
      if error.Some? {
        return;
      }
    }
  }

  /** While the references of schema `index` are looked at; those in `done`
      have been. */
  ghost predicate EdgesInto(infos: seq<Info>, index: nat, done: set<string>,
    pre0: seq<set<nat>>, pre: seq<set<nat>>, dependents: seq<seq<nat>>)
  {
    && index < |infos| == |pre| == |pre0| && IsDependents(pre, dependents)
    && (forall i :: 0 <= i < |infos| && i != index ==> pre[i] == pre0[i])
    && pre[index] == DefinersOf(infos, done)
    && (forall name :: name in done ==> DefinedAtTop(infos, name))
  }

  lemma EdgesIntoStart(infos: seq<Info>, index: nat, pre: seq<set<nat>>, dependents: seq<seq<nat>>)
    requires index < |infos| && EdgesUpTo(infos, index, pre, dependents)
    ensures EdgesInto(infos, index, {}, pre, pre, dependents)
  {
    assert DefinersOf(infos, {}) == {};
  }

  lemma EdgesIntoEnd(infos: seq<Info>, index: nat, pre0: seq<set<nat>>, pre: seq<set<nat>>,
      dependents0: seq<seq<nat>>, dependents: seq<seq<nat>>)
    requires index < |infos| && EdgesUpTo(infos, index, pre0, dependents0)
    requires EdgesInto(infos, index, External(infos[index]), pre0, pre, dependents)
    ensures EdgesUpTo(infos, index + 1, pre, dependents)
  {
  }

  /** One more reference, which names the top-level type of schema `from`. */
  lemma EdgesIntoStep(infos: seq<Info>, definer: map<string, nat>, index: nat, done: set<string>, name: string,
      pre0: seq<set<nat>>, pre: seq<set<nat>>, dependents: seq<seq<nat>>)
    requires IsDefiner(infos, |infos|, definer) && name in definer && infos[definer[name]].top == Some(name)
    requires EdgesInto(infos, index, done, pre0, pre, dependents)
    ensures var from := definer[name];
      if from in pre[index] then EdgesInto(infos, index, done + {name}, pre0, pre, dependents)
      else EdgesInto(infos, index, done + {name}, pre0,
        pre[index := pre[index] + {from}], dependents[from := dependents[from] + [index]])
  {
    var from := definer[name];
    DefinersGrow(infos, definer, done, name);
    assert DefinedAtTop(infos, name);
    if from in pre[index] {
      assert pre[index] + {from} == pre[index];
    } else {
      EdgeKeepsDependents(pre, dependents, index, from);
    }
  }

  /** The edge for one reference that the schema does not define itself. */
  method AddReference(infos: seq<Info>, definer: map<string, nat>, index: nat, name: string, ghost done: set<string>,
      ghost pre0: seq<set<nat>>, pre1: seq<set<nat>>, dependents1: seq<seq<nat>>)
    returns (pre: seq<set<nat>>, dependents: seq<seq<nat>>, error: Option<OrderError>)
    requires IsDefiner(infos, |infos|, definer) && TopsDefined(infos)
    requires EdgesInto(infos, index, done, pre0, pre1, dependents1) && name in External(infos[index])
    ensures error.None? ==> EdgesInto(infos, index, done + {name}, pre0, pre, dependents)
    ensures error.Some? ==> ErrorIsBadReference(infos, error.value)
  {
    pre, dependents, error := pre1, dependents1, None;
    if name !in definer {
      NotAtTop(infos, definer, name);
      return pre, dependents, Some(MissingDefinition(name, index));
    }
    var from := definer[name];
    if infos[from].top != Some(name) {
      NotAtTop(infos, definer, name);
      return pre, dependents, Some(NestedDefinition(name, index));
    }
    EdgesIntoStep(infos, definer, index, done, name, pre0, pre, dependents);
    if from !in pre[index] {
      dependents := dependents[from := dependents[from] + [index]];
      pre := pre[index := pre[index] + {from}];
    }
  }

  /** The edges into schema `index`. */
  method AddPrerequisites(infos: seq<Info>, definer: map<string, nat>, index: nat, pre0: seq<set<nat>>, dependents0: seq<seq<nat>>)
    returns (pre: seq<set<nat>>, dependents: seq<seq<nat>>, error: Option<OrderError>)
    requires IsDefiner(infos, |infos|, definer) && TopsDefined(infos) && index < |infos|
    requires EdgesUpTo(infos, index, pre0, dependents0)
    ensures error.None? ==> EdgesUpTo(infos, index + 1, pre, dependents)
    ensures error.None? ==> forall name :: name in External(infos[index]) ==> DefinedAtTop(infos, name)
    ensures error.Some? ==> ErrorIsBadReference(infos, error.value)
  {
    pre, dependents, error := pre0, dependents0, None;
    var todo := infos[index].refs;
    ghost var done: set<string> := {};
    EdgesIntoStart(infos, index, pre, dependents);
    while todo != {}
      invariant error.None? && done + (todo - infos[index].defines) == External(infos[index])
      invariant EdgesInto(infos, index, done, pre0, pre, dependents)
      decreases |todo|
    {
      var name :| name in todo;
      if name !in infos[index].defines {
        pre, dependents, error := AddReference(infos, definer, index, name, done, pre0, pre, dependents);
        if error.Some? {
          return;
        }
        done := done + {name};
      }
      todo := todo - {name};
    }
    assert done == External(infos[index]);
    EdgesIntoEnd(infos, index, pre0, pre, dependents0, dependents);
  }

  // ── Kahn's algorithm ────────────────────────────────────────────────────

  /** `remaining` counts the prerequisites not yet emitted. */
  ghost predicate Counts(pre: seq<set<nat>>, done: seq<nat>, remaining: seq<nat>) {
    |remaining| == |pre| && forall i :: 0 <= i < |pre| ==> remaining[i] == |pre[i] - Elements(done)|
  }

  /** The same, while the emission of the last of `done` is being passed on:
      the dependents in `told` know of it, the others do not. */
  ghost predicate CountsWhile(pre: seq<set<nat>>, done: seq<nat>, index: nat, told: seq<nat>, remaining: seq<nat>) {
    && |remaining| == |pre|
    && (forall i: nat :: i < |pre| ==>
      remaining[i] == |pre[i] - Elements(done)| + if index in pre[i] && i !in told then 1 else 0)
  }

  /** The heap while that emission is being passed on. */
  ghost function ReadyWhile(pre: seq<set<nat>>, done: seq<nat>, index: nat, told: seq<nat>): set<nat> {
    set i | i in Ready(pre, done) && (index in pre[i] ==> i in told)
  }

  lemma EmitCounts(pre: seq<set<nat>>, before: seq<nat>, index: nat, remaining: seq<nat>)
    requires Counts(pre, before, remaining) && index !in before
    ensures CountsWhile(pre, before + [index], index, [], remaining)
  {
    forall i: nat | i < |pre|
      ensures remaining[i] == |pre[i] - Elements(before + [index])| + if index in pre[i] then 1 else 0
    {
      assert Elements(before + [index]) == Elements(before) + {index};
      if index in pre[i] {
        assert pre[i] - Elements(before) == (pre[i] - Elements(before + [index])) + {index};
      } else {
        assert pre[i] - Elements(before) == pre[i] - Elements(before + [index]);
      }
    }
  }

  /** Before anyone is told, the heap lacks exactly the emitted index. */
  lemma EmitReady(pre: seq<set<nat>>, before: seq<nat>, index: nat)
    requires index in Ready(pre, before)
    ensures ReadyWhile(pre, before + [index], index, []) == Ready(pre, before) - {index}
  {
    assert Elements(before + [index]) == Elements(before) + {index};
  }

  /** Telling one more dependent makes it ready just when its count hits zero. */
  lemma TellReady(pre: seq<set<nat>>, done: seq<nat>, index: nat, told: seq<nat>, i: nat)
    requires i < |pre| && index in pre[i] && i !in told && i !in done
    ensures ReadyWhile(pre, done, index, told + [i])
      == ReadyWhile(pre, done, index, told) + if |pre[i] - Elements(done)| == 0 then {i} else {}
  {
    assert |pre[i] - Elements(done)| == 0 <==> pre[i] <= Elements(done) by {
      if pre[i] <= Elements(done) {
        assert pre[i] - Elements(done) == {};
      } else {
        var x :| x in pre[i] && x !in Elements(done);
        assert x in pre[i] - Elements(done);
      }
    }
  }

  lemma TellCounts(pre: seq<set<nat>>, done: seq<nat>, index: nat, told: seq<nat>, remaining: seq<nat>, i: nat)
    requires CountsWhile(pre, done, index, told, remaining) && i < |pre| && index in pre[i] && i !in told
    ensures remaining[i] == |pre[i] - Elements(done)| + 1
    ensures CountsWhile(pre, done, index, told + [i], remaining[i := remaining[i] - 1])
  {
  }

  /** Once all dependents are told, counts and heap are those of `done`. */
  lemma AllTold(pre: seq<set<nat>>, dependents: seq<seq<nat>>, done: seq<nat>, index: nat, remaining: seq<nat>)
    requires IsDependents(pre, dependents) && index < |pre|
    requires CountsWhile(pre, done, index, dependents[index], remaining)
    ensures Counts(pre, done, remaining)
    ensures ReadyWhile(pre, done, index, dependents[index]) == Ready(pre, done)
  {
    forall i: nat | i < |pre|
      ensures index in pre[i] ==> i in dependents[index]
    {
      assert IsEdge(pre, dependents, i, index);
    }
    assert ReadyWhile(pre, done, index, dependents[index]) == Ready(pre, done);
  }

  lemma HeapAdd(a: set<nat>, i: nat)
    requires i !in a
    ensures multiset(a) + multiset{i} == multiset(a + {i})
  {
  }

  lemma HeapRemove(a: set<nat>, i: nat)
    requires i in a
    ensures multiset(a) - multiset{i} == multiset(a - {i})
  {
  }

  /** What the loop of `SortIndices` keeps. */
  ghost predicate Sorting(pre: seq<set<nat>>, order: seq<nat>, remaining: seq<nat>, heap: multiset<nat>) {
    && Grounded(pre, order) && Greedy(pre, order) == Greedy(pre, [])
    && Counts(pre, order, remaining) && heap == multiset(Ready(pre, order))
  }

  /** Popping the least index of the heap is the next greedy step. */
  lemma PopIsGreedy(pre: seq<set<nat>>, order: seq<nat>, remaining: seq<nat>, heap: multiset<nat>, index: nat)
    requires Sorting(pre, order, remaining, heap)
    requires index in heap && forall x :: x in heap ==> index <= x
    ensures Grounded(pre, order + [index]) && Greedy(pre, order + [index]) == Greedy(pre, [])
    ensures CountsWhile(pre, order + [index], index, [], remaining)
    ensures heap - multiset{index} == multiset(ReadyWhile(pre, order + [index], index, []))
    ensures |Indices(|pre|) - Elements(order + [index])| < |Indices(|pre|) - Elements(order)|
  {
    var ready := Ready(pre, order);
    assert forall x :: x in heap <==> x in ready;
    assert index == Least(ready);
    EmitCounts(pre, order, index, remaining);
    EmitReady(pre, order, index);
    HeapRemove(ready, index);
    ExtendGrounded(pre, order, index);
    var left, left' := Indices(|pre|) - Elements(order), Indices(|pre|) - Elements(order + [index]);
    assert index in left && index !in left';
    SubsetSize(left', left);
  }

  lemma SortingStarts(pre: seq<set<nat>>)
    ensures Sorting(pre, [], seq(|pre|, i requires 0 <= i < |pre| => |pre[i]|),
      multiset(set i | i in Indices(|pre|) && pre[i] == {}))
  {
    assert Ready(pre, []) == set i | i in Indices(|pre|) && pre[i] == {};
    assert forall i :: 0 <= i < |pre| ==> pre[i] - Elements([]) == pre[i];
  }

  lemma HeapHasLeast(heap: multiset<nat>)
    requires heap != multiset{}
    ensures exists m :: m in heap && forall x :: x in heap ==> m <= x
  {
    var elements := set x | x in heap;
    var y :| y in heap;
    assert y in elements;
    var m := Least(elements);
    assert m in heap;
    forall x | x in heap
      ensures m <= x
    {
      assert x in elements;
    }
  }

  lemma EmptyHeap(a: set<nat>)
    requires multiset(a) == multiset{}
    ensures a == {}
  {
    assert forall x :: x in a ==> x in multiset(a);
  }

  /** Kahn's algorithm over a min-heap, lowest index first. */
  method SortIndices(pre: seq<set<nat>>, dependents: seq<seq<nat>>)
    returns (order: seq<nat>, remaining: seq<nat>)
    requires IsGraph(pre) && IsDependents(pre, dependents)
    ensures order == Greedy(pre, []) && Counts(pre, order, remaining)
  {
    var heap := multiset(set i | i in Indices(|pre|) && pre[i] == {});
    remaining := seq(|pre|, i requires 0 <= i < |pre| => |pre[i]|);
    order := [];
    SortingStarts(pre);
    while heap != multiset{}
      invariant Sorting(pre, order, remaining, heap)
      decreases |Indices(|pre|) - Elements(order)|
    {
      order, remaining, heap := EmitLeast(pre, dependents, order, remaining, heap);
    }
    EmptyHeap(Ready(pre, order));
  }

  /** Pop the least ready index, emit it, and pass that on. */
  method EmitLeast(pre: seq<set<nat>>, dependents: seq<seq<nat>>, order0: seq<nat>, remaining0: seq<nat>, heap0: multiset<nat>)
    returns (order: seq<nat>, remaining: seq<nat>, heap: multiset<nat>)
    requires IsDependents(pre, dependents) && Sorting(pre, order0, remaining0, heap0) && heap0 != multiset{}
    ensures Sorting(pre, order, remaining, heap)
    ensures |Indices(|pre|) - Elements(order)| < |Indices(|pre|) - Elements(order0)|
  {
    HeapHasLeast(heap0);
    var index :| index in heap0 && forall x :: x in heap0 ==> index <= x;
    PopIsGreedy(pre, order0, remaining0, heap0, index);
    order := order0 + [index];
    heap, remaining := heap0 - multiset{index}, remaining0;
    DependentsAwait(pre, dependents, order, index);
    heap, remaining := Tell(pre, dependents[index], order, index, heap, remaining);
    AllTold(pre, dependents, order, index, remaining);
  }

  /** Counts and heap while the emission of `index` is being passed on. */
  ghost predicate Telling(pre: seq<set<nat>>, done: seq<nat>, index: nat, told: seq<nat>, heap: multiset<nat>, remaining: seq<nat>) {
    CountsWhile(pre, done, index, told, remaining) && heap == multiset(ReadyWhile(pre, done, index, told))
  }

  /** `i` waits for `index` and was not emitted. */
  ghost predicate Awaits(pre: seq<set<nat>>, done: seq<nat>, index: nat, i: nat) {
    i < |pre| && index in pre[i] && i !in done
  }

  lemma TellStep(pre: seq<set<nat>>, done: seq<nat>, index: nat, told: seq<nat>, heap: multiset<nat>, remaining: seq<nat>, i: nat)
    requires Telling(pre, done, index, told, heap, remaining)
    requires Awaits(pre, done, index, i) && i !in told
    ensures i < |remaining| && remaining[i] > 0
    ensures var after := remaining[i := remaining[i] - 1];
      Telling(pre, done, index, told + [i], if after[i] == 0 then heap + multiset{i} else heap, after)
  {
    TellReady(pre, done, index, told, i);
    TellCounts(pre, done, index, told, remaining, i);
    HeapAdd(ReadyWhile(pre, done, index, told), i);
  }

  /** Pass the emission of `index` on to its dependents `ds`. */
  method Tell(pre: seq<set<nat>>, ds: seq<nat>, ghost done: seq<nat>, index: nat, heap0: multiset<nat>, remaining0: seq<nat>)
    returns (heap: multiset<nat>, remaining: seq<nat>)
    requires Distinct(ds) && forall i :: i in ds ==> Awaits(pre, done, index, i)
    requires Telling(pre, done, index, [], heap0, remaining0)
    ensures Telling(pre, done, index, ds, heap, remaining)
  {
    heap, remaining := heap0, remaining0;
    for d := 0 to |ds|
      invariant Telling(pre, done, index, ds[..d], heap, remaining)
    {
      assert ds[d] in ds && ds[d] !in ds[..d] && ds[..d + 1] == ds[..d] + [ds[d]];
      heap, remaining := TellOne(pre, ds[..d], done, index, heap, remaining, ds[d]);
    }
    assert ds[..|ds|] == ds;
  }

  method TellOne(pre: seq<set<nat>>, ghost told: seq<nat>, ghost done: seq<nat>, index: nat,
      heap0: multiset<nat>, remaining0: seq<nat>, i: nat)
    returns (heap: multiset<nat>, remaining: seq<nat>)
    requires Telling(pre, done, index, told, heap0, remaining0) && Awaits(pre, done, index, i) && i !in told
    ensures Telling(pre, done, index, told + [i], heap, remaining)
  {
    TellStep(pre, done, index, told, heap0, remaining0, i);
    remaining := remaining0[i := remaining0[i] - 1];
    heap := if remaining[i] == 0 then heap0 + multiset{i} else heap0;
  }

  lemma DependentsAwait(pre: seq<set<nat>>, dependents: seq<seq<nat>>, done: seq<nat>, index: nat)
    requires IsDependents(pre, dependents) && index < |pre|
    requires Grounded(pre, done) && done != [] && done[|done| - 1] == index
    ensures Distinct(dependents[index])
    ensures forall i :: i in dependents[index] ==> Awaits(pre, done, index, i)
  {
    forall i: nat | i in dependents[index]
      ensures Awaits(pre, done, index, i)
    {
      assert IsEdge(pre, dependents, i, index);
      DependentNotDone(pre, done, index, i);
    }
  }

  /** What needs the index just emitted was not emitted before it. */
  lemma DependentNotDone(pre: seq<set<nat>>, done: seq<nat>, index: nat, i: nat)
    requires Grounded(pre, done) && done != [] && done[|done| - 1] == index && i < |pre| && index in pre[i]
    ensures i !in done
  {
    forall p | 0 <= p < |done|
      ensures index !in Elements(done[..p])
    {
    }
  }

  // ── order_schemata ──────────────────────────────────────────────────────

  ghost predicate InRange(order: seq<nat>, n: nat) {
    forall p :: 0 <= p < |order| ==> order[p] < n
  }

  /** `ss` rearranged along `order`. */
  ghost function Arrange<T>(ss: seq<T>, order: seq<nat>): (r: seq<T>)
    requires InRange(order, |ss|)
    ensures |r| == |order|
  {
    seq(|order|, p requires 0 <= p < |order| => ss[order[p]])
  }

  /** What `order_schemata` accepts. */
  ghost predicate Orderable(infos: seq<Info>) {
    NoDuplicates(infos) && RefsAreTopLevel(infos) && Acyclic(Prereqs(infos))
  }

  /** The indices left over, in ascending order. */
  ghost predicate IsLeftover(pre: seq<set<nat>>, leftover: seq<nat>) {
    && (forall p, q :: 0 <= p < q < |leftover| ==> leftover[p] < leftover[q])
    && (forall i: nat :: i in leftover <==> i < |pre| && DependsOnCycle(pre, i))
  }

  /** An error names something that is wrong with the set. */
  ghost predicate ErrorIsTrue(infos: seq<Info>, error: OrderError) {
    match error
    case DuplicateDefinition(name) => DefinedTwice(infos, name)
    case MissingDefinition(_, _) => ErrorIsBadReference(infos, error)
    case NestedDefinition(_, _) => ErrorIsBadReference(infos, error)
    case CircularReference(leftover) =>
      NoDuplicates(infos) && RefsAreTopLevel(infos) && IsLeftover(Prereqs(infos), leftover) && leftover != []
  }

  /** The answer is the lexicographically least topological order. */
  ghost predicate IsLeastOrder(pre: seq<set<nat>>, order: seq<nat>) {
    && IsTopological(pre, order)
    && (forall other :: IsTopological(pre, other) ==> LexAtMost(order, other))
  }

  lemma GreedyIsLeastOrder(pre: seq<set<nat>>)
    requires IsGraph(pre)
    ensures |Greedy(pre, [])| == |pre| <==> Acyclic(pre)
    ensures Acyclic(pre) ==> IsLeastOrder(pre, Greedy(pre, []))
  {
    GreedyGrounded(pre, []);
    CompleteIffAcyclic(pre, Greedy(pre, []));
    if Acyclic(pre) {
      forall other | IsTopological(pre, other)
        ensures LexAtMost(Greedy(pre, []), other)
      {
        GreedyIsLeast(pre, [], other);
      }
    }
  }

  /** `remaining > 0` picks out exactly what was not emitted. */
  lemma RemainingMeansLeft(pre: seq<set<nat>>, order: seq<nat>, remaining: seq<nat>, i: nat)
    requires IsGraph(pre) && Grounded(pre, order) && Ready(pre, order) == {} && Counts(pre, order, remaining)
    requires i < |pre|
    ensures remaining[i] > 0 <==> DependsOnCycle(pre, i)
  {
    LeftoverDependsOnCycle(pre, order, i);
    if i in order {
      var p :| 0 <= p < |order| && order[p] == i;
      assert pre[i] <= Elements(order[..p]) <= Elements(order);
      assert pre[i] - Elements(order) == {};
    } else {
      assert i !in Ready(pre, order);
      var x :| x in pre[i] && x !in Elements(order);
      assert x in pre[i] - Elements(order);
    }
  }

  method CollectLeftover(ghost pre: seq<set<nat>>, remaining: seq<nat>) returns (leftover: seq<nat>)
    requires |remaining| == |pre|
    requires forall i: nat :: i < |pre| ==> (remaining[i] > 0 <==> DependsOnCycle(pre, i))
    ensures IsLeftover(pre, leftover)
  {
    leftover := [];
    for index := 0 to |remaining|
      invariant forall p, q :: 0 <= p < q < |leftover| ==> leftover[p] < leftover[q]
      invariant forall i: nat :: i in leftover <==> i < index && remaining[i] > 0
    {
      if remaining[index] > 0 {
        assert forall p :: 0 <= p < |leftover| ==> leftover[p] in leftover;
        assert forall i: nat :: i in leftover + [index] <==> i in leftover || i == index;
        leftover := leftover + [index];
      }
    }
  }

  method Rearrange(parsed: seq<Schema>, order: seq<nat>) returns (arranged: seq<Schema>)
    requires InRange(order, |parsed|)
    ensures arranged == Arrange(parsed, order)
  {
    arranged := [];
    for p := 0 to |order|
      invariant arranged == Arrange(parsed, order[..p])
    {
      arranged := arranged + [parsed[order[p]]];
      assert order[..p + 1] == order[..p] + [order[p]];
      assert Arrange(parsed, order[..p + 1]) == Arrange(parsed, order[..p]) + [parsed[order[p]]];
    }
    assert order[..|order|] == order;
  }

  /** `arranged` is `parsed` in the least topological order. */
  ghost predicate IsLeastArrangement(parsed: seq<Schema>, order: seq<nat>, arranged: seq<Schema>) {
    && InRange(order, |parsed|) && arranged == Arrange(parsed, order)
    && IsLeastOrder(Prereqs(InfosOf(parsed)), order)
  }

  /** What a cycle leaves behind is never nothing. */
  method ReportCycle(infos: seq<Info>, order: seq<nat>, remaining: seq<nat>) returns (error: OrderError)
    requires NoDuplicates(infos) && RefsAreTopLevel(infos)
    requires order == Greedy(Prereqs(infos), []) && Counts(Prereqs(infos), order, remaining) && |order| != |infos|
    ensures ErrorIsTrue(infos, error) && !Acyclic(Prereqs(infos))
  {
    ghost var pre := Prereqs(infos);
    PrereqsIsGraph(infos);
    GreedyGrounded(pre, []);
    forall i: nat | i < |pre|
      ensures remaining[i] > 0 <==> DependsOnCycle(pre, i)
    {
      RemainingMeansLeft(pre, order, remaining, i);
    }
    var leftover := CollectLeftover(pre, remaining);
    ghost var i := MissingIndex(pre, order);
    LeftoverDependsOnCycle(pre, order, i);
    DependsMeansCycle(pre, i);
    assert i in leftover;
    return CircularReference(leftover);
  }

  method OrderSchemata(parsed: seq<Schema>) returns (r: Result<seq<Schema>, OrderError>)
    ensures r.Ok? <==> Orderable(InfosOf(parsed))
    ensures r.Err? ==> ErrorIsTrue(InfosOf(parsed), r.error)
    ensures r.Ok? ==> exists order :: IsLeastArrangement(parsed, order, r.value)
  {
    var infos := CollectInfos(parsed);
    InfosTopsDefined(parsed);
    var definer, duplicate := BuildDefiner(infos);
    if duplicate.Some? {
      return Err(duplicate.value);
    }
    var pre, dependents, bad := BuildPrerequisites(infos, definer);
    if bad.Some? {
      return Err(bad.value);
    }
    PrereqsIsGraph(infos);
    GreedyIsLeastOrder(pre);
    var order, remaining := SortIndices(pre, dependents);
    if |order| != |parsed| {
      var error := ReportCycle(infos, order, remaining);
      return Err(error);
    }
    assert IsTopological(pre, order);
    var arranged := Rearrange(parsed, order);
    assert IsLeastArrangement(parsed, order, arranged);
    return Ok(arranged);
  }

  /** `names_of` for every schema, by the in-place walk. */
  method CollectInfos(parsed: seq<Schema>) returns (infos: seq<Info>)
    ensures infos == InfosOf(parsed)
  {
    infos := [];
    for i := 0 to |parsed|
      invariant infos == InfosOf(parsed[..i])
    {
      var defines, refs := NameOccurrences.NamesOf(parsed[i]);
      infos := infos + [Info(defines, refs, NameOf(parsed[i]))];
      assert parsed[..i + 1] == parsed[..i] + [parsed[i]];
      assert InfosOf(parsed[..i + 1]) == InfosOf(parsed[..i]) + [InfoOf(parsed[i])];
    }
    assert parsed[..|parsed|] == parsed;
  }

  // ── The order it gives ──────────────────────────────────────────────────

  /** Taking out position `p` of an arrangement. */
  lemma ArrangeSplit<T>(ss: seq<T>, order: seq<nat>, p: nat)
    requires InRange(order, |ss|) && p < |order| && order[p] == |ss| - 1
    requires InRange(order[..p] + order[p + 1..], |ss| - 1)
    ensures multiset(Arrange(ss, order))
      == multiset(Arrange(ss[..|ss| - 1], order[..p] + order[p + 1..])) + multiset{ss[|ss| - 1]}
  {
    var a := Arrange(ss, order);
    var b := Arrange(ss[..|ss| - 1], order[..p] + order[p + 1..]);
    assert b == a[..p] + a[p + 1..];
    assert a == a[..p] + [ss[|ss| - 1]] + a[p + 1..];
  }

  lemma RemoveLargest(order: seq<nat>, n: nat) returns (p: nat)
    requires n > 0 && Distinct(order) && Elements(order) == Indices(n)
    ensures p < |order| && order[p] == n - 1
    ensures var rest := order[..p] + order[p + 1..];
      Distinct(rest) && Elements(rest) == Indices(n - 1) && InRange(rest, n - 1)
  {
    assert n - 1 in Elements(order);
    p :| 0 <= p < |order| && order[p] == n - 1;
    var rest := order[..p] + order[p + 1..];
    forall q | 0 <= q < |rest|
      ensures rest[q] < n - 1
    {
      assert rest[q] == order[if q < p then q else q + 1];
      assert rest[q] in Elements(order);
    }
    forall x: nat | x < n - 1
      ensures x in Elements(rest)
    {
      assert x in Elements(order);
      var q :| 0 <= q < |order| && order[q] == x;
      assert rest[if q < p then q else q - 1] == x;
    }
  }

  /** The result is the input rearranged: nothing lost, repeated or added. */
  lemma {:induction false} ArrangeIsPermutation<T>(ss: seq<T>, order: seq<nat>)
    requires Distinct(order) && Elements(order) == Indices(|ss|) && InRange(order, |ss|)
    ensures multiset(Arrange(ss, order)) == multiset(ss)
    decreases |ss|
  {
    var n := |ss|;
    if n == 0 {
      DistinctSize(order);
      IndicesSize(0);
    } else {
      var p := RemoveLargest(order, n);
      ArrangeSplit(ss, order, p);
      ArrangeIsPermutation(ss[..n - 1], order[..p] + order[p + 1..]);
      assert ss == ss[..n - 1] + [ss[n - 1]];
    }
  }

  /** Prerequisites of the rearranged schemas are the old ones, renumbered. */
  lemma ArrangedPrereqs(infos: seq<Info>, order: seq<nat>)
    requires IsTopological(Prereqs(infos), order) && InRange(order, |infos|)
    ensures IsTopological(Prereqs(Arrange(infos, order)), Identity(|infos|))
  {
    var pre := Prereqs(infos);
    var arranged := Arrange(infos, order);
    var pre', id := Prereqs(arranged), Identity(|infos|);
    forall p | 0 <= p < |id|
      ensures pre'[id[p]] <= Elements(id[..p])
    {
      forall q | q in pre'[p]
        ensures q in Elements(id[..p])
      {
        assert pre'[p] == PrereqsOf(arranged, p) && pre[order[p]] == PrereqsOf(infos, order[p]);
        assert arranged[q] == infos[order[q]] && arranged[p] == infos[order[p]];
        assert order[q] in pre[order[p]];
        assert order[q] in Elements(order[..p]);
        var r :| 0 <= r < p && order[r] == order[q];
        assert id[..p][q] == q;
      }
    }
  }

  lemma ArrangedInfos(ss: seq<Schema>, order: seq<nat>)
    requires InRange(order, |ss|)
    ensures InfosOf(Arrange(ss, order)) == Arrange(InfosOf(ss), order)
  {
  }

  /** An accepted set comes back as a permutation of the input. */
  lemma OrderIsPermutation(parsed: seq<Schema>, order: seq<nat>, arranged: seq<Schema>)
    requires IsLeastArrangement(parsed, order, arranged)
    ensures multiset(arranged) == multiset(parsed)
  {
    TopologicalIsPermutation(Prereqs(InfosOf(parsed)), order);
    ArrangeIsPermutation(parsed, order);
  }

  /** A set whose every schema already comes after its prerequisites. */
  ghost predicate AlreadyOrdered(ss: seq<Schema>) {
    IsTopological(Prereqs(InfosOf(ss)), Identity(|ss|))
  }

  lemma SamePrefix(a: seq<nat>, b: seq<nat>, p: nat)
    requires p <= |a| && p <= |b| && a[..p] == b[..p]
    ensures forall j :: 0 <= j < p ==> a[j] == b[j]
  {
    forall j | 0 <= j < p
      ensures a[j] == b[j]
    {
      assert a[..p][j] == b[..p][j];
    }
  }

  lemma LexAtMostAntisymmetric(a: seq<nat>, b: seq<nat>)
    requires LexAtMost(a, b) && LexAtMost(b, a)
    ensures a == b
  {
    if a != b {
      var p :| 0 <= p < |a| && p < |b| && a[..p] == b[..p] && a[p] < b[p];
      var q :| 0 <= q < |a| && q < |b| && b[..q] == a[..q] && b[q] < a[q];
      SamePrefix(a, b, p);
      SamePrefix(a, b, q);
      assert false;
    }
  }

  /** There is only one least order, so an already ordered input is unchanged. */
  lemma OrderedStaysPut(parsed: seq<Schema>, order: seq<nat>, arranged: seq<Schema>)
    requires IsLeastArrangement(parsed, order, arranged) && AlreadyOrdered(parsed)
    ensures arranged == parsed
  {
    var pre, id := Prereqs(InfosOf(parsed)), Identity(|parsed|);
    PrereqsIsGraph(InfosOf(parsed));
    GreedyKeepsIdentity(pre, 0);
    assert id[..0] == [];
    GreedyIsLeast(pre, [], order);
    LexAtMostAntisymmetric(order, id);
    assert order == id;
  }

  /** Whatever the ordering produced is already ordered: ordering it again
      changes nothing. */
  lemma OrderingIsIdempotent(
      parsed: seq<Schema>, order: seq<nat>, arranged: seq<Schema>, again: seq<nat>, arranged': seq<Schema>)
    requires IsLeastArrangement(parsed, order, arranged) && IsLeastArrangement(arranged, again, arranged')
    ensures AlreadyOrdered(arranged) && arranged' == arranged
  {
    ArrangedInfos(parsed, order);
    ArrangedPrereqs(InfosOf(parsed), order);
    OrderedStaysPut(arranged, again, arranged');
  }
}
