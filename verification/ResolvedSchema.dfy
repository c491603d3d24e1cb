/** A parsed schema together with the schemas it needs: `from_parsed` of
    src/avro/schema_set.rs. */
module ResolvedSchema {
  import opened Prelude
  import opened TopoOrder
  import opened AvroNames
  import NameOccurrences
  import opened SchemaSet
  import opened NameTable

  const MAX_REFERENCES := 256

  /** `schemata` is empty when the root stands by itself. */
  datatype Resolved = Resolved(root: Schema, schemata: seq<Schema>)

  datatype BuildError = TooManyReferences | DanglingReference(name: string) | NotOrderable(error: OrderError)

  /** `codec_schemata`: the name table handed to the codec is never empty. */
  function CodecSchemata(r: Resolved): (table: seq<Schema>)
    ensures table != []
  {
    if r.schemata == [] then [r.root] else r.schemata
  }

  /** The dependencies other than the root, each once, first come first. */
  function Kept(root: Schema, deps: seq<Schema>): seq<Schema> {
    if deps == [] then []
    else
      var front, dep := Kept(root, deps[..|deps| - 1]), deps[|deps| - 1];
      if dep == root || dep in front then front else front + [dep]
  }

  /** Of two kept schemas the earlier one occurs before any occurrence of the
      later one. */
  ghost predicate InFirstOrder(kept: seq<Schema>, deps: seq<Schema>) {
    forall a, b :: 0 <= a < b < |kept| ==> FirstOccursBefore(deps, kept[a], kept[b])
  }

  ghost predicate FirstOccursBefore(deps: seq<Schema>, x: Schema, y: Schema) {
    exists i :: 0 <= i < |deps| && deps[i] == x && y !in deps[..i]
  }

  lemma OccursBefore(deps: seq<Schema>, i: nat, x: Schema)
    requires i < |deps| && x in deps[..i] && deps[i] !in deps[..i]
    ensures FirstOccursBefore(deps, x, deps[i])
  {
    var j :| 0 <= j < i && deps[..i][j] == x;
    assert deps[j] == x && deps[..j] == deps[..i][..j];
  }

  lemma FirstOrderGrows(kept: seq<Schema>, deps: seq<Schema>, i: nat)
    requires i < |deps| && InFirstOrder(kept, deps) && forall s :: s in kept ==> s in deps[..i]
    requires deps[i] !in deps[..i]
    ensures InFirstOrder(kept + [deps[i]], deps)
  {
    forall a | 0 <= a < |kept|
      ensures FirstOccursBefore(deps, kept[a], deps[i])
    {
      OccursBefore(deps, i, kept[a]);
    }
  }

  lemma KeptGrows(root: Schema, deps: seq<Schema>, i: nat, kept: seq<Schema>)
    requires i < |deps| && kept == Kept(root, deps[..i]) && Distinct(kept)
    requires forall s :: s in kept <==> s in deps[..i] && s != root
    ensures var kept' := if deps[i] != root && deps[i] !in kept then kept + [deps[i]] else kept;
      && kept' == Kept(root, deps[..i + 1]) && Distinct(kept')
      && forall s :: s in kept' <==> s in deps[..i + 1] && s != root
  {
    assert deps[..i + 1][..i] == deps[..i] && deps[..i + 1] == deps[..i] + [deps[i]];
  }

  /** What the loop knows after `i` dependencies. */
  ghost predicate Dropping(root: Schema, deps: seq<Schema>, i: nat, kept: seq<Schema>) {
    && i <= |deps| && kept == Kept(root, deps[..i]) && Distinct(kept)
    && (forall s :: s in kept <==> s in deps[..i] && s != root)
    && InFirstOrder(kept, deps)
  }

  lemma DropStep(root: Schema, deps: seq<Schema>, i: nat, kept: seq<Schema>)
    requires i < |deps| && Dropping(root, deps, i, kept)
    ensures Dropping(root, deps, i + 1, if deps[i] != root && deps[i] !in kept then kept + [deps[i]] else kept)
  {
    KeptGrows(root, deps, i, kept);
    if deps[i] != root && deps[i] !in kept {
      FirstOrderGrows(kept, deps, i);
    }
  }

  method DropRepeats(root: Schema, deps: seq<Schema>) returns (kept: seq<Schema>)
    ensures kept == Kept(root, deps) && Distinct(kept)
    ensures forall s :: s in kept <==> s in deps && s != root
    ensures InFirstOrder(kept, deps)
  {
    kept := [];
    for i := 0 to |deps|
      invariant Dropping(root, deps, i, kept)
    {
      DropStep(root, deps, i, kept);
      if deps[i] != root && deps[i] !in kept {
        kept := kept + [deps[i]];
      }
    }
    assert deps[..|deps|] == deps;
  }

  lemma {:induction false} SameElements<T>(a: seq<T>, b: seq<T>)
    requires multiset(a) == multiset(b)
    ensures |a| == |b| && forall x :: x in a <==> x in b
  {
    assert |multiset(a)| == |multiset(b)|;
    forall x
      ensures x in a <==> x in b
    {
      assert x in multiset(a) <==> x in a;
      assert x in multiset(b) <==> x in b;
    }
  }

  /** The whole set the root is ordered with. */
  ghost predicate IsSetWithRoot(root: Schema, deps: seq<Schema>, ss: seq<Schema>) {
    Distinct(ss) && forall s :: s in ss <==> s in deps || s == root
  }

  /** The root stands alone without dangling references, or orders with the rest. */
  ghost predicate Buildable(root: Schema, kept: seq<Schema>) {
    if kept == [] then External(InfoOf(root)) == {} else Orderable(InfosOf(kept + [root]))
  }

  method FromParsed(root: Schema, deps: seq<Schema>) returns (r: Result<Resolved, BuildError>)
    ensures |deps| > MAX_REFERENCES <==> r == Err(TooManyReferences)
    ensures r.Ok? ==> r.value.root == root && IsSetWithRoot(root, deps, CodecSchemata(r.value))
    ensures r.Ok? ==> NoDuplicates(InfosOf(CodecSchemata(r.value))) && AlreadyOrdered(CodecSchemata(r.value))
    ensures r.Ok? && (forall s :: s in deps || s == root ==> SelfOrdered(s)) ==>
      ResolveList(CodecSchemata(r.value), {}).Some?
    ensures |deps| <= MAX_REFERENCES ==> (r.Ok? <==> Buildable(root, Kept(root, deps)))
    ensures r.Ok? ==>
      if Kept(root, deps) == [] then r.value.schemata == []
      else exists order :: IsLeastArrangement(Kept(root, deps) + [root], order, r.value.schemata)
    ensures r.Err? && r.error.DanglingReference? ==> r.error.name in External(InfoOf(root))
    ensures r.Err? && r.error.NotOrderable? ==> ErrorIsTrue(InfosOf(Kept(root, deps) + [root]), r.error.error)
  {
    if |deps| > MAX_REFERENCES {
      return Err(TooManyReferences);
    }
    var kept := DropRepeats(root, deps);
    if kept == [] {
      r := RootAlone(root);
      assert forall s :: s in deps && s != root ==> s in kept;
      return;
    }
    r := OrderWithRoot(root, kept);
  }

  /** The kept dependencies and the root, ordered together. */
  method OrderWithRoot(root: Schema, kept: seq<Schema>) returns (r: Result<Resolved, BuildError>)
    requires Distinct(kept) && root !in kept && kept != []
    ensures r.Ok? <==> Orderable(InfosOf(kept + [root]))
    ensures r.Ok? ==> r.value.root == root && IsUsable(kept + [root], r.value.schemata)
    ensures r.Ok? ==> exists order :: IsLeastArrangement(kept + [root], order, r.value.schemata)
    ensures r.Err? ==> r.error.NotOrderable? && ErrorIsTrue(InfosOf(kept + [root]), r.error.error)
  {
    var all := kept + [root];
    assert Distinct(all);
    var ordered := OrderSchemata(all);
    if ordered.Err? {
      return Err(NotOrderable(ordered.error));
    }
    ghost var order :| IsLeastArrangement(all, order, ordered.value);
    UsableAfterOrdering(all, order, ordered.value);
    OrderIsPermutation(all, order, ordered.value);
    SameElements(ordered.value, all);
    r := Ok(Resolved(root, ordered.value));
  }

  /** `ss` holds the schemas of `all`, each once, ordered, and is readable if each
      of them alone is. */
  ghost predicate IsUsable(all: seq<Schema>, ss: seq<Schema>) {
    && ss != [] && Distinct(ss) && (forall s :: s in ss <==> s in all)
    && NoDuplicates(InfosOf(ss)) && AlreadyOrdered(ss)
    && ((forall s :: s in all ==> SelfOrdered(s)) ==> ResolveList(ss, {}).Some?)
  }

  lemma UsableAfterOrdering(all: seq<Schema>, order: seq<nat>, arranged: seq<Schema>)
    requires Distinct(all) && Orderable(InfosOf(all)) && IsLeastArrangement(all, order, arranged)
    ensures Distinct(arranged) && NoDuplicates(InfosOf(arranged)) && AlreadyOrdered(arranged)
    ensures (forall s :: s in all ==> SelfOrdered(s)) ==> ResolveList(arranged, {}).Some?
  {
    ArrangedInfos(all, order);
    ArrangedPrereqs(InfosOf(all), order);
    forall p, q | 0 <= p < q < |arranged|
      ensures arranged[p] != arranged[q]
      ensures InfosOf(arranged)[p].defines !! InfosOf(arranged)[q].defines
    {
      assert order[p] != order[q];
      assert InfosOf(all)[order[p]].defines !! InfosOf(all)[order[q]].defines;
    }
    if forall s :: s in all ==> SelfOrdered(s) {
      OrderIsAccepted(all, order, arranged);
    }
  }

  /** A root without dependencies must not reference anything it lacks. */
  method RootAlone(root: Schema) returns (r: Result<Resolved, BuildError>)
    ensures r.Ok? <==> External(InfoOf(root)) == {}
    ensures r.Ok? ==> r.value == Resolved(root, [])
    ensures r.Ok? ==> NoDuplicates(InfosOf([root])) && AlreadyOrdered([root])
    ensures r.Ok? && SelfOrdered(root) ==> ResolveList([root], {}).Some?
    ensures r.Err? ==> r.error.DanglingReference? && r.error.name in External(InfoOf(root))
  {
    var defines, refs := NameOccurrences.NamesOf(root);
    var missing := refs - defines;
    if missing != {} {
      var name :| name in missing;
      return Err(DanglingReference(name));
    }
    AloneIsReadable(root);
    r := Ok(Resolved(root, []));
  }

  lemma AloneIsReadable(root: Schema)
    requires External(InfoOf(root)) == {}
    ensures AlreadyOrdered([root])
    ensures SelfOrdered(root) ==> ResolveList([root], {}).Some?
  {
    var pre := Prereqs(InfosOf([root]));
    assert pre[0] == {};
    assert [root][..0] == [];
    if SelfOrdered(root) {
      ResolveListExact([root]);
    }
  }
}
