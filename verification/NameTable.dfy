/**
 The codec's one-pass name table, which the ordering of src/avro/schema_set.rs
 is there to satisfy: a definition enters the table, a second definition of a
 name or a reference to a name not yet there is an error.
 */
module NameTable {
  import opened Prelude
  import opened TopoOrder
  import opened AvroNames
  import opened SchemaSet

  function Resolve(es: seq<Event>, table: set<string>): Option<set<string>> {
    if es == [] then Some(table)
    else match es[0]
      case Defines(n) => if n in table then None else Resolve(es[1..], table + {n})
      case Uses(n) => if n in table then Resolve(es[1..], table) else None
  }

  /** Resolve schema after schema with one growing table. */
  function ResolveList(ss: seq<Schema>, table: set<string>): Option<set<string>> {
    if ss == [] then Some(table)
    else match Resolve(Events(ss[0]), table)
      case None => None
      case Some(t) => ResolveList(ss[1..], t)
  }

  // ── One schema ──────────────────────────────────────────────────────────

  /** No name is defined twice. */
  ghost predicate DefinesOnce(es: seq<Event>) {
    forall i, j :: 0 <= i < j < |es| && es[i].Defines? && es[j].Defines? ==> es[i].fullname != es[j].fullname
  }

  ghost predicate DefinedBefore(es: seq<Event>, j: nat, n: string)
    requires j <= |es|
  {
    exists i :: 0 <= i < j && es[i] == Defines(n)
  }

  /** Every use is of a name already in the table, or defined earlier. */
  ghost predicate UsesKnown(es: seq<Event>, table: set<string>) {
    forall j :: 0 <= j < |es| && es[j].Uses? ==> es[j].fullname in table || DefinedBefore(es, j, es[j].fullname)
  }

  /** On its own the schema defines nothing twice and puts each of its
      definitions before its own uses of it. */
  ghost predicate SelfOrdered(s: Schema) {
    DefinesOnce(Events(s)) && UsesKnown(Events(s), External(InfoOf(s)))
  }

  lemma TailFacts(es: seq<Event>)
    requires es != []
    ensures es[0].Defines? ==> Defined(es) == {es[0].fullname} + Defined(es[1..])
    ensures es[0].Uses? ==> Defined(es) == Defined(es[1..])
    ensures DefinesOnce(es) <==>
      DefinesOnce(es[1..]) && (es[0].Defines? ==> es[0].fullname !in Defined(es[1..]))
  {
    assert es == [es[0]] + es[1..];
    ConcatNames([es[0]], es[1..]);
    var rest := es[1..];
    if DefinesOnce(es) {
      assert forall j :: 0 <= j < |rest| ==> rest[j] == es[j + 1];
    } else {
      var i, j :| 0 <= i < j < |es| && es[i].Defines? && es[j].Defines? && es[i].fullname == es[j].fullname;
      assert es[j] == rest[j - 1];
      assert es[j] in rest;
      assert i > 0 ==> es[i] == rest[i - 1];
    }
  }

  lemma TailUses(es: seq<Event>, table: set<string>)
    requires es != []
    ensures UsesKnown(es, table) <==>
      && (es[0].Uses? ==> es[0].fullname in table)
      && UsesKnown(es[1..], if es[0].Defines? then table + {es[0].fullname} else table)
  {
    var rest := es[1..];
    var table' := if es[0].Defines? then table + {es[0].fullname} else table;
    forall j | 0 <= j < |rest| && rest[j].Uses?
      ensures (rest[j].fullname in table' || DefinedBefore(rest, j, rest[j].fullname))
         <==> (rest[j].fullname in table || DefinedBefore(es, j + 1, rest[j].fullname))
    {
      var n := rest[j].fullname;
      if i :| 0 <= i < j && rest[i] == Defines(n) {
        assert es[i + 1] == Defines(n);
      }
      if i :| 0 <= i < j + 1 && es[i] == Defines(n) {
        assert i > 0 ==> rest[i - 1] == Defines(n);
      }
    }
    assert forall j :: 0 < j < |es| ==> es[j] == rest[j - 1];
  }

  /** Exactly when one schema passes, and what it adds. */
  lemma {:induction false} ResolveExact(es: seq<Event>, table: set<string>)
    ensures Resolve(es, table).Some? <==> DefinesOnce(es) && Defined(es) !! table && UsesKnown(es, table)
    ensures Resolve(es, table).Some? ==> Resolve(es, table).value == table + Defined(es)
    decreases |es|
  {
    if es != [] {
      TailFacts(es);
      TailUses(es, table);
      if es[0].Defines? {
        ResolveExact(es[1..], table + {es[0].fullname});
      } else {
        ResolveExact(es[1..], table);
      }
    }
  }

  /** A larger table serves as well for the uses. */
  lemma UsesKnownSplit(s: Schema, table: set<string>)
    requires SelfOrdered(s) && Defined(Events(s)) !! table
    ensures UsesKnown(Events(s), table) <==> External(InfoOf(s)) <= table
  {
    var es := Events(s);
    if UsesKnown(es, table) {
      forall n | n in External(InfoOf(s))
        ensures n in table
      {
        assert Uses(n) in es;
        var j :| 0 <= j < |es| && es[j] == Uses(n);
        assert DefinedBefore(es, j, n) ==> n in Defined(es);
      }
    }
  }

  lemma ResolvedIsSelfOrdered(s: Schema, table: set<string>)
    requires Resolve(Events(s), table).Some?
    ensures SelfOrdered(s) && External(InfoOf(s)) <= table && Defined(Events(s)) !! table
  {
    var es := Events(s);
    ResolveExact(es, table);
    forall j | 0 <= j < |es| && es[j].Uses?
      ensures es[j].fullname in External(InfoOf(s)) || DefinedBefore(es, j, es[j].fullname)
    {
      assert es[j] in es;
    }
    UsesKnownSplit(s, table);
  }

  // ── A list of schemas ───────────────────────────────────────────────────

  /** The names the schemas of a list define. */
  ghost function AllDefined(ss: seq<Schema>): set<string> {
    if ss == [] then {} else AllDefined(ss[..|ss| - 1]) + Defined(Events(ss[|ss| - 1]))
  }

  /** The list can be read front to back. */
  ghost predicate Readable(ss: seq<Schema>) {
    forall i :: 0 <= i < |ss| ==>
      && SelfOrdered(ss[i])
      && Defined(Events(ss[i])) !! AllDefined(ss[..i])
      && External(InfoOf(ss[i])) <= AllDefined(ss[..i])
  }

  lemma {:induction false} ResolveAppend(ss: seq<Schema>, s: Schema, table: set<string>)
    ensures ResolveList(ss + [s], table) ==
      match ResolveList(ss, table) case None => None case Some(t) => Resolve(Events(s), t)
  {
    if ss == [] {
      assert ss + [s] == [s];
      assert [s][1..] == [];
    } else {
      assert (ss + [s])[0] == ss[0] && (ss + [s])[1..] == ss[1..] + [s];
      if Resolve(Events(ss[0]), table).Some? {
        ResolveAppend(ss[1..], s, Resolve(Events(ss[0]), table).value);
      }
    }
  }

  /** The one-pass table accepts a list exactly when it is readable. */
  lemma {:induction false} ResolveListExact(ss: seq<Schema>)
    ensures ResolveList(ss, {}).Some? <==> Readable(ss)
    ensures ResolveList(ss, {}).Some? ==> ResolveList(ss, {}).value == AllDefined(ss)
    decreases |ss|
  {
    if ss != [] {
      var front, s := ss[..|ss| - 1], ss[|ss| - 1];
      assert ss == front + [s];
      ResolveListExact(front);
      ResolveAppend(front, s, {});
      ReadablePrefix(ss);
      if Readable(front) {
        ResolveExact(Events(s), AllDefined(front));
        if Resolve(Events(s), AllDefined(front)).Some? {
          ResolvedIsSelfOrdered(s, AllDefined(front));
        } else if SelfOrdered(s) && Defined(Events(s)) !! AllDefined(front) {
          UsesKnownSplit(s, AllDefined(front));
        }
      }
    }
  }

  lemma ReadablePrefix(ss: seq<Schema>)
    requires ss != []
    ensures var front, s := ss[..|ss| - 1], ss[|ss| - 1];
      Readable(ss) <==>
        (Readable(front) && SelfOrdered(s)
         && Defined(Events(s)) !! AllDefined(front) && External(InfoOf(s)) <= AllDefined(front))
  {
    var front := ss[..|ss| - 1];
    assert forall i :: 0 <= i < |front| ==> front[i] == ss[i] && front[..i] == ss[..i];
  }

  lemma {:induction false} AllDefinedMember(ss: seq<Schema>, name: string)
    ensures name in AllDefined(ss) <==> exists j :: 0 <= j < |ss| && name in Defined(Events(ss[j]))
  {
    if ss != [] {
      var front := ss[..|ss| - 1];
      AllDefinedMember(front, name);
      assert forall j :: 0 <= j < |front| ==> front[j] == ss[j];
      if name in AllDefined(front) {
        var j :| 0 <= j < |front| && name in Defined(Events(front[j]));
        assert name in Defined(Events(ss[j]));
      }
    }
  }

  // ── Ordering serves the table ───────────────────────────────────────────

  /** The produced order is accepted by the codec's table, provided each schema
      on its own would be. */
  lemma OrderIsAccepted(parsed: seq<Schema>, order: seq<nat>, arranged: seq<Schema>)
    requires Orderable(InfosOf(parsed)) && IsLeastArrangement(parsed, order, arranged)
    requires forall i :: 0 <= i < |parsed| ==> SelfOrdered(parsed[i])
    ensures ResolveList(arranged, {}) == Some(AllDefined(arranged))
  {
    forall k | 0 <= k < |arranged|
      ensures SelfOrdered(arranged[k])
      ensures Defined(Events(arranged[k])) !! AllDefined(arranged[..k])
      ensures External(InfoOf(arranged[k])) <= AllDefined(arranged[..k])
    {
      FrontDisjoint(parsed, order, arranged, k);
      FrontCovers(parsed, order, arranged, k);
    }
    ResolveListExact(arranged);
  }

  lemma FrontDisjoint(parsed: seq<Schema>, order: seq<nat>, arranged: seq<Schema>, k: nat)
    requires NoDuplicates(InfosOf(parsed)) && IsLeastArrangement(parsed, order, arranged) && k < |arranged|
    ensures Defined(Events(arranged[k])) !! AllDefined(arranged[..k])
  {
    forall name | name in AllDefined(arranged[..k])
      ensures name !in Defined(Events(arranged[k]))
    {
      AllDefinedMember(arranged[..k], name);
      var j :| 0 <= j < k && name in Defined(Events(arranged[..k][j]));
      var infos := InfosOf(parsed);
      assert name in infos[order[j]].defines;
      assert order[j] != order[k];
      assert infos[order[j]].defines !! infos[order[k]].defines;
    }
  }

  lemma FrontCovers(parsed: seq<Schema>, order: seq<nat>, arranged: seq<Schema>, k: nat)
    requires RefsAreTopLevel(InfosOf(parsed)) && IsLeastArrangement(parsed, order, arranged) && k < |arranged|
    ensures External(InfoOf(arranged[k])) <= AllDefined(arranged[..k])
  {
    var infos := InfosOf(parsed);
    InfosTopsDefined(parsed);
    forall name | name in External(InfoOf(arranged[k]))
      ensures name in AllDefined(arranged[..k])
    {
      assert name in External(infos[order[k]]);
      assert DefinedAtTop(infos, name);
      var j :| 0 <= j < |infos| && infos[j].top == Some(name);
      assert name in infos[j].defines * External(infos[order[k]]);
      assert j in PrereqsOf(infos, order[k]);
      assert j in Elements(order[..k]);
      var p :| 0 <= p < k && order[p] == j;
      assert arranged[..k][p] == parsed[j];
      AllDefinedMember(arranged[..k], name);
    }
  }

  /** Conversely a list the table accepts is duplicate-free and already ordered,
      so ordering leaves it alone: nothing readable is ever reshuffled. */
  lemma AcceptedIsOrdered(ss: seq<Schema>)
    requires ResolveList(ss, {}).Some?
    ensures NoDuplicates(InfosOf(ss)) && AlreadyOrdered(ss)
  {
    ResolveListExact(ss);
    var infos := InfosOf(ss);
    forall i, j | 0 <= i < j < |ss|
      ensures infos[i].defines !! infos[j].defines
    {
      forall name | name in infos[i].defines
        ensures name !in infos[j].defines
      {
        assert name in Defined(Events(ss[..j][i]));
        AllDefinedMember(ss[..j], name);
      }
    }
    var pre, id := Prereqs(infos), Identity(|ss|);
    forall p | 0 <= p < |id|
      ensures pre[id[p]] <= Elements(id[..p])
    {
      forall q | q in PrereqsOf(infos, p)
        ensures q in Elements(id[..p])
      {
        var name :| name in infos[q].defines * External(infos[p]);
        AllDefinedMember(ss[..p], name);
        var r :| 0 <= r < p && name in Defined(Events(ss[..p][r]));
        assert name in infos[r].defines;
        assert q == r;
        assert id[..p][q] == q;
      }
    }
  }

  /** A readable list is refused only for a reference to a nested definition. */
  lemma ReadableIsOrderable(ss: seq<Schema>)
    requires ResolveList(ss, {}).Some? && RefsAreTopLevel(InfosOf(ss))
    ensures Orderable(InfosOf(ss))
  {
    AcceptedIsOrdered(ss);
    var pre := Prereqs(InfosOf(ss));
    PrereqsIsGraph(InfosOf(ss));
    CompleteIsNotReady(pre, Identity(|ss|));
    CompleteIffAcyclic(pre, Identity(|ss|));
  }
}
