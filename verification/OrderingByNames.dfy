/**
 What ordering a set of schemas means for the names in them: `order_schemata` of
 src/avro/schema_set.rs, told by the occurrences of names and without the walk or
 the sets it collects.
 */
module OrderingByNames {
  import opened Prelude
  import opened TopoOrder
  import opened AvroNames
  import opened SchemaSet
  import Names = NameOccurrences

  /** A record, enum or fixed type somewhere in `s` has this full name. */
  ghost predicate Defines(s: Schema, name: string) {
    exists path :: Names.DefinitionAt(s, path, "", name)
  }

  /** Something in `s` refers to this name, and nothing in `s` defines it. */
  ghost predicate Needs(s: Schema, name: string) {
    (exists path :: Names.ReferenceAt(s, path, "", name)) && !Defines(s, name)
  }

  /** `s` itself is the type of this name. */
  ghost predicate IsCalled(s: Schema, name: string) {
    Names.DefinitionAt(s, [], "", name)
  }

  /** `a` needs a name that `b` defines. */
  ghost predicate NeedsFrom(a: Schema, b: Schema) {
    exists name :: Needs(a, name) && Defines(b, name)
  }

  /** A round of schemas, each needing something from the next. */
  ghost predicate IsRound(parsed: seq<Schema>, round: seq<nat>) {
    && |round| >= 2 && round[0] == round[|round| - 1]
    && (forall k :: 0 <= k < |round| ==> round[k] < |parsed|)
    && (forall k :: 0 <= k < |round| - 1 ==> NeedsFrom(parsed[round[k]], parsed[round[k + 1]]))
  }

  lemma InfoMeans(s: Schema, name: string)
    ensures name in InfoOf(s).defines <==> Defines(s, name)
    ensures name in External(InfoOf(s)) <==> Needs(s, name)
    ensures InfoOf(s).top == Some(name) <==> IsCalled(s, name)
  {
    Names.NamesAreOccurrences(s, None, name);
    assert Names.Text(None) == "";
    Names.NameIsTopDefinition(s, name);
  }

  lemma PrerequisitesMean(parsed: seq<Schema>, i: nat, j: nat)
    requires i < |parsed|
    ensures j in Prereqs(InfosOf(parsed))[i] <==> j < |parsed| && NeedsFrom(parsed[i], parsed[j])
  {
    var infos := InfosOf(parsed);
    if j in Prereqs(infos)[i] {
      var name :| name in infos[j].defines * External(infos[i]);
      InfoMeans(parsed[i], name);
      InfoMeans(parsed[j], name);
    }
    if j < |parsed| && NeedsFrom(parsed[i], parsed[j]) {
      var name :| Needs(parsed[i], name) && Defines(parsed[j], name);
      InfoMeans(parsed[i], name);
      InfoMeans(parsed[j], name);
      assert name in infos[j].defines * External(infos[i]);
    }
  }

  /** No name is defined by two schemas of the set. */
  ghost predicate NamesAreUnique(parsed: seq<Schema>) {
    forall i, j, name :: 0 <= i < j < |parsed| && Defines(parsed[i], name) ==> !Defines(parsed[j], name)
  }

  /** Whatever a schema needs is the name of a schema of the set. */
  ghost predicate NeedsAreMet(parsed: seq<Schema>) {
    forall i, name :: 0 <= i < |parsed| && Needs(parsed[i], name) ==>
      exists j :: 0 <= j < |parsed| && IsCalled(parsed[j], name)
  }

  lemma UniqueMeans(parsed: seq<Schema>)
    ensures NoDuplicates(InfosOf(parsed)) <==> NamesAreUnique(parsed)
  {
    var infos := InfosOf(parsed);
    if NamesAreUnique(parsed) {
      forall i, j | 0 <= i < j < |infos|
        ensures infos[i].defines !! infos[j].defines
      {
        forall name | name in infos[i].defines
          ensures name !in infos[j].defines
        {
          InfoMeans(parsed[i], name);
          InfoMeans(parsed[j], name);
        }
      }
    }
    if NoDuplicates(infos) {
      forall i, j, name | 0 <= i < j < |parsed| && Defines(parsed[i], name)
        ensures !Defines(parsed[j], name)
      {
        InfoMeans(parsed[i], name);
        InfoMeans(parsed[j], name);
        assert infos[i].defines !! infos[j].defines;
      }
    }
  }

  lemma AtTopMeans(parsed: seq<Schema>, name: string)
    ensures DefinedAtTop(InfosOf(parsed), name) <==> exists j :: 0 <= j < |parsed| && IsCalled(parsed[j], name)
  {
    if DefinedAtTop(InfosOf(parsed), name) {
      var j :| 0 <= j < |parsed| && InfosOf(parsed)[j].top == Some(name);
      InfoMeans(parsed[j], name);
    }
    if j :| 0 <= j < |parsed| && IsCalled(parsed[j], name) {
      InfoMeans(parsed[j], name);
      assert InfosOf(parsed)[j].top == Some(name);
    }
  }

  lemma MetMeans(parsed: seq<Schema>)
    ensures RefsAreTopLevel(InfosOf(parsed)) <==> NeedsAreMet(parsed)
  {
    var infos := InfosOf(parsed);
    forall i, name | 0 <= i < |parsed|
      ensures name in External(infos[i]) <==> Needs(parsed[i], name)
    {
      InfoMeans(parsed[i], name);
    }
    forall name
      ensures DefinedAtTop(infos, name) <==> exists j :: 0 <= j < |parsed| && IsCalled(parsed[j], name)
    {
      AtTopMeans(parsed, name);
    }
    if RefsAreTopLevel(infos) {
      forall i, name | 0 <= i < |parsed| && Needs(parsed[i], name)
        ensures exists j :: 0 <= j < |parsed| && IsCalled(parsed[j], name)
      {
        assert DefinedAtTop(infos, name);
      }
    }
  }

  lemma RoundMeans(parsed: seq<Schema>, round: seq<nat>)
    ensures IsRound(parsed, round) <==>
      IsPath(Prereqs(InfosOf(parsed)), round) && |round| >= 2 && round[0] == round[|round| - 1]
  {
    forall k | 0 <= k < |round| - 1 && round[k] < |parsed|
      ensures round[k + 1] in Prereqs(InfosOf(parsed))[round[k]] <==>
        round[k + 1] < |parsed| && NeedsFrom(parsed[round[k]], parsed[round[k + 1]])
    {
      PrerequisitesMean(parsed, round[k], round[k + 1]);
    }
  }

  lemma AcyclicMeans(parsed: seq<Schema>)
    ensures Acyclic(Prereqs(InfosOf(parsed))) <==> forall round :: !IsRound(parsed, round)
  {
    var pre := Prereqs(InfosOf(parsed));
    if Acyclic(pre) {
      forall round
        ensures !IsRound(parsed, round)
      {
        RoundMeans(parsed, round);
        assert |round| >= 2 && round[0] < |pre| ==> !OnCycle(pre, round[0]);
      }
    } else {
      var c: nat :| c < |pre| && OnCycle(pre, c);
      var round :| IsPath(pre, round) && |round| >= 2 && round[0] == c && round[|round| - 1] == c;
      RoundMeans(parsed, round);
    }
  }

  /** What is accepted: no name has two schemas that define it, every name that a
      schema needs is what some schema of the set is called, and there is no round
      of schemas each needing the next. */
  lemma OrderableMeans(parsed: seq<Schema>)
    ensures Orderable(InfosOf(parsed)) <==>
      NamesAreUnique(parsed) && NeedsAreMet(parsed) && forall round :: !IsRound(parsed, round)
  {
    UniqueMeans(parsed);
    MetMeans(parsed);
    AcyclicMeans(parsed);
  }

  lemma NeededIsEarlier(parsed: seq<Schema>, order: seq<nat>, arranged: seq<Schema>, p: nat, name: string)
    requires Orderable(InfosOf(parsed)) && IsLeastArrangement(parsed, order, arranged)
    requires p < |arranged| && Needs(arranged[p], name)
    ensures exists q :: 0 <= q < p && IsCalled(arranged[q], name)
  {
    var infos := InfosOf(parsed);
    InfoMeans(parsed[order[p]], name);
    AtTopMeans(parsed, name);
    assert DefinedAtTop(infos, name);
    var j :| 0 <= j < |parsed| && IsCalled(parsed[j], name);
    assert Defines(parsed[j], name);
    assert NeedsFrom(parsed[order[p]], parsed[j]);
    PrerequisitesMean(parsed, order[p], j);
    assert j in Elements(order[..p]);
    var q :| 0 <= q < p && order[..p][q] == j;
    assert arranged[q] == parsed[j];
  }

  /** What the order is for: whatever a schema needs is what one before it is
      called. */
  lemma DefinitionsPrecede(parsed: seq<Schema>, order: seq<nat>, arranged: seq<Schema>)
    requires Orderable(InfosOf(parsed)) && IsLeastArrangement(parsed, order, arranged)
    ensures forall p, name :: 0 <= p < |arranged| && Needs(arranged[p], name) ==>
      exists q :: 0 <= q < p && IsCalled(arranged[q], name)
  {
    forall p, name | 0 <= p < |arranged| && Needs(arranged[p], name)
      ensures exists q :: 0 <= q < p && IsCalled(arranged[q], name)
    {
      NeededIsEarlier(parsed, order, arranged, p, name);
    }
  }

  /** What an error says of the schemas. */
  lemma ErrorMeans(parsed: seq<Schema>, error: OrderError)
    requires ErrorIsTrue(InfosOf(parsed), error)
    ensures match error
      case DuplicateDefinition(name) =>
        exists i, j :: 0 <= i < j < |parsed| && Defines(parsed[i], name) && Defines(parsed[j], name)
      case MissingDefinition(name, user) =>
        user < |parsed| && Needs(parsed[user], name) && forall j :: 0 <= j < |parsed| ==> !Defines(parsed[j], name)
      case NestedDefinition(name, user) =>
        && user < |parsed| && Needs(parsed[user], name)
        && (exists j :: 0 <= j < |parsed| && Defines(parsed[j], name))
        && forall j :: 0 <= j < |parsed| ==> !IsCalled(parsed[j], name)
      case CircularReference(_) => exists round :: IsRound(parsed, round)
  {
    match error
    case DuplicateDefinition(name) => DuplicateMeans(parsed, name);
    case MissingDefinition(name, user) => BadReferenceMeans(parsed, error);
    case NestedDefinition(name, user) => BadReferenceMeans(parsed, error);
    case CircularReference(leftover) => CircularMeans(parsed, leftover);
  }

  lemma DuplicateMeans(parsed: seq<Schema>, name: string)
    requires DefinedTwice(InfosOf(parsed), name)
    ensures exists i, j :: 0 <= i < j < |parsed| && Defines(parsed[i], name) && Defines(parsed[j], name)
  {
    var infos := InfosOf(parsed);
    var i, j :| 0 <= i < j < |infos| && name in infos[i].defines && name in infos[j].defines;
    InfoMeans(parsed[i], name);
    InfoMeans(parsed[j], name);
  }

  lemma BadReferenceMeans(parsed: seq<Schema>, error: OrderError)
    requires ErrorIsBadReference(InfosOf(parsed), error)
    ensures error.user < |parsed| && Needs(parsed[error.user], error.name)
    ensures forall j :: 0 <= j < |parsed| ==> !IsCalled(parsed[j], error.name)
    ensures error.MissingDefinition? <==> forall j :: 0 <= j < |parsed| ==> !Defines(parsed[j], error.name)
  {
    InfoMeans(parsed[error.user], error.name);
    AtTopMeans(parsed, error.name);
    forall j | 0 <= j < |parsed|
      ensures error.name in InfosOf(parsed)[j].defines <==> Defines(parsed[j], error.name)
    {
      InfoMeans(parsed[j], error.name);
    }
  }

  lemma CircularMeans(parsed: seq<Schema>, leftover: seq<nat>)
    requires IsLeftover(Prereqs(InfosOf(parsed)), leftover) && leftover != []
    ensures exists round :: IsRound(parsed, round)
  {
    assert leftover[0] in leftover;
    DependsMeansCycle(Prereqs(InfosOf(parsed)), leftover[0]);
    AcyclicMeans(parsed);
  }
}
