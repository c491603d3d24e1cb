/**
 Where a schema defines and references names, without a walk: an occurrence is a
 path of steps into the schema, and its name is completed by the namespace of the
 nearest enclosing record that has one. `names_of` of src/avro/schema_set.rs
 finds exactly the full names of these occurrences.
 */
module NameOccurrences {
  import opened Prelude
  import opened AvroNames

  // ── Occurrences ─────────────────────────────────────────────────────────

  /** From a schema to one of its parts. */
  datatype Step = Items | Types | Variant(i: nat) | FieldAt(i: nat)

  function Part(s: Schema, step: Step): (part: Option<Schema>)
    ensures part.Some? ==> part.value < s
  {
    match s
    case Array(items) => if step.Items? then Some(items) else None
    case Map(types) => if step.Types? then Some(types) else None
    case Union(variants) => if step.Variant? && step.i < |variants| then Some(variants[step.i]) else None
    case Record(_, fields) => if step.FieldAt? && step.i < |fields| then Some(fields[step.i].schema) else None
    case _ => None
  }

  function At(s: Schema, path: seq<Step>): Option<Schema>
    decreases |path|
  {
    if path == [] then Some(s)
    else
      match Part(s, path[0])
      case None => None
      case Some(part) => At(part, path[1..])
  }

  /** The namespace of the nearest record around the end of `path` that has one
      of its own; outside of all of them it is `outer`. None at all is "". */
  function NamespaceAt(s: Schema, path: seq<Step>, outer: string): string
    decreases |path|
  {
    if path == [] then outer
    else
      var up := path[..|path| - 1];
      var parent := At(s, up);
      if parent.Some? && parent.value.Record? && parent.value.name.namespace.Some? then
        parent.value.name.namespace.value
      else NamespaceAt(s, up, outer)
  }

  /** A dotted name is complete; another one follows its own namespace, or lacking
      that the given one. */
  function CompleteName(n: Name, namespace: string): string {
    var space := if n.namespace.Some? then n.namespace.value else namespace;
    if '.' in n.name || space == "" then n.name else space + "." + n.name
  }

  predicate IsNamed(s: Schema) {
    s.Record? || s.Enum? || s.Fixed?
  }

  ghost predicate DefinitionAt(s: Schema, path: seq<Step>, outer: string, fullname: string) {
    var part := At(s, path);
    && part.Some? && IsNamed(part.value)
    && CompleteName(part.value.name, NamespaceAt(s, path, outer)) == fullname
  }

  ghost predicate ReferenceAt(s: Schema, path: seq<Step>, outer: string, fullname: string) {
    var part := At(s, path);
    && part.Some? && part.value.Ref?
    && CompleteName(part.value.name, NamespaceAt(s, path, outer)) == fullname
  }

  ghost predicate OccursAt(s: Schema, path: seq<Step>, outer: string, e: Event) {
    match e
    case Defines(fullname) => DefinitionAt(s, path, outer, fullname)
    case Uses(fullname) => ReferenceAt(s, path, outer, fullname)
  }

  // ── The walk finds them ─────────────────────────────────────────────────

  function Text(namespace: Namespace): string {
    if namespace.Some? then namespace.value else ""
  }

  /** What the parts of `s` are walked with. */
  function Below(s: Schema, enclosing: Namespace): Namespace {
    if s.Record? then FullyQualified(s.name, enclosing).namespace else enclosing
  }

  /** One step down a path. */
  lemma {:induction false} Descend(s: Schema, path: seq<Step>, outer: string)
    requires path != [] && Part(s, path[0]).Some?
    ensures var part := Part(s, path[0]).value;
      var below := if s.Record? && s.name.namespace.Some? then s.name.namespace.value else outer;
      && At(s, path) == At(part, path[1..])
      && NamespaceAt(s, path, outer) == NamespaceAt(part, path[1..], below)
    decreases |path|
  {
    var part := Part(s, path[0]).value;
    var up := path[..|path| - 1];
    if |path| == 1 {
      assert up == [] && path[1..] == [];
    } else {
      Descend(s, up, outer);
      assert path[1..][..|path[1..]| - 1] == up[1..];
    }
  }

  lemma {:induction false} InWalkAll(ss: seq<Schema>, enclosing: Namespace, e: Event)
    ensures e in WalkAll(ss, enclosing) <==> exists i :: 0 <= i < |ss| && e in Walk(ss[i], enclosing)
  {
    if ss != [] {
      InWalkAll(ss[1..], enclosing, e);
      assert forall i :: 0 < i < |ss| ==> ss[i] == ss[1..][i - 1];
      if e in WalkAll(ss[1..], enclosing) {
        var i :| 0 <= i < |ss[1..]| && e in Walk(ss[1..][i], enclosing);
        assert ss[i + 1] == ss[1..][i];
      }
    }
  }

  lemma {:induction false} InWalkFields(fs: seq<Field>, enclosing: Namespace, e: Event)
    ensures e in WalkFields(fs, enclosing) <==> exists i :: 0 <= i < |fs| && e in Walk(fs[i].schema, enclosing)
  {
    if fs != [] {
      InWalkFields(fs[1..], enclosing, e);
      assert forall i :: 0 < i < |fs| ==> fs[i] == fs[1..][i - 1];
      if e in WalkFields(fs[1..], enclosing) {
        var i :| 0 <= i < |fs[1..]| && e in Walk(fs[1..][i].schema, enclosing);
        assert fs[i + 1] == fs[1..][i];
      }
    }
  }

  /** What happens at `s` itself. */
  ghost predicate OccursHere(s: Schema, enclosing: Namespace, e: Event) {
    OccursAt(s, [], Text(enclosing), e)
  }

  /** The walk of a schema is what happens at it and the walks of its parts. */
  lemma InWalk(s: Schema, enclosing: Namespace, e: Event)
    ensures e in Walk(s, enclosing) <==>
      OccursHere(s, enclosing, e) || exists step :: InWalkOfPart(s, enclosing, e, step)
  {
    match s
    case Array(_) => assert InWalkOfPart(s, enclosing, e, Items) <==> e in Walk(s.items, enclosing);
    case Map(_) => assert InWalkOfPart(s, enclosing, e, Types) <==> e in Walk(s.types, enclosing);
    case Union(_) => InWalkOfUnion(s, enclosing, e);
    case Record(_, _) => InWalkOfRecord(s, enclosing, e);
    case _ =>
  }

  ghost predicate InWalkOfPart(s: Schema, enclosing: Namespace, e: Event, step: Step) {
    Part(s, step).Some? && e in Walk(Part(s, step).value, Below(s, enclosing))
  }

  lemma InWalkOfUnion(s: Schema, enclosing: Namespace, e: Event)
    requires s.Union?
    ensures !OccursHere(s, enclosing, e)
    ensures e in Walk(s, enclosing) <==> exists step :: InWalkOfPart(s, enclosing, e, step)
  {
    InWalkAll(s.variants, enclosing, e);
    assert forall i: nat :: i < |s.variants| ==>
      (InWalkOfPart(s, enclosing, e, Variant(i)) <==> e in Walk(s.variants[i], enclosing));
  }

  lemma InWalkOfRecord(s: Schema, enclosing: Namespace, e: Event)
    requires s.Record?
    ensures e in Walk(s, enclosing) <==>
      OccursHere(s, enclosing, e) || exists step :: InWalkOfPart(s, enclosing, e, step)
  {
    InWalkFields(s.fields, Below(s, enclosing), e);
    assert forall i: nat :: i < |s.fields| ==>
      (InWalkOfPart(s, enclosing, e, FieldAt(i)) <==> e in Walk(s.fields[i].schema, Below(s, enclosing)));
  }

  /** Every event of the walk is an occurrence ... */
  lemma {:induction false} EventOccurs(s: Schema, enclosing: Namespace, e: Event) returns (path: seq<Step>)
    requires e in Walk(s, enclosing)
    ensures OccursAt(s, path, Text(enclosing), e)
  {
    InWalk(s, enclosing, e);
    if OccursHere(s, enclosing, e) {
      path := [];
    } else {
      var step :| InWalkOfPart(s, enclosing, e, step);
      var rest := EventOccurs(Part(s, step).value, Below(s, enclosing), e);
      path := [step] + rest;
      Descend(s, path, Text(enclosing));
    }
  }

  /** ... and every occurrence an event. */
  lemma {:induction false} OccurrenceIsEvent(s: Schema, enclosing: Namespace, path: seq<Step>, e: Event)
    requires OccursAt(s, path, Text(enclosing), e)
    ensures e in Walk(s, enclosing)
    decreases |path|
  {
    InWalk(s, enclosing, e);
    if path != [] {
      Descend(s, path, Text(enclosing));
      OccurrenceIsEvent(Part(s, path[0]).value, Below(s, enclosing), path[1..], e);
      assert InWalkOfPart(s, enclosing, e, path[0]);
    }
  }

  /** The names defined and referenced are the full names of the occurrences,
      wherever in the schema they are and no others. */
  lemma NamesAreOccurrences(s: Schema, enclosing: Namespace, fullname: string)
    ensures fullname in Defined(Walk(s, enclosing)) <==> exists path :: DefinitionAt(s, path, Text(enclosing), fullname)
    ensures fullname in Used(Walk(s, enclosing)) <==> exists path :: ReferenceAt(s, path, Text(enclosing), fullname)
  {
    forall e | e == Defines(fullname) || e == Uses(fullname)
      ensures e in Walk(s, enclosing) <==> exists path :: OccursAt(s, path, Text(enclosing), e)
    {
      if e in Walk(s, enclosing) {
        var path := EventOccurs(s, enclosing, e);
      }
      if path :| OccursAt(s, path, Text(enclosing), e) {
        OccurrenceIsEvent(s, enclosing, path, e);
      }
    }
    EventSets(Walk(s, enclosing), fullname);
    EventsAtPaths(s, Text(enclosing), fullname);
  }

  lemma EventSets(es: seq<Event>, fullname: string)
    ensures fullname in Defined(es) <==> Defines(fullname) in es
    ensures fullname in Used(es) <==> Uses(fullname) in es
  {
  }

  lemma EventsAtPaths(s: Schema, outer: string, fullname: string)
    ensures (exists path :: OccursAt(s, path, outer, Defines(fullname))) <==> exists path :: DefinitionAt(s, path, outer, fullname)
    ensures (exists path :: OccursAt(s, path, outer, Uses(fullname))) <==> exists path :: ReferenceAt(s, path, outer, fullname)
  {
    if path :| DefinitionAt(s, path, outer, fullname) {
      assert OccursAt(s, path, outer, Defines(fullname));
    }
    if path :| ReferenceAt(s, path, outer, fullname) {
      assert OccursAt(s, path, outer, Uses(fullname));
    }
  }

  /** Exactly records, enums and fixed types have a name, and it is the one they
      define at the top. */
  lemma NameIsTopDefinition(s: Schema, fullname: string)
    ensures NameOf(s).Some? <==> IsNamed(s)
    ensures NameOf(s) == Some(fullname) <==> DefinitionAt(s, [], "", fullname)
  {
  }

  /** `names_of`. */
  method NamesOf(s: Schema) returns (defines: set<string>, refs: set<string>)
    ensures defines == Defined(Events(s)) && refs == Used(Events(s))
    ensures forall x :: x in defines <==> exists path :: DefinitionAt(s, path, "", x)
    ensures forall x :: x in refs <==> exists path :: ReferenceAt(s, path, "", x)
  {
    var collector := new NameCollector();
    collector.WalkNames(s, None);
    forall x {
      NamesAreOccurrences(s, None, x);
    }
    assert Text(None) == "";
    return collector.defines, collector.refs;
  }
}
