/**
 Avro schemas and the names they define and reference: the name extraction of
 src/avro/schema_set.rs.

 A schema's names are read off one walk, in which each definition and each
 reference is an event. `names_of` collects the events into two sets; the
 codec's name table reads them in order.
 */
module AvroNames {
  import opened Prelude

  type Namespace = Option<string>

  datatype Name = Name(name: string, namespace: Namespace)

  datatype Field = Field(name: string, schema: Schema)

  datatype Schema =
    | Plain(kind: string)                         // primitives and logical types
    | Array(items: Schema)
    | Map(types: Schema)
    | Union(variants: seq<Schema>)
    | Enum(name: Name, symbols: seq<string>)
    | Fixed(name: Name, size: nat)
    | Record(name: Name, fields: seq<Field>)
    | Ref(name: Name)

  datatype Event = Defines(fullname: string) | Uses(fullname: string)

  /** `Name::fully_qualified_name`: an unqualified name takes the enclosing
      namespace, when there is a non-empty one. */
  function FullyQualified(n: Name, enclosing: Namespace): Name {
    Name(n.name,
      if n.namespace.Some? then n.namespace
      else if enclosing.Some? && enclosing.value != "" then enclosing
      else None)
  }

  /** `Name::fullname`: a dotted name stands by itself. */
  function Fullname(n: Name, default: Namespace): string {
    if '.' in n.name then n.name
    else
      var namespace := if n.namespace.Some? then n.namespace else default;
      if namespace.Some? && namespace.value != "" then namespace.value + "." + n.name else n.name
  }

  function QualifiedFullname(n: Name, enclosing: Namespace): string {
    Fullname(FullyQualified(n, enclosing), None)
  }

  /** `name_of`: the full name of a named type. */
  function NameOf(s: Schema): Option<string> {
    match s
    case Record(n, _) => Some(Fullname(n, n.namespace))
    case Enum(n, _) => Some(Fullname(n, n.namespace))
    case Fixed(n, _) => Some(Fullname(n, n.namespace))
    case _ => None
  }

  /** The walk: a record defines its name before its fields are visited, and
      its namespace becomes theirs. */
  function Walk(s: Schema, enclosing: Namespace): seq<Event> {
    match s
    case Plain(_) => []
    case Array(items) => Walk(items, enclosing)
    case Map(types) => Walk(types, enclosing)
    case Union(variants) => WalkAll(variants, enclosing)
    case Enum(n, _) => [Defines(QualifiedFullname(n, enclosing))]
    case Fixed(n, _) => [Defines(QualifiedFullname(n, enclosing))]
    case Record(n, fields) =>
      [Defines(QualifiedFullname(n, enclosing))] + WalkFields(fields, FullyQualified(n, enclosing).namespace)
    case Ref(n) => [Uses(QualifiedFullname(n, enclosing))]
  }

  function WalkAll(ss: seq<Schema>, enclosing: Namespace): seq<Event> {
    if ss == [] then [] else Walk(ss[0], enclosing) + WalkAll(ss[1..], enclosing)
  }

  function WalkFields(fs: seq<Field>, enclosing: Namespace): seq<Event> {
    if fs == [] then [] else Walk(fs[0].schema, enclosing) + WalkFields(fs[1..], enclosing)
  }

  function Events(s: Schema): seq<Event> {
    Walk(s, None)
  }

  function Defined(es: seq<Event>): set<string> {
    set e | e in es && e.Defines? :: e.fullname
  }

  function Used(es: seq<Event>): set<string> {
    set e | e in es && e.Uses? :: e.fullname
  }

  lemma ConcatNames(a: seq<Event>, b: seq<Event>)
    ensures Defined(a + b) == Defined(a) + Defined(b)
    ensures Used(a + b) == Used(a) + Used(b)
  {
    assert forall e :: e in a + b <==> e in a || e in b;
  }

  /** A schema's own name is among the names it defines. */
  lemma TopNameIsDefined(s: Schema)
    requires NameOf(s).Some?
    ensures NameOf(s).value in Defined(Events(s))
  {
    assert Events(s)[0] == Defines(NameOf(s).value);
  }

  /** `walk_names`, filling its two sets in place. */
  class NameCollector {
    var defines: set<string>
    var refs: set<string>

    constructor ()
      ensures defines == {} && refs == {}
    {
      defines, refs := {}, {};
    }

    method WalkNames(s: Schema, enclosing: Namespace)
      modifies this
      ensures defines == old(defines) + Defined(Walk(s, enclosing))
      ensures refs == old(refs) + Used(Walk(s, enclosing))
      decreases s, 1
    {
      match s
      case Plain(_) =>
      case Array(items) => WalkNames(items, enclosing);
      case Map(types) => WalkNames(types, enclosing);
      case Union(variants) => WalkVariants(variants, enclosing);
      case Enum(n, _) => defines := defines + {QualifiedFullname(n, enclosing)};
      case Fixed(n, _) => defines := defines + {QualifiedFullname(n, enclosing)};
      case Record(n, fields) =>
        var name := FullyQualified(n, enclosing);
        defines := defines + {Fullname(name, None)};
        WalkRecordFields(fields, name.namespace);
        ConcatNames([Defines(Fullname(name, None))], WalkFields(fields, name.namespace));
      case Ref(n) => refs := refs + {QualifiedFullname(n, enclosing)};
    }

    method WalkVariants(variants: seq<Schema>, enclosing: Namespace)
      modifies this
      ensures defines == old(defines) + Defined(WalkAll(variants, enclosing))
      ensures refs == old(refs) + Used(WalkAll(variants, enclosing))
      decreases variants, 0
    {
      for i := 0 to |variants|
        invariant defines == old(defines) + Defined(WalkAll(variants[..i], enclosing))
        invariant refs == old(refs) + Used(WalkAll(variants[..i], enclosing))
      {
        WalkNames(variants[i], enclosing);
        WalkAllAppend(variants[..i], variants[i], enclosing);
        ConcatNames(WalkAll(variants[..i], enclosing), Walk(variants[i], enclosing));
        assert variants[..i + 1] == variants[..i] + [variants[i]];
      }
      assert variants[..|variants|] == variants;
    }

    method WalkRecordFields(fields: seq<Field>, enclosing: Namespace)
      modifies this
      ensures defines == old(defines) + Defined(WalkFields(fields, enclosing))
      ensures refs == old(refs) + Used(WalkFields(fields, enclosing))
      decreases fields, 0
    {
      for i := 0 to |fields|
        invariant defines == old(defines) + Defined(WalkFields(fields[..i], enclosing))
        invariant refs == old(refs) + Used(WalkFields(fields[..i], enclosing))
      {
        WalkNames(fields[i].schema, enclosing);
        FieldNamesGrow(fields, i, enclosing);
      }
      assert fields[..|fields|] == fields;
    }
  }

  lemma FieldNamesGrow(fields: seq<Field>, i: nat, enclosing: Namespace)
    requires i < |fields|
    ensures var front, next := WalkFields(fields[..i], enclosing), WalkFields(fields[..i + 1], enclosing);
      && Defined(next) == Defined(front) + Defined(Walk(fields[i].schema, enclosing))
      && Used(next) == Used(front) + Used(Walk(fields[i].schema, enclosing))
  {
    WalkFieldsAppend(fields[..i], fields[i], enclosing);
    ConcatNames(WalkFields(fields[..i], enclosing), Walk(fields[i].schema, enclosing));
    assert fields[..i + 1] == fields[..i] + [fields[i]];
  }

  lemma {:induction false} WalkAllAppend(a: seq<Schema>, s: Schema, enclosing: Namespace)
    ensures WalkAll(a + [s], enclosing) == WalkAll(a, enclosing) + Walk(s, enclosing)
  {
    if a == [] {
      assert a + [s] == [s];
      assert WalkAll([s][1..], enclosing) == [];
    } else {
      assert (a + [s])[1..] == a[1..] + [s];
      WalkAllAppend(a[1..], s, enclosing);
    }
  }

  lemma {:induction false} WalkFieldsAppend(a: seq<Field>, f: Field, enclosing: Namespace)
    ensures WalkFields(a + [f], enclosing) == WalkFields(a, enclosing) + Walk(f.schema, enclosing)
  {
    if a == [] {
      assert a + [f] == [f];
      assert WalkFields([f][1..], enclosing) == [];
    } else {
      assert (a + [f])[1..] == a[1..] + [f];
      WalkFieldsAppend(a[1..], f, enclosing);
    }
  }
}
