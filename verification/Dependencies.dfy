/** Dropping repeated dependencies before parsing: `dedupe_dependencies` and
    `top_level_fullname` of src/avro/schema_set.rs. JSON text is parsed by a
    given function; equality of documents is equality of their values. */
module Dependencies {
  import opened Prelude

  datatype Json =
    | Null
    | Bool(b: bool)
    | Number(digits: string)
    | Text(s: string)
    | List(items: seq<Json>)
    | Object(fields: map<string, Json>)

  type Parser = string -> Option<Json>

  datatype DedupeError = InvalidRoot | InvalidDependency(index: nat) | TwoDefinitions(name: string)

  function TextField(fields: map<string, Json>, key: string): Option<string> {
    if key in fields && fields[key].Text? then Some(fields[key].s) else None
  }

  /** The name a top-level schema declares: a dotted one carries its namespace. */
  function TopLevelFullname(json: Json): Option<string> {
    if !json.Object? then None
    else
      var name := TextField(json.fields, "name");
      if name.None? then None
      else if '.' in name.value then name
      else
        var namespace := TextField(json.fields, "namespace");
        if namespace.Some? && namespace.value != "" then Some(namespace.value + "." + name.value) else name
  }

  /** `text` is a schema document that declares `name`. */
  ghost predicate Declares(parse: Parser, text: string, name: string) {
    parse(text).Some? && TopLevelFullname(parse(text).value) == Some(name)
  }

  /** Two documents that declare one name and differ. */
  ghost predicate Clash(parse: Parser, a: string, b: string, name: string) {
    Declares(parse, a, name) && Declares(parse, b, name) && parse(a) != parse(b)
  }

  ghost predicate Conflict(parse: Parser, inputs: set<string>) {
    exists a, b, name :: a in inputs && b in inputs && Clash(parse, a, b, name)
  }

  ghost predicate AllParse(parse: Parser, inputs: set<string>) {
    forall t :: t in inputs ==> parse(t).Some?
  }

  /** `seen` holds, for each name declared so far, the one document for it. */
  ghost predicate Agrees(parse: Parser, inputs: set<string>, seen: map<string, Json>) {
    && (forall t, name :: t in inputs && Declares(parse, t, name) ==>
      name in seen && Some(seen[name]) == parse(t))
    && (forall name :: name in seen ==> exists t :: t in inputs && Declares(parse, t, name))
  }

  lemma AgreesMeansNoConflict(parse: Parser, inputs: set<string>, seen: map<string, Json>)
    requires Agrees(parse, inputs, seen)
    ensures !Conflict(parse, inputs)
  {
  }

  /** The kept texts: every unnamed one, and of each name but the root's the
      first that declares it. */
  function KeptTexts(parse: Parser, seen: map<string, Json>, deps: seq<string>): seq<string>
    decreases |deps|
  {
    if deps == [] then []
    else if parse(deps[0]).None? then []
    else
      var json := parse(deps[0]).value;
      var name := TopLevelFullname(json);
      if name.None? then [deps[0]] + KeptTexts(parse, seen, deps[1..])
      else if name.value in seen then KeptTexts(parse, seen, deps[1..])
      else [deps[0]] + KeptTexts(parse, seen[name.value := json], deps[1..])
  }

  /** What the root alone leaves in `seen`. */
  function SeenRoot(root: Json): map<string, Json> {
    match TopLevelFullname(root)
    case None => map[]
    case Some(name) => map[name := root]
  }

  lemma UnnamedAgrees(parse: Parser, inputs: set<string>, seen: map<string, Json>, dep: string)
    requires Agrees(parse, inputs, seen) && parse(dep).Some? && TopLevelFullname(parse(dep).value).None?
    ensures Agrees(parse, inputs + {dep}, seen)
  {
    forall name | name in seen
      ensures exists t :: t in inputs + {dep} && Declares(parse, t, name)
    {
      var t :| t in inputs && Declares(parse, t, name);
      assert t in inputs + {dep};
    }
  }

  lemma NamedAgrees(parse: Parser, inputs: set<string>, seen: map<string, Json>, dep: string, name: string)
    requires Agrees(parse, inputs, seen) && Declares(parse, dep, name)
    requires name in seen ==> Some(seen[name]) == parse(dep)
    ensures Agrees(parse, inputs + {dep}, seen[name := parse(dep).value])
  {
    var seen' := seen[name := parse(dep).value];
    forall n | n in seen'
      ensures exists t :: t in inputs + {dep} && Declares(parse, t, n)
    {
      if n == name {
        assert dep in inputs + {dep};
      } else {
        var t :| t in inputs && Declares(parse, t, n);
        assert t in inputs + {dep};
      }
    }
  }

  /** A second, different document for a name seen before. */
  lemma SeenClash(parse: Parser, inputs: set<string>, seen: map<string, Json>, dep: string, name: string)
    returns (other: string)
    requires Agrees(parse, inputs, seen) && Declares(parse, dep, name)
    requires name in seen && Some(seen[name]) != parse(dep)
    ensures other in inputs && Clash(parse, other, dep, name)
  {
    other :| other in inputs && Declares(parse, other, name);
  }

  ghost predicate ClashAmong(parse: Parser, inputs: set<string>, name: string) {
    exists a, b :: a in inputs && b in inputs && Clash(parse, a, b, name)
  }

  /** Every input parses and no name has two documents. */
  ghost predicate Consistent(parse: Parser, inputs: set<string>) {
    AllParse(parse, inputs) && !Conflict(parse, inputs)
  }

  ghost function AllInputs(root: string, deps: seq<string>): set<string> {
    {root} + Elements(deps)
  }

  /** An error says what is wrong. */
  ghost predicate ErrorIsTrue(parse: Parser, root: string, deps: seq<string>, error: DedupeError) {
    match error
    case InvalidRoot => parse(root).None?
    case InvalidDependency(i) => i < |deps| && parse(deps[i]).None?
    case TwoDefinitions(name) => ClashAmong(parse, AllInputs(root, deps), name)
  }

  lemma TrueErrorBreaks(parse: Parser, root: string, deps: seq<string>, error: DedupeError)
    requires ErrorIsTrue(parse, root, deps, error)
    ensures !Consistent(parse, AllInputs(root, deps))
  {
    match error
    case InvalidRoot => assert root in AllInputs(root, deps);
    case InvalidDependency(i) => assert deps[i] in AllInputs(root, deps);
    case TwoDefinitions(_) =>
  }

  /** What the loop knows after `i` dependencies. */
  ghost predicate Deduping(parse: Parser, root: string, deps: seq<string>, i: nat, seen: map<string, Json>, kept: seq<string>)
    requires parse(root).Some? && i <= |deps|
  {
    && AllParse(parse, AllInputs(root, deps[..i])) && Agrees(parse, AllInputs(root, deps[..i]), seen)
    && kept + KeptTexts(parse, seen, deps[i..]) == KeptTexts(parse, SeenRoot(parse(root).value), deps)
  }

  /** One dependency that is kept or dropped without complaint. */
  lemma DedupeStep(parse: Parser, root: string, deps: seq<string>, i: nat, seen: map<string, Json>, kept: seq<string>)
    requires parse(root).Some? && i < |deps| && Deduping(parse, root, deps, i, seen, kept)
    requires parse(deps[i]).Some?
    ensures var json := parse(deps[i]).value; var name := TopLevelFullname(json);
      if name.None? then Deduping(parse, root, deps, i + 1, seen, kept + [deps[i]])
      else if name.value !in seen then Deduping(parse, root, deps, i + 1, seen[name.value := json], kept + [deps[i]])
      else seen[name.value] == json ==> Deduping(parse, root, deps, i + 1, seen, kept)
  {
    var dep := deps[i];
    var name := TopLevelFullname(parse(dep).value);
    assert deps[..i + 1] == deps[..i] + [dep];
    assert AllInputs(root, deps[..i + 1]) == AllInputs(root, deps[..i]) + {dep};
    assert deps[i..][0] == dep && deps[i..][1..] == deps[i + 1..];
    if name.None? {
      UnnamedAgrees(parse, AllInputs(root, deps[..i]), seen, dep);
      Associative(kept, [dep], KeptTexts(parse, seen, deps[i + 1..]));
    } else if name.value !in seen {
      NamedAgrees(parse, AllInputs(root, deps[..i]), seen, dep, name.value);
      Associative(kept, [dep], KeptTexts(parse, seen[name.value := parse(dep).value], deps[i + 1..]));
    } else if seen[name.value] == parse(dep).value {
      NamedAgrees(parse, AllInputs(root, deps[..i]), seen, dep, name.value);
      assert seen[name.value := parse(dep).value] == seen;
    }
  }

  lemma Associative(a: seq<string>, b: seq<string>, c: seq<string>)
    ensures a + (b + c) == (a + b) + c
  {
  }

  /** A dependency that contradicts what was seen. */
  lemma DedupeClash(parse: Parser, root: string, deps: seq<string>, i: nat, seen: map<string, Json>, kept: seq<string>, name: string)
    requires parse(root).Some? && i < |deps| && Deduping(parse, root, deps, i, seen, kept)
    requires Declares(parse, deps[i], name) && name in seen && Some(seen[name]) != parse(deps[i])
    ensures ErrorIsTrue(parse, root, deps, TwoDefinitions(name))
  {
    var other := SeenClash(parse, AllInputs(root, deps[..i]), seen, deps[i], name);
    assert other in AllInputs(root, deps) && deps[i] in AllInputs(root, deps);
  }

  lemma DedupeEnds(parse: Parser, root: string, deps: seq<string>, seen: map<string, Json>, kept: seq<string>)
    requires parse(root).Some? && Deduping(parse, root, deps, |deps|, seen, kept)
    ensures Consistent(parse, AllInputs(root, deps))
    ensures kept == KeptTexts(parse, SeenRoot(parse(root).value), deps)
  {
    assert deps[..|deps|] == deps && deps[|deps|..] == [];
    AgreesMeansNoConflict(parse, AllInputs(root, deps), seen);
  }

  method DedupeDependencies(parse: Parser, root: string, deps: seq<string>)
    returns (r: Result<seq<string>, DedupeError>)
    ensures r.Ok? <==> Consistent(parse, AllInputs(root, deps))
    ensures r.Ok? ==> r.value == KeptTexts(parse, SeenRoot(parse(root).value), deps)
    ensures r.Ok? ==> RespectsNamespaces(parse, root, deps, r.value)
    ensures r.Err? ==> ErrorIsTrue(parse, root, deps, r.error)
  {
    if parse(root).None? {
      TrueErrorBreaks(parse, root, deps, InvalidRoot);
      return Err(InvalidRoot);
    }
    var seen := SeenRoot(parse(root).value);
    var kept := [];
    assert AllInputs(root, deps[..0]) == {root};
    for i := 0 to |deps|
      invariant Deduping(parse, root, deps, i, seen, kept)
    {
      if parse(deps[i]).None? {
        TrueErrorBreaks(parse, root, deps, InvalidDependency(i));
        return Err(InvalidDependency(i));
      }
      var json := parse(deps[i]).value;
      var name := TopLevelFullname(json);
      DedupeStep(parse, root, deps, i, seen, kept);
      if name.None? {
        kept := kept + [deps[i]];
      } else if name.value !in seen {
        seen := seen[name.value := json];
        kept := kept + [deps[i]];
      } else if seen[name.value] != json {
        DedupeClash(parse, root, deps, i, seen, kept, name.value);
        TrueErrorBreaks(parse, root, deps, TwoDefinitions(name.value));
        return Err(TwoDefinitions(name.value));
      }
    }
    DedupeEnds(parse, root, deps, seen, kept);
    AcceptedRespectsNamespaces(parse, root, deps);
    r := Ok(kept);
  }

  // ── What is kept ────────────────────────────────────────────────────────

  /** The documents of a set of texts. */
  ghost function Documents(parse: Parser, texts: set<string>): set<Json> {
    set t | t in texts && parse(t).Some? :: parse(t).value
  }

  /** The root's document, if it declares a name at all. */
  ghost function RootDocument(root: Json): set<Json> {
    if TopLevelFullname(root).Some? then {root} else {}
  }

  /** The documents still to come do not contradict `seen`. */
  ghost predicate Extends(parse: Parser, seen: map<string, Json>, deps: seq<string>) {
    && (forall name :: name in seen ==> TopLevelFullname(seen[name]) == Some(name))
    && Consistent(parse, Elements(deps))
    && (forall t, name :: t in deps && Declares(parse, t, name) && name in seen ==> Some(seen[name]) == parse(t))
  }

  lemma ExtendsTail(parse: Parser, seen: map<string, Json>, deps: seq<string>)
    requires Extends(parse, seen, deps) && deps != []
    ensures parse(deps[0]).Some? && Extends(parse, seen, deps[1..])
    ensures var json := parse(deps[0]).value; var name := TopLevelFullname(json);
      name.Some? ==> Extends(parse, seen[name.value := json], deps[1..])
  {
    assert deps[0] in Elements(deps);
    assert forall t :: t in deps[1..] ==> t in deps;
    var json := parse(deps[0]).value;
    var name := TopLevelFullname(json);
    if name.Some? {
      assert Declares(parse, deps[0], name.value);
      forall t | t in deps[1..] && Declares(parse, t, name.value)
        ensures parse(t) == Some(json)
      {
        assert t in Elements(deps) && !Clash(parse, t, deps[0], name.value);
      }
    }
  }

  lemma DocumentsOfParts(parse: Parser, t: string, texts: set<string>)
    requires parse(t).Some?
    ensures Documents(parse, {t} + texts) == {parse(t).value} + Documents(parse, texts)
  {
  }

  /** Kept documents are the given ones, less those seen before. */
  lemma {:induction false} KeptDocuments(parse: Parser, seen: map<string, Json>, deps: seq<string>)
    requires Extends(parse, seen, deps)
    ensures Documents(parse, Elements(KeptTexts(parse, seen, deps)))
         == Documents(parse, Elements(deps)) - seen.Values
    decreases |deps|
  {
    if deps == [] {
      assert Documents(parse, Elements<string>([])) == {};
    } else {
      ExtendsTail(parse, seen, deps);
      var rest := deps[1..];
      var json := parse(deps[0]).value;
      var name := TopLevelFullname(json);
      assert deps == [deps[0]] + rest;
      assert Elements(deps) == {deps[0]} + Elements(rest);
      DocumentsOfParts(parse, deps[0], Elements(rest));
      var seen' := if name.Some? then seen[name.value := json] else seen;
      KeptDocuments(parse, seen', rest);
      if name.Some? && name.value in seen {
        assert Declares(parse, deps[0], name.value);
        assert seen' == seen;
        assert json in seen.Values;
      } else {
        assert json !in seen.Values;
        var kept := KeptTexts(parse, seen', rest);
        assert KeptTexts(parse, seen, deps) == [deps[0]] + kept;
        assert Elements([deps[0]] + kept) == {deps[0]} + Elements(kept);
        DocumentsOfParts(parse, deps[0], Elements(kept));
        if name.Some? {
          ValuesGrow(seen, name.value, json);
        }
      }
    }
  }

  lemma ValuesGrow(seen: map<string, Json>, name: string, json: Json)
    requires name !in seen
    ensures seen[name := json].Values == seen.Values + {json}
  {
    var seen' := seen[name := json];
    forall v | v in seen.Values + {json}
      ensures v in seen'.Values
    {
      if v == json {
        assert seen'[name] == v;
      } else {
        var n :| n in seen && seen[n] == v;
        assert seen'[n] == v;
      }
    }
  }

  /** The texts declare no name of `seen`, and no name twice. */
  ghost predicate NamesDistinct(parse: Parser, seen: map<string, Json>, texts: seq<string>) {
    && (forall i, name :: 0 <= i < |texts| && Declares(parse, texts[i], name) ==> name !in seen)
    && (forall i, j, name :: 0 <= i < j < |texts| && Declares(parse, texts[i], name) ==> !Declares(parse, texts[j], name))
  }

  lemma PrependDistinct(parse: Parser, seen: map<string, Json>, t: string, seen': map<string, Json>, texts: seq<string>)
    requires NamesDistinct(parse, seen', texts) && seen.Keys <= seen'.Keys
    requires forall name :: Declares(parse, t, name) ==> name !in seen && name in seen'
    ensures NamesDistinct(parse, seen, [t] + texts)
  {
    var all := [t] + texts;
    forall i, name | 0 <= i < |all| && Declares(parse, all[i], name)
      ensures name !in seen
      ensures forall j :: i < j < |all| ==> !Declares(parse, all[j], name)
    {
      assert i > 0 ==> all[i] == texts[i - 1];
      assert forall j :: 0 < j < |all| ==> all[j] == texts[j - 1];
    }
  }

  lemma {:induction false} KeptNamesDistinct(parse: Parser, seen: map<string, Json>, deps: seq<string>)
    requires AllParse(parse, Elements(deps))
    ensures NamesDistinct(parse, seen, KeptTexts(parse, seen, deps))
    decreases |deps|
  {
    if deps != [] {
      assert deps[0] in Elements(deps);
      assert forall t :: t in Elements(deps[1..]) ==> t in Elements(deps);
      var json := parse(deps[0]).value;
      var name := TopLevelFullname(json);
      if name.Some? && name.value in seen {
        KeptNamesDistinct(parse, seen, deps[1..]);
      } else {
        var seen' := if name.Some? then seen[name.value := json] else seen;
        KeptNamesDistinct(parse, seen', deps[1..]);
        PrependDistinct(parse, seen, deps[0], seen', KeptTexts(parse, seen', deps[1..]));
      }
    }
  }

  lemma RootExtends(parse: Parser, root: string, deps: seq<string>)
    requires Consistent(parse, AllInputs(root, deps))
    ensures parse(root).Some? && Extends(parse, SeenRoot(parse(root).value), deps)
    ensures SeenRoot(parse(root).value).Values == RootDocument(parse(root).value)
  {
    assert root in AllInputs(root, deps);
    assert forall t :: t in Elements(deps) ==> t in AllInputs(root, deps);
    var json := parse(root).value;
    var seen := SeenRoot(json);
    var name := TopLevelFullname(json);
    if name.Some? {
      assert Declares(parse, root, name.value) && seen == map[name.value := json];
      assert seen[name.value] == json;
      forall t | t in deps && Declares(parse, t, name.value)
        ensures parse(t) == Some(json)
      {
        assert t in AllInputs(root, deps) && !Clash(parse, t, root, name.value);
      }
    } else {
      assert seen == map[];
    }
  }

  /** On success the kept documents are exactly the given ones except the
      root's own, and no two of them - nor the root - declare one name. */
  lemma DedupeKeepsDefinitions(parse: Parser, root: string, deps: seq<string>)
    requires Consistent(parse, AllInputs(root, deps))
    ensures parse(root).Some?
    ensures var kept := KeptTexts(parse, SeenRoot(parse(root).value), deps);
      && Documents(parse, Elements(kept))
         == Documents(parse, Elements(deps)) - RootDocument(parse(root).value)
      && (forall i, name :: 0 <= i < |kept| && Declares(parse, kept[i], name) ==> !Declares(parse, root, name))
      && (forall i, j, name :: 0 <= i < j < |kept| && Declares(parse, kept[i], name) ==> !Declares(parse, kept[j], name))
  {
    RootExtends(parse, root, deps);
    KeptDocuments(parse, SeenRoot(parse(root).value), deps);
    KeptNamesDistinct(parse, SeenRoot(parse(root).value), deps);
  }

  /** Neither success nor the kept definitions depend on the order in which the
      dependencies are given, or on how often. */
  lemma DedupeIsOrderFree(parse: Parser, root: string, deps: seq<string>, deps': seq<string>)
    requires forall t :: t in deps <==> t in deps'
    ensures Consistent(parse, AllInputs(root, deps)) <==> Consistent(parse, AllInputs(root, deps'))
    ensures Consistent(parse, AllInputs(root, deps)) ==>
      && parse(root).Some?
      && Documents(parse, Elements(KeptTexts(parse, SeenRoot(parse(root).value), deps)))
         == Documents(parse, Elements(KeptTexts(parse, SeenRoot(parse(root).value), deps')))
  {
    assert Elements(deps) == Elements(deps');
    if Consistent(parse, AllInputs(root, deps)) {
      DedupeKeepsDefinitions(parse, root, deps);
      DedupeKeepsDefinitions(parse, root, deps');
    }
  }

  /** Dependency `i` declares no name of `seen` and none that an earlier one
      declares; an unnamed one declares none at all. */
  ghost predicate IsNew(parse: Parser, seen: set<string>, deps: seq<string>, i: nat)
    requires i < |deps|
  {
    forall name :: Declares(parse, deps[i], name) ==>
      name !in seen && forall j :: 0 <= j < i ==> !Declares(parse, deps[j], name)
  }

  /** Of the first `n` dependencies those that are new, in order. */
  ghost function NewTexts(parse: Parser, seen: set<string>, deps: seq<string>, n: nat): seq<string>
    requires n <= |deps|
  {
    if n == 0 then []
    else NewTexts(parse, seen, deps, n - 1) + (if IsNew(parse, seen, deps, n - 1) then [deps[n - 1]] else [])
  }

  /** Position `i + 1` is new exactly if position `i` of the rest is, given what
      the first declares. */
  lemma NewInRest(parse: Parser, seen: set<string>, seen': set<string>, deps: seq<string>, i: nat)
    requires i + 1 < |deps|
    requires forall name :: name in seen' <==> name in seen || Declares(parse, deps[0], name)
    ensures IsNew(parse, seen, deps, i + 1) <==> IsNew(parse, seen', deps[1..], i)
  {
    assert forall j :: 0 <= j < |deps| - 1 ==> deps[1..][j] == deps[j + 1];
    if IsNew(parse, seen', deps[1..], i) {
      forall name, j | Declares(parse, deps[i + 1], name) && 0 <= j < i + 1
        ensures !Declares(parse, deps[j], name)
      {
        assert j > 0 ==> deps[1..][j - 1] == deps[j];
      }
    }
    if IsNew(parse, seen, deps, i + 1) {
      forall name, j | Declares(parse, deps[1..][i], name) && 0 <= j < i
        ensures !Declares(parse, deps[1..][j], name)
      {
        assert deps[1..][j] == deps[j + 1];
      }
    }
  }

  lemma {:induction false} NewTextsOfRest(parse: Parser, seen: set<string>, seen': set<string>, deps: seq<string>, n: nat)
    requires n < |deps|
    requires forall name :: name in seen' <==> name in seen || Declares(parse, deps[0], name)
    ensures NewTexts(parse, seen, deps, n + 1)
      == (if IsNew(parse, seen, deps, 0) then [deps[0]] else []) + NewTexts(parse, seen', deps[1..], n)
  {
    if n == 0 {
      assert NewTexts(parse, seen, deps, 0) == [];
    } else {
      NewTextsOfRest(parse, seen, seen', deps, n - 1);
      NewInRest(parse, seen, seen', deps, n - 1);
      assert deps[1..][n - 1] == deps[n];
      Associative(if IsNew(parse, seen, deps, 0) then [deps[0]] else [], NewTexts(parse, seen', deps[1..], n - 1),
        if IsNew(parse, seen, deps, n) then [deps[n]] else []);
    }
  }

  /** `seen` after a dependency that is kept or a repeat. */
  ghost function SeenNext(seen: map<string, Json>, json: Json): map<string, Json> {
    var name := TopLevelFullname(json);
    if name.Some? && name.value !in seen then seen[name.value := json] else seen
  }

  lemma FirstIsNew(parse: Parser, seen: map<string, Json>, deps: seq<string>)
    requires deps != [] && parse(deps[0]).Some?
    ensures var seen' := SeenNext(seen, parse(deps[0]).value);
      && (forall name :: name in seen'.Keys <==> name in seen.Keys || Declares(parse, deps[0], name))
      && KeptTexts(parse, seen, deps)
         == (if IsNew(parse, seen.Keys, deps, 0) then [deps[0]] else []) + KeptTexts(parse, seen', deps[1..])
  {
    var name := TopLevelFullname(parse(deps[0]).value);
    assert IsNew(parse, seen.Keys, deps, 0) <==> name.None? || name.value !in seen;
  }

  lemma {:induction false} KeptAreNew(parse: Parser, seen: map<string, Json>, deps: seq<string>)
    requires AllParse(parse, Elements(deps))
    ensures KeptTexts(parse, seen, deps) == NewTexts(parse, seen.Keys, deps, |deps|)
    decreases |deps|
  {
    if deps != [] {
      assert deps[0] in Elements(deps);
      assert forall t :: t in Elements(deps[1..]) ==> t in Elements(deps);
      var seen' := SeenNext(seen, parse(deps[0]).value);
      FirstIsNew(parse, seen, deps);
      KeptAreNew(parse, seen', deps[1..]);
      NewTextsOfRest(parse, seen.Keys, seen'.Keys, deps, |deps| - 1);
    }
  }

  /** What is kept, and in which order: of every name but the root's the first
      dependency that declares it, every dependency that declares none, and
      nothing else, as they stood in the input. */
  lemma KeptAreTheFirst(parse: Parser, root: string, deps: seq<string>)
    requires Consistent(parse, AllInputs(root, deps))
    ensures parse(root).Some?
    ensures var seen := SeenRoot(parse(root).value);
      && (forall name :: name in seen.Keys <==> Declares(parse, root, name))
      && KeptTexts(parse, seen, deps) == NewTexts(parse, seen.Keys, deps, |deps|)
  {
    RootExtends(parse, root, deps);
    KeptAreNew(parse, SeenRoot(parse(root).value), deps);
  }

  // ── Which name a document declares ──────────────────────────────────────

  /** The document is an object with the text `s` under `key`. */
  predicate HasText(json: Json, key: string, s: string) {
    json.Object? && key in json.fields && json.fields[key] == Text(s)
  }

  /** A dotted name stands by itself, an undotted one follows the namespace if
      there is a non-empty one, and without a name in text there is none. */
  lemma NamingRule(json: Json, name: string, namespace: string)
    requires HasText(json, "name", name)
    ensures '.' in name ==> TopLevelFullname(json) == Some(name)
    ensures '.' !in name && HasText(json, "namespace", namespace) && namespace != "" ==>
      TopLevelFullname(json) == Some(namespace + "." + name)
    ensures (forall ns :: HasText(json, "namespace", ns) ==> ns == "") ==> TopLevelFullname(json) == Some(name)
  {
    if forall ns :: HasText(json, "namespace", ns) ==> ns == "" {
      var namespace := TextField(json.fields, "namespace");
      assert namespace.Some? ==> HasText(json, "namespace", namespace.value);
    }
  }

  lemma UnnamedRule(json: Json)
    ensures TopLevelFullname(json) == None <==> forall name :: !HasText(json, "name", name)
  {
    if json.Object? && TextField(json.fields, "name").Some? {
      assert HasText(json, "name", TextField(json.fields, "name").value);
    }
  }

  /** A document with an undotted name in a non-empty namespace. */
  ghost predicate NamedWithin(parse: Parser, text: string, name: string, namespace: string) {
    && parse(text).Some? && HasText(parse(text).value, "name", name) && '.' !in name
    && HasText(parse(text).value, "namespace", namespace) && namespace != ""
  }

  lemma SuffixCancels(a: string, b: string, suffix: string)
    requires a + suffix == b + suffix
    ensures a == b
  {
    assert (a + suffix)[..|a|] == a && (b + suffix)[..|b|] == b;
  }

  lemma NamedWithinDeclares(parse: Parser, text: string, name: string, namespace: string, declared: string)
    requires NamedWithin(parse, text, name, namespace)
    ensures Declares(parse, text, declared) <==> declared == namespace + ("." + name)
  {
    NamingRule(parse(text).value, name, namespace);
    assert namespace + "." + name == namespace + ("." + name);
  }

  /** One name in two namespaces is two names: neither document contradicts the
      other, and as the only dependency the second is kept. */
  lemma NamespacesKeepApart(parse: Parser, a: string, b: string, name: string, x: string, y: string)
    requires NamedWithin(parse, a, name, x) && NamedWithin(parse, b, name, y) && x != y
    ensures forall n :: !Clash(parse, a, b, n)
    ensures Consistent(parse, AllInputs(a, [b])) && KeptTexts(parse, SeenRoot(parse(a).value), [b]) == [b]
  {
    forall n
      ensures Declares(parse, a, n) <==> n == x + ("." + name)
      ensures Declares(parse, b, n) <==> n == y + ("." + name)
    {
      NamedWithinDeclares(parse, a, name, x, n);
      NamedWithinDeclares(parse, b, name, y, n);
    }
    if x + ("." + name) == y + ("." + name) {
      SuffixCancels(x, y, "." + name);
    }
    assert AllInputs(a, [b]) == {a, b};
    var seen := SeenRoot(parse(a).value);
    assert Declares(parse, a, x + ("." + name)) && Declares(parse, b, y + ("." + name));
    assert KeptTexts(parse, seen[y + ("." + name) := parse(b).value], [b][1..]) == [];
  }

  /** Among many dependencies, too: if the set is accepted, both are kept. */
  lemma BothNamespacesAreKept(parse: Parser, root: string, deps: seq<string>, a: string, b: string,
      name: string, x: string, y: string)
    requires Consistent(parse, AllInputs(root, deps)) && a in deps && b in deps
    requires NamedWithin(parse, a, name, x) && NamedWithin(parse, b, name, y) && x != y
    requires parse(a) != parse(root) && parse(b) != parse(root)
    ensures parse(root).Some?
    ensures var kept := Documents(parse, Elements(KeptTexts(parse, SeenRoot(parse(root).value), deps)));
      parse(a).value in kept && parse(b).value in kept && parse(a) != parse(b)
  {
    DedupeKeepsDefinitions(parse, root, deps);
    assert a in Elements(deps) && b in Elements(deps);
    NamespacesKeepApart(parse, a, b, name, x, y);
  }

  /** A dotted name and a name in a namespace that come to the same are one name:
      two different documents for it are refused. */
  lemma DottedMeetsNamespace(parse: Parser, inputs: set<string>, a: string, b: string, dotted: string, name: string, namespace: string)
    requires a in inputs && b in inputs && parse(a).Some? && HasText(parse(a).value, "name", dotted)
    requires NamedWithin(parse, b, name, namespace) && dotted == namespace + "." + name
    ensures parse(a) != parse(b) <==> Clash(parse, a, b, dotted)
    ensures parse(a) != parse(b) ==> !Consistent(parse, inputs)
  {
    assert '.' in dotted by {
      assert dotted[|namespace|] == '.';
    }
    NamingRule(parse(a).value, dotted, namespace);
    NamingRule(parse(b).value, name, namespace);
  }

  /** An accepted set: equal undotted names in two namespaces are both kept, the
      root's document aside, and a dotted name and a name in a namespace that come
      to the same have one document. */
  ghost predicate RespectsNamespaces(parse: Parser, root: string, deps: seq<string>, kept: seq<string>) {
    && (forall a, b, name, x, y ::
      a in deps && b in deps && NamedWithin(parse, a, name, x) && NamedWithin(parse, b, name, y) && x != y
      && parse(a) != parse(root) && parse(b) != parse(root) ==>
        parse(a).value in Documents(parse, Elements(kept)) && parse(b).value in Documents(parse, Elements(kept)))
    && (forall a, b, dotted, name, namespace ::
      a in AllInputs(root, deps) && b in AllInputs(root, deps)
      && parse(a).Some? && HasText(parse(a).value, "name", dotted)
      && NamedWithin(parse, b, name, namespace) && dotted == namespace + "." + name ==>
        parse(a) == parse(b))
  }

  lemma AcceptedRespectsNamespaces(parse: Parser, root: string, deps: seq<string>)
    requires Consistent(parse, AllInputs(root, deps))
    ensures parse(root).Some?
    ensures RespectsNamespaces(parse, root, deps, KeptTexts(parse, SeenRoot(parse(root).value), deps))
  {
    DedupeKeepsDefinitions(parse, root, deps);
    var kept := KeptTexts(parse, SeenRoot(parse(root).value), deps);
    forall a, b, name, x, y |
      a in deps && b in deps && NamedWithin(parse, a, name, x) && NamedWithin(parse, b, name, y) && x != y
      && parse(a) != parse(root) && parse(b) != parse(root)
      ensures parse(a).value in Documents(parse, Elements(kept)) && parse(b).value in Documents(parse, Elements(kept))
    {
      BothNamespacesAreKept(parse, root, deps, a, b, name, x, y);
    }
    forall a, b, dotted, name, namespace |
      a in AllInputs(root, deps) && b in AllInputs(root, deps)
      && parse(a).Some? && HasText(parse(a).value, "name", dotted)
      && NamedWithin(parse, b, name, namespace) && dotted == namespace + "." + name
      ensures parse(a) == parse(b)
    {
      DottedMeetsNamespace(parse, AllInputs(root, deps), a, b, dotted, name, namespace);
    }
  }
}
