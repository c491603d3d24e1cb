/**
 Fetching every schema a schema transitively references:
 `collect_reference_closure` of src/avro/mod.rs, over a registry that may well
 be cyclic. The registry is a given function; a failed fetch is `None`.
 */
module ReferenceClosure {
  import opened Prelude

  const MAX_REFERENCE_DEPTH := 32
  const MAX_REFERENCES := 256

  /** A referenced subject and version. */
  datatype Marker = Marker(subject: string, version: int)

  datatype Entry = Entry(text: string, references: seq<Marker>)

  type Registry = Marker -> Option<Entry>

  datatype ClosureError = TooDeep | TooMany | FetchFailed(marker: Marker)

  /** What a run has marked, asked the registry for, and put out, in order. */
  datatype Progress = Progress(visited: set<Marker>, fetched: seq<Marker>, out: seq<Marker>)

  datatype Outcome = Done(progress: Progress) | Failed(error: ClosureError, progress: Progress)

  /** The depth-first collection, as a function of the progress so far. */
  function Collect(reg: Registry, refs: seq<Marker>, depth: nat, p: Progress): Outcome
    decreases MAX_REFERENCE_DEPTH - depth, |refs|
  {
    if refs == [] then Done(p)
    else if depth >= MAX_REFERENCE_DEPTH then Failed(TooDeep, p)
    else if refs[0] in p.visited then Collect(reg, refs[1..], depth, p)
    else
      var m := refs[0];
      var marked := p.(visited := p.visited + {m});
      if |p.out| >= MAX_REFERENCES then Failed(TooMany, marked)
      else
        var asked := marked.(fetched := p.fetched + [m]);
        if reg(m).None? then Failed(FetchFailed(m), asked)
        else
          match Collect(reg, reg(m).value.references, depth + 1, asked)
          case Failed(e, q) => Failed(e, q)
          case Done(q) => Collect(reg, refs[1..], depth, q.(out := q.out + [m]))
  }

  /** `texts` are the registry's texts for `markers`, position by position. */
  ghost predicate AreTextsOf(reg: Registry, texts: seq<string>, markers: seq<Marker>) {
    && |texts| == |markers|
    && forall i :: 0 <= i < |texts| ==> reg(markers[i]).Some? && reg(markers[i]).value.text == texts[i]
  }

  /** The mutable arguments of the recursion. */
  class ReferenceCollector {
    var visited: set<Marker>
    var out: seq<string>
    ghost var fetched: seq<Marker>
    ghost var outMarkers: seq<Marker>

    constructor ()
      ensures visited == {} && out == [] && fetched == [] && outMarkers == []
    {
      visited, out, fetched, outMarkers := {}, [], [], [];
    }

    ghost function State(): Progress
      reads this
    {
      Progress(visited, fetched, outMarkers)
    }

    /** `out` holds the texts of what the state says was put out. */
    ghost predicate Matches(reg: Registry)
      reads this
    {
      AreTextsOf(reg, out, outMarkers)
    }

    method CollectReferenceClosure(reg: Registry, references: seq<Marker>, depth: nat)
      returns (error: Option<ClosureError>)
      requires Matches(reg) && depth <= MAX_REFERENCE_DEPTH
      modifies this
      ensures Matches(reg)
      ensures Collect(reg, references, depth, old(State()))
        == match error case None => Done(State()) case Some(e) => Failed(e, State())
      decreases MAX_REFERENCE_DEPTH - depth
    {
      if references == [] {
        return None;
      }
      if depth >= MAX_REFERENCE_DEPTH {
        return Some(TooDeep);
      }
      for i := 0 to |references|
        invariant Matches(reg)
        invariant Collect(reg, references, depth, old(State())) == Collect(reg, references[i..], depth, State())
      {
        var m := references[i];
        assert references[i..][0] == m && references[i..][1..] == references[i + 1..];
        if m in visited {
          continue;
        }
        visited := visited + {m};
        if |out| >= MAX_REFERENCES {
          return Some(TooMany);
        }
        fetched := fetched + [m];
        var entry := reg(m);
        if entry.None? {
          return Some(FetchFailed(m));
        }
        error := CollectReferenceClosure(reg, entry.value.references, depth + 1);
        if error.Some? {
          return;
        }
        outMarkers := outMarkers + [m];
        out := out + [entry.value.text];
      }
      return None;
    }
  }

  // ── Reachability ────────────────────────────────────────────────────────

  ghost predicate Edge(reg: Registry, a: Marker, b: Marker) {
    reg(a).Some? && b in reg(a).value.references
  }

  ghost predicate IsPath(reg: Registry, path: seq<Marker>) {
    path != [] && forall i :: 0 <= i < |path| - 1 ==> Edge(reg, path[i], path[i + 1])
  }

  ghost predicate Reachable(reg: Registry, roots: seq<Marker>, m: Marker) {
    exists path :: IsPath(reg, path) && path[0] in roots && path[|path| - 1] == m
  }

  /** A path of at least one edge from `a` to `b`. */
  ghost predicate Leads(reg: Registry, a: Marker, b: Marker) {
    exists path :: IsPath(reg, path) && |path| >= 2 && path[0] == a && path[|path| - 1] == b
  }

  lemma RootReachable(reg: Registry, roots: seq<Marker>, m: Marker)
    requires m in roots
    ensures Reachable(reg, roots, m)
  {
    var path := [m];
    assert IsPath(reg, path) && path[|path| - 1] == m;
  }

  lemma ExtendPath(reg: Registry, path: seq<Marker>, b: Marker)
    requires IsPath(reg, path) && Edge(reg, path[|path| - 1], b)
    ensures IsPath(reg, path + [b])
  {
  }

  lemma ReachableStep(reg: Registry, roots: seq<Marker>, a: Marker, b: Marker)
    requires Reachable(reg, roots, a) && Edge(reg, a, b)
    ensures Reachable(reg, roots, b)
  {
    var path :| IsPath(reg, path) && path[0] in roots && path[|path| - 1] == a;
    ExtendPath(reg, path, b);
    assert (path + [b])[|path + [b]| - 1] == b && (path + [b])[0] in roots;
  }

  lemma LeadsEdge(reg: Registry, a: Marker, b: Marker)
    requires Edge(reg, a, b)
    ensures Leads(reg, a, b)
  {
    var path := [a, b];
    assert IsPath(reg, path) && path[0] == a && path[|path| - 1] == b;
  }

  lemma LeadsStep(reg: Registry, a: Marker, b: Marker, c: Marker)
    requires Leads(reg, a, b) && Edge(reg, b, c)
    ensures Leads(reg, a, c)
  {
    var path :| IsPath(reg, path) && |path| >= 2 && path[0] == a && path[|path| - 1] == b;
    ExtendPath(reg, path, c);
    assert (path + [c])[|path + [c]| - 1] == c && (path + [c])[0] == a;
  }

  /** Everything reachable lies in a set that holds the roots and is closed
      under references. */
  lemma {:induction false} PathStaysIn(reg: Registry, path: seq<Marker>, closed: set<Marker>)
    requires IsPath(reg, path) && path[0] in closed
    requires forall a, b :: a in closed && Edge(reg, a, b) ==> b in closed
    ensures path[|path| - 1] in closed
    decreases |path|
  {
    if |path| > 1 {
      assert Edge(reg, path[0], path[1]);
      var rest := path[1..];
      assert forall i :: 0 <= i < |rest| ==> rest[i] == path[i + 1];
      PathStaysIn(reg, rest, closed);
    }
  }

  // ── What a successful run did ───────────────────────────────────────────

  /** Each marked schema was asked for once, and what was put out was marked and
      put out once - as many times as there are schemas. */
  ghost predicate Tidy(p: Progress) {
    && Elements(p.fetched) == p.visited && |p.fetched| == |p.visited|
    && Elements(p.out) <= p.visited && |Elements(p.out)| == |p.out|
  }

  lemma {:induction false} FullSizeIsDistinct<T>(s: seq<T>)
    requires |Elements(s)| == |s|
    ensures Distinct(s)
  {
    if s != [] {
      var t, x := s[..|s| - 1], s[|s| - 1];
      assert s == t + [x];
      assert Elements(s) == Elements(t) + {x};
      ElementsBound(t);
      assert x !in t;
      FullSizeIsDistinct(t);
    }
  }

  lemma {:induction false} ElementsBound<T>(s: seq<T>)
    ensures |Elements(s)| <= |s|
  {
    if s != [] {
      var t, x := s[..|s| - 1], s[|s| - 1];
      assert s == t + [x];
      assert Elements(s) == Elements(t) + {x};
      ElementsBound(t);
    }
  }

  /** From `p` to `q`: `refs` are marked; whatever was newly marked was found by
      the registry, has its own references marked, is put out, and is reachable
      from the roots. */
  ghost predicate Covers(reg: Registry, roots: seq<Marker>, refs: seq<Marker>, p: Progress, q: Progress) {
    && p.visited <= q.visited && Elements(refs) <= q.visited
    && p.out <= q.out && p.fetched <= q.fetched
    && Elements(q.out) == Elements(p.out) + (q.visited - p.visited)
    && (forall m :: m in q.visited && m !in p.visited ==>
      && reg(m).Some? && Elements(reg(m).value.references) <= q.visited
      && Reachable(reg, roots, m))
  }

  lemma MarkKeepsTidy(p: Progress, m: Marker)
    requires Tidy(p) && m !in p.visited
    ensures Tidy(p.(visited := p.visited + {m}, fetched := p.fetched + [m]))
  {
    assert Elements(p.fetched + [m]) == Elements(p.fetched) + {m};
  }

  lemma PutKeepsTidy(p: Progress, m: Marker)
    requires Tidy(p) && m in p.visited && m !in p.out
    ensures Tidy(p.(out := p.out + [m]))
  {
    assert Elements(p.out + [m]) == Elements(p.out) + {m};
  }

  ghost predicate AllReachable(reg: Registry, roots: seq<Marker>, refs: seq<Marker>) {
    forall m :: m in refs ==> Reachable(reg, roots, m)
  }

  lemma ReferencesReachable(reg: Registry, roots: seq<Marker>, m: Marker)
    requires Reachable(reg, roots, m) && reg(m).Some?
    ensures AllReachable(reg, roots, reg(m).value.references)
  {
    forall b | b in reg(m).value.references
      ensures Reachable(reg, roots, b)
    {
      ReachableStep(reg, roots, m, b);
    }
  }

  lemma RootsReachable(reg: Registry, roots: seq<Marker>)
    ensures AllReachable(reg, roots, roots)
  {
    forall r | r in roots
      ensures Reachable(reg, roots, r)
    {
      RootReachable(reg, roots, r);
    }
  }

  /** The progress when a new schema's references are done. */
  function Inner(reg: Registry, m: Marker, depth: nat, p: Progress): Outcome
    requires depth < MAX_REFERENCE_DEPTH && reg(m).Some?
  {
    Collect(reg, reg(m).value.references, depth + 1, p.(visited := p.visited + {m}, fetched := p.fetched + [m]))
  }

  /** A run that got past a new schema was done with its references first. */
  lemma NewIsDone(reg: Registry, refs: seq<Marker>, depth: nat, p: Progress)
    requires refs != [] && refs[0] !in p.visited && Collect(reg, refs, depth, p).Done?
    ensures depth < MAX_REFERENCE_DEPTH && |p.out| < MAX_REFERENCES && reg(refs[0]).Some?
    ensures Inner(reg, refs[0], depth, p).Done?
    ensures var q := Inner(reg, refs[0], depth, p).progress;
      Collect(reg, refs, depth, p) == Collect(reg, refs[1..], depth, q.(out := q.out + [refs[0]]))
  {
  }

  lemma {:induction false} CollectCovers(reg: Registry, roots: seq<Marker>, refs: seq<Marker>, depth: nat, p: Progress)
    requires Elements(p.out) <= p.visited && depth <= MAX_REFERENCE_DEPTH && AllReachable(reg, roots, refs)
    ensures var r := Collect(reg, refs, depth, p);
      r.Done? ==> Elements(r.progress.out) <= r.progress.visited && Covers(reg, roots, refs, p, r.progress)
    decreases MAX_REFERENCE_DEPTH - depth, |refs|, 1
  {
    var r := Collect(reg, refs, depth, p);
    if refs != [] && r.Done? {
      var m, rest := refs[0], refs[1..];
      assert refs == [m] + rest;
      if m in p.visited {
        CollectCovers(reg, roots, rest, depth, p);
        CoversVisited(reg, roots, m, rest, p, r.progress);
      } else {
        NewIsDone(reg, refs, depth, p);
        NewCovers(reg, roots, refs, depth, p);
        var q := Inner(reg, m, depth, p).progress;
        CollectCovers(reg, roots, rest, depth, q.(out := q.out + [m]));
        CoversThen(reg, roots, m, rest, p, q.(out := q.out + [m]), r.progress);
      }
    }
  }

  lemma {:induction false} NewCovers(reg: Registry, roots: seq<Marker>, refs: seq<Marker>, depth: nat, p: Progress)
    requires Elements(p.out) <= p.visited && refs != [] && AllReachable(reg, roots, refs) && refs[0] !in p.visited
    requires depth < MAX_REFERENCE_DEPTH && reg(refs[0]).Some? && Inner(reg, refs[0], depth, p).Done?
    ensures var m := refs[0]; var q := Inner(reg, m, depth, p).progress; var put := q.(out := q.out + [m]);
      && m !in q.out && m in q.visited && Elements(put.out) <= put.visited && Covers(reg, roots, [m], p, put)
      && Covers(reg, roots, reg(m).value.references,
           p.(visited := p.visited + {m}, fetched := p.fetched + [m]), q)
    decreases MAX_REFERENCE_DEPTH - depth, |refs|, 0
  {
    var m := refs[0];
    ReferencesReachable(reg, roots, m);
    CollectCovers(reg, roots, reg(m).value.references, depth + 1,
      p.(visited := p.visited + {m}, fetched := p.fetched + [m]));
    CoversPut(reg, roots, p, m, Inner(reg, m, depth, p).progress);
  }

  lemma CoversVisited(reg: Registry, roots: seq<Marker>, m: Marker, rest: seq<Marker>, p: Progress, q: Progress)
    requires m in p.visited && Covers(reg, roots, rest, p, q)
    ensures Covers(reg, roots, [m] + rest, p, q)
  {
    assert Elements([m] + rest) == {m} + Elements(rest);
  }

  /** Marking `m`, covering its references, and putting it out covers `m`. */
  lemma CoversPut(reg: Registry, roots: seq<Marker>, p: Progress, m: Marker, q: Progress)
    requires Elements(p.out) <= p.visited && Elements(q.out) <= q.visited
    requires m !in p.visited && reg(m).Some? && Reachable(reg, roots, m)
    requires Covers(reg, roots, reg(m).value.references,
      p.(visited := p.visited + {m}, fetched := p.fetched + [m]), q)
    ensures Elements(q.out + [m]) <= q.visited && m !in q.out
    ensures Covers(reg, roots, [m], p, q.(out := q.out + [m]))
  {
    assert m !in Elements(q.out);
    assert Elements(q.out + [m]) == Elements(q.out) + {m};
    assert p.fetched <= p.fetched + [m] <= q.fetched;
  }

  /** Every schema is asked for once and put out once. */
  lemma {:induction false} CollectTidy(reg: Registry, roots: seq<Marker>, refs: seq<Marker>, depth: nat, p: Progress)
    requires Tidy(p) && depth <= MAX_REFERENCE_DEPTH && AllReachable(reg, roots, refs)
    ensures var r := Collect(reg, refs, depth, p); r.Done? ==> Tidy(r.progress)
    decreases MAX_REFERENCE_DEPTH - depth, |refs|, 1
  {
    if refs != [] && Collect(reg, refs, depth, p).Done? {
      if refs[0] in p.visited {
        CollectTidy(reg, roots, refs[1..], depth, p);
      } else {
        NewIsDone(reg, refs, depth, p);
        NewTidy(reg, roots, refs, depth, p);
        var q := Inner(reg, refs[0], depth, p).progress;
        CollectTidy(reg, roots, refs[1..], depth, q.(out := q.out + [refs[0]]));
      }
    }
  }

  lemma {:induction false} NewTidy(reg: Registry, roots: seq<Marker>, refs: seq<Marker>, depth: nat, p: Progress)
    requires Tidy(p) && refs != [] && AllReachable(reg, roots, refs) && refs[0] !in p.visited
    requires depth < MAX_REFERENCE_DEPTH && reg(refs[0]).Some? && Inner(reg, refs[0], depth, p).Done?
    ensures var q := Inner(reg, refs[0], depth, p).progress; Tidy(q.(out := q.out + [refs[0]]))
    decreases MAX_REFERENCE_DEPTH - depth, |refs|, 0
  {
    var m := refs[0];
    NewCovers(reg, roots, refs, depth, p);
    ReferencesReachable(reg, roots, m);
    MarkKeepsTidy(p, m);
    CollectTidy(reg, roots, reg(m).value.references, depth + 1,
      p.(visited := p.visited + {m}, fetched := p.fetched + [m]));
    PutKeepsTidy(Inner(reg, m, depth, p).progress, m);
  }

  lemma CoversThen(reg: Registry, roots: seq<Marker>, m: Marker, rest: seq<Marker>, p: Progress, q: Progress, r: Progress)
    requires Covers(reg, roots, [m], p, q) && Covers(reg, roots, rest, q, r)
    ensures Covers(reg, roots, [m] + rest, p, r)
  {
    assert Elements([m] + rest) == Elements([m]) + Elements(rest);
  }

  function Start(): Progress {
    Progress({}, [], [])
  }

  /** A successful closure asked the registry for exactly the reachable schemas,
      each once, and put each of them out once. */
  lemma ClosureIsExact(reg: Registry, roots: seq<Marker>, m: Marker)
    requires Collect(reg, roots, 0, Start()).Done?
    ensures var q := Collect(reg, roots, 0, Start()).progress;
      && Distinct(q.fetched) && Distinct(q.out)
      && (m in q.fetched <==> Reachable(reg, roots, m))
      && (m in q.out <==> Reachable(reg, roots, m))
  {
    RootsReachable(reg, roots);
    CollectTidy(reg, roots, roots, 0, Start());
    CollectCovers(reg, roots, roots, 0, Start());
    var q := Collect(reg, roots, 0, Start()).progress;
    FullSizeIsDistinct(q.fetched);
    FullSizeIsDistinct(q.out);
    assert Elements(q.out) == q.visited;
    assert m in q.fetched <==> m in Elements(q.fetched);
    assert m in q.out <==> m in Elements(q.out);
    if Reachable(reg, roots, m) {
      CoveredIsClosed(reg, roots, q, m);
    }
  }

  lemma CoveredIsClosed(reg: Registry, roots: seq<Marker>, q: Progress, m: Marker)
    requires Covers(reg, roots, roots, Start(), q) && Reachable(reg, roots, m)
    ensures m in q.visited
  {
    var path :| IsPath(reg, path) && path[0] in roots && path[|path| - 1] == m;
    assert path[0] in Elements(roots);
    forall a, b | a in q.visited && Edge(reg, a, b)
      ensures b in q.visited
    {
      assert b in Elements(reg(a).value.references);
    }
    PathStaysIn(reg, path, q.visited);
  }

  // ── How much it can put out ─────────────────────────────────────────────

  /** The check precedes the recursion and the push follows it, so each level
      of nesting can add one beyond the limit. */
  lemma {:induction false} CollectSize(reg: Registry, refs: seq<Marker>, depth: nat, p: Progress)
    requires depth <= MAX_REFERENCE_DEPTH
    requires |p.out| <= MAX_REFERENCES + MAX_REFERENCE_DEPTH - 1 - depth || depth == MAX_REFERENCE_DEPTH
    ensures var r := Collect(reg, refs, depth, p);
      r.Done? ==> |r.progress.out| <= MAX_REFERENCES + MAX_REFERENCE_DEPTH - 1 - depth || r.progress == p
    decreases MAX_REFERENCE_DEPTH - depth, |refs|
  {
    if refs != [] && depth < MAX_REFERENCE_DEPTH {
      var m, rest := refs[0], refs[1..];
      if m in p.visited {
        CollectSize(reg, rest, depth, p);
      } else if |p.out| < MAX_REFERENCES && reg(m).Some? {
        var asked := p.(visited := p.visited + {m}, fetched := p.fetched + [m]);
        CollectSize(reg, reg(m).value.references, depth + 1, asked);
        var inner := Collect(reg, reg(m).value.references, depth + 1, asked);
        if inner.Done? {
          CollectSize(reg, rest, depth, inner.progress.(out := inner.progress.out + [m]));
        }
      }
    }
  }

  lemma ClosureSize(reg: Registry, roots: seq<Marker>)
    ensures var r := Collect(reg, roots, 0, Start());
      r.Done? ==> |r.progress.out| <= MAX_REFERENCES + MAX_REFERENCE_DEPTH - 1
  {
    CollectSize(reg, roots, 0, Start());
  }

  /** What comes back is as many schemas as are reachable, so the documented
      limit holds exactly when no more than that are. */
  lemma SizeIsReachable(reg: Registry, roots: seq<Marker>, reachable: set<Marker>)
    requires Collect(reg, roots, 0, Start()).Done?
    requires forall m :: m in reachable <==> Reachable(reg, roots, m)
    ensures var out := Collect(reg, roots, 0, Start()).progress.out;
      |out| == |reachable| && (|out| <= MAX_REFERENCES <==> |reachable| <= MAX_REFERENCES)
  {
    var q := Collect(reg, roots, 0, Start()).progress;
    forall m
      ensures m in q.out <==> m in reachable
    {
      ClosureIsExact(reg, roots, m);
    }
    assert Distinct(q.out) by {
      ClosureIsExact(reg, roots, Marker("", 0));
    }
    assert Elements(q.out) == reachable;
    DistinctSize(q.out);
  }

  // ... and by how deep references nest.

  /** A chain of references from a root in which no schema occurs twice. */
  ghost predicate IsChain(reg: Registry, roots: seq<Marker>, path: seq<Marker>) {
    IsPath(reg, path) && path[0] in roots && Distinct(path)
  }

  /** No chain is longer than `d`. */
  ghost predicate NestsWithin(reg: Registry, roots: seq<Marker>, d: nat) {
    forall path :: IsChain(reg, roots, path) ==> |path| <= d
  }

  /** The schemas whose recursion is under way are a chain, and `refs` are
      references of the last of them. */
  ghost predicate OnStack(reg: Registry, roots: seq<Marker>, stack: seq<Marker>, refs: seq<Marker>, visited: set<Marker>) {
    && Elements(stack) <= visited
    && (if stack == [] then Elements(refs) <= Elements(roots)
        else IsChain(reg, roots, stack) && forall b :: b in refs ==> Edge(reg, stack[|stack| - 1], b))
  }

  lemma StackTail(reg: Registry, roots: seq<Marker>, stack: seq<Marker>, refs: seq<Marker>,
      visited: set<Marker>, visited': set<Marker>)
    requires OnStack(reg, roots, stack, refs, visited) && refs != [] && visited <= visited'
    ensures OnStack(reg, roots, stack, refs[1..], visited')
  {
    assert Elements(refs[1..]) <= Elements(refs);
    assert forall b :: b in refs[1..] ==> b in refs;
  }

  lemma StackPush(reg: Registry, roots: seq<Marker>, stack: seq<Marker>, refs: seq<Marker>, visited: set<Marker>)
    requires OnStack(reg, roots, stack, refs, visited) && refs != [] && refs[0] !in visited && reg(refs[0]).Some?
    ensures IsChain(reg, roots, stack + [refs[0]])
    ensures OnStack(reg, roots, stack + [refs[0]], reg(refs[0]).value.references, visited + {refs[0]})
  {
    var m := refs[0];
    assert m in Elements(refs);
    assert m !in Elements(stack);
    assert (stack + [m])[0] in roots;
    if stack != [] {
      ExtendPath(reg, stack, m);
    }
    assert Elements(stack + [m]) == Elements(stack) + {m};
  }

  lemma {:induction false} CollectSizeWithin(reg: Registry, roots: seq<Marker>, stack: seq<Marker>, refs: seq<Marker>, p: Progress, d: nat)
    requires NestsWithin(reg, roots, d) && |stack| <= d && |stack| <= MAX_REFERENCE_DEPTH
    requires OnStack(reg, roots, stack, refs, p.visited)
    requires |p.out| <= MAX_REFERENCES - 1 + d - |stack| || |stack| == d
    ensures var r := Collect(reg, refs, |stack|, p);
      r.Done? ==> (
        && p.visited <= r.progress.visited
        && (|r.progress.out| <= MAX_REFERENCES - 1 + d - |stack| || r.progress == p))
    decreases MAX_REFERENCE_DEPTH - |stack|, |refs|
  {
    if refs != [] && |stack| < MAX_REFERENCE_DEPTH {
      var m, rest := refs[0], refs[1..];
      if m in p.visited {
        StackTail(reg, roots, stack, refs, p.visited, p.visited);
        CollectSizeWithin(reg, roots, stack, rest, p, d);
      } else if |p.out| < MAX_REFERENCES && reg(m).Some? {
        var asked := p.(visited := p.visited + {m}, fetched := p.fetched + [m]);
        StackPush(reg, roots, stack, refs, p.visited);
        CollectSizeWithin(reg, roots, stack + [m], reg(m).value.references, asked, d);
        var inner := Collect(reg, reg(m).value.references, |stack| + 1, asked);
        if inner.Done? {
          StackTail(reg, roots, stack, refs, p.visited, inner.progress.visited);
          CollectSizeWithin(reg, roots, stack, rest, inner.progress.(out := inner.progress.out + [m]), d);
          CollectNew(reg, refs, |stack|, p);
        }
      }
    }
  }

  /** The limit grows by one for each level of nesting after the first. */
  lemma ClosureSizeWithin(reg: Registry, roots: seq<Marker>, d: nat)
    requires NestsWithin(reg, roots, d)
    ensures var r := Collect(reg, roots, 0, Start());
      r.Done? ==> |r.progress.out| <= MAX_REFERENCES - 1 + d
  {
    CollectSizeWithin(reg, roots, [], roots, Start(), d);
  }

  /** What marking a new schema, recursing and putting it out comes to. */
  lemma CollectNew(reg: Registry, refs: seq<Marker>, depth: nat, p: Progress)
    requires refs != [] && depth < MAX_REFERENCE_DEPTH && refs[0] !in p.visited
    requires |p.out| < MAX_REFERENCES && reg(refs[0]).Some?
    ensures var m := refs[0];
      var inner := Collect(reg, reg(m).value.references, depth + 1,
                           p.(visited := p.visited + {m}, fetched := p.fetched + [m]));
      inner.Done? ==>
        Collect(reg, refs, depth, p)
        == Collect(reg, refs[1..], depth, inner.progress.(out := inner.progress.out + [m]))
  {
  }

  // ... and both bounds are met: 255 leaves, then a chain `d` deep.

  function Leaf(i: nat): Marker { Marker("leaf", i) }

  function Link(i: nat): Marker { Marker("link", i) }

  function DeepTo(d: nat): Registry {
    (m: Marker) =>
      Some(Entry("", if m.subject == "link" && 0 <= m.version < d - 1 then [Link(m.version + 1)] else []))
  }

  function Leaves(i: nat): seq<Marker>
    decreases 255 - i
  {
    if i >= 255 then [Link(0)] else [Leaf(i)] + Leaves(i + 1)
  }

  lemma {:induction false} LeavesElements(i: nat, m: Marker)
    requires m in Leaves(i)
    ensures m == Link(0) || m.subject == "leaf"
    decreases 255 - i
  {
    if i < 255 && m != Leaf(i) {
      assert m in Leaves(i + 1);
      LeavesElements(i + 1, m);
    }
  }

  lemma {:induction false} ChainOfLinks(d: nat, path: seq<Marker>, i: nat)
    requires IsPath(DeepTo(d), path) && path[0] == Link(0) && i < |path|
    ensures path[i] == Link(i) && (i > 0 ==> i < d)
  {
    if i > 0 {
      ChainOfLinks(d, path, i - 1);
      assert Edge(DeepTo(d), path[i - 1], path[i - 1 + 1]);
    }
  }

  lemma FirstEdge(reg: Registry, path: seq<Marker>)
    requires IsPath(reg, path) && |path| > 1
    ensures exists b :: Edge(reg, path[0], b)
  {
    assert Edge(reg, path[0], path[0 + 1]);
  }

  lemma DeepPathIsShort(d: nat, path: seq<Marker>)
    requires d >= 1 && IsPath(DeepTo(d), path) && (path[0] == Link(0) || path[0].subject == "leaf")
    ensures |path| <= d
  {
    if path[0] == Link(0) {
      ChainOfLinks(d, path, |path| - 1);
    } else if |path| > 1 {
      FirstEdge(DeepTo(d), path);
    }
  }

  lemma DeepToNests(d: nat)
    requires d >= 1
    ensures NestsWithin(DeepTo(d), Leaves(0), d)
  {
    forall path | IsChain(DeepTo(d), Leaves(0), path)
      ensures |path| <= d
    {
      LeavesElements(0, path[0]);
      DeepPathIsShort(d, path);
    }
  }

  lemma {:induction false} ChainAdds(d: nat, k: nat, p: Progress)
    requires k < d <= MAX_REFERENCE_DEPTH && |p.out| == 255 && forall j: nat :: k <= j ==> Link(j) !in p.visited
    ensures var r := Collect(DeepTo(d), [Link(k)], k, p);
      r.Done? && |r.progress.out| == 255 + (d - k)
    decreases d - k
  {
    var asked := p.(visited := p.visited + {Link(k)}, fetched := p.fetched + [Link(k)]);
    assert [Link(k)][1..] == [];
    if k < d - 1 {
      ChainAdds(d, k + 1, asked);
    }
  }

  lemma {:induction false} LeavesAdd(d: nat, i: nat, p: Progress)
    requires 1 <= d <= MAX_REFERENCE_DEPTH && i <= 255 && |p.out| == i
    requires forall j: nat :: Link(j) !in p.visited && (i <= j ==> Leaf(j) !in p.visited)
    ensures var r := Collect(DeepTo(d), Leaves(i), 0, p);
      r.Done? && |r.progress.out| == MAX_REFERENCES - 1 + d
    decreases 255 - i
  {
    if i == 255 {
      ChainAdds(d, 0, p);
    } else {
      var m := Leaf(i);
      var put := Progress(p.visited + {m}, p.fetched + [m], p.out + [m]);
      assert Leaves(i)[0] == m && Leaves(i)[1..] == Leaves(i + 1);
      LeavesAdd(d, i + 1, put);
    }
  }

  /** For every depth up to the limit some registry nests that deep and no
      deeper, and reaches the bound. */
  lemma ClosureSizeIsMet(d: nat)
    requires 1 <= d <= MAX_REFERENCE_DEPTH
    ensures NestsWithin(DeepTo(d), Leaves(0), d)
    ensures var r := Collect(DeepTo(d), Leaves(0), 0, Start());
      r.Done? && |r.progress.out| == MAX_REFERENCES - 1 + d
  {
    DeepToNests(d);
    LeavesAdd(d, 0, Start());
  }

  /** So more than the documented 256 schemas can come back, up to 287. */
  lemma ClosureSizeIsTight()
    ensures var r := Collect(DeepTo(MAX_REFERENCE_DEPTH), Leaves(0), 0, Start());
      r.Done? && |r.progress.out| == 287 > MAX_REFERENCES
  {
    ClosureSizeIsMet(MAX_REFERENCE_DEPTH);
  }

  ghost predicate WithinLimit(reg: Registry, roots: seq<Marker>) {
    var r := Collect(reg, roots, 0, Start());
    r.Done? ==> |r.progress.out| <= MAX_REFERENCES
  }

  /** The documented limit holds for every registry that nests within `d` exactly
      when no referenced schema has references of its own. */
  lemma LimitHoldsIffFlat(d: nat)
    ensures (forall reg, roots :: NestsWithin(reg, roots, d) ==> WithinLimit(reg, roots)) <==> d <= 1
  {
    if d <= 1 {
      forall reg, roots | NestsWithin(reg, roots, d)
        ensures WithinLimit(reg, roots)
      {
        ClosureSizeWithin(reg, roots, d);
      }
    } else {
      ClosureSizeIsMet(2);
      assert NestsWithin(DeepTo(2), Leaves(0), d);
      assert !WithinLimit(DeepTo(2), Leaves(0));
    }
  }

  // ── The order of what it puts out ───────────────────────────────────────

  /** Every schema is put out after the schemas it references. */
  ghost predicate DependenciesFirst(reg: Registry, out: seq<Marker>) {
    forall i, b :: 0 <= i < |out| && Edge(reg, out[i], b) ==> b in out[..i]
  }

  /** No reachable schema transitively references itself. */
  ghost predicate NoReachableCycle(reg: Registry, roots: seq<Marker>) {
    forall m :: Reachable(reg, roots, m) ==> !Leads(reg, m, m)
  }

  /** Marked but not yet put out: the schemas whose recursion is under way. Each
      of them leads to everything in `refs`. */
  ghost predicate Pending(reg: Registry, refs: seq<Marker>, p: Progress) {
    forall g, b :: g in p.visited && g !in p.out && b in refs ==> Leads(reg, g, b)
  }

  /** With `m`'s references covered, they are all out already - a pending one
      would lie on a cycle with `m`. */
  lemma ReferencesAreOut(reg: Registry, roots: seq<Marker>, m: Marker, p: Progress, q: Progress, b: Marker)
    requires NoReachableCycle(reg, roots) && Reachable(reg, roots, m) && Edge(reg, m, b)
    requires Covers(reg, roots, reg(m).value.references, p, q) && m in p.visited
    requires forall g :: g in p.visited && g !in p.out && g != m ==> Leads(reg, g, m)
    ensures b in q.out
  {
    assert b in Elements(reg(m).value.references);
    assert b in q.visited;
    if b !in Elements(q.out) {
      assert b in p.visited && b !in p.out;
      if b == m {
        LeadsEdge(reg, m, m);
      } else {
        ReachableStep(reg, roots, m, b);
        LeadsStep(reg, b, m, b);
      }
      assert false;
    }
  }

  lemma PutKeepsOrder(reg: Registry, out: seq<Marker>, m: Marker)
    requires DependenciesFirst(reg, out) && forall b :: Edge(reg, m, b) ==> b in out
    ensures DependenciesFirst(reg, out + [m])
  {
    var out' := out + [m];
    forall i, b | 0 <= i < |out'| && Edge(reg, out'[i], b)
      ensures b in out'[..i]
    {
      assert out'[..i] == out[..i];
      assert i == |out| ==> out[..i] == out;
    }
  }

  /** The references of a new schema are out before it, and what is pending
      afterwards was before. */
  lemma OrderedPut(reg: Registry, roots: seq<Marker>, refs: seq<Marker>, depth: nat, p: Progress)
    requires Elements(p.out) <= p.visited && NoReachableCycle(reg, roots)
    requires refs != [] && refs[0] !in p.visited && AllReachable(reg, roots, refs) && Pending(reg, refs, p)
    requires depth < MAX_REFERENCE_DEPTH && reg(refs[0]).Some? && Inner(reg, refs[0], depth, p).Done?
    ensures var q := Inner(reg, refs[0], depth, p).progress; var put := q.(out := q.out + [refs[0]]);
      && (forall b :: Edge(reg, refs[0], b) ==> b in q.out)
      && Elements(put.out) <= put.visited && Pending(reg, refs[1..], put)
  {
    var m := refs[0];
    var q := Inner(reg, m, depth, p).progress;
    NewCovers(reg, roots, refs, depth, p);
    AllReferencesAreOut(reg, roots, refs, p, q);
    PendingAfter(reg, roots, refs, p, q.(out := q.out + [m]));
  }

  lemma {:induction false} CollectOrders(reg: Registry, roots: seq<Marker>, refs: seq<Marker>, depth: nat, p: Progress)
    requires Elements(p.out) <= p.visited && depth <= MAX_REFERENCE_DEPTH && NoReachableCycle(reg, roots)
    requires AllReachable(reg, roots, refs)
    requires DependenciesFirst(reg, p.out) && Pending(reg, refs, p)
    ensures var r := Collect(reg, refs, depth, p);
      r.Done? ==> DependenciesFirst(reg, r.progress.out)
    decreases MAX_REFERENCE_DEPTH - depth, |refs|, 1
  {
    if refs != [] && Collect(reg, refs, depth, p).Done? {
      if refs[0] in p.visited {
        CollectOrders(reg, roots, refs[1..], depth, p);
      } else {
        NewIsDone(reg, refs, depth, p);
        NewOrders(reg, roots, refs, depth, p);
        OrderedPut(reg, roots, refs, depth, p);
        var q := Inner(reg, refs[0], depth, p).progress;
        CollectOrders(reg, roots, refs[1..], depth, q.(out := q.out + [refs[0]]));
      }
    }
  }

  lemma {:induction false} NewOrders(reg: Registry, roots: seq<Marker>, refs: seq<Marker>, depth: nat, p: Progress)
    requires Elements(p.out) <= p.visited && NoReachableCycle(reg, roots)
    requires refs != [] && refs[0] !in p.visited && AllReachable(reg, roots, refs)
    requires DependenciesFirst(reg, p.out) && Pending(reg, refs, p)
    requires depth < MAX_REFERENCE_DEPTH && reg(refs[0]).Some? && Inner(reg, refs[0], depth, p).Done?
    ensures DependenciesFirst(reg, Inner(reg, refs[0], depth, p).progress.out + [refs[0]])
    decreases MAX_REFERENCE_DEPTH - depth, |refs|, 0
  {
    var m := refs[0];
    ReferencesReachable(reg, roots, m);
    PendingDeeper(reg, refs, p);
    CollectOrders(reg, roots, reg(m).value.references, depth + 1,
      p.(visited := p.visited + {m}, fetched := p.fetched + [m]));
    OrderedPut(reg, roots, refs, depth, p);
    PutKeepsOrder(reg, Inner(reg, m, depth, p).progress.out, m);
  }

  lemma AllReferencesAreOut(reg: Registry, roots: seq<Marker>, refs: seq<Marker>, p: Progress, q: Progress)
    requires NoReachableCycle(reg, roots) && refs != [] && AllReachable(reg, roots, refs) && Pending(reg, refs, p)
    requires reg(refs[0]).Some?
    requires Covers(reg, roots, reg(refs[0]).value.references,
      p.(visited := p.visited + {refs[0]}, fetched := p.fetched + [refs[0]]), q)
    ensures forall b :: Edge(reg, refs[0], b) ==> b in q.out
  {
    var m := refs[0];
    forall b | Edge(reg, m, b)
      ensures b in q.out
    {
      ReferencesAreOut(reg, roots, m, p.(visited := p.visited + {m}, fetched := p.fetched + [m]), q, b);
    }
  }

  lemma PendingDeeper(reg: Registry, refs: seq<Marker>, p: Progress)
    requires refs != [] && Pending(reg, refs, p) && reg(refs[0]).Some?
    ensures Pending(reg, reg(refs[0]).value.references,
      p.(visited := p.visited + {refs[0]}, fetched := p.fetched + [refs[0]]))
  {
    var m := refs[0];
    forall g, b | g in p.visited + {m} && g !in p.out && b in reg(m).value.references
      ensures Leads(reg, g, b)
    {
      if g == m {
        LeadsEdge(reg, m, b);
      } else {
        LeadsStep(reg, g, m, b);
      }
    }
  }

  /** What was newly marked is out, so the pending schemas are the same. */
  lemma PendingAfter(reg: Registry, roots: seq<Marker>, refs: seq<Marker>, p: Progress, q: Progress)
    requires refs != [] && Pending(reg, refs, p) && Covers(reg, roots, [refs[0]], p, q)
    ensures Pending(reg, refs[1..], q)
  {
    forall g, b | g in q.visited && g !in q.out && b in refs[1..]
      ensures Leads(reg, g, b)
    {
      assert g !in Elements(q.out);
      assert g in p.visited && g !in p.out;
    }
  }

  /** Along a path, positions in a dependencies-first list only go down. */
  lemma {:induction false} OrderedPathDescends(reg: Registry, out: seq<Marker>, path: seq<Marker>, i: nat)
    requires DependenciesFirst(reg, out) && IsPath(reg, path) && i < |out| && out[i] == path[0]
    ensures |path| >= 2 ==> path[|path| - 1] in out[..i]
    decreases |path|
  {
    if |path| >= 2 {
      assert Edge(reg, out[i], path[1]);
      var j :| 0 <= j < i && out[j] == path[1];
      var rest := path[1..];
      assert forall k :: 0 <= k < |rest| ==> rest[k] == path[k + 1];
      OrderedPathDescends(reg, out, rest, j);
      if |rest| >= 2 {
        assert rest[|rest| - 1] in out[..j];
        assert out[..j] <= out[..i];
      }
    }
  }

  /** A successful closure is in dependency order exactly when nothing reachable
      is on a reference cycle. */
  lemma ClosureOrderedIffAcyclic(reg: Registry, roots: seq<Marker>)
    requires Collect(reg, roots, 0, Start()).Done?
    ensures DependenciesFirst(reg, Collect(reg, roots, 0, Start()).progress.out) <==> NoReachableCycle(reg, roots)
  {
    var out := Collect(reg, roots, 0, Start()).progress.out;
    RootsReachable(reg, roots);
    if NoReachableCycle(reg, roots) {
      CollectOrders(reg, roots, roots, 0, Start());
    }
    if DependenciesFirst(reg, out) {
      forall m | Reachable(reg, roots, m)
        ensures !Leads(reg, m, m)
      {
        OrderedHasNoCycle(reg, roots, m);
      }
    }
  }

  lemma OrderedHasNoCycle(reg: Registry, roots: seq<Marker>, m: Marker)
    requires Collect(reg, roots, 0, Start()).Done? && Reachable(reg, roots, m)
    requires DependenciesFirst(reg, Collect(reg, roots, 0, Start()).progress.out)
    ensures !Leads(reg, m, m)
  {
    ClosureIsExact(reg, roots, m);
    var out := Collect(reg, roots, 0, Start()).progress.out;
    var i :| 0 <= i < |out| && out[i] == m;
    if Leads(reg, m, m) {
      var path :| IsPath(reg, path) && |path| >= 2 && path[0] == m && path[|path| - 1] == m;
      OrderedPathDescends(reg, out, path, i);
      assert false;
    }
  }

  // ── When it is bound to succeed ─────────────────────────────────────────

  ghost predicate AllIn(refs: seq<Marker>, world: set<Marker>) {
    forall b :: b in refs ==> b in world
  }

  /** A set of fetchable schemas, closed under references. */
  ghost predicate FetchableAndClosed(reg: Registry, world: set<Marker>) {
    forall m :: m in world ==> reg(m).Some? && AllIn(reg(m).value.references, world)
  }

  /** As many marked schemas are not yet out as the recursion is deep. */
  ghost predicate Balanced(world: set<Marker>, depth: nat, p: Progress) {
    p.visited <= world && |p.out| + depth == |p.visited|
  }

  lemma StaysSmall(world: set<Marker>, depth: nat, p: Progress)
    requires Balanced(world, depth, p)
    ensures |p.visited| <= |world|
    ensures |p.visited| == |world| ==> p.visited == world
  {
    SubsetSize(p.visited, world);
  }

  lemma SmallerLeft(world: set<Marker>, a: set<Marker>, b: set<Marker>, m: Marker)
    requires m in world && m !in a && m in b && a <= b
    ensures |world - b| < |world - a|
  {
    SubsetSize(world - b, world - a - {m});
  }

  /** A chain as long as the depth limit ends in a schema without references. */
  ghost predicate ShallowEnough(reg: Registry, roots: seq<Marker>) {
    forall path :: IsChain(reg, roots, path) && |path| >= MAX_REFERENCE_DEPTH ==> IsLeaf(reg, path[|path| - 1])
  }

  predicate IsLeaf(reg: Registry, m: Marker) {
    reg(m).Some? ==> reg(m).value.references == []
  }

  lemma StackIsShallow(reg: Registry, roots: seq<Marker>, stack: seq<Marker>, refs: seq<Marker>, visited: set<Marker>)
    requires ShallowEnough(reg, roots) && OnStack(reg, roots, stack, refs, visited) && refs != []
    ensures |stack| < MAX_REFERENCE_DEPTH
  {
    assert refs[0] in refs;
  }

  /** Inside a world of at most 256 schemas whose chains respect the depth limit
      neither limit is met, whether or not schemas reference each other in
      cycles. */
  lemma {:induction false} CollectSucceeds(reg: Registry, roots: seq<Marker>, world: set<Marker>, stack: seq<Marker>, refs: seq<Marker>, p: Progress)
    requires FetchableAndClosed(reg, world) && |world| <= MAX_REFERENCES && ShallowEnough(reg, roots)
    requires AllIn(refs, world) && Balanced(world, |stack|, p) && OnStack(reg, roots, stack, refs, p.visited)
    ensures var r := Collect(reg, refs, |stack|, p);
      r.Done? && p.visited <= r.progress.visited && Balanced(world, |stack|, r.progress)
    decreases |world - p.visited|, |refs|
  {
    StaysSmall(world, |stack|, p);
    if refs != [] {
      StackIsShallow(reg, roots, stack, refs, p.visited);
      var m := refs[0];
      if m in p.visited {
        StackTail(reg, roots, stack, refs, p.visited, p.visited);
        CollectSucceeds(reg, roots, world, stack, refs[1..], p);
      } else {
        var asked := p.(visited := p.visited + {m}, fetched := p.fetched + [m]);
        SmallerLeft(world, p.visited, asked.visited, m);
        StackPush(reg, roots, stack, refs, p.visited);
        CollectSucceeds(reg, roots, world, stack + [m], reg(m).value.references, asked);
        var q := Collect(reg, reg(m).value.references, |stack| + 1, asked).progress;
        SmallerLeft(world, p.visited, q.visited, m);
        StackTail(reg, roots, stack, refs, p.visited, q.visited);
        CollectSucceeds(reg, roots, world, stack, refs[1..], q.(out := q.out + [m]));
        CollectNew(reg, refs, |stack|, p);
      }
    }
  }

  /** A closure of at most 256 schemas, all present in the registry, is always
      collected when its chains respect the depth limit, cyclic or not. */
  lemma ClosureSucceeds(reg: Registry, roots: seq<Marker>, world: set<Marker>)
    requires FetchableAndClosed(reg, world) && AllIn(roots, world)
    requires |world| <= MAX_REFERENCES && ShallowEnough(reg, roots)
    ensures Collect(reg, roots, 0, Start()).Done?
  {
    CollectSucceeds(reg, roots, world, [], roots, Start());
  }

  /** Fewer than 32 schemas cannot nest too deep. */
  lemma SmallClosureSucceeds(reg: Registry, roots: seq<Marker>, world: set<Marker>)
    requires FetchableAndClosed(reg, world) && AllIn(roots, world) && |world| < MAX_REFERENCE_DEPTH
    ensures Collect(reg, roots, 0, Start()).Done?
  {
    forall path | IsChain(reg, roots, path)
      ensures |path| < MAX_REFERENCE_DEPTH
    {
      forall k | 0 <= k < |path|
        ensures path[k] in world
      {
        ChainStaysIn(reg, roots, world, path, k);
      }
      SubsetSize(Elements(path), world);
      DistinctSize(path);
    }
    ClosureSucceeds(reg, roots, world);
  }

  lemma {:induction false} ChainStaysIn(reg: Registry, roots: seq<Marker>, world: set<Marker>, path: seq<Marker>, k: nat)
    requires FetchableAndClosed(reg, world) && AllIn(roots, world) && IsChain(reg, roots, path) && k < |path|
    ensures path[k] in world
  {
    if k > 0 {
      ChainStaysIn(reg, roots, world, path, k - 1);
      assert Edge(reg, path[k - 1], path[k - 1 + 1]);
    }
  }

  // ── What a failure says ─────────────────────────────────────────────────

  /** A failed fetch is of a reachable schema the registry does not have; too many
      means that more than 256 are reachable, too deep that some chain of 32 goes
      on. */
  ghost predicate ErrorIsTrue(reg: Registry, roots: seq<Marker>, error: ClosureError) {
    match error
    case FetchFailed(m) => Reachable(reg, roots, m) && reg(m).None?
    case TooMany => exists ms: seq<Marker> ::
      Distinct(ms) && |ms| > MAX_REFERENCES && AllReachable(reg, roots, ms)
    case TooDeep => exists path ::
      IsChain(reg, roots, path) && |path| == MAX_REFERENCE_DEPTH && !IsLeaf(reg, path[|path| - 1])
  }

  lemma FullStackIsTooDeep(reg: Registry, roots: seq<Marker>, stack: seq<Marker>, refs: seq<Marker>, visited: set<Marker>)
    requires OnStack(reg, roots, stack, refs, visited) && refs != [] && |stack| == MAX_REFERENCE_DEPTH
    ensures ErrorIsTrue(reg, roots, TooDeep)
  {
    assert refs[0] in refs;
    assert Edge(reg, stack[|stack| - 1], refs[0]);
  }

  lemma OneMoreIsTooMany(reg: Registry, roots: seq<Marker>, p: Progress, m: Marker)
    requires Tidy(p) && m !in p.visited && |p.out| >= MAX_REFERENCES
    requires Reachable(reg, roots, m) && forall x :: x in p.visited ==> Reachable(reg, roots, x)
    ensures ErrorIsTrue(reg, roots, TooMany)
  {
    FullSizeIsDistinct(p.out);
    assert m !in Elements(p.out);
    var ms := p.out + [m];
    forall x | x in ms
      ensures Reachable(reg, roots, x)
    {
      assert x in Elements(p.out) || x == m;
    }
    assert Distinct(ms);
  }

  /** What holds at every level of the recursion. */
  ghost predicate Collecting(reg: Registry, roots: seq<Marker>, stack: seq<Marker>, refs: seq<Marker>, p: Progress) {
    && |stack| <= MAX_REFERENCE_DEPTH && OnStack(reg, roots, stack, refs, p.visited)
    && AllReachable(reg, roots, refs) && Tidy(p) && forall m :: m in p.visited ==> Reachable(reg, roots, m)
  }

  lemma CollectingInner(reg: Registry, roots: seq<Marker>, stack: seq<Marker>, refs: seq<Marker>, p: Progress)
    requires Collecting(reg, roots, stack, refs, p) && |stack| < MAX_REFERENCE_DEPTH
    requires refs != [] && refs[0] !in p.visited && reg(refs[0]).Some?
    ensures Collecting(reg, roots, stack + [refs[0]], reg(refs[0]).value.references,
      p.(visited := p.visited + {refs[0]}, fetched := p.fetched + [refs[0]]))
  {
    StackPush(reg, roots, stack, refs, p.visited);
    ReferencesReachable(reg, roots, refs[0]);
    MarkKeepsTidy(p, refs[0]);
  }

  lemma CollectingNext(reg: Registry, roots: seq<Marker>, stack: seq<Marker>, refs: seq<Marker>, p: Progress)
    requires Collecting(reg, roots, stack, refs, p) && |stack| < MAX_REFERENCE_DEPTH
    requires refs != [] && refs[0] !in p.visited && reg(refs[0]).Some? && Inner(reg, refs[0], |stack|, p).Done?
    ensures var q := Inner(reg, refs[0], |stack|, p).progress;
      Collecting(reg, roots, stack, refs[1..], q.(out := q.out + [refs[0]]))
  {
    var q := Inner(reg, refs[0], |stack|, p).progress;
    NewCovers(reg, roots, refs, |stack|, p);
    NewTidy(reg, roots, refs, |stack|, p);
    StackTail(reg, roots, stack, refs, p.visited, q.visited);
  }

  /** A run that failed at or after a new schema failed in its references or past
      it. */
  lemma NewFails(reg: Registry, refs: seq<Marker>, depth: nat, p: Progress)
    requires refs != [] && depth < MAX_REFERENCE_DEPTH && refs[0] !in p.visited
    requires |p.out| < MAX_REFERENCES && reg(refs[0]).Some? && Collect(reg, refs, depth, p).Failed?
    ensures var inner := Inner(reg, refs[0], depth, p); var q := inner.progress;
      var later := if inner.Failed? then inner else Collect(reg, refs[1..], depth, q.(out := q.out + [refs[0]]));
      later.Failed? && later.error == Collect(reg, refs, depth, p).error
  {
  }

  lemma {:induction false} CollectFails(reg: Registry, roots: seq<Marker>, stack: seq<Marker>, refs: seq<Marker>, p: Progress)
    requires Collecting(reg, roots, stack, refs, p)
    ensures var r := Collect(reg, refs, |stack|, p);
      r.Failed? ==> ErrorIsTrue(reg, roots, r.error)
    decreases MAX_REFERENCE_DEPTH - |stack|, |refs|, 1
  {
    if refs != [] && Collect(reg, refs, |stack|, p).Failed? {
      var m := refs[0];
      assert m in refs;
      if |stack| == MAX_REFERENCE_DEPTH {
        FullStackIsTooDeep(reg, roots, stack, refs, p.visited);
      } else if m in p.visited {
        StackTail(reg, roots, stack, refs, p.visited, p.visited);
        CollectFails(reg, roots, stack, refs[1..], p);
      } else if |p.out| >= MAX_REFERENCES {
        OneMoreIsTooMany(reg, roots, p, m);
      } else if reg(m).Some? {
        NewFails(reg, refs, |stack|, p);
        CollectNewFails(reg, roots, stack, refs, p);
      }
    }
  }

  lemma {:induction false} CollectNewFails(reg: Registry, roots: seq<Marker>, stack: seq<Marker>, refs: seq<Marker>, p: Progress)
    requires Collecting(reg, roots, stack, refs, p) && |stack| < MAX_REFERENCE_DEPTH
    requires refs != [] && refs[0] !in p.visited && reg(refs[0]).Some?
    ensures var inner := Inner(reg, refs[0], |stack|, p); var q := inner.progress;
      var later := if inner.Failed? then inner else Collect(reg, refs[1..], |stack|, q.(out := q.out + [refs[0]]));
      later.Failed? ==> ErrorIsTrue(reg, roots, later.error)
    decreases MAX_REFERENCE_DEPTH - |stack|, |refs|, 0
  {
    var m := refs[0];
    CollectingInner(reg, roots, stack, refs, p);
    CollectFails(reg, roots, stack + [m], reg(m).value.references,
      p.(visited := p.visited + {m}, fetched := p.fetched + [m]));
    var inner := Inner(reg, m, |stack|, p);
    if inner.Done? {
      CollectingNext(reg, roots, stack, refs, p);
      CollectFails(reg, roots, stack, refs[1..], inner.progress.(out := inner.progress.out + [m]));
    }
  }

  lemma ClosureErrorIsTrue(reg: Registry, roots: seq<Marker>)
    ensures var r := Collect(reg, roots, 0, Start());
      r.Failed? ==> ErrorIsTrue(reg, roots, r.error)
  {
    RootsReachable(reg, roots);
    CollectFails(reg, roots, [], roots, Start());
  }

  // ── From the references of a schema to the texts of its closure ─────────

  /** The texts of the reachable schemas, position by position those of `markers`,
      which are the reachable pairs, each once; dependencies come first exactly
      when there is no cycle. An error says what is wrong. */
  method FetchClosure(reg: Registry, references: seq<Marker>)
    returns (r: Result<seq<string>, ClosureError>, ghost markers: seq<Marker>)
    ensures r.Ok? <==> Collect(reg, references, 0, Start()).Done?
    ensures r.Ok? ==> |r.value| == |markers| && Distinct(markers)
    ensures r.Ok? ==> forall i :: 0 <= i < |markers| ==>
      reg(markers[i]).Some? && r.value[i] == reg(markers[i]).value.text
    ensures r.Ok? ==> forall m :: m in markers <==> Reachable(reg, references, m)
    ensures r.Ok? ==> forall text :: text in r.value <==>
      exists m :: Reachable(reg, references, m) && reg(m).Some? && reg(m).value.text == text
    ensures r.Ok? ==> (DependenciesFirst(reg, markers) <==> NoReachableCycle(reg, references))
    ensures r.Err? ==> ErrorIsTrue(reg, references, r.error)
  {
    var collector := new ReferenceCollector();
    var error := collector.CollectReferenceClosure(reg, references, 0);
    markers := collector.outMarkers;
    if error.Some? {
      ClosureErrorIsTrue(reg, references);
      return Err(error.value), markers;
    }
    forall m {
      ClosureIsExact(reg, references, m);
    }
    ClosureOrderedIffAcyclic(reg, references);
    TextsAreReachable(reg, references, collector.out, markers);
    return Ok(collector.out), markers;
  }

  lemma TextsAreReachable(reg: Registry, roots: seq<Marker>, texts: seq<string>, markers: seq<Marker>)
    requires AreTextsOf(reg, texts, markers) && forall m :: m in markers <==> Reachable(reg, roots, m)
    ensures forall text :: text in texts <==>
      exists m :: Reachable(reg, roots, m) && reg(m).Some? && reg(m).value.text == text
  {
    forall text | text in texts
      ensures exists m :: Reachable(reg, roots, m) && reg(m).Some? && reg(m).value.text == text
    {
      var i :| 0 <= i < |texts| && texts[i] == text;
      assert markers[i] in markers;
    }
    forall m | Reachable(reg, roots, m) && reg(m).Some?
      ensures reg(m).value.text in texts
    {
      var i :| 0 <= i < |markers| && markers[i] == m;
      assert texts[i] in texts;
    }
  }
}
