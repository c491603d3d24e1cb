/**
 The entries and insertion order behind one lock of the in-memory cache
 (src/cache_inner.rs), and the bounded FIFO list they stand for.
 */
module FifoStore {
  import opened Prelude

  datatype Store<K, V> = Store(entries: map<K, V>, order: seq<K>)

  /** Drop from the front until the bound holds or the queue runs out. */
  function Evict<K, V>(s: Store<K, V>, max: nat): Store<K, V>
    decreases |s.order|
  {
    if |s.entries| <= max || s.order == [] then s
    else Evict(Store(s.entries - {s.order[0]}, s.order[1..]), max)
  }

  /** `insert_locked`: a refresh keeps its queue position, a new key goes last. */
  function InsertLocked<K, V>(s: Store<K, V>, max: Option<nat>, k: K, v: V): Store<K, V> {
    if k in s.entries || max.None? then Store(s.entries[k := v], s.order)
    else Evict(Store(s.entries[k := v], s.order + [k]), max.value)
  }

  /** The queue without the keys of `gone`, order kept. */
  function Retain<K>(order: seq<K>, gone: set<K>): seq<K> {
    if order == [] then []
    else (if order[0] in gone then [] else [order[0]]) + Retain(order[1..], gone)
  }

  /** Forget a set of keys, in the map and in the queue. */
  function RemoveKeys<K, V>(s: Store<K, V>, gone: set<K>): Store<K, V> {
    Store(s.entries - gone, Retain(s.order, gone))
  }

  // ── The list a store stands for ─────────────────────────────────────────

  /** What every operation keeps: the queue lists the stored keys once each,
      within the bound; an unbounded store leaves the queue empty. */
  ghost predicate Valid<K, V>(s: Store<K, V>, max: Option<nat>) {
    match max
    case None => s.order == []
    case Some(m) => Distinct(s.order) && Elements(s.order) == s.entries.Keys && |s.order| <= m
  }

  /** The stored pairs, oldest insertion first. */
  ghost function Contents<K, V>(s: Store<K, V>): seq<(K, V)>
    requires Elements(s.order) <= s.entries.Keys
  {
    seq(|s.order|, i requires 0 <= i < |s.order| =>
      assert s.order[i] in Elements(s.order); (s.order[i], s.entries[s.order[i]]))
  }

  /** Position of `k` among the pairs, or `|l|`. */
  function IndexOf<K(==), V>(l: seq<(K, V)>, k: K): (i: nat)
    ensures i <= |l|
    ensures i < |l| ==> l[i].0 == k
    ensures forall j :: 0 <= j < i ==> l[j].0 != k
  {
    if l == [] || l[0].0 == k then 0 else 1 + IndexOf(l[1..], k)
  }

  /** A bounded FIFO put: overwrite in place, or append and drop the oldest. */
  function FifoPut<K(==), V>(l: seq<(K, V)>, max: nat, k: K, v: V): seq<(K, V)> {
    var i := IndexOf(l, k);
    if i < |l| then l[i := (k, v)]
    else
      var grown := l + [(k, v)];
      if |grown| > max then grown[1..] else grown
  }

  /** The pairs whose key is not in `gone`, order kept. */
  function FifoRemove<K, V>(l: seq<(K, V)>, gone: set<K>): seq<(K, V)> {
    if l == [] then []
    else (if l[0].0 in gone then [] else [l[0]]) + FifoRemove(l[1..], gone)
  }

  // ── Refinement ──────────────────────────────────────────────────────────

  lemma {:induction false} RetainElements<K>(order: seq<K>, gone: set<K>)
    ensures Elements(Retain(order, gone)) == Elements(order) - gone
    ensures |Retain(order, gone)| <= |order|
  {
    if order != [] {
      RetainElements(order[1..], gone);
      assert order == [order[0]] + order[1..];
      assert Elements(order) == {order[0]} + Elements(order[1..]);
      assert Retain(order, gone) == (if order[0] in gone then [] else [order[0]]) + Retain(order[1..], gone);
      assert Elements(Retain(order, gone))
          == (if order[0] in gone then {} else {order[0]}) + Elements(Retain(order[1..], gone));
    }
  }

  lemma {:induction false} RetainDistinct<K>(order: seq<K>, gone: set<K>)
    requires Distinct(order)
    ensures Distinct(Retain(order, gone))
  {
    if order != [] {
      RetainDistinct(order[1..], gone);
      RetainElements(order[1..], gone);
      assert order[0] !in Elements(order[1..]);
      assert order[0] !in Elements(Retain(order[1..], gone));
    }
  }

  lemma DropOldest<K, V>(s: Store<K, V>)
    requires Distinct(s.order) && Elements(s.order) == s.entries.Keys && s.order != []
    ensures Distinct(s.order[1..]) && Elements(s.order[1..]) == (s.entries - {s.order[0]}).Keys
  {
    assert s.order == [s.order[0]] + s.order[1..];
    assert Elements(s.order[1..]) == Elements(s.order) - {s.order[0]};
  }

  /** A full store is one over its bound only just after an append, so the
      eviction loop drops exactly the oldest insertion. */
  lemma EvictOnce<K, V>(s: Store<K, V>, max: nat)
    requires Distinct(s.order) && Elements(s.order) == s.entries.Keys
    requires |s.order| == max + 1
    ensures Evict(s, max) == Store(s.entries - {s.order[0]}, s.order[1..])
    ensures Valid(Evict(s, max), Some(max))
  {
    DistinctSize(s.order);
    var t := Store(s.entries - {s.order[0]}, s.order[1..]);
    DropOldest(s);
    DistinctSize(t.order);
    assert |s.entries| == |s.entries.Keys| == max + 1;
    assert |t.entries| == |t.entries.Keys| == max;
  }

  lemma IndexOfContents<K, V>(s: Store<K, V>, k: K)
    requires Elements(s.order) == s.entries.Keys
    ensures IndexOf(Contents(s), k) < |s.order| <==> k in s.entries
  {
    var l := Contents(s);
    var i := IndexOf(l, k);
    if i < |l| {
      assert l[i].0 == s.order[i];
      assert s.order[i] in Elements(s.order);
    }
    if k in s.entries {
      assert k in Elements(s.order);
      var j :| 0 <= j < |s.order| && s.order[j] == k;
      assert l[j].0 == k;
    }
  }

  /** A refresh overwrites the pair where it stands. */
  lemma RefreshInPlace<K, V>(s: Store<K, V>, max: nat, k: K, v: V)
    requires Valid(s, Some(max)) && k in s.entries
    ensures Valid(InsertLocked(s, Some(max), k, v), Some(max))
    ensures Contents(InsertLocked(s, Some(max), k, v)) == FifoPut(Contents(s), max, k, v)
  {
    IndexOfContents(s, k);
    var t := InsertLocked(s, Some(max), k, v);
    assert t.entries.Keys == s.entries.Keys;
    var i := IndexOf(Contents(s), k);
    assert s.order[i] == k;
    assert Contents(t) == Contents(s)[i := (k, v)];
  }

  /** Appending a new key, before any eviction. */
  lemma Append<K, V>(s: Store<K, V>, max: nat, k: K, v: V)
    requires Valid(s, Some(max)) && k !in s.entries
    ensures var t := Store(s.entries[k := v], s.order + [k]);
      && Distinct(t.order) && Elements(t.order) == t.entries.Keys
      && |t.entries| == |t.order| == |s.order| + 1
      && Contents(t) == Contents(s) + [(k, v)]
  {
    var t := Store(s.entries[k := v], s.order + [k]);
    AppendDistinct(s.order, k);
    assert Elements(t.order) == t.entries.Keys;
    DistinctSize(t.order);
    assert |t.entries| == |t.entries.Keys|;
    assert Contents(t) == Contents(s) + [(k, v)];
  }

  lemma AppendDistinct<K>(order: seq<K>, k: K)
    requires Distinct(order) && k !in Elements(order)
    ensures Distinct(order + [k]) && Elements(order + [k]) == Elements(order) + {k}
  {
  }

  /** A new key goes last, and pushes out the oldest when the store was full. */
  lemma AppendRefinesFifo<K, V>(s: Store<K, V>, max: nat, k: K, v: V)
    requires Valid(s, Some(max)) && k !in s.entries
    ensures var t := Evict(Store(s.entries[k := v], s.order + [k]), max);
      && Valid(t, Some(max))
      && Contents(t) == (if |s.order| + 1 > max then (Contents(s) + [(k, v)])[1..] else Contents(s) + [(k, v)])
  {
    Append(s, max, k, v);
    var t := Store(s.entries[k := v], s.order + [k]);
    if |t.order| > max {
      EvictOnce(t, max);
      assert Contents(Evict(t, max)) == Contents(t)[1..];
    }
  }

  /** Inserting is one bounded FIFO put, and keeps the store well-formed. */
  lemma InsertRefinesFifo<K, V>(s: Store<K, V>, max: nat, k: K, v: V)
    requires Valid(s, Some(max))
    ensures Valid(InsertLocked(s, Some(max), k, v), Some(max))
    ensures Contents(InsertLocked(s, Some(max), k, v)) == FifoPut(Contents(s), max, k, v)
  {
    if k in s.entries {
      RefreshInPlace(s, max, k, v);
    } else {
      IndexOfContents(s, k);
      AppendRefinesFifo(s, max, k, v);
    }
  }

  lemma {:induction false} RetainContents<K, V>(entries: map<K, V>, order: seq<K>, gone: set<K>)
    requires Elements(order) <= entries.Keys
    ensures Elements(Retain(order, gone)) <= (entries - gone).Keys
    ensures Contents(Store(entries - gone, Retain(order, gone)))
         == FifoRemove(Contents(Store(entries, order)), gone)
  {
    RetainElements(order, gone);
    if order != [] {
      var rest := order[1..];
      assert order == [order[0]] + rest;
      assert order[0] in Elements(order);
      assert Elements(rest) <= Elements(order);
      RetainContents(entries, rest, gone);
      ContentsTail(entries, order);
      if order[0] !in gone {
        assert Retain(order, gone)[1..] == Retain(rest, gone);
        ContentsTail(entries - gone, Retain(order, gone));
      }
    }
  }

  lemma ContentsTail<K, V>(entries: map<K, V>, order: seq<K>)
    requires order != [] && Elements(order) <= entries.Keys
    ensures order[0] in entries && Elements(order[1..]) <= entries.Keys
    ensures Contents(Store(entries, order)) == [(order[0], entries[order[0]])] + Contents(Store(entries, order[1..]))
  {
    assert order == [order[0]] + order[1..];
    assert Elements(order) == {order[0]} + Elements(order[1..]);
  }

  /** Dropping keys drops exactly their pairs and moves nothing else. */
  lemma RemoveRefinesFifo<K, V>(s: Store<K, V>, max: nat, gone: set<K>)
    requires Valid(s, Some(max))
    ensures Valid(RemoveKeys(s, gone), Some(max))
    ensures Contents(RemoveKeys(s, gone)) == FifoRemove(Contents(s), gone)
  {
    RetainElements(s.order, gone);
    RetainDistinct(s.order, gone);
    RetainContents(s.entries, s.order, gone);
  }

  /** Every store operation keeps `Valid`, bounded or not. */
  lemma OperationsKeepValid<K, V>(s: Store<K, V>, max: Option<nat>, k: K, v: V, gone: set<K>)
    requires Valid(s, max)
    ensures Valid(InsertLocked(s, max, k, v), max)
    ensures Valid(RemoveKeys(s, gone), max)
  {
    match max {
      case None =>
      case Some(m) =>
        InsertRefinesFifo(s, m, k, v);
        RemoveRefinesFifo(s, m, gone);
    }
  }

  /** A key outside the inserted one never gains or changes an entry; the
      inserted one holds the value unless the bound is zero. */
  lemma InsertEntries<K, V>(s: Store<K, V>, max: Option<nat>, k: K, v: V)
    requires Valid(s, max)
    ensures forall x :: x in InsertLocked(s, max, k, v).entries ==>
      if x == k then InsertLocked(s, max, k, v).entries[x] == v
      else x in s.entries && InsertLocked(s, max, k, v).entries[x] == s.entries[x]
    ensures k in InsertLocked(s, max, k, v).entries || max == Some(0)
  {
    if k !in s.entries && max.Some? {
      Append(s, max.value, k, v);
      var t := Store(s.entries[k := v], s.order + [k]);
      if |t.order| > max.value {
        EvictOnce(t, max.value);
      }
    }
  }

  /** Overflowing, an insert is an append and a drop from the front. */
  lemma InsertOverflows<K, V>(s: Store<K, V>, max: nat, k: K, v: V)
    requires Valid(s, Some(max)) && k !in s.entries && |s.order| == max
    ensures InsertLocked(s, Some(max), k, v)
      == Store(s.entries[k := v] - {(s.order + [k])[0]}, (s.order + [k])[1..])
  {
    Append(s, max, k, v);
    EvictOnce(Store(s.entries[k := v], s.order + [k]), max);
  }

  /** Another key's entry goes only when the store was full, and then it was the
      oldest. */
  lemma InsertEvictsOldest<K, V>(s: Store<K, V>, max: Option<nat>, k: K, v: V, j: K)
    requires Valid(s, max) && j in s.entries && j !in InsertLocked(s, max, k, v).entries
    ensures k !in s.entries && max == Some(|s.order|) && s.order != [] && s.order[0] == j
    ensures InsertLocked(s, max, k, v).order == s.order[1..] + [k]
  {
    if max.Some? && k !in s.entries {
      if |s.order| < max.value {
        Append(s, max.value, k, v);
      } else {
        InsertOverflows(s, max.value, k, v);
        assert j in Elements(s.order);
        assert (s.order + [k])[1..] == s.order[1..] + [k];
      }
    }
  }
}
