/** Who may answer a waiter, and with what. */
module CacheOutcomes {
  import opened Prelude
  import opened CacheState
  import opened CacheProtocol
  import opened CacheInvariants
  import opened CacheWaiters
  import opened CacheStored

  /** A call entitled to answer a waiter of `k` on `token` with `o`: the leader
      of that token with its own outcome, that leader's drop guard with a
      cancellation, or an invalidation of that token with a cancellation. */
  ghost predicate Answers<K, V>(pc: Pc<K, V>, revoked: set<nat>, k: K, token: nat, o: Outcome<K, V>) {
    || (Settled(pc) && pc.key == k && pc.token == token && pc.outcome == o)
    || ((pc.DropWaking? || pc.Dropped?) && pc.key == k && pc.token == token && o == Cancelled(k))
    || (IsInvalidation(pc) && token in revoked && o == Cancelled(k))
  }

  ghost predicate WokenOk<K, V>(s: State<K, V>, w: Tid)
    requires w in s.pcs && s.pcs[w].Woken?
  {
    var pc := s.pcs[w];
    pc.waker in s.pcs && Answers(s.pcs[pc.waker], s.revoked, pc.key, pc.token, pc.outcome)
  }

  /** A leader passes an error on as it came, and turns a value into a value. */
  predicate OutcomeFits<K, V>(pc: Pc<K, V>) {
    Settled(pc) ==>
      match pc.result
      case Err(e) => pc.outcome.Failed? && pc.outcome.error == e
      case Ok(_) => pc.outcome.Value?
  }

  ghost predicate OutcomeInv<K, V>(s: State<K, V>) {
    && (forall c :: c in s.pcs ==> OutcomeFits(s.pcs[c]))
    && (forall w :: w in s.pcs && s.pcs[w].Woken? ==> WokenOk(s, w))
  }

  /** What a call may have answered stays true as it moves on. */
  ghost predicate AnswerMove<K, V>(pc: Pc<K, V>, pc': Pc<K, V>) {
    && (Settled(pc) ==> Settled(pc') && pc'.key == pc.key && pc'.token == pc.token && pc'.outcome == pc.outcome)
    && (pc.DropWaking? || pc.Dropped? ==>
        (pc'.DropWaking? || pc'.Dropped?) && pc'.key == pc.key && pc'.token == pc.token)
    && (IsInvalidation(pc) ==> IsInvalidation(pc'))
    && (pc.Woken? ==> pc' == pc)
    && OutcomeFits(pc')
  }

  ghost predicate AnswerMoves<K, V>(s: State<K, V>, s': State<K, V>) {
    && s.revoked <= s'.revoked && s.pcs.Keys <= s'.pcs.Keys
    && (forall c :: c in s'.pcs ==>
      if c in s.pcs then AnswerMove(s.pcs[c], s'.pcs[c]) else OutcomeFits(s'.pcs[c]))
    && (forall w :: w in s'.pcs && s'.pcs[w].Woken? && (w !in s.pcs || !s.pcs[w].Woken?) ==> WokenOk(s', w))
  }

  lemma AnswersKeepOutcomes<K, V>(s: State<K, V>, s': State<K, V>)
    requires OutcomeInv(s) && AnswerMoves(s, s')
    ensures OutcomeInv(s')
  {
    forall w | w in s'.pcs && s'.pcs[w].Woken?
      ensures WokenOk(s', w)
    {
      if w in s.pcs && s.pcs[w].Woken? {
        assert WokenOk(s, w);
        assert AnswerMove(s.pcs[w], s'.pcs[w]);
        assert AnswerMove(s.pcs[s.pcs[w].waker], s'.pcs[s.pcs[w].waker]);
      }
    }
  }

  /** An action that only moves its own call, and not to `Woken`. */
  lemma OneMove<K, V>(s: State<K, V>, s': State<K, V>, t: Tid)
    requires OutcomeInv(s)
    requires t in s'.pcs && s'.pcs == s.pcs[t := s'.pcs[t]] && s.revoked <= s'.revoked
    requires !s'.pcs[t].Woken?
    requires if t in s.pcs then AnswerMove(s.pcs[t], s'.pcs[t]) else OutcomeFits(s'.pcs[t])
    ensures OutcomeInv(s')
  {
    assert AnswerMoves(s, s');
    AnswersKeepOutcomes(s, s');
  }

  predicate IsSend<K, V>(a: Action<K, V>) {
    a.WakeNext? || a.NotifyNext?
  }

  lemma LocalAnswers<K, V>(s: State<K, V>, a: Action<K, V>)
    requires OutcomeInv(s) && Enabled(s, a) && IsLocal(a)
    ensures OutcomeInv(Apply(s, a))
  {
    if !a.InsertSampled? {
      OneMove(s, Apply(s, a), a.t);
    } else {
      assert AnswerMoves(s, Apply(s, a));
    }
  }

  lemma SectionAnswers<K, V>(s: State<K, V>, a: Action<K, V>)
    requires OutcomeInv(s) && Enabled(s, a) && !IsLocal(a) && !IsSend(a)
    ensures OutcomeInv(Apply(s, a))
  {
    var s' := Apply(s, a);
    assert s'.pcs == s.pcs[a.t := s'.pcs[a.t]];
    OneMove(s, s', a.t);
  }

  /** Call `t` answers `w` and moves to `pc'`. */
  lemma SendAnswers<K, V>(s: State<K, V>, s': State<K, V>, t: Tid, w: Tid, o: Outcome<K, V>)
    requires OutcomeInv(s) && t in s.pcs && w in s.pcs && IsParked(s.pcs[w]) && w != t
    requires t in s'.pcs && s' == Goto(s.(pcs := Send(s.pcs, w, o, t)), t, s'.pcs[t])
    requires AnswerMove(s.pcs[t], s'.pcs[t]) && !s'.pcs[t].Woken?
    requires Answers(s'.pcs[t], s.revoked, s.pcs[w].key, s.pcs[w].token, o)
    ensures OutcomeInv(s')
  {
    assert forall c :: c in s.pcs && c != t && c != w ==> s'.pcs[c] == s.pcs[c];
    assert AnswerMoves(s, s');
    AnswersKeepOutcomes(s, s');
  }

  lemma WakeAnswers<K(!new), V>(s: State<K, V>, t: Tid)
    requires OutcomeInv(s) && ListsFit(s) && Enabled(s, WakeNext(t))
    ensures OutcomeInv(DoWake(s, t))
  {
    var s' := DoWake(s, t);
    var pc := s.pcs[t];
    if pc.waiters == [] {
      OneMove(s, s', t);
    } else {
      assert ListAt(s, Held(t, pc.key)) == pc.waiters;
      assert Fits(s, Held(t, pc.key), pc.waiters[0]);
      SendAnswers(s, s', t, pc.waiters[0], if pc.Waking? then pc.outcome else Cancelled(pc.key));
    }
  }

  lemma NotifyAnswers<K(!new), V>(s: State<K, V>, t: Tid, k: K)
    requires OutcomeInv(s) && ListsFit(s) && Enabled(s, NotifyNext(t, k))
    ensures OutcomeInv(DoNotify(s, t, k))
  {
    var s' := DoNotify(s, t, k);
    var ws := s.pcs[t].pending[k];
    if ws == [] {
      OneMove(s, s', t);
    } else {
      assert ListAt(s, Held(t, k)) == ws;
      assert Fits(s, Held(t, k), ws[0]);
      SendAnswers(s, s', t, ws[0], Cancelled(k));
    }
  }

  lemma OutcomeInvKept<K(!new), V>(s: State<K, V>, a: Action<K, V>)
    requires OutcomeInv(s) && WaiterInv(s) && Enabled(s, a)
    ensures OutcomeInv(Apply(s, a))
  {
    match a
    case WakeNext(t) => WakeAnswers(s, t);
    case NotifyNext(t, k) => NotifyAnswers(s, t, k);
    case _ =>
      if IsLocal(a) {
        LocalAnswers(s, a);
      } else {
        SectionAnswers(s, a);
      }
  }
}
