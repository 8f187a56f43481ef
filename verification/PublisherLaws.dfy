/** internal/pusher/v2/tenant_pusher.go: when a tenant's payloads are delayed,
    discarded or no longer served, in every run of the publisher. */
module PublisherLaws {
  import opened Common
  import P = Push
  import opened Publisher

  /** The run makes this step at `n`. */
  predicate Makes(states: seq<State>, n: nat, step: Step) {
    n + 1 < |states| && Enabled(states[n], step) && states[n + 1] == Apply(states[n], step)
  }

  /** At `n` the run of the tenant's handler `h` returns with `end`. */
  predicate Returns(states: seq<State>, n: nat, i: nat, end: End, made: Ref, t: Tenant, h: Ref) {
    Makes(states, n, Return(i, end, made)) && states[n].threads[i] == Running(t, h)
  }

  // ---- What a return leads to ----

  /** A tenant pusher is put behind a delay after a wait or tenant error, replaced by a
      discard after a fatal one, and given up otherwise. A delay that was not
      cancelled gives way to its pusher again; a discard ends the service. */
  lemma ReturnLeadsTo(states: seq<State>, n: nat, i: nat, end: End, made: Ref, t: Tenant, h: Ref)
    requires Run(states) && Returns(states, n, i, end, made, t, h)
    ensures var (s, s') := (states[n], states[n + 1]);
      var th := s'.threads[i];
      && h in s.heap && th.Exchanging? && th.tenant == t && th.held == h
      && (s.heap[h].kind.TenantPusher? ==>
            && (th.next == Some(made) && made in s'.heap && s'.heap[made] == Object(DelayPusher(h), t)
                <==> end == PushError(P.Wait) || end == PushError(P.Tenant))
            && (th.next == Some(made) && made in s'.heap && s'.heap[made] == Object(DiscardPusher, t) <==> end == PushError(P.Fatal))
            && (th.next.None? <==> end !in {PushError(P.Wait), PushError(P.Tenant), PushError(P.Fatal)}))
      && (s.heap[h].kind.DelayPusher? ==> th.next == if end == Clean then Some(s.heap[h].kind.next) else None)
      && (s.heap[h].kind.DiscardPusher? ==> th.next.None?)
  {
    InvHolds(states, n);
    assert WellFormed(states[n], states[n].threads[i]);
    hide Inv, ThreadsOk, OneOwner, SlotsOwned;
  }

  // ---- Discards ----

  predicate HoldsDiscard(s: State, th: Thread) {
    th.Owner() &&
    ((th.held in s.heap && s.heap[th.held].kind.DiscardPusher?)
     || (th.Exchanging? && th.next.Some? && th.next.value in s.heap && s.heap[th.next.value].kind.DiscardPusher?))
  }

  /** The tenant's payloads are discarded, or are about to be. */
  ghost predicate Doomed(s: State, t: Tenant) {
    exists i :: OwnsSlot(s, i, t) && HoldsDiscard(s, s.threads[i])
  }

  /** At `n` a run of the tenant's pusher returns with a fatal error. */
  ghost predicate FatalAt(states: seq<State>, n: nat, t: Tenant) {
    exists i, made, h :: Returns(states, n, i, PushError(P.Fatal), made, t, h) && h in states[n].heap && states[n].heap[h].kind.TenantPusher?
  }

  predicate IsFatal(s: State, step: Step, t: Tenant)
    requires Enabled(s, step)
  {
    && step.Return? && step.end == PushError(P.Fatal)
    && s.threads[step.i].tenant == t && s.heap[s.threads[step.i].held].kind.TenantPusher?
  }

  lemma NotDoomedStep(s: State, step: Step, t: Tenant)
    requires Inv(s) && Enabled(s, step) && !Doomed(s, t) && !IsFatal(s, step, t)
    ensures !Doomed(Apply(s, step), t)
  {
    var s' := Apply(s, step);
    HeapKept(s, step);
    forall i | OwnsSlot(s', i, t) ensures !HoldsDiscard(s', s'.threads[i]) {
      var i' := if step.Spawn? && i == step.j then step.i else i;
      if OwnsSlot(s, i', t) {
        assert !HoldsDiscard(s, s.threads[i']) && WellFormed(s, s.threads[i']);
      }
    }
  }

  lemma FatalStep(states: seq<State>, n: nat, step: Step, t: Tenant)
    requires Makes(states, n, step) && IsFatal(states[n], step, t)
    ensures FatalAt(states, n, t)
  {
    assert Returns(states, n, step.i, PushError(P.Fatal), step.made, t, states[n].threads[step.i].held);
  }

  lemma {:induction false} DoomedOnlyByFatal(states: seq<State>, n: nat, m: nat, t: Tenant)
    requires Run(states) && n <= m < |states| && !Doomed(states[n], t) && Doomed(states[m], t)
    ensures exists k :: n <= k < m && FatalAt(states, k, t)
    decreases m - n
  {
    hide Doomed, FatalAt, Inv, Apply, Enabled, IsFatal;
    if Doomed(states[m - 1], t) {
      DoomedOnlyByFatal(states, n, m - 1, t);
    } else {
      InvHolds(states, m - 1);
      assert Next(states[m - 1], states[m - 1 + 1]);
      var step :| Enabled(states[m - 1], step) && states[m] == Apply(states[m - 1], step);
      if IsFatal(states[m - 1], step, t) {
        FatalStep(states, m - 1, step, t);
      } else {
        NotDoomedStep(states[m - 1], step, t);
      }
    }
  }

  /** Payloads are discarded only after a run of the tenant's pusher ended with a fatal error. */
  lemma DiscardedOnlyAfterFatal(states: seq<State>, m: nat, t: Tenant)
    requires Run(states) && m < |states| && t in states[m].handlers
    ensures states[m].handlers[t] in states[m].heap
    ensures Target(states[m].heap, states[m].handlers[t]).None? ==> exists k :: 0 <= k < m && FatalAt(states, k, t)
  {
    InvHolds(states, m);
    assert Serves(states[m].heap, states[m].handlers[t], t);
    if Target(states[m].heap, states[m].handlers[t]).None? {
      DiscardIsDoom(states[m], t);
      assert !Doomed(states[0], t);
      DoomedOnlyByFatal(states, 0, m, t);
    }
  }

  lemma DiscardIsDoom(s: State, t: Tenant)
    requires Inv(s) && t in s.handlers && s.handlers[t] in s.heap && Target(s.heap, s.handlers[t]).None?
    ensures Doomed(s, t)
  {
    var i :| OwnsSlot(s, i, t);
    assert Installed(s, s.threads[i]);
    assert HoldsDiscard(s, s.threads[i]);
  }

  /** While a tenant keeps its slot its payloads reach the very same pusher, through
      any number of delays, unless a run of it ends with a fatal error. */
  lemma {:induction false} TargetSameWithoutFatal(states: seq<State>, n: nat, m: nat, t: Tenant)
    requires Run(states) && n <= m < |states| && SlotKept(states, n, m, t)
    requires !Doomed(states[n], t) && forall k :: n <= k < m ==> !FatalAt(states, k, t)
    ensures var (s, s') := (states[n], states[m]);
      && s.handlers[t] in s.heap && s'.handlers[t] in s'.heap
      && Target(s.heap, s.handlers[t]).Some?
      && Target(s'.heap, s'.handlers[t]) == Target(s.heap, s.handlers[t])
  {
    hide Inv, Run, Target, FatalAt, Doomed;
    TargetKept(states, n, m, t);
    InvHolds(states, n);
    InvHolds(states, m);
    if Doomed(states[m], t) {
      DoomedOnlyByFatal(states, n, m, t);
      assert false;
    }
    if Target(states[n].heap, states[n].handlers[t]).None? { DiscardIsDoom(states[n], t); }
    if Target(states[m].heap, states[m].handlers[t]).None? { DiscardIsDoom(states[m], t); }
  }

  // ---- Giving up a slot ----

  /** The tenant's owner is about to give the slot up. */
  ghost predicate Leaving(s: State, t: Tenant) {
    exists i :: OwnsSlot(s, i, t) && s.threads[i].Exchanging? && s.threads[i].next.None?
  }

  /** A run that returned so ends the service: of a pusher with no error that asks for a
      delay or a discard, of a delay that was cancelled, or of a discard. */
  predicate EndsService(kind: Kind, end: End) {
    match kind
    case TenantPusher => end != PushError(P.Wait) && end != PushError(P.Tenant) && end != PushError(P.Fatal)
    case DelayPusher(_) => end != Clean
    case DiscardPusher => true
  }

  ghost predicate EndsAt(states: seq<State>, n: nat, t: Tenant) {
    exists i, end, made, h :: Returns(states, n, i, end, made, t, h) && h in states[n].heap && EndsService(states[n].heap[h].kind, end)
  }

  predicate IsEnd(s: State, step: Step, t: Tenant)
    requires Enabled(s, step)
  {
    && step.Return? && s.threads[step.i].tenant == t
    && EndsService(s.heap[s.threads[step.i].held].kind, step.end)
  }

  lemma NotLeavingStep(s: State, step: Step, t: Tenant)
    requires Enabled(s, step) && !Leaving(s, t) && !IsEnd(s, step, t)
    ensures !Leaving(Apply(s, step), t)
  {
    var s' := Apply(s, step);
    forall i | OwnsSlot(s', i, t) ensures !(s'.threads[i].Exchanging? && s'.threads[i].next.None?) {
      if OwnsSlot(s, i, t) {
        assert !(s.threads[i].Exchanging? && s.threads[i].next.None?);
      }
    }
  }

  lemma EndStep(states: seq<State>, n: nat, step: Step, t: Tenant)
    requires Makes(states, n, step) && IsEnd(states[n], step, t)
    ensures EndsAt(states, n, t)
  {
    assert Returns(states, n, step.i, step.end, step.made, t, states[n].threads[step.i].held);
  }

  lemma {:induction false} LeavingOnlyByEnd(states: seq<State>, m: nat, t: Tenant)
    requires Run(states) && m < |states| && Leaving(states[m], t)
    ensures exists k :: 0 <= k < m && EndsAt(states, k, t)
  {
    if m > 0 {
      hide Leaving, EndsAt, Apply, Enabled, IsEnd;
      if Leaving(states[m - 1], t) {
        LeavingOnlyByEnd(states, m - 1, t);
      } else {
        assert Next(states[m - 1], states[m - 1 + 1]);
        var step :| Enabled(states[m - 1], step) && states[m] == Apply(states[m - 1], step);
        if IsEnd(states[m - 1], step, t) {
          EndStep(states, m - 1, step, t);
        } else {
          NotLeavingStep(states[m - 1], step, t);
        }
      }
    }
  }

  /** A tenant loses its slot only after such a return. */
  lemma SlotGivenUpOnlyAfterEnd(states: seq<State>, n: nat, t: Tenant)
    requires Run(states) && n + 1 < |states| && t in states[n].handlers && t !in states[n + 1].handlers
    ensures exists k :: 0 <= k < n && EndsAt(states, k, t)
  {
    InvHolds(states, n);
    var s := states[n];
    assert Next(s, states[n + 1]);
    var step :| Enabled(s, step) && states[n + 1] == Apply(s, step);
    assert OwnsSlot(s, step.i, t) && s.threads[step.i].next.None? by {
      assert WellFormed(s, s.threads[step.i]) && Installed(s, s.threads[step.i]);
    }
    assert Leaving(s, t);
    LeavingOnlyByEnd(states, n, t);
  }

  // ---- A delay and back ----

  /** Thread `i` makes no step between the two states. */
  predicate Quiet(states: seq<State>, n: nat, m: nat, i: nat) {
    n <= m < |states| && i in states[n].threads && i in states[m].threads && states[m].threads[i] == states[n].threads[i]
  }

  lemma {:induction false} HeapKeptOver(states: seq<State>, n: nat, m: nat, h: Ref)
    requires Run(states) && n <= m < |states| && h in states[n].heap
    ensures h in states[m].heap && states[m].heap[h] == states[n].heap[h]
    decreases m - n
  {
    if n < m {
      HeapKeptOver(states, n, m - 1, h);
      assert Next(states[m - 1], states[m - 1 + 1]);
      var step :| Enabled(states[m - 1], step) && states[m] == Apply(states[m - 1], step);
      HeapKept(states[m - 1], step);
    }
  }

  lemma ExchangeInstalls(states: seq<State>, n: nat, i: nat)
    requires Run(states) && Makes(states, n, Exchange(i)) && states[n].threads[i].next.Some?
    ensures var (th, s') := (states[n].threads[i], states[n + 1]);
      s'.threads[i] == Running(th.tenant, th.next.value) && InEffect(s'.handlers, th.tenant) == th.next
  {
    InvHolds(states, n);
    assert Installed(states[n], states[n].threads[i]);
    hide Inv, ThreadsOk, OneOwner, SlotsOwned;
  }

  /** After a wait or tenant error the tenant is served by a delay in front of its
      pusher; once the delay is over, by the same pusher again. Other goroutines
      may do anything in between. */
  lemma DelayThenSamePusher(states: seq<State>, a: nat, b: nat, c: nat, d: nat, i: nat, end: End, made: Ref, made': Ref, t: Tenant, h: Ref)
    requires Run(states) && Returns(states, a, i, end, made, t, h)
    requires h in states[a].heap && states[a].heap[h].kind.TenantPusher? && (end == PushError(P.Wait) || end == PushError(P.Tenant))
    requires Quiet(states, a + 1, b, i) && Makes(states, b, Exchange(i))
    requires Quiet(states, b + 1, c, i) && Makes(states, c, Return(i, Clean, made'))
    requires Quiet(states, c + 1, d, i) && Makes(states, d, Exchange(i))
    ensures InEffect(states[b + 1].handlers, t) == Some(made)
    ensures made in states[b + 1].heap && Target(states[b + 1].heap, made) == Some(h)
    ensures InEffect(states[d + 1].handlers, t) == Some(h) && states[d + 1].threads[i] == Running(t, h)
  {
    hide Apply, Enabled, Run;
    ReturnLeadsTo(states, a, i, end, made, t, h);
    ExchangeInstalls(states, b, i);
    HeapKeptOver(states, a + 1, b + 1, made);
    HeapKeptOver(states, b + 1, c, made);
    assert Returns(states, c, i, Clean, made', t, made);
    ReturnLeadsTo(states, c, i, Clean, made', t, made);
    ExchangeInstalls(states, d, i);
  }
}
