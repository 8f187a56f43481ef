/** internal/pusher/v2/publisher.go and tenant_pusher.go: which handler serves a
    tenant, under any interleaving of publishers and handler runners. */
module Publisher {
  import opened Common
  import P = Push

  type Tenant = int
  type Ref = nat       // a payloadHandler: handlers are compared by identity
  datatype Kind = TenantPusher | DelayPusher(next: Ref) | DiscardPusher

  /** A handler object; it serves one tenant for good. */
  datatype Object = Object(kind: Kind, tenant: Tenant)

  /** The handler in effect for a tenant; none is None. */
  function InEffect(handlers: map<Tenant, Ref>, t: Tenant): Option<Ref> {
    if t in handlers then Some(handlers[t]) else None
  }

  /** replaceHandler on the map alone: the map, the handler in effect and
      whether the exchange took place. A nil handler is None. */
  function Replace(handlers: map<Tenant, Ref>, t: Tenant, expected: Option<Ref>, next: Option<Ref>)
    : (r: (map<Tenant, Ref>, Option<Ref>, bool))
  {
    var current := InEffect(handlers, t);
    if current != expected then (handlers, current, false)
    else if next.Some? then (handlers[t := next.value], next, true)
    else (handlers - {t}, next, true)
  }

  /** What replaceHandler returns is what a lookup finds afterwards; it swaps exactly
      when the handler in effect was the expected one; no other tenant is touched. */
  lemma ReplaceThenLookUp(handlers: map<Tenant, Ref>, t: Tenant, expected: Option<Ref>, next: Option<Ref>, other: Tenant)
    ensures var (after, h, swapped) := Replace(handlers, t, expected, next);
      && h == InEffect(after, t)
      && (swapped <==> InEffect(handlers, t) == expected)
      && (if swapped then h == next else after == handlers)
      && (other != t ==> InEffect(after, other) == InEffect(handlers, other))
  {
  }

  class PublisherImpl {
    var handlers: map<Tenant, Ref>
    var installedHandlers: nat     // the gauge

    constructor ()
      ensures handlers == map[] && installedHandlers == |handlers|
    {
      handlers, installedHandlers := map[], 0;
    }

    method ReplaceHandler(t: Tenant, expected: Option<Ref>, next: Option<Ref>) returns (h: Option<Ref>, swapped: bool)
      requires installedHandlers == |handlers|
      modifies this
      ensures (handlers, h, swapped) == Replace(old(handlers), t, expected, next)
      ensures installedHandlers == |handlers|
    {
      var current := None;
      if t in handlers {
        current := Some(handlers[t]);
      }
      if current != expected {
        return current, false;
      }
      if next.Some? {
        handlers := handlers[t := next.value];
      } else {
        handlers := handlers - {t};
      }
      installedHandlers := |handlers|;
      return next, true;
    }

    method GetHandler(t: Tenant) returns (h: Option<Ref>)
      ensures h == InEffect(handlers, t)
    {
      h := None;
      if t in handlers {
        h := Some(handlers[t]);
      }
    }

    /** The handler Publish calls, and whether it starts a runner for it: `made` is
        the pusher it makes when it finds none. */
    method HandlerFor(t: Tenant, made: Ref) returns (h: Ref, started: bool)
      requires installedHandlers == |handlers|
      modifies this
      ensures installedHandlers == |handlers| && InEffect(handlers, t) == Some(h)
      ensures started <==> InEffect(old(handlers), t).None?
      ensures handlers == if started then old(handlers)[t := made] else old(handlers)
    {
      var handler := GetHandler(t);
      started := false;
      if handler.None? {
        handler, started := ReplaceHandler(t, None, Some(made));
      }
      h := handler.value;
    }
  }

  // ---- Publishers and runners as threads ----

  datatype Thread =
    // Publish(payload): look the handler up, or add one and start its runner
    | Lookup(tenant: Tenant)
    | Adding(tenant: Tenant)
    | Spawning(tenant: Tenant, held: Ref)
    | Calling(tenant: Tenant, handler: Option<Ref>)
    | Published(tenant: Tenant)
    // runHandler(tenant, h): run it, then exchange it for what run returned
    | Running(tenant: Tenant, held: Ref)
    | Exchanging(tenant: Tenant, held: Ref, next: Option<Ref>)
    | Exited(tenant: Tenant)
    | Hijacked(tenant: Tenant)
  {
    /** The thread answers for the tenant's slot with `held`. */
    predicate Owner() { Spawning? || Running? || Exchanging? }
  }

  datatype State = State(
    handlers: map<Tenant, Ref>,
    heap: map<Ref, Object>,
    threads: map<nat, Thread>)

  /** The error a handler's run ends with: none, a cancelled context, an idle tenant,
      one of an unexpected type, or that of a push. */
  datatype End = Clean | Canceled | Idle | Unexpected | PushError(kind: P.ErrKind)

  datatype Step =
    | Publish(i: nat, tenant: Tenant)              // a call arrives, in a new goroutine
    | Find(i: nat)
    | Add(i: nat, made: Ref)
    | Spawn(i: nat, j: nat)                        // go runHandler, in a new goroutine
    | Call(i: nat)
    | Return(i: nat, end: End, made: Ref)          // run returns
    | Exchange(i: nat)

  predicate Enabled(s: State, step: Step) {
    match step
    case Publish(i, _) => i !in s.threads
    case Find(i) => i in s.threads && s.threads[i].Lookup?
    case Add(i, made) => i in s.threads && s.threads[i].Adding? && made !in s.heap
    case Spawn(i, j) => i in s.threads && s.threads[i].Spawning? && j !in s.threads
    case Call(i) => i in s.threads && s.threads[i].Calling?
    case Return(i, _, made) =>
      i in s.threads && s.threads[i].Running? && s.threads[i].held in s.heap && made !in s.heap
    case Exchange(i) => i in s.threads && s.threads[i].Exchanging?
  }

  /** What run returns, and the heap with the handler it may have made. */
  function Ran(heap: map<Ref, Object>, h: Ref, end: End, made: Ref): (r: (map<Ref, Object>, Option<Ref>))
    requires h in heap
  {
    var t := heap[h].tenant;
    match heap[h].kind
    case TenantPusher =>
      if !end.PushError? then (heap, None)
      else if end.kind.Wait? || end.kind.Tenant? then (heap[made := Object(DelayPusher(h), t)], Some(made))
      else if end.kind.Fatal? then (heap[made := Object(DiscardPusher, t)], Some(made))
      else (heap, None)
    case DelayPusher(next) => (heap, if end.Clean? then Some(next) else None)
    case DiscardPusher => (heap, None)
  }

  function Apply(s: State, step: Step): State
    requires Enabled(s, step)
  {
    match step
    case Publish(i, t) => s.(threads := s.threads[i := Lookup(t)])
    case Find(i) =>
      var t := s.threads[i].tenant;
      var h := InEffect(s.handlers, t);
      s.(threads := s.threads[i := if h.Some? then Calling(t, h) else Adding(t)])
    case Add(i, made) =>
      var t := s.threads[i].tenant;
      var (handlers, h, swapped) := Replace(s.handlers, t, None, Some(made));
      State(handlers, s.heap[made := Object(TenantPusher, t)],
            s.threads[i := if swapped then Spawning(t, made) else Calling(t, h)])
    case Spawn(i, j) =>
      var Spawning(t, h) := s.threads[i];
      s.(threads := s.threads[i := Calling(t, Some(h))][j := Running(t, h)])
    case Call(i) => s.(threads := s.threads[i := Published(s.threads[i].tenant)])
    case Return(i, end, made) =>
      var Running(t, h) := s.threads[i];
      var (heap, next) := Ran(s.heap, h, end, made);
      s.(heap := heap, threads := s.threads[i := Exchanging(t, h, next)])
    case Exchange(i) =>
      var Exchanging(t, h, next) := s.threads[i];
      var (handlers, now, ok) := Replace(s.handlers, t, Some(h), next);
      s.(handlers := handlers,
         threads := s.threads[i := if !ok then Hijacked(t) else if now.None? then Exited(t) else Running(t, now.value)])
  }

  // ---- What every interleaving keeps ----

  /** A handler of this tenant: a delay stands in front of a pusher of its own. */
  predicate Serves(heap: map<Ref, Object>, h: Ref, t: Tenant) {
    && h in heap && heap[h].tenant == t
    && (heap[h].kind.DelayPusher? ==>
        var next := heap[h].kind.next; next in heap && heap[next] == Object(TenantPusher, t))
  }

  /** The pusher whose queues a payload handed to `h` ends up in. */
  function Target(heap: map<Ref, Object>, h: Ref): Option<Ref>
    requires h in heap
  {
    match heap[h].kind
    case TenantPusher => Some(h)
    case DelayPusher(next) => Some(next)
    case DiscardPusher => None
  }

  predicate WellFormed(s: State, th: Thread) {
    match th
    case Spawning(t, h) => Serves(s.heap, h, t)
    case Running(t, h) => Serves(s.heap, h, t)
    case Exchanging(t, h, next) =>
      && Serves(s.heap, h, t)
      && (next.Some? ==> Serves(s.heap, next.value, t) && Target(s.heap, next.value) in {None, Target(s.heap, h)})
    case Calling(t, h) => h.Some? && Serves(s.heap, h.value, t)
    case Hijacked(_) => false
    case _ => true
  }

  /** What a thread holds is what its tenant's slot holds. */
  predicate Installed(s: State, th: Thread) {
    th.Owner() ==> th.tenant in s.handlers && s.handlers[th.tenant] == th.held
  }

  predicate OwnsSlot(s: State, i: nat, t: Tenant) {
    i in s.threads && s.threads[i].Owner() && s.threads[i].tenant == t
  }

  ghost predicate ThreadsOk(s: State) {
    forall i :: i in s.threads ==> WellFormed(s, s.threads[i]) && Installed(s, s.threads[i])
  }

  ghost predicate OneOwner(s: State) {
    forall i, j, t :: OwnsSlot(s, i, t) && OwnsSlot(s, j, t) ==> i == j
  }

  ghost predicate SlotsOwned(s: State) {
    forall t :: t in s.handlers ==> Serves(s.heap, s.handlers[t], t) && exists i :: OwnsSlot(s, i, t)
  }

  ghost predicate Inv(s: State) { ThreadsOk(s) && OneOwner(s) && SlotsOwned(s) }

  /** New objects do not disturb the handlers there are. */
  lemma ServesKept(s: State, step: Step)
    requires Enabled(s, step)
    ensures forall h, t :: Serves(s.heap, h, t) ==> Serves(Apply(s, step).heap, h, t)
  {
  }

  lemma ThreadsOkStep(s: State, step: Step)
    requires Inv(s) && Enabled(s, step)
    ensures ThreadsOk(Apply(s, step))
  {
    var s' := Apply(s, step);
    ServesKept(s, step);
    forall k | k in s'.threads ensures WellFormed(s', s'.threads[k]) && Installed(s', s'.threads[k]) {
      if k in s.threads && s.threads[k] == s'.threads[k] {
        assert WellFormed(s, s.threads[k]) && Installed(s, s.threads[k]);
        if step.Exchange? && s.threads[k].Owner() {
          assert OwnsSlot(s, k, s.threads[k].tenant) && OwnsSlot(s, step.i, s.threads[step.i].tenant);
        }
      }
    }
  }

  lemma OneOwnerStep(s: State, step: Step)
    requires Inv(s) && Enabled(s, step)
    ensures OneOwner(Apply(s, step))
  {
    var s' := Apply(s, step);
    forall i, j, t | OwnsSlot(s', i, t) && OwnsSlot(s', j, t) ensures i == j {
      // the thread that owned the slot before, if any did
      var i' := if step.Spawn? && i == step.j then step.i else i;
      var j' := if step.Spawn? && j == step.j then step.i else j;
      if !step.Add? {
        assert OwnsSlot(s, i', t) && OwnsSlot(s, j', t);
      } else {
        assert i != step.i ==> OwnsSlot(s, i, t) && Installed(s, s.threads[i]);
        assert j != step.i ==> OwnsSlot(s, j, t) && Installed(s, s.threads[j]);
      }
    }
  }

  lemma SlotsOwnedStep(s: State, step: Step)
    requires Inv(s) && Enabled(s, step)
    ensures SlotsOwned(Apply(s, step))
  {
    var s' := Apply(s, step);
    ServesKept(s, step);
    forall t | t in s'.handlers ensures Serves(s'.heap, s'.handlers[t], t) && exists i :: OwnsSlot(s', i, t) {
      if t in s.handlers {
        var i :| OwnsSlot(s, i, t);
        assert OwnsSlot(s', if step.Spawn? && i == step.i then step.j else i, t);
      } else {
        assert OwnsSlot(s', step.i, t);
      }
    }
  }

  ghost predicate Next(s: State, t: State) {
    exists step :: Enabled(s, step) && t == Apply(s, step)
  }

  ghost predicate Run(states: seq<State>) {
    && states != [] && states[0] == State(map[], map[], map[])
    && forall i :: 0 <= i < |states| - 1 ==> Next(states[i], states[i + 1])
  }

  lemma {:induction false} InvHolds(states: seq<State>, n: nat)
    requires Run(states) && n < |states|
    ensures Inv(states[n])
  {
    if n > 0 {
      InvHolds(states, n - 1);
      assert Next(states[n - 1], states[n - 1 + 1]);
      var step :| Enabled(states[n - 1], step) && states[n] == Apply(states[n - 1], step);
      ThreadsOkStep(states[n - 1], step);
      OneOwnerStep(states[n - 1], step);
      SlotsOwnedStep(states[n - 1], step);
    }
  }

  /** Two goroutines never run the same handler, nor handlers of one tenant; so
      a queue has one consumer. */
  lemma OneRunnerPerTenant(states: seq<State>, n: nat, i: nat, j: nat)
    requires Run(states) && n < |states| && i in states[n].threads && j in states[n].threads
    requires var (a, b) := (states[n].threads[i], states[n].threads[j]);
      a.Owner() && b.Owner() && (a.tenant == b.tenant || a.held == b.held)
    ensures i == j
  {
    InvHolds(states, n);
    var s := states[n];
    assert WellFormed(s, s.threads[i]) && WellFormed(s, s.threads[j]);
    assert OwnsSlot(s, i, s.threads[i].tenant) && OwnsSlot(s, j, s.threads[i].tenant);
  }

  /** A tenant has a handler exactly when some goroutine owns that very handler. */
  lemma InstalledIffOwned(states: seq<State>, n: nat, t: Tenant)
    requires Run(states) && n < |states|
    ensures var s := states[n];
      t in s.handlers <==> exists i :: OwnsSlot(s, i, t) && t in s.handlers && s.threads[i].held == s.handlers[t]
  {
    InvHolds(states, n);
    var s := states[n];
    if t in s.handlers {
      var i :| OwnsSlot(s, i, t);
      assert Installed(s, s.threads[i]);
    }
  }

  /** No exchange fails ("tenant hijacked"), and no publish calls a nil handler;
      the handler called always belongs to the payload's tenant. */
  lemma NeverHijackedNeverNil(states: seq<State>, n: nat, i: nat)
    requires Run(states) && n < |states| && i in states[n].threads
    ensures !states[n].threads[i].Hijacked?
    ensures states[n].threads[i].Calling? ==>
      var Calling(t, h) := states[n].threads[i]; h.Some? && Serves(states[n].heap, h.value, t)
  {
    InvHolds(states, n);
    assert WellFormed(states[n], states[n].threads[i]);
  }

  lemma TargetKeptOnce(states: seq<State>, n: nat, t: Tenant)
    requires Run(states) && n + 1 < |states| && t in states[n].handlers && t in states[n + 1].handlers
    ensures var (s, s') := (states[n], states[n + 1]);
      && s.handlers[t] in s.heap && s'.handlers[t] in s'.heap
      && Target(s'.heap, s'.handlers[t]) in {None, Target(s.heap, s.handlers[t])}
  {
    hide Inv, Apply, Enabled, Target;
    InvHolds(states, n);
    var s := states[n];
    assert Next(s, states[n + 1]);
    var step :| Enabled(s, step) && states[n + 1] == Apply(s, step);
    TargetStep(s, step, t);
  }

  lemma TargetStep(s: State, step: Step, t: Tenant)
    requires Inv(s) && Enabled(s, step) && t in s.handlers && t in Apply(s, step).handlers
    ensures var s' := Apply(s, step);
      && s.handlers[t] in s.heap && s'.handlers[t] in s'.heap
      && Target(s'.heap, s'.handlers[t]) in {None, Target(s.heap, s.handlers[t])}
  {
    assert Serves(s.heap, s.handlers[t], t);
    HeapKept(s, step);
    if step.Exchange? {
      assert WellFormed(s, s.threads[step.i]) && Installed(s, s.threads[step.i]);
    }
    hide Inv, ThreadsOk, OneOwner, SlotsOwned;
  }

  /** Handlers are never changed. */
  lemma HeapKept(s: State, step: Step)
    requires Enabled(s, step)
    ensures forall h :: h in s.heap ==> h in Apply(s, step).heap && Apply(s, step).heap[h] == s.heap[h]
  {
  }

  predicate SlotKept(states: seq<State>, n: nat, m: nat, t: Tenant)
    requires n <= m < |states|
  {
    forall k :: n <= k <= m ==> t in states[k].handlers
  }

  /** While a tenant keeps its slot, payloads go to the same pusher, through any
      number of delays, until a fatal error turns them into discards. */
  lemma {:induction false} TargetKept(states: seq<State>, n: nat, m: nat, t: Tenant)
    requires Run(states) && n <= m < |states| && SlotKept(states, n, m, t)
    ensures var (s, s') := (states[n], states[m]);
      && s.handlers[t] in s.heap && s'.handlers[t] in s'.heap
      && Target(s'.heap, s'.handlers[t]) in {None, Target(s.heap, s.handlers[t])}
    decreases m - n
  {
    if n == m {
      InvHolds(states, n);
    } else {
      TargetKept(states, n, m - 1, t);
      TargetKeptOnce(states, m - 1, t);
    }
  }
}
