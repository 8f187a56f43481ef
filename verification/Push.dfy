/** internal/pusher/v2/queue.go, push: the loop that drains a queue, interleaved
    with any inserts, limit drops, send outcomes, cancellations and restarts.

    Every step is atomic where the source holds the queue's mutex or touches
    only the loop's own variables. The clock, the context and the outcome of a
    send are chosen by the environment. */
module Push {
  import opened Queue

  datatype ErrKind = NoError | Network | Payload | Wait | Tenant | Fatal | Terminated | Limit

  /** Where the consumer is. Stopped covers the time before a push, after one,
      and a delay handler in between. */
  datatype Phase =
    | Stopped
    | Waiting
    | Woken                            // took the wake-up token, about to get
    | Sending(batch: seq<Entry>)
    | Retrying(batch: seq<Entry>)      // retry granted, about to requeue
    | BackingOff

  datatype System = System(
    q: State,
    phase: Phase,
    left: int,                         // retriesCounter.left
    retrying: bool,
    now: int,                          // latest reading of the clock
    // what happened so far
    inserted: seq<Entry>,
    settled: seq<Entry>,               // published or given up, in that order
    dropped: seq<Entry>,               // removed by a limit, in that order
    sent: seq<seq<Entry>>,             // batches sent by the current push
    outcomes: seq<ErrKind>,            // and what came of them
    ever: set<Entry>)                  // records sent by any push
  {
    function Flight(): seq<Entry> {
      if phase.Sending? || phase.Retrying? then phase.batch else []
    }
    /** Everything not dropped, oldest first. */
    function Line(): seq<Entry> { settled + Flight() + q.data }
  }

  datatype Step =
    | Insert(size: nat, ts: int, later: int)   // two readings of the clock
    | StartPush
    | CancelWait
    | Wake
    | Get
    | Outcome(kind: ErrKind)
    | Requeue(later: int)
    | BackoffEnds
    | BackoffCancelled

  predicate Init(s: System) {
    s == System(State([], false, []), Stopped, 0, false, s.now, [], [], [], [], [], {})
  }

  predicate Enabled(s: System, step: Step) {
    match step
    case Insert(_, ts, later) => s.now <= ts <= later
    case StartPush => s.phase.Stopped?
    case CancelWait => s.phase.Waiting?
    case Wake => s.phase.Waiting? && s.q.signaled
    case Get => s.phase.Woken?
    case Outcome(_) => s.phase.Sending?
    case Requeue(later) => s.phase.Retrying? && s.now <= later
    case BackoffEnds => s.phase.BackingOff?
    case BackoffCancelled => s.phase.BackingOff?
  }

  /** returnAll, then on with the loop or out of it. */
  function Settle(s: System, next: Phase): System
    requires s.phase.Sending?
  {
    s.(settled := s.settled + s.phase.batch, q := s.q.(pool := s.q.pool + s.phase.batch),
       phase := next, retrying := false)
  }

  function Apply(s: System, step: Step, o: Options): System
    requires Enabled(s, step)
  {
    match step
    case Insert(size, ts, later) =>
      var e := Entry(|s.inserted|, size, ts);
      var d := s.q.data + [e];
      s.(q := Inserted(s.q, e, o, later), inserted := s.inserted + [e], now := later,
         dropped := s.dropped + d[..Excess(d, o, later)])
    case StartPush => s.(phase := Waiting, left := o.maxRetries, retrying := false, sent := [], outcomes := [])
    case CancelWait => s.(phase := Stopped)
    case Wake => s.(phase := Woken, q := s.q.(signaled := false))
    case Get =>
      if s.q.data == [] then s.(phase := Waiting)
      else
        var batch := s.q.data[..BatchLength(s.q.data, o)];
        s.(q := Taken(s.q, o), phase := Sending(batch), retrying := false,
           left := if s.retrying then s.left else o.maxRetries,
           sent := s.sent + [batch], ever := s.ever + set e | e in batch)
    case Outcome(kind) =>
      var t := s.(outcomes := s.outcomes + [kind]);
      (match kind
       case Network =>
         if t.left > 0 then t.(phase := Retrying(t.phase.batch), left := t.left - 1, retrying := true)
         else Settle(t, Waiting)
       case NoError => Settle(t, Waiting)
       case Payload => Settle(t, Waiting)
       case Limit => Settle(t, Waiting)
       case Tenant => Settle(t, Stopped)
       case Fatal => Settle(t, Stopped)
       case Wait => Settle(t, Stopped)
       case Terminated => Settle(t, Stopped))
    case Requeue(later) =>
      var d := s.phase.batch + s.q.data;
      s.(q := Requeued(s.q, s.phase.batch, o, later), phase := BackingOff, now := later,
         dropped := s.dropped + d[..Excess(d, o, later)])
    case BackoffEnds => s.(phase := Waiting)
    case BackoffCancelled => s.(phase := Stopped)
  }

  /** A run: states, each one step after the one before. */
  ghost predicate Run(states: seq<System>, o: Options) {
    && states != [] && Init(states[0])
    && forall i :: 0 <= i < |states| - 1 ==> Next(states[i], states[i + 1], o)
  }

  ghost predicate Next(s: System, t: System, o: Options) {
    exists step :: Enabled(s, step) && t == Apply(s, step, o)
  }

  // ---- Order ----

  predicate Increasing(d: seq<Entry>) {
    forall i, j :: 0 <= i < j < |d| ==> d[i].id < d[j].id
  }

  /** Everything inserted and not dropped is settled, in flight or queued in
      insertion order, and insertion order is chronological. */
  predicate InOrder(s: System) {
    && (forall i :: 0 <= i < |s.inserted| ==> s.inserted[i].id == i && s.inserted[i].ts <= s.now)
    && Chronological(s.inserted)
    && Increasing(s.Line())
    && (forall e :: e in s.Line() ==> e.id < |s.inserted| && s.inserted[e.id] == e)
  }

  lemma DropFromMiddle(a: seq<Entry>, d: seq<Entry>, k: nat)
    requires k <= |d| && Increasing(a + d)
    ensures Increasing(a + d[k..])
    ensures forall e :: e in a + d[k..] ==> e in a + d
  {
    var was, now := a + d, a + d[k..];
    forall i, j | 0 <= i < j < |now| ensures now[i].id < now[j].id {
      var i', j' := if i < |a| then i else i + k, if j < |a| then j else j + k;
      assert now[i] == was[i'] && now[j] == was[j'];
    }
  }

  lemma QueueIncreasing(s: System)
    requires Increasing(s.Line())
    ensures Increasing(s.q.data)
  {
    var n := |s.settled + s.Flight()|;
    forall i, j | 0 <= i < j < |s.q.data| ensures s.q.data[i].id < s.q.data[j].id {
      assert s.q.data[i] == s.Line()[n + i] && s.q.data[j] == s.Line()[n + j];
    }
  }

  /** Only inserts and limit drops change the line. */
  lemma LineKept(s: System, step: Step, o: Options)
    requires Enabled(s, step) && !step.Insert? && !step.Requeue?
    ensures Apply(s, step, o).Line() == s.Line()
  {
    hide BatchLength;
    var t := Apply(s, step, o);
    if step.Get? && s.q.data != [] {
      LineSplits(s.settled, s.q.data, BatchLength(s.q.data, o));
    } else if step.Outcome? && !t.phase.Retrying? {
      assert t.settled + [] == s.settled + s.phase.batch;
    }
  }

  lemma LineSplits(settled: seq<Entry>, d: seq<Entry>, n: nat)
    requires n <= |d|
    ensures settled + d[..n] + d[n..] == settled + [] + d
  {
    assert d == d[..n] + d[n..];
  }

  lemma InOrderInsert(s: System, step: Step, o: Options)
    requires Enabled(s, step) && InOrder(s) && step.Insert?
    ensures InOrder(Apply(s, step, o))
  {
    hide Excess;
    var t := Apply(s, step, o);
    var e := Entry(|s.inserted|, step.size, step.ts);
    var before, d := s.settled + s.Flight(), s.q.data + [e];
    var k := Excess(d, o, step.later);
    assert before + d == s.Line() + [e];
    DropFromMiddle(before, d, k);
    assert t.Line() == before + d[k..];
  }

  lemma InOrderStep(s: System, step: Step, o: Options)
    requires Enabled(s, step) && InOrder(s) && (s.phase.Retrying? ==> s.phase.batch != [])
    ensures InOrder(Apply(s, step, o))
  {
    hide Excess;
    if step.Insert? {
      InOrderInsert(s, step, o);
    } else if step.Requeue? {
      InOrderRequeue(s, step.later, o);
    } else {
      LineKept(s, step, o);
      hide System.Line;
    }
  }

  lemma InOrderRequeue(s: System, later: int, o: Options)
    requires Enabled(s, Requeue(later)) && InOrder(s) && s.phase.batch != []
    ensures InOrder(Apply(s, Requeue(later), o))
  {
    hide Excess;
    var d := s.phase.batch + s.q.data;
    assert s.settled + d == s.Line();
    DropFromMiddle(s.settled, d, Excess(d, o, later));
    assert Apply(s, Requeue(later), o).Line() == s.settled + d[Excess(d, o, later)..];
    hide System.Line;
  }

  // ---- Conservation ----

  /** Nothing is lost or doubled, and exactly the buffers of settled and dropped
      records are back in the pool. */
  predicate Conserved(s: System) {
    && multiset(s.inserted) == multiset(s.settled) + multiset(s.dropped) + multiset(s.Flight()) + multiset(s.q.data)
    && multiset(s.q.pool) == multiset(s.settled) + multiset(s.dropped)
  }

  lemma SplitCounts(d: seq<Entry>, k: nat)
    requires k <= |d|
    ensures multiset(d) == multiset(d[..k]) + multiset(d[k..])
  {
    assert d == d[..k] + d[k..];
  }

  lemma ConservedInsert(s: System, step: Step, o: Options)
    requires Enabled(s, step) && Conserved(s) && step.Insert?
    ensures Conserved(Apply(s, step, o))
  {
    hide Excess;
    var t := Apply(s, step, o);
    var e := Entry(|s.inserted|, step.size, step.ts);
    var d := s.q.data + [e];
    var k := Excess(d, o, step.later);
    SplitCounts(d, k);
    assert multiset(d) == multiset(s.q.data) + multiset{e};
    assert multiset(t.inserted) == multiset(s.inserted) + multiset{e};
    assert multiset(t.dropped) == multiset(s.dropped) + multiset(d[..k]);
    assert multiset(t.q.pool) == multiset(s.q.pool) + multiset(d[..k]);
    Rebalance(multiset(s.settled), multiset(s.dropped), multiset(s.Flight()), multiset(s.q.data), multiset{e},
              multiset(d[..k]), multiset(d[k..]));
  }

  lemma Rebalance(a: multiset<Entry>, b: multiset<Entry>, c: multiset<Entry>, q: multiset<Entry>, e: multiset<Entry>,
                  out: multiset<Entry>, kept: multiset<Entry>)
    requires q + e == out + kept
    ensures a + b + c + q + e == a + (b + out) + c + kept
    ensures a + b + e + q == a + (b + out) + kept
    ensures a + b + out == a + (b + out)
  {
    assert a + b + c + q + e == a + b + c + (q + e);
    assert a + b + e + q == a + b + (q + e);
  }

  lemma ConservedRequeue(s: System, later: int, o: Options)
    requires Enabled(s, Requeue(later)) && Conserved(s) && s.phase.batch != []
    ensures Conserved(Apply(s, Requeue(later), o))
  {
    hide Excess;
    var t := Apply(s, Requeue(later), o);
    var d := s.phase.batch + s.q.data;
    var k := Excess(d, o, later);
    SplitCounts(d, k);
    assert multiset(d) == multiset(s.phase.batch) + multiset(s.q.data);
    assert multiset(t.dropped) == multiset(s.dropped) + multiset(d[..k]);
    assert multiset(t.q.pool) == multiset(s.q.pool) + multiset(d[..k]);
    assert multiset(t.Flight()) == multiset{};
    Rebalance(multiset(s.settled), multiset(s.dropped), multiset{}, multiset(s.q.data), multiset(s.phase.batch),
              multiset(d[..k]), multiset(d[k..]));
  }

  lemma ConservedOutcome(s: System, kind: ErrKind, o: Options)
    requires Enabled(s, Outcome(kind)) && Conserved(s)
    ensures Conserved(Apply(s, Outcome(kind), o))
  {
    var t := Apply(s, Outcome(kind), o);
    if !t.phase.Retrying? {
      assert multiset(t.settled) == multiset(s.settled) + multiset(s.phase.batch);
      assert multiset(t.q.pool) == multiset(s.q.pool) + multiset(s.phase.batch);
      assert multiset(t.Flight()) == multiset{};
      SettleBalance(multiset(s.settled), multiset(s.dropped), multiset(s.phase.batch), multiset(s.q.data));
    }
  }

  lemma SettleBalance(settled: multiset<Entry>, dropped: multiset<Entry>, batch: multiset<Entry>, q: multiset<Entry>)
    ensures settled + dropped + batch + q == (settled + batch) + dropped + multiset{} + q
    ensures settled + dropped + batch == (settled + batch) + dropped
  {
  }

  lemma ConservedStep(s: System, step: Step, o: Options)
    requires Enabled(s, step) && Conserved(s) && (s.phase.Retrying? ==> s.phase.batch != [])
    ensures Conserved(Apply(s, step, o))
  {
    hide Excess, BatchLength, Conserved;
    if step.Insert? {
      ConservedInsert(s, step, o);
    } else if step.Requeue? {
      ConservedRequeue(s, step.later, o);
    } else if step.Outcome? {
      ConservedOutcome(s, step.kind, o);
    } else if step.Get? && s.q.data != [] {
      ConservedGet(s, o);
    } else {
      SameRecords(s, Apply(s, step, o));
    }
  }

  lemma ConservedGet(s: System, o: Options)
    requires Enabled(s, Get) && Conserved(s) && s.q.data != []
    ensures Conserved(Apply(s, Get, o))
  {
    hide BatchLength;
    SplitCounts(s.q.data, BatchLength(s.q.data, o));
    assert multiset(s.Flight()) == multiset{};
  }

  lemma SameRecords(s: System, t: System)
    requires Conserved(s)
    requires (t.inserted, t.settled, t.dropped, t.Flight()) == (s.inserted, s.settled, s.dropped, s.Flight())
    requires (t.q.data, t.q.pool) == (s.q.data, s.q.pool)
    ensures Conserved(t)
  {
  }

  // ---- Wake-ups and bounds ----

  /** No lost wake-up. */
  predicate Awake(s: System) {
    s.q.data != [] ==> s.q.signaled || s.phase.Woken?
  }

  predicate Bounded(s: System, o: Options) {
    o.maxQueuedBytes > 0 ==> Bytes(s.q.data) <= o.maxQueuedBytes
  }

  lemma AwakeAndBoundedStep(s: System, step: Step, o: Options)
    requires Enabled(s, step) && Awake(s) && Bounded(s, o)
    ensures Awake(Apply(s, step, o)) && Bounded(Apply(s, step, o), o)
  {
    hide Excess, BatchLength, Bytes;
    if step.Insert? && o.maxQueuedBytes > 0 {
      LimitedIsBounded(s.q.(data := s.q.data + [Entry(|s.inserted|, step.size, step.ts)]), o, step.later);
    } else if step.Requeue? && o.maxQueuedBytes > 0 {
      LimitedIsBounded(s.q.(data := s.phase.batch + s.q.data), o, step.later);
    } else if step.Get? {
      BytesSuffix(s.q.data, BatchLength(s.q.data, o));
    }
  }

  // ---- Retries ----

  /** How many of the batches hold the record. */
  function Attempts(log: seq<seq<Entry>>, e: Entry): nat {
    if log == [] then 0
    else Attempts(log[..|log| - 1], e) + if e in log[|log| - 1] then 1 else 0
  }

  lemma AttemptsAppend(log: seq<seq<Entry>>, batch: seq<Entry>, e: Entry)
    ensures Attempts(log + [batch], e) == Attempts(log, e) + if e in batch then 1 else 0
  {
    assert (log + [batch])[..|log|] == log;
  }

  function MaxRetries(o: Options): nat { if o.maxRetries > 0 then o.maxRetries else 0 }

  predicate Within(log: seq<seq<Entry>>, d: seq<Entry>, budget: int) {
    forall e :: e in d ==> Attempts(log, e) <= budget
  }

  /** The records already tried are the first `k` queued ones, and make one batch. */
  predicate TriedPrefix(log: seq<seq<Entry>>, d: seq<Entry>, k: nat, budget: int, o: Options) {
    && k <= |d| && Batchable(d[..k], o)
    && Within(log, d[..k], budget)
    && Within(log, d[k..], 0)
  }

  ghost predicate OneBatchTried(log: seq<seq<Entry>>, d: seq<Entry>, budget: int, o: Options) {
    exists k: nat :: TriedPrefix(log, d, k, budget, o)
  }

  /** Limits drop from the front, so what was tried stays a prefix. */
  lemma TriedAfterCut(log: seq<seq<Entry>>, d: seq<Entry>, k: nat, cut: nat, budget: int, o: Options)
    requires cut <= |d| && TriedPrefix(log, d, k, budget, o)
    ensures TriedPrefix(log, d[cut..], if k < cut then 0 else k - cut, budget, o)
  {
    hide Attempts, Bytes;
    if cut <= k {
      assert d[cut..][..k - cut] == d[..k][cut..];
      assert d[cut..][k - cut..] == d[k..];
      BatchableSuffix(d[..k], cut, o);
    } else {
      assert d[cut..][0..] == d[k..][cut - k..];
      assert d[cut..][..0] == [];
    }
  }

  /** No record was sent too often, and only records that were inserted. */
  ghost predicate AttemptsOk(log: seq<seq<Entry>>, bound: int, ids: nat) {
    forall e :: Attempts(log, e) <= bound && (Attempts(log, e) > 0 ==> e.id < ids)
  }

  ghost predicate Budgeted(s: System, o: Options) {
    && AttemptsOk(s.sent, MaxRetries(o) + 1, |s.inserted|)
    && s.left <= MaxRetries(o)
    && match s.phase
       case Stopped => true
       case Sending(batch) =>
         batch != [] && Batchable(batch, o) && Within(s.sent, batch, MaxRetries(o) + 1 - s.left) && Within(s.sent, s.q.data, 0)
       case Retrying(batch) =>
         batch != [] && Batchable(batch, o) && s.retrying && s.left >= 0
         && Within(s.sent, batch, MaxRetries(o) - s.left) && Within(s.sent, s.q.data, 0)
       case _ =>
         (s.phase.BackingOff? ==> s.retrying)
         && if s.retrying then s.left >= 0 && OneBatchTried(s.sent, s.q.data, MaxRetries(o) - s.left, o)
            else Within(s.sent, s.q.data, 0)
  }

  lemma BudgetedStep(s: System, step: Step, o: Options)
    requires Enabled(s, step) && InOrder(s) && Budgeted(s, o)
    ensures Budgeted(Apply(s, step, o), o)
  {
    hide Excess, BatchLength, Bytes, Attempts;
    if step.Insert? {
      BudgetedInsert(s, step, o);
    } else if step.Get? {
      BudgetedGet(s, o);
    } else if step.Requeue? {
      BudgetedRequeue(s, step.later, o);
    } else if step.StartPush? {
      assert forall e :: Attempts([], e) == 0 by { NoAttempts(); }
    }
  }

  lemma NoAttempts()
    ensures forall e :: Attempts([], e) == 0
  {
  }

  lemma BudgetedInsert(s: System, step: Step, o: Options)
    requires step.Insert? && Enabled(s, step) && Budgeted(s, o)
    ensures Budgeted(Apply(s, step, o), o)
  {
    hide Excess, Bytes, Attempts, Batchable;
    var e := Entry(|s.inserted|, step.size, step.ts);
    var d := s.q.data + [e];
    assert Attempts(s.sent, e) == 0;
    if s.retrying && (s.phase.Waiting? || s.phase.Woken? || s.phase.BackingOff?) {
      var budget := MaxRetries(o) - s.left;
      var k: nat :| TriedPrefix(s.sent, s.q.data, k, budget, o);
      assert d[..k] == s.q.data[..k] && d[k..] == s.q.data[k..] + [e];
      TriedAfterCut(s.sent, d, k, Excess(d, o, step.later), budget, o);
    }
  }

  lemma BudgetedRequeue(s: System, later: int, o: Options)
    requires Enabled(s, Requeue(later)) && Budgeted(s, o)
    ensures Budgeted(Apply(s, Requeue(later), o), o)
  {
    hide Excess, Bytes, Attempts, Batchable;
    var batch := s.phase.batch;
    var d := batch + s.q.data;
    assert d[..|batch|] == batch && d[|batch|..] == s.q.data;
    TriedAfterCut(s.sent, d, |batch|, Excess(d, o, later), MaxRetries(o) - s.left, o);
  }

  /** A batch sent counts once more for its records and leaves the others alone. */
  lemma SentOnceMore(log: seq<seq<Entry>>, batch: seq<Entry>, rest: seq<Entry>, budget: int)
    requires Within(log, batch, budget) && Within(log, rest, 0) && forall e :: e in rest ==> e !in batch
    ensures Within(log + [batch], batch, budget + 1) && Within(log + [batch], rest, 0)
  {
    hide Attempts;
    forall e ensures Attempts(log + [batch], e) == Attempts(log, e) + if e in batch then 1 else 0 {
      AttemptsAppend(log, batch, e);
    }
  }

  lemma AttemptsBounded(log: seq<seq<Entry>>, batch: seq<Entry>, bound: int, ids: nat)
    requires Within(log, batch, bound - 1) && AttemptsOk(log, bound, ids) && forall e :: e in batch ==> e.id < ids
    ensures AttemptsOk(log + [batch], bound, ids)
  {
    hide Attempts;
    forall e ensures Attempts(log + [batch], e) == Attempts(log, e) + if e in batch then 1 else 0 {
      AttemptsAppend(log, batch, e);
    }
  }

  lemma BudgetedGet(s: System, o: Options)
    requires Enabled(s, Get) && InOrder(s) && Budgeted(s, o)
    ensures Budgeted(Apply(s, Get, o), o)
  {
    hide AttemptsOk, Attempts, Bytes;
    if s.q.data == [] {
      assert Apply(s, Get, o).sent == s.sent;
    } else {
      BudgetedSend(s, o);
    }
  }

  lemma BudgetedSend(s: System, o: Options)
    requires Enabled(s, Get) && InOrder(s) && Budgeted(s, o) && s.q.data != []
    ensures Budgeted(Apply(s, Get, o), o)
  {
    hide BatchLength, Bytes, Attempts, AttemptsOk, Batchable, OneBatchTried, InOrder, Within;
    var n := BatchLength(s.q.data, o);
    var batch, rest := s.q.data[..n], s.q.data[n..];
    var budget := if s.retrying then MaxRetries(o) - s.left else 0;
    BatchIsGreedy(s.q.data, o);
    GetTakesTried(s, o);
    QueueKnown(s);
    SentOnceMore(s.sent, batch, rest, budget);
    Looser(s.sent, batch, budget, MaxRetries(o));
    AttemptsBounded(s.sent, batch, MaxRetries(o) + 1, |s.inserted|);
    Looser(s.sent + [batch], batch, budget + 1, MaxRetries(o) + 1 - Apply(s, Get, o).left);
  }

  lemma Looser(log: seq<seq<Entry>>, d: seq<Entry>, budget: int, more: int)
    requires Within(log, d, budget) && budget <= more
    ensures Within(log, d, more)
  {
    hide Attempts;
  }

  /** The next batch holds every record tried before. */
  lemma GetTakesTried(s: System, o: Options)
    requires s.phase.Woken? && InOrder(s) && Budgeted(s, o) && s.q.data != []
    ensures var n := BatchLength(s.q.data, o);
      && Within(s.sent, s.q.data[n..], 0)
      && Within(s.sent, s.q.data[..n], if s.retrying then MaxRetries(o) - s.left else 0)
      && forall e :: e in s.q.data[n..] ==> e !in s.q.data[..n]
  {
    hide BatchLength, Bytes, Attempts, Batchable;
    var n := BatchLength(s.q.data, o);
    QueueIncreasing(s);
    if s.retrying {
      var k: nat :| TriedPrefix(s.sent, s.q.data, k, MaxRetries(o) - s.left, o);
      BatchTakesWhole(s.q.data, k, o);
      assert s.q.data[n..] == s.q.data[k..][n - k..];
      assert s.q.data[..n] == s.q.data[..k] + s.q.data[k..][..n - k];
    }
  }

  // ---- First sends ----

  /** First sends happen in insertion order: what is queued was sent before, or
      is newer than everything that was. */
  predicate FirstSendsInOrder(s: System) {
    && (forall e :: e in s.ever ==> e.id < |s.inserted|)
    && (forall e :: e in s.Flight() ==> e in s.ever)
    && (forall e, f :: e in s.q.data && f in s.ever ==> e in s.ever || f.id < e.id)
  }

  lemma FirstSendsStep(s: System, step: Step, o: Options)
    requires Enabled(s, step) && InOrder(s) && FirstSendsInOrder(s)
    ensures FirstSendsInOrder(Apply(s, step, o))
  {
    if step.Get? && s.q.data != [] {
      FirstSendsGet(s, o);
    } else {
      hide Excess, InOrder;
      LimitsKeepSome(s, step, o);
      hide Limited, Inserted, Requeued, Taken;
    }
  }

  /** Without a get, what is queued was queued, in flight, or has just arrived. */
  lemma LimitsKeepSome(s: System, step: Step, o: Options)
    requires Enabled(s, step) && !(step.Get? && s.q.data != [])
    ensures forall e :: e in Apply(s, step, o).q.data ==> e in s.q.data || e in s.Flight() || e.id == |s.inserted|
  {
    hide Excess;
  }

  lemma FirstSendsGet(s: System, o: Options)
    requires Enabled(s, Get) && InOrder(s) && FirstSendsInOrder(s) && s.q.data != []
    ensures FirstSendsInOrder(Apply(s, Get, o))
  {
    hide BatchLength, InOrder, Increasing, System.Line;
    QueueKnown(s);
    SplitInOrder(s.q.data, BatchLength(s.q.data, o));
  }

  lemma QueueKnown(s: System)
    requires InOrder(s)
    ensures Increasing(s.q.data) && forall e :: e in s.q.data ==> e.id < |s.inserted|
  {
    QueueIncreasing(s);
    assert forall e :: e in s.q.data ==> e in s.Line();
  }

  lemma SplitInOrder(d: seq<Entry>, n: nat)
    requires n <= |d| && Increasing(d)
    ensures forall e, f :: e in d[n..] && f in d[..n] ==> f.id < e.id
    ensures forall e :: e in d[..n] || e in d[n..] ==> e in d
  {
  }

  // ---- Whole runs ----

  ghost predicate Inv(s: System, o: Options) {
    InOrder(s) && Conserved(s) && Awake(s) && Bounded(s, o) && Budgeted(s, o) && FirstSendsInOrder(s)
  }

  lemma InvInit(s: System, o: Options)
    requires Init(s)
    ensures Inv(s, o)
  {
    NoAttempts();
  }

  lemma InvStep(s: System, t: System, o: Options)
    requires Inv(s, o) && Next(s, t, o)
    ensures Inv(t, o)
  {
    hide InOrder, Conserved, Awake, Bounded, FirstSendsInOrder, Apply;
    var step :| Enabled(s, step) && t == Apply(s, step, o);
    InOrderStep(s, step, o);
    ConservedStep(s, step, o);
    AwakeAndBoundedStep(s, step, o);
    BudgetedStep(s, step, o);
    FirstSendsStep(s, step, o);
  }

  lemma {:induction false} InvHolds(states: seq<System>, o: Options, i: nat)
    requires Run(states, o) && i < |states|
    ensures Inv(states[i], o)
  {
    if i == 0 {
      InvInit(states[0], o);
    } else {
      InvHolds(states, o, i - 1);
      assert Next(states[i - 1], states[i - 1 + 1], o);
      InvStep(states[i - 1], states[i], o);
    }
  }

  /** How often `e` is among the records of `d`. */
  function Occurrences(d: seq<Entry>, e: Entry): nat { multiset(d)[e] }

  /** In every state of every run an inserted record is in exactly one place;
      its buffer is in the pool once if it was settled or dropped, and not at
      all while it is queued or in flight. */
  lemma RecordsAreConserved(states: seq<System>, o: Options, i: nat, e: Entry)
    requires Run(states, o) && i < |states| && e in states[i].inserted
    ensures var s := states[i];
      && Occurrences(s.settled, e) + Occurrences(s.dropped, e) + Occurrences(s.Flight(), e) + Occurrences(s.q.data, e) == 1
      && Occurrences(s.q.pool, e) == Occurrences(s.settled, e) + Occurrences(s.dropped, e)
  {
    InvHolds(states, o, i);
    DistinctOnce(states[i].inserted, e);
  }

  lemma {:induction false} DistinctOnce(d: seq<Entry>, e: Entry)
    requires e in d && forall i :: 0 <= i < |d| ==> d[i].id == i
    ensures multiset(d)[e] == 1
  {
    var k := e.id;
    assert d == d[..k] + [e] + d[k + 1..];
    assert e !in d[..k] && e !in d[k + 1..];
  }

  /** Within one push no record is sent more than maxRetries + 1 times. */
  lemma SendsAreBounded(states: seq<System>, o: Options, i: nat, e: Entry)
    requires Run(states, o) && i < |states|
    ensures Attempts(states[i].sent, e) <= MaxRetries(o) + 1
  {
    InvHolds(states, o, i);
  }

  lemma LineIsChronological(s: System)
    requires InOrder(s)
    ensures Chronological(s.Line()) && Chronological(s.Flight() + s.q.data)
  {
    var line, live := s.Line(), s.Flight() + s.q.data;
    forall a, b | 0 <= a < b < |line| ensures line[a].ts <= line[b].ts {
      assert line[a] in line && line[b] in line;
    }
    forall a, b | 0 <= a < b < |live| ensures live[a].ts <= live[b].ts {
      assert live[a] == line[|s.settled| + a] && live[b] == line[|s.settled| + b];
    }
  }

  lemma MoreIsChronological(s: System, e: Entry)
    requires InOrder(s) && Chronological(s.Line())
    ensures s.now <= e.ts ==> Chronological(s.q.data + [e])
  {
    forall x | x in s.Line() ensures x.ts <= s.now {
      assert s.inserted[x.id] == x;
    }
    hide InOrder;
    if s.now <= e.ts { LaterIsLast(s.settled + s.Flight(), s.q.data, e); }
  }

  lemma LaterIsLast(front: seq<Entry>, d: seq<Entry>, e: Entry)
    requires Chronological(front + d) && forall x :: x in front + d ==> x.ts <= e.ts
    ensures Chronological(d + [e])
  {
    forall a | 0 <= a < |d| ensures d[a] == (front + d)[|front| + a] && d[a].ts <= e.ts {
      assert (front + d)[|front| + a] in front + d;
    }
  }

  /** Settled, in-flight and queued records are in insertion order and in the
      order of their timestamps, which is what limitAge and requeue rely on. */
  lemma RecordsStayInOrder(states: seq<System>, o: Options, i: nat)
    requires Run(states, o) && i < |states|
    ensures Increasing(states[i].Line()) && Chronological(states[i].Line())
    ensures Chronological(states[i].Flight() + states[i].q.data)
  {
    InvHolds(states, o, i);
    LineIsChronological(states[i]);
  }

  /** So the queue's methods may be called as the steps call them. */
  lemma QueueStaysChronological(states: seq<System>, o: Options, i: nat, e: Entry)
    requires Run(states, o) && i < |states|
    ensures states[i].now <= e.ts ==> Chronological(states[i].q.data + [e])
    ensures states[i].phase.Retrying? ==> Chronological(states[i].phase.batch + states[i].q.data)
  {
    InvHolds(states, o, i);
    LineIsChronological(states[i]);
    MoreIsChronological(states[i], e);
  }

  /** A record sent for the first time is newer than all records sent before. */
  lemma FirstSendsAreInOrder(states: seq<System>, o: Options, i: nat, e: Entry, f: Entry)
    requires Run(states, o) && i + 1 < |states|
    requires e in states[i + 1].ever && e !in states[i].ever && f in states[i].ever
    ensures f.id < e.id
  {
    InvHolds(states, o, i);
    assert Next(states[i], states[i + 1], o);
  }

  /** The queue is never left non-empty with nobody told. */
  lemma NoLostWakeUp(states: seq<System>, o: Options, i: nat)
    requires Run(states, o) && i < |states| && states[i].q.data != []
    ensures states[i].q.signaled || states[i].phase.Woken?
    ensures o.maxQueuedBytes > 0 ==> Bytes(states[i].q.data) <= o.maxQueuedBytes
  {
    InvHolds(states, o, i);
  }
}
