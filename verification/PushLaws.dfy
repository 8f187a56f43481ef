/** internal/pusher/v2/queue.go, push: what an outcome leads to, how often a batch is
    retried, and what the limits drop, in every run of the push system. */
module PushLaws {
  import opened Queue
  import opened Push

  /** The run makes this step at `i`. */
  predicate Makes(states: seq<System>, i: nat, step: Step, o: Options) {
    i + 1 < |states| && Enabled(states[i], step) && states[i + 1] == Apply(states[i], step, o)
  }

  // ---- Outcomes ----

  /** A push ends exactly with an error that concerns the tenant; a batch is retried
      exactly after a network error with retries left; otherwise it is settled,
      its buffers given back, and the loop goes on. */
  lemma OutcomeDecides(states: seq<System>, o: Options, i: nat, kind: ErrKind)
    requires Run(states, o) && Makes(states, i, Outcome(kind), o)
    ensures var (s, t) := (states[i], states[i + 1]);
      && (t.phase.Stopped? <==> kind == Tenant || kind == Fatal || kind == Wait || kind == Terminated)
      && (t.phase == Retrying(s.phase.batch) <==> kind == Network && s.left > 0)
      && (t.phase.Retrying? ==> t.settled == s.settled && t.q == s.q && t.left == s.left - 1)
      && (!t.phase.Retrying? ==>
            && (t.phase.Stopped? || t.phase.Waiting?)
            && t.settled == s.settled + s.phase.batch && t.q == s.q.(pool := s.q.pool + s.phase.batch))
  {
  }

  /** A cancelled wait or back-off ends the push; a back-off that runs out does not. */
  lemma CancellationStops(states: seq<System>, o: Options, i: nat, step: Step)
    requires Run(states, o) && Makes(states, i, step, o)
    ensures step == CancelWait || step == BackoffCancelled ==> states[i + 1].phase.Stopped?
    ensures step == BackoffEnds ==> states[i + 1].phase.Waiting?
    ensures step == Wake ==> !states[i + 1].q.signaled
  {
  }

  /** A push that has ended sends nothing until the next one starts. */
  lemma {:induction false} StoppedSendsNothing(states: seq<System>, o: Options, i: nat, j: nat)
    requires Run(states, o) && i <= j < |states| && states[i].phase.Stopped?
    requires forall k :: i <= k < j ==> !Makes(states, k, StartPush, o)
    ensures states[j].phase.Stopped? && states[j].sent == states[i].sent && states[j].ever == states[i].ever
    decreases j - i
  {
    hide Run, Makes;
    if i < j {
      StoppedSendsNothing(states, o, i, j - 1);
      var step := StepMade(states, o, j - 1);
      assert !Makes(states, j - 1, StartPush, o);
      StoppedMakes(states, o, j - 1, step);
    }
  }

  lemma StepMade(states: seq<System>, o: Options, i: nat) returns (step: Step)
    requires Run(states, o) && i + 1 < |states|
    ensures Makes(states, i, step, o)
  {
    hide Apply, Enabled;
    assert Next(states[i], states[i + 1], o);
    step :| Enabled(states[i], step) && states[i + 1] == Apply(states[i], step, o);
  }

  lemma StoppedMakes(states: seq<System>, o: Options, i: nat, step: Step)
    requires Makes(states, i, step, o) && states[i].phase.Stopped? && step != StartPush
    ensures states[i + 1].phase.Stopped? && states[i + 1].sent == states[i].sent && states[i + 1].ever == states[i].ever
  {
    hide Apply, Enabled;
    StoppedStep(states[i], step, o);
  }

  lemma StoppedStep(s: System, step: Step, o: Options)
    requires Enabled(s, step) && s.phase.Stopped? && step != StartPush
    ensures var t := Apply(s, step, o); t.phase.Stopped? && t.sent == s.sent && t.ever == s.ever
  {
    hide Inserted, Excess;
  }

  // ---- Retries ----

  predicate AllNetwork(outcomes: seq<ErrKind>) { forall k :: k in outcomes ==> k == Network }

  /** The retries used so far were each for a network error, one after the other. */
  predicate RetriesUsed(s: System, o: Options) {
    s.phase.Sending? || s.retrying ==>
      var n := o.maxRetries - s.left;
      0 <= n <= |s.outcomes| && AllNetwork(s.outcomes[|s.outcomes| - n..])
  }

  /** With one network error more, one outcome more of the same kind ends the list. */
  lemma OneMoreNetwork(outcomes: seq<ErrKind>, n: nat, m: nat)
    requires m <= n <= |outcomes| && AllNetwork(outcomes[|outcomes| - n..])
    ensures AllNetwork((outcomes + [Network])[|outcomes| - m..])
  {
    var (more, used) := ((outcomes + [Network])[|outcomes| - m..], outcomes[|outcomes| - n..]);
    forall i | 0 <= i < |more| ensures more[i] == Network {
      if i < m { assert more[i] == used[n - m + i] && used[n - m + i] in used; }
    }
  }

  lemma RetriesUsedStep(s: System, step: Step, o: Options)
    requires Enabled(s, step) && RetriesUsed(s, o)
    ensures RetriesUsed(Apply(s, step, o), o)
  {
    hide Excess, BatchLength, AllNetwork, Limited, Inserted, Requeued, Taken;
    if step.Outcome? && step.kind.Network? && s.left > 0 {
      OneMoreNetwork(s.outcomes, o.maxRetries - s.left, o.maxRetries - s.left);
    } else if step.Get? {
      NoneYet(s.outcomes);
    }
  }

  lemma NoneYet(outcomes: seq<ErrKind>)
    ensures AllNetwork(outcomes[|outcomes|..])
  {
  }

  lemma {:induction false} RetriesUsedHolds(states: seq<System>, o: Options, i: nat)
    requires Run(states, o) && i < |states|
    ensures RetriesUsed(states[i], o)
  {
    if i > 0 {
      RetriesUsedHolds(states, o, i - 1);
      assert Next(states[i - 1], states[i - 1 + 1], o);
      var step :| Enabled(states[i - 1], step) && states[i] == Apply(states[i - 1], step, o);
      RetriesUsedStep(states[i - 1], step, o);
    }
  }

  /** A batch is given up on a network error only as the last of maxRetries + 1
      network errors in a row. */
  lemma GivenUpAfterAllRetries(states: seq<System>, o: Options, i: nat)
    requires Run(states, o) && Makes(states, i, Outcome(Network), o) && !states[i + 1].phase.Retrying?
    ensures var outcomes := states[i + 1].outcomes;
      MaxRetries(o) + 1 <= |outcomes| && AllNetwork(outcomes[|outcomes| - (MaxRetries(o) + 1)..])
  {
    RetriesUsedHolds(states, o, i);
    hide Run, AllNetwork;
    var s := states[i];
    OneMoreNetwork(s.outcomes, o.maxRetries - s.left, MaxRetries(o));
  }

  // ---- Limits ----

  /** Whenever a record is inserted or a batch put back, exactly the records that the
      limits ask for are dropped. */
  lemma LimitsHoldInRuns(states: seq<System>, o: Options, i: nat, step: Step)
    requires Run(states, o) && Makes(states, i, step, o) && (step.Insert? || step.Requeue?)
    ensures var (s, t) := (states[i], states[i + 1]);
      var d := if step.Insert? then s.q.data + [Entry(|s.inserted|, step.size, step.ts)] else s.phase.batch + s.q.data;
      s.dropped <= t.dropped && CutAsLimited(d, t.dropped[|s.dropped|..], t.q.data, o, step.later)
  {
    hide Excess, CutAsLimited, Inv, OneBatchTried;
    InvHolds(states, o, i);
    var (s, t) := (states[i], states[i + 1]);
    if step.Insert? {
      var e := Entry(|s.inserted|, step.size, step.ts);
      QueueStaysChronological(states, o, i, e);
      LimitsDropExactly(s.q.data + [e], o, step.later);
    } else {
      QueueStaysChronological(states, o, i, Entry(0, 0, 0));
      assert s.phase.batch != [] by { BatchInFlight(s, o); }
      LimitsDropExactly(s.phase.batch + s.q.data, o, step.later);
    }
  }

  lemma BatchInFlight(s: System, o: Options)
    requires Inv(s, o) && s.phase.Retrying?
    ensures s.phase.batch != []
  {
  }
}
