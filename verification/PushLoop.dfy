/** internal/pusher/v2/queue.go, push: the loop itself, with its counter and flag,
    over a queue that others insert into while it runs. What the environment
    does comes from a script; where it ends, the loop is still waiting. */
module PushLoop {
  import Q = Queue
  import opened Push

  /** Each step of the script is enabled when its turn comes. */
  predicate Feasible(s: System, script: seq<Step>, o: Q.Options)
    decreases |script|
  {
    script != [] ==> Enabled(s, script[0]) && Feasible(Apply(s, script[0], o), script[1..], o)
  }

  function After(s: System, script: seq<Step>, o: Q.Options): System
    requires Feasible(s, script, o)
    decreases |script|
  {
    if script == [] then s else After(Apply(s, script[0], o), script[1..], o)
  }

  lemma Chronology(s: System, o: Q.Options, e: Q.Entry)
    requires Inv(s, o)
    ensures s.now <= e.ts ==> Q.Chronological(s.q.data + [e])
    ensures s.phase.Retrying? ==> Q.Chronological(s.phase.batch + s.q.data)
  {
    LineIsChronological(s);
    MoreIsChronological(s, e);
  }

  /** A cancellation, or an error that concerns the tenant. */
  predicate EndsPush(step: Step) {
    || step == CancelWait || step == BackoffCancelled
    || step == Outcome(Tenant) || step == Outcome(Fatal) || step == Outcome(Wait) || step == Outcome(Terminated)
  }

  class Pusher {
    const q: Q.Queue
    var script: seq<Step>      // what is still to happen
    var arrived: nat           // records inserted so far
    ghost var s: System        // the state of the step system
    ghost var ended: bool      // the last step was one that ends a push

    /** The queue is in the state the step system is in. */
    ghost predicate Tracks()
      reads this, q
    {
      && s.q == q.Value() && arrived == |s.inserted| && Inv(s, q.options)
      && Feasible(s, script, q.options)
    }

    /** Where the whole script leads. */
    ghost function End(): System
      requires Tracks()
      reads this, q
    {
      After(s, script, q.options)
    }

    constructor (q: Q.Queue, script: seq<Step>, arrived: nat, ghost s: System)
      requires s.q == q.Value() && arrived == |s.inserted| && Inv(s, q.options) && Feasible(s, script, q.options)
      ensures this.q == q && this.script == script && this.s == s && Tracks() && !ended
    {
      this.q, this.script, this.arrived, this.s, ended := q, script, arrived, s, false;
    }

    /** The queue has made the script's next step; none is made after one that ends a push. */
    method Advance()
      requires !ended && script != [] && Inv(s, q.options) && Feasible(s, script, q.options)
      requires var t := Apply(s, script[0], q.options); t.q == q.Value() && arrived == |t.inserted|
      modifies this`script, this`s, this`ended
      ensures ended <==> EndsPush(old(script[0]))
      ensures Tracks() && s == Apply(old(s), old(script[0]), q.options) && script == old(script)[1..]
      ensures End() == After(old(s), old(script), q.options)
    {
      hide Inv, Apply, Enabled;
      ghost var t := Apply(s, script[0], q.options);
      assert Next(s, t, q.options);
      InvStep(s, t, q.options);
      ended := EndsPush(script[0]);
      s, script := t, script[1..];
    }

    /** Others insert, for as long as the script says. */
    method Arrivals()
      requires Tracks() && !ended
      modifies this, q
      ensures Tracks() && !ended && End() == old(End()) && |script| <= old(|script|)
      ensures (s.phase, s.left, s.retrying) == old((s.phase, s.left, s.retrying))
      ensures script != [] ==> !script[0].Insert?
    {
      hide Inv, After;
      while script != [] && script[0].Insert?
        invariant Tracks() && !ended && End() == old(End()) && |script| <= old(|script|)
        invariant (s.phase, s.left, s.retrying) == old((s.phase, s.left, s.retrying))
        decreases |script|
      {
        var Insert(size, ts, later) := script[0];
        Chronology(s, q.options, Q.Entry(arrived, size, ts));
        q.Insert(arrived, size, ts, later);
        arrived := arrived + 1;
        Advance();
      }
    }

    /** The select: the context is done, or the token is taken. */
    method Select() returns (woken: bool)
      requires Tracks() && !ended && s.phase.Waiting? && script != [] && !script[0].Insert?
      modifies this, q
      ensures Tracks() && End() == old(End()) && |script| < old(|script|)
      ensures (s.left, s.retrying) == old((s.left, s.retrying))
      ensures if woken then s.phase.Woken? && !q.pending else s.phase.Stopped?
      ensures woken <==> !ended
    {
      hide Inv, After;
      woken := script[0].Wake?;
      if woken { q.pending := false; }
      Advance();
    }

    method Take() returns (records: seq<Q.Entry>)
      requires Tracks() && !ended && s.phase.Woken? && script != [] && !script[0].Insert?
      modifies this, q
      ensures Tracks() && End() == old(End()) && |script| < old(|script|)
      ensures !ended
      ensures if records == [] then s.phase.Waiting? && (s.left, s.retrying) == old((s.left, s.retrying))
              else s.phase == Sending(records) && !s.retrying && s.left == if old(s.retrying) then old(s.left) else q.options.maxRetries
    {
      hide Inv, After, Q.BatchLength;
      records := q.Get();
      Advance();
    }

    /** A retriable error with retries left: requeue, then back off. */
    method Retry(records: seq<Q.Entry>) returns (stop: bool)
      requires Tracks() && !ended && s.phase == Sending(records) && s.left > 0
      requires script != [] && script[0] == Outcome(Network)
      modifies this, q
      ensures Tracks() && End() == old(End()) && |script| < old(|script|)
      ensures if stop then script == [] || ended else !ended
      ensures ended ==> s.phase.Stopped?
      ensures !stop ==> s.phase.Waiting? && s.retrying && s.left == old(s.left) - 1
    {
      hide Inv, After, Feasible;
      Advance();
      Arrivals();
      if script == [] { return true; }
      PutBack(records);
      Arrivals();
      if script == [] { return true; }
      NextIsEnabled();
      stop := script[0].BackoffCancelled?;
      Advance();
    }

    method PutBack(records: seq<Q.Entry>)
      requires Tracks() && !ended && s.phase == Retrying(records) && script != [] && !script[0].Insert?
      modifies this, q
      ensures Tracks() && !ended && End() == old(End()) && |script| < old(|script|)
      ensures s.phase == BackingOff && (s.left, s.retrying) == old((s.left, s.retrying))
    {
      hide Inv, After, Feasible;
      NextIsEnabled();
      Chronology(s, q.options, Q.Entry(0, 0, 0));
      q.Requeue(records, script[0].later);
      Advance();
    }

    lemma NextIsEnabled()
      requires Tracks() && script != []
      ensures Enabled(s, script[0])
    {
    }

    /** Published or given up: the buffers go back, and some errors end the push. */
    method Settle(records: seq<Q.Entry>) returns (stop: bool)
      requires Tracks() && !ended && s.phase == Sending(records)
      requires script != [] && script[0].Outcome? && (script[0].kind.Network? ==> s.left <= 0)
      modifies this, q
      ensures Tracks() && End() == old(End()) && |script| < old(|script|)
      ensures !s.retrying && s.left == old(s.left)
      ensures if stop then s.phase.Stopped? else s.phase.Waiting?
      ensures stop <==> ended
      ensures var kind := old(script[0].kind); stop <==> kind == Tenant || kind == Fatal || kind == Wait || kind == Terminated
    {
      hide Inv, After;
      var kind := script[0].kind;
      stop := kind.Tenant? || kind.Fatal? || kind.Wait? || kind.Terminated?;
      q.pool := q.pool + records;
      Advance();
    }

    /** push: at every turn the loop's variables are those of the step system,
        so the theorems about its runs are about this loop. It returns at the
        first step that ends a push, and only then. */
    method Drain()
      requires Tracks() && !ended && s.phase.Waiting? && s.left == q.options.maxRetries && !s.retrying
      modifies this, q
      ensures Tracks() && End() == old(End())
      ensures script == [] || ended
      ensures ended ==> s.phase.Stopped?
    {
      hide Inv, After, Feasible;
      var left, retrying := q.options.maxRetries, false;
      while true
        invariant Tracks() && End() == old(End())
        invariant s.phase.Waiting? && (s.left, s.retrying) == (left, retrying)
        invariant !ended
        decreases |script|
      {
        Arrivals();
        if script == [] { return; }
        var woken := Select();
        if !woken { return; }
        Arrivals();
        if script == [] { return; }
        var records := Take();
        if records == [] { continue; }
        if !retrying { left := q.options.maxRetries; }
        retrying := false;
        Arrivals();
        if script == [] { return; }
        NextIsEnabled();
        var stop;
        if script[0].kind.Network? && left > 0 {
          left, retrying := left - 1, true;
          stop := Retry(records);
        } else {
          stop := Settle(records);
        }
        if stop { return; }
      }
    }
  }
}
