/** internal/scraper/scraper.go, tickWithOffset: work once a period, idle calls in
    between so that something is published every maxIdle, and a clean-up on stop.

    Tickers are ideal and callbacks take no time: a work tick is due every
    period and, when period > maxIdle, an idle tick every maxIdle, both counted
    from the first work. Ticks are received in the order of their times; ticks
    of the same time in either order. Stop and cancellation come at any time. */
module Ticker {

  datatype Config = Config(period: int, offset: int, maxIdle: int, minGap: int) {
    predicate Valid() { period > 0 && maxIdle > 0 && minGap > 0 && offset >= 0 }
  }

  datatype Call = Work(t: int) | Idle(t: int) | Cleanup(t: int)

  datatype Phase = Starting | Ticking | Done

  datatype State = State(phase: Phase, lastTick: int, nextWork: int, nextIdle: int, calls: seq<Call>)

  /** What the loop's select receives. */
  datatype Event = OffsetFires(t: int) | WorkTick(t: int) | IdleTick(t: int) | Stop | Cancel

  function Init(): State { State(Starting, 0, 0, 0, []) }

  predicate Enabled(s: State, e: Event, c: Config) {
    match e
    case OffsetFires(t) => s.phase.Starting? && t == c.offset
    case WorkTick(t) => s.phase.Ticking? && t == s.nextWork && (c.period > c.maxIdle ==> s.nextWork <= s.nextIdle)
    case IdleTick(t) => s.phase.Ticking? && t == s.nextIdle && c.period > c.maxIdle && s.nextIdle <= s.nextWork
    case Stop => !s.phase.Done?
    case Cancel => !s.phase.Done?
  }

  function Apply(s: State, e: Event, c: Config): State
    requires Enabled(s, e, c)
  {
    match e
    case OffsetFires(t) => State(Ticking, t, t + c.period, t + c.maxIdle, s.calls + [Work(t)])
    case WorkTick(t) => s.(lastTick := t, nextWork := t + c.period, calls := s.calls + [Work(t)])
    case IdleTick(t) =>
      s.(nextIdle := t + c.maxIdle,
         calls := if t - s.lastTick >= c.minGap && s.lastTick + c.period - t >= c.minGap then s.calls + [Idle(t)] else s.calls)
    case Stop =>
      if s.phase.Starting? then s.(phase := Done)
      else s.(phase := Done, calls := s.calls + [Cleanup(s.lastTick)])
    case Cancel => s.(phase := Done)
  }

  function Run(events: seq<Event>, c: Config): (r: (State, bool)) {
    if events == [] then (Init(), true)
    else
      var n := |events| - 1;
      var (s, ok) := Run(events[..n], c);
      if ok && Enabled(s, events[n], c) then (Apply(s, events[n], c), true) else (s, false)
  }

  // ---- What holds of the calls made ----

  function Bound(c: Config): int { if c.period > c.maxIdle then c.maxIdle + 2 * c.minGap else c.period + 1 }

  /** Publications follow one another within the bound, at different times. */
  predicate NoLongGaps(calls: seq<Call>, c: Config) {
    forall i :: 0 < i < |calls| && !calls[i].Cleanup? ==> 0 < calls[i].t - calls[i - 1].t < Bound(c)
  }

  /** An idle call keeps its distance from all work before and after it. */
  predicate IdleApart(calls: seq<Call>, c: Config) {
    forall i, j :: 0 <= i < j < |calls| && ((calls[i].Idle? && calls[j].Work?) || (calls[i].Work? && calls[j].Idle?)) ==>
      calls[j].t - calls[i].t >= c.minGap
  }

  /** Work comes first, and a clean-up only as the last call. */
  predicate WellOrdered(calls: seq<Call>) {
    && (calls != [] ==> calls[0].Work?)
    && (forall i :: 0 <= i < |calls| - 1 ==> !calls[i].Cleanup?)
  }

  predicate CallsOk(calls: seq<Call>, c: Config) {
    NoLongGaps(calls, c) && IdleApart(calls, c) && WellOrdered(calls)
  }

  /** No work is later than `work`, and no idle call later than `idle`. */
  predicate Until(calls: seq<Call>, work: int, idle: int) {
    && (forall i :: 0 <= i < |calls| && calls[i].Work? ==> calls[i].t <= work)
    && (forall i :: 0 <= i < |calls| && calls[i].Idle? ==> calls[i].t <= idle)
  }

  function LastTime(s: State): int
    requires s.calls != []
  {
    s.calls[|s.calls| - 1].t
  }

  /** How far the schedule can have drifted since the last call. */
  predicate Timely(s: State, c: Config)
    requires s.calls != []
  {
    var (last, seen) := (LastTime(s), s.nextIdle - c.maxIdle);   // last call, last idle tick
    && s.nextWork == s.lastTick + c.period && s.lastTick <= last
    && if c.period <= c.maxIdle then last == s.lastTick
       else
         && seen <= s.nextWork && last <= s.nextIdle
         && if last == s.lastTick then seen < last + c.minGap || c.period < c.maxIdle + 2 * c.minGap
            else
              && s.lastTick + c.minGap <= last <= s.nextWork - c.minGap && last < s.nextIdle
              && (seen == last || s.nextWork - last < c.maxIdle + c.minGap)
  }

  predicate Inv(s: State, c: Config) {
    && s.phase.Ticking? && s.calls != [] && !s.calls[|s.calls| - 1].Cleanup?
    && CallsOk(s.calls, c) && Until(s.calls, s.lastTick, s.nextWork - c.minGap) && Timely(s, c)
  }

  lemma OneMore(calls: seq<Call>, x: Call, c: Config, work: int, idle: int)
    requires calls != [] && !calls[|calls| - 1].Cleanup? && CallsOk(calls, c) && Until(calls, work, idle)
    requires !x.Cleanup? ==> 0 < x.t - calls[|calls| - 1].t < Bound(c)
    requires x.Work? ==> idle + c.minGap <= x.t
    requires x.Idle? ==> work + c.minGap <= x.t
    ensures CallsOk(calls + [x], c)
  {
    OneMoreApart(calls, x, c, work, idle);
    hide IdleApart, Until;
    var more := calls + [x];
    forall i | 0 < i < |more| && !more[i].Cleanup? ensures 0 < more[i].t - more[i - 1].t < Bound(c) {
      if i < |calls| { assert more[i] == calls[i]; }
    }
  }

  lemma OneMoreApart(calls: seq<Call>, x: Call, c: Config, work: int, idle: int)
    requires IdleApart(calls, c) && Until(calls, work, idle)
    requires (x.Work? ==> idle + c.minGap <= x.t) && (x.Idle? ==> work + c.minGap <= x.t)
    ensures IdleApart(calls + [x], c)
  {
    var more := calls + [x];
    forall i, j | 0 <= i < j < |more| && ((more[i].Idle? && more[j].Work?) || (more[i].Work? && more[j].Idle?))
      ensures more[j].t - more[i].t >= c.minGap
    {
      assert more[i] == calls[i];
      if j < |calls| { assert more[j] == calls[j]; }
    }
  }

  lemma IdleTickKeeps(s: State, t: int, c: Config)
    requires c.Valid() && Inv(s, c) && Enabled(s, IdleTick(t), c)
    ensures Inv(Apply(s, IdleTick(t), c), c)
  {
    hide CallsOk;
    if t - s.lastTick >= c.minGap && s.lastTick + c.period - t >= c.minGap {
      OneMore(s.calls, Idle(t), c, s.lastTick, s.nextWork - c.minGap);
    }
  }

  lemma WorkTickKeeps(s: State, t: int, c: Config)
    requires c.Valid() && Inv(s, c) && Enabled(s, WorkTick(t), c)
    ensures Inv(Apply(s, WorkTick(t), c), c)
  {
    hide CallsOk;
    OneMore(s.calls, Work(t), c, s.lastTick, s.nextWork - c.minGap);
  }

  /** Before the first work nothing is called; afterwards the invariant holds
      until the loop ends, with a clean-up exactly when it was stopped. */
  lemma {:induction false} RunKeeps(events: seq<Event>, c: Config)
    requires c.Valid() && Run(events, c).1
    ensures var s := Run(events, c).0;
      && CallsOk(s.calls, c)
      && (s.phase.Starting? ==> s == Init())
      && (s.phase.Ticking? ==> Inv(s, c))
  {
    hide CallsOk;
    if events == [] {
      NoCalls(c);
    } else {
      var n := |events| - 1;
      RunKeeps(events[..n], c);
      var s := Run(events[..n], c).0;
      match events[n]
      case OffsetFires(t) => FirstWork(c);
      case WorkTick(t) => WorkTickKeeps(s, t, c);
      case IdleTick(t) => IdleTickKeeps(s, t, c);
      case Stop =>
        if s.phase.Ticking? { OneMore(s.calls, Cleanup(s.lastTick), c, s.lastTick, s.nextWork - c.minGap); }
      case Cancel =>
    }
  }

  lemma NoCalls(c: Config)
    ensures CallsOk([], c)
  {
  }

  lemma FirstWork(c: Config)
    requires c.Valid()
    ensures Inv(Apply(Init(), OffsetFires(c.offset), c), c)
  {
  }

  /** For every sequence of ticks, stops and cancellations: consecutive calls are
      less than maxIdle + 2 minGap apart (or a period, if that is no longer than
      maxIdle), idle calls are minGap away from all work, and a clean-up is the
      last call, after some work. */
  lemma PublicationsAreSpaced(events: seq<Event>, c: Config)
    requires c.Valid() && Run(events, c).1
    ensures var calls := Run(events, c).0.calls;
      NoLongGaps(calls, c) && IdleApart(calls, c) && WellOrdered(calls)
  {
    RunKeeps(events, c);
  }

  /** The clean-up is called exactly when the loop was stopped after some work,
      and is given the time of the last work. */
  lemma CleanupIff(events: seq<Event>, c: Config)
    requires c.Valid() && events != [] && Run(events, c).1
    ensures var (s, n) := (Run(events, c).0, |events| - 1);
      var before := Run(events[..n], c).0;
      (s.calls != [] && s.calls[|s.calls| - 1].Cleanup?) <==> (events[n].Stop? && before.calls != [])
    ensures var (s, n) := (Run(events, c).0, |events| - 1);
      events[n].Stop? && s.calls != [] ==> s.calls[|s.calls| - 1] == Cleanup(s.lastTick) && Work(s.lastTick) in s.calls
  {
    hide CallsOk, Until, Timely;
    var n := |events| - 1;
    RunKeeps(events[..n], c);
    WorkAtLastTick(events[..n], c);
    hide Enabled, Apply;
    LastCall(Run(events[..n], c).0, events[n], c);
  }

  lemma LastCall(s: State, e: Event, c: Config)
    requires Enabled(s, e, c) && (s.phase.Starting? ==> s == Init())
    requires s.phase.Ticking? ==> s.calls != [] && !s.calls[|s.calls| - 1].Cleanup? && Work(s.lastTick) in s.calls
    ensures var calls := Apply(s, e, c).calls;
      && ((calls != [] && calls[|calls| - 1].Cleanup?) <==> (e.Stop? && s.calls != []))
      && (e.Stop? && calls != [] ==> calls[|calls| - 1] == Cleanup(s.lastTick) && Work(s.lastTick) in calls)
      && (e.Stop? ==> Apply(s, e, c).lastTick == s.lastTick)
  {
    if e.Stop? && s.phase.Ticking? {
      assert Apply(s, e, c).calls[..|s.calls|] == s.calls;
    }
  }

  lemma {:induction false} WorkAtLastTick(events: seq<Event>, c: Config)
    requires c.Valid() && Run(events, c).1
    ensures var s := Run(events, c).0; s.calls != [] ==> Work(s.lastTick) in s.calls
    ensures var s := Run(events, c).0; s.calls != [] ==> !s.phase.Starting?
  {
    if events != [] {
      hide CallsOk, Until, Timely;
      RunKeeps(events[..|events| - 1], c);
      WorkAtLastTick(events[..|events| - 1], c);
    }
  }

  // ---- Work ----

  /** The times at which work was done. */
  function Works(calls: seq<Call>): seq<int> {
    if calls == [] then []
    else
      var n := |calls| - 1;
      Works(calls[..n]) + if calls[n].Work? then [calls[n].t] else []
  }

  /** How often the offset timer or the work ticker fired. */
  function Ticks(events: seq<Event>): nat {
    if events == [] then 0
    else
      var n := |events| - 1;
      Ticks(events[..n]) + if events[n].OffsetFires? || events[n].WorkTick? then 1 else 0
  }

  predicate Periodic(times: seq<int>, c: Config) {
    && (times != [] ==> times[0] == c.offset)
    && forall i :: 0 < i < |times| ==> times[i] == times[i - 1] + c.period
  }

  lemma WorksAppend(calls: seq<Call>, x: Call)
    ensures Works(calls + [x]) == if x.Work? then Works(calls) + [x.t] else Works(calls)
  {
    assert (calls + [x])[..|calls|] == calls;
  }

  predicate OnTime(s: State, c: Config) {
    var works := Works(s.calls);
    && Periodic(works, c)
    && (s.phase.Starting? ==> s.calls == [])
    && (s.phase.Ticking? ==> works != [] && works[|works| - 1] == s.lastTick && s.nextWork == s.lastTick + c.period)
  }

  lemma OnTimeStep(s: State, e: Event, c: Config)
    requires Enabled(s, e, c) && OnTime(s, c)
    ensures OnTime(Apply(s, e, c), c)
    ensures |Works(Apply(s, e, c).calls)| == |Works(s.calls)| + if e.OffsetFires? || e.WorkTick? then 1 else 0
  {
    hide Works, Periodic;
    NoWorks();
    match e
    case OffsetFires(t) =>
      WorksAppend(s.calls, Work(t));
      PeriodicAppend([], t, c);
    case WorkTick(t) =>
      WorksAppend(s.calls, Work(t));
      PeriodicAppend(Works(s.calls), t, c);
    case IdleTick(t) => WorksAppend(s.calls, Idle(t));
    case Stop => WorksAppend(s.calls, Cleanup(s.lastTick));
    case Cancel =>
  }

  lemma PeriodicAppend(times: seq<int>, t: int, c: Config)
    requires Periodic(times, c) && t == if times == [] then c.offset else times[|times| - 1] + c.period
    ensures Periodic(times + [t], c)
  {
  }

  lemma NoWorks()
    ensures Works([]) == []
  {
  }

  /** Work is done at the offset and then once a period, on every tick. */
  lemma {:induction false} WorkEveryPeriod(events: seq<Event>, c: Config)
    requires Run(events, c).1
    ensures OnTime(Run(events, c).0, c)
    ensures Periodic(Works(Run(events, c).0.calls), c) && |Works(Run(events, c).0.calls)| == Ticks(events)
  {
    if events != [] {
      hide Works, Apply, Enabled, Periodic;
      var n := |events| - 1;
      WorkEveryPeriod(events[..n], c);
      OnTimeStep(Run(events[..n], c).0, events[n], c);
    }
  }

  // ---- The loop ----

  lemma {:induction false} RunPrefix(events: seq<Event>, i: nat, c: Config)
    requires i <= |events| && Run(events, c).1
    ensures Run(events[..i], c).1
    ensures i < |events| ==> Enabled(Run(events[..i], c).0, events[i], c)
    decreases |events|
  {
    var n := |events| - 1;
    if i == |events| {
      assert events[..i] == events;
    } else if i < n {
      RunPrefix(events[..n], i, c);
      assert events[..n][..i] == events[..i];
    }
  }

  lemma RunStep(events: seq<Event>, i: nat, c: Config)
    requires i < |events| && Run(events, c).1
    ensures Run(events[..i], c).1 && Enabled(Run(events[..i], c).0, events[i], c)
    ensures Run(events[..i + 1], c) == (Apply(Run(events[..i], c).0, events[i], c), true)
  {
    RunPrefix(events, i, c);
    assert events[..i + 1][..i] == events[..i];
  }

  lemma {:induction false} DoneIsLast(events: seq<Event>, i: nat, c: Config)
    requires i < |events| && Run(events, c).1 && (events[i].Stop? || events[i].Cancel?)
    ensures i == |events| - 1
  {
    RunStep(events, i, c);
    if i + 1 < |events| { RunStep(events, i + 1, c); }
  }

  /** The code: the offset timer, then the select loop, keeping only lastTick. */
  method TickWithOffset(events: seq<Event>, c: Config) returns (calls: seq<Call>)
    requires Run(events, c).1
    ensures calls == Run(events, c).0.calls
  {
    hide Run, Enabled, Apply;
    calls := [];
    StartState(events, c);
    if events == [] || !events[0].OffsetFires? { return; }
    var lastTick := events[0].t;
    calls := calls + [Work(lastTick)];
    for i := 1 to |events|
      invariant var s := Run(events[..i], c).0; s.phase.Ticking? && s.lastTick == lastTick && s.calls == calls
    {
      RunStep(events, i, c);
      LoopStep(Run(events[..i], c).0, events[i], c);
      match events[i]
      case Cancel => DoneIsLast(events, i, c); assert events[..i + 1] == events; return;
      case Stop =>
        calls := calls + [Cleanup(lastTick)];
        DoneIsLast(events, i, c);
        assert events[..i + 1] == events;
        return;
      case IdleTick(t) =>
        if t - lastTick >= c.minGap && lastTick + c.period - t >= c.minGap { calls := calls + [Idle(t)]; }
      case WorkTick(t) =>
        lastTick := t;
        calls := calls + [Work(t)];
      case OffsetFires(t) => assert false;
    }
    assert events[..|events|] == events;
  }

  lemma StartState(events: seq<Event>, c: Config)
    requires Run(events, c).1
    ensures events == [] || !events[0].OffsetFires? ==> Run(events, c).0.calls == []
    ensures events != [] && events[0].OffsetFires? ==>
      var (s, t) := (Run(events[..1], c).0, events[0].t); s.phase.Ticking? && s.lastTick == t && s.calls == [Work(t)]
  {
    if events != [] {
      RunStep(events, 0, c);
      if !events[0].OffsetFires? {
        DoneIsLast(events, 0, c);
        assert events[..1] == events;
      }
    }
  }

  lemma LoopStep(s: State, e: Event, c: Config)
    requires s.phase.Ticking? && Enabled(s, e, c)
    ensures var s' := Apply(s, e, c);
      match e
      case OffsetFires(t) => false
      case WorkTick(t) => s'.phase.Ticking? && s'.lastTick == t && s'.calls == s.calls + [Work(t)]
      case IdleTick(t) =>
        && s'.phase.Ticking? && s'.lastTick == s.lastTick
        && s'.calls == if t - s.lastTick >= c.minGap && s.lastTick + c.period - t >= c.minGap then s.calls + [Idle(t)] else s.calls
      case Stop => s'.calls == s.calls + [Cleanup(s.lastTick)]
      case Cancel => s'.calls == s.calls
  {
  }
}
