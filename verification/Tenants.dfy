/** internal/tenants/manager.go: the tenant cache. Calls of GetTenant and updates
    from the API run concurrently; a mutex per tenant covers fetching and storing.

    Times are nanoseconds. A cache read may miss although the entry is there, a
    write may fail, and entries may be evicted, as a remote cache allows. */
module Tenants {
  import opened Common

  const MAX_SCRIPTED: int := 180_000_000_000

  /** expiry 0 stands for no expiry. */
  datatype SecretStore = SecretStore(url: string, token: string, expiry: int)

  datatype Tenant = Tenant(id: int, modified: real, store: Option<SecretStore>)

  /** An entry. The time it was cached at is kept for the statements below only. */
  datatype Cached = Cached(tenant: Tenant, validUntil: int, at: int)

  predicate Configured(s: SecretStore) { s.url != "" && s.token != "" }

  /** calculateValidUntil. */
  function ValidUntil(t: Tenant, now: int, timeout: int, jitter: int): int {
    if t.store.Some? && !Configured(t.store.value) then now
    else if t.store.Some? && t.store.value.expiry > 0 then
      var delta := t.store.value.expiry - now;
      if delta < 0 then now
      else if delta < MAX_SCRIPTED then t.store.value.expiry
      else now + if delta - MAX_SCRIPTED < timeout then delta - MAX_SCRIPTED else timeout
    else now + timeout + jitter
  }

  function Entry(t: Tenant, now: int, timeout: int, jitter: int): Cached {
    Cached(t, ValidUntil(t, now, timeout, jitter), now)
  }

  predicate HasToken(t: Tenant) { t.store.Some? && Configured(t.store.value) && t.store.value.expiry > 0 }

  function Life(t: Tenant, at: int): int
    requires HasToken(t)
  {
    t.store.value.expiry - at
  }

  type Cache = map<int, Cached>

  function Read(cache: Cache, id: int, hit: bool): Option<Cached> {
    if hit && id in cache then Some(cache[id]) else None
  }

  predicate Fresh(c: Option<Cached>, start: int) { c.Some? && c.value.validUntil > start }

  /** Whether updateTenant goes on to store the tenant it received. */
  predicate Newer(t: Tenant, existing: Option<Cached>) {
    existing.Some? ==> t.modified > existing.value.tenant.modified
  }

  datatype Reply = Got(tenant: Tenant) | Failed

  // ---- All interleavings ----

  /** Where a call of GetTenant is. `asked` is the API's version when the fetch began. */
  datatype Stage =
    | Looking
    | Waiting
    | Locked
    | Fetching(stale: Option<Cached>, asked: real)
    | FromCache(entry: Cached)
    | Answered(reply: Reply)

  datatype Call = Call(id: int, start: int, stage: Stage)

  datatype State = State(clock: int, cache: Cache, locks: map<int, nat>, calls: map<nat, Call>, api: map<int, real>)

  /** A step of call `n`, of the API's updates, or of the world around them. An
      update holds the mutex throughout and waits for nothing, so it is one step. */
  datatype Step =
    | Elapse(d: nat)
    | Evict(id: int)
    | Release(id: int, modified: real)
    | Begin(n: nat, id: int)
    | Look(n: nat, hit: bool)
    | Acquire(n: nat)
    | LookAgain(n: nat, hit: bool)
    | Fetch(n: nat, reply: Reply, jitter: nat, stored: bool)
    | Update(tenant: Tenant, hit: bool, jitter: nat, stored: bool)

  function Init(): State { State(0, map[], map[], map[], map[]) }

  /** The newest version of a tenant the API has. */
  function Version(s: State, id: int): real { if id in s.api then s.api[id] else 0.0 }

  predicate At(s: State, n: nat) { n in s.calls }

  predicate Enabled(s: State, step: Step) {
    match step
    case Elapse(d) => true
    case Evict(id) => true
    case Release(id, modified) => modified >= Version(s, id)
    case Begin(n, id) => !At(s, n)
    case Look(n, hit) => At(s, n) && s.calls[n].stage.Looking?
    case Acquire(n) => At(s, n) && s.calls[n].stage.Waiting? && s.calls[n].id !in s.locks
    case LookAgain(n, hit) => At(s, n) && s.calls[n].stage.Locked?
    case Fetch(n, reply, jitter, stored) => At(s, n) && s.calls[n].stage.Fetching?
    case Update(tenant, hit, jitter, stored) => tenant.id !in s.locks
  }

  function Move(s: State, n: nat, stage: Stage): State
    requires At(s, n)
  {
    s.(calls := s.calls[n := s.calls[n].(stage := stage)])
  }

  function Unlock(s: State, n: nat): State
    requires At(s, n)
  {
    s.(locks := s.locks - {s.calls[n].id})
  }

  function Apply(s: State, step: Step, timeout: int): State
    requires Enabled(s, step)
  {
    match step
    case Elapse(d) => s.(clock := s.clock + d)
    case Evict(id) => s.(cache := s.cache - {id})
    case Release(id, modified) => s.(api := s.api[id := modified])
    case Begin(n, id) => s.(calls := s.calls[n := Call(id, s.clock, Looking)])
    case Look(n, hit) =>
      var c := Read(s.cache, s.calls[n].id, hit);
      Move(s, n, if Fresh(c, s.calls[n].start) then FromCache(c.value) else Waiting)
    case Acquire(n) => Move(s, n, Locked).(locks := s.locks[s.calls[n].id := n])
    case LookAgain(n, hit) =>
      var c := Read(s.cache, s.calls[n].id, hit);
      if Fresh(c, s.calls[n].start) then Unlock(Move(s, n, FromCache(c.value)), n)
      else Move(s, n, Fetching(c, Version(s, s.calls[n].id)))
    case Fetch(n, reply, jitter, stored) =>
      var (id, stale) := (s.calls[n].id, s.calls[n].stage.stale);
      var answer := if reply.Failed? && stale.Some? then Got(stale.value.tenant) else reply;
      var cache :=
        if reply.Got? && stored then s.cache[id := Entry(reply.tenant, s.clock, timeout, jitter)] else s.cache;
      Unlock(Move(s, n, Answered(answer)), n).(cache := cache)
    case Update(t, hit, jitter, stored) =>
      if stored && Newer(t, Read(s.cache, t.id, hit)) then
        s.(cache := s.cache[t.id := Entry(t, s.clock, timeout, jitter)])
      else s
  }

  /** The state after the steps, and whether each was enabled. */
  function Run(steps: seq<Step>, timeout: int): (State, bool) {
    if steps == [] then (Init(), true)
    else
      var (s, ok) := Run(steps[..|steps| - 1], timeout);
      var step := steps[|steps| - 1];
      if ok && Enabled(s, step) then (Apply(s, step, timeout), true) else (s, false)
  }

  // ---- One fetch per tenant ----

  predicate Holds(c: Call) { c.stage.Locked? || c.stage.Fetching? }

  predicate LocksOk(s: State) {
    && (forall n :: n in s.calls && Holds(s.calls[n]) ==> s.calls[n].id in s.locks && s.locks[s.calls[n].id] == n)
    && (forall id :: id in s.locks ==> s.locks[id] in s.calls && s.calls[s.locks[id]].id == id && Holds(s.calls[s.locks[id]]))
  }

  predicate Fetches(s: State, n: nat) { n in s.calls && s.calls[n].stage.Fetching? }

  lemma LocksStep(s: State, step: Step, timeout: int)
    requires LocksOk(s) && Enabled(s, step)
    ensures LocksOk(Apply(s, step, timeout))
  {
  }

  /** At most one fetch per tenant is in flight, and a mutex is held exactly by
      a call that still needs it. */
  lemma {:induction false} OneFetchPerTenant(steps: seq<Step>, timeout: int)
    requires Run(steps, timeout).1
    ensures var s := Run(steps, timeout).0;
      && LocksOk(s)
      && forall a, b :: Fetches(s, a) && Fetches(s, b) && s.calls[a].id == s.calls[b].id ==> a == b
  {
    if steps != [] {
      var n := |steps| - 1;
      OneFetchPerTenant(steps[..n], timeout);
      LocksStep(Run(steps[..n], timeout).0, steps[n], timeout);
    }
  }

  // ---- Fresh tokens ----

  ghost predicate Made(c: Cached, timeout: int) {
    exists jitter: nat :: c.validUntil == ValidUntil(c.tenant, c.at, timeout, jitter)
  }

  ghost predicate EntriesMade(s: State, timeout: int) {
    && (forall id :: id in s.cache ==> Made(s.cache[id], timeout))
    && (forall n :: n in s.calls && s.calls[n].stage.FromCache? ==>
          Made(s.calls[n].stage.entry, timeout) && s.calls[n].stage.entry.validUntil > s.calls[n].start)
  }

  lemma EntryMade(t: Tenant, now: int, timeout: int, jitter: nat)
    ensures Made(Entry(t, now, timeout, jitter), timeout)
  {
    assert Entry(t, now, timeout, jitter).validUntil == ValidUntil(t, now, timeout, jitter);
  }

  lemma MadeStep(s: State, step: Step, timeout: int)
    requires EntriesMade(s, timeout) && Enabled(s, step)
    ensures EntriesMade(Apply(s, step, timeout), timeout)
  {
    hide Made, ValidUntil;
    match step
    case Fetch(n, reply, jitter, stored) => if reply.Got? { EntryMade(reply.tenant, s.clock, timeout, jitter); }
    case Update(t, hit, jitter, stored) => EntryMade(t, s.clock, timeout, jitter);
    case Look(n, hit) =>
    case LookAgain(n, hit) =>
    case Elapse(d) =>
    case Evict(id) =>
    case Release(id, modified) =>
    case Begin(n, id) =>
    case Acquire(n) =>
  }

  lemma {:induction false} EntriesAreMade(steps: seq<Step>, timeout: int)
    requires Run(steps, timeout).1
    ensures EntriesMade(Run(steps, timeout).0, timeout)
  {
    if steps != [] {
      var n := |steps| - 1;
      EntriesAreMade(steps[..n], timeout);
      MadeStep(Run(steps[..n], timeout).0, steps[n], timeout);
    }
  }

  /** A call answered from the cache returns a token that outlives the longest
      script started when the call began, provided the token had that much life
      when it was cached; and for a call begun after that, only then. */
  lemma CachedTokenOutlivesScript(steps: seq<Step>, timeout: int, n: nat)
    requires Run(steps, timeout).1
    requires var s := Run(steps, timeout).0;
      n in s.calls && s.calls[n].stage.FromCache? && HasToken(s.calls[n].stage.entry.tenant)
    ensures var c := Run(steps, timeout).0.calls[n];
      && (Life(c.stage.entry.tenant, c.stage.entry.at) >= MAX_SCRIPTED ==> Life(c.stage.entry.tenant, c.start) > MAX_SCRIPTED)
      && (c.stage.entry.at <= c.start ==>
            && Life(c.stage.entry.tenant, c.start) > 0
            && (Life(c.stage.entry.tenant, c.start) > MAX_SCRIPTED <==> Life(c.stage.entry.tenant, c.stage.entry.at) >= MAX_SCRIPTED))
  {
    EntriesAreMade(steps, timeout);
  }

  /** A token with two minutes left when it is cached is handed out from the cache. */
  lemma ShortTokenHandedOut()
    ensures var t := Tenant(1, 1.0, Some(SecretStore("u", "t", 120_000_000_000)));
      var looked := Apply(Apply(Apply(Init(), Update(t, true, 0, true), 1), Begin(0, 1), 1), Look(0, true), 1);
      looked.calls[0] == Call(1, 0, FromCache(Cached(t, 120_000_000_000, 0))) && Life(t, 0) < MAX_SCRIPTED
  {
  }

  /** When an entry answers a call: one without a token until the timeout and its
      jitter are over; one with a token that would outlive a script when cached,
      until the timeout is over or the token no longer outlives one; one with a
      shorter-lived token until the token expires; an incomplete one never. */
  lemma AnswersUntil(t: Tenant, now: int, timeout: nat, jitter: nat, start: int)
    requires now <= start
    ensures Fresh(Some(Entry(t, now, timeout, jitter)), start) <==>
      if Incomplete(t) then false
      else if !HasToken(t) then start < now + timeout + jitter
      else if Life(t, now) >= MAX_SCRIPTED then start < now + timeout && Life(t, start) > MAX_SCRIPTED
      else Life(t, start) > 0
  {
  }

  predicate Incomplete(t: Tenant) { t.store.Some? && !Configured(t.store.value) }

  /** An entry is kept no longer than the timeout exactly when it has no token
      whose life lies between the timeout and what a script may take, and, if it
      is kept by the timeout alone, drew no jitter. */
  lemma KeptWithinTimeoutIff(t: Tenant, now: int, timeout: nat, jitter: nat)
    ensures ValidUntil(t, now, timeout, jitter) <= now + timeout
      <==> if HasToken(t) then !(timeout < Life(t, now) < MAX_SCRIPTED) else Incomplete(t) || jitter == 0
    ensures ValidUntil(t, now, timeout, jitter) >= now
  {
  }

  /** Without a secret store, a timeout of 60 and a jitter of 15 keep it for 75. */
  lemma JitterCanOutliveTimeout()
    ensures ValidUntil(Tenant(1, 1.0, None), 0, 60, 15) == 75
  {
  }

  /** With a timeout of one minute, a token of two minutes keeps its entry for two. */
  lemma EntryCanOutliveTimeout()
    ensures var t := Tenant(1, 1.0, Some(SecretStore("u", "t", 120_000_000_000)));
      ValidUntil(t, 0, 60_000_000_000, 0) == 120_000_000_000
  {
  }

  /** A call begun after an entry was cached is never answered with one whose
      secret store is incomplete. */
  lemma CachedStoreIsUsable(steps: seq<Step>, timeout: int, n: nat)
    requires Run(steps, timeout).1
    requires var s := Run(steps, timeout).0; n in s.calls && s.calls[n].stage.FromCache?
    ensures var c := Run(steps, timeout).0.calls[n];
      var store := c.stage.entry.tenant.store;
      store.Some? && c.stage.entry.at <= c.start ==> Configured(store.value)
  {
    EntriesAreMade(steps, timeout);
  }

  // ---- Versions ----

  /** The cache answers updateTenant and keeps its entries, and the API sends
      what it had: an update no newer than its version, and to a fetch a version
      at least as new as when asked. */
  predicate Sound(s: State, step: Step)
    requires Enabled(s, step)
  {
    match step
    case Evict(id) => false
    case Update(t, hit, jitter, stored) => hit && t.modified <= Version(s, t.id)
    case Fetch(n, reply, jitter, stored) =>
      reply.Got? ==> s.calls[n].stage.asked <= reply.tenant.modified <= Version(s, s.calls[n].id)
    case Elapse(d) => true
    case Release(id, modified) => true
    case Begin(n, id) => true
    case Look(n, hit) => true
    case Acquire(n) => true
    case LookAgain(n, hit) => true
  }

  predicate SoundRun(steps: seq<Step>, timeout: int) {
    Run(steps, timeout).1 && forall i :: 0 <= i < |steps| ==> SoundAt(steps, i, timeout)
  }

  predicate SoundAt(steps: seq<Step>, i: nat, timeout: int)
    requires i < |steps|
  {
    var s := Run(steps[..i], timeout).0;
    Enabled(s, steps[i]) && Sound(s, steps[i])
  }

  /** Nothing cached is newer than the API, nor, while a fetch is in flight,
      than the version the API had when asked. */
  predicate VersionsOk(s: State) {
    && (forall id :: id in s.cache ==> s.cache[id].tenant.modified <= Version(s, id))
    && (forall n :: n in s.calls && s.calls[n].stage.Fetching? && s.calls[n].id in s.cache ==>
          s.cache[s.calls[n].id].tenant.modified <= s.calls[n].stage.asked)
  }

  predicate NoOlder(before: Cache, after: Cache) {
    forall id :: id in before ==> id in after && after[id].tenant.modified >= before[id].tenant.modified
  }

  lemma VersionsStep(s: State, step: Step, timeout: int)
    requires LocksOk(s) && VersionsOk(s) && Enabled(s, step) && Sound(s, step)
    ensures VersionsOk(Apply(s, step, timeout)) && NoOlder(s.cache, Apply(s, step, timeout).cache)
  {
    hide ValidUntil;
  }

  lemma {:induction false} VersionsHold(steps: seq<Step>, timeout: int)
    requires SoundRun(steps, timeout)
    ensures VersionsOk(Run(steps, timeout).0)
  {
    if steps != [] {
      var n := |steps| - 1;
      SoundPrefix(steps, timeout);
      VersionsHold(steps[..n], timeout);
      OneFetchPerTenant(steps[..n], timeout);
      VersionsStep(Run(steps[..n], timeout).0, steps[n], timeout);
    }
  }

  lemma SoundPrefix(steps: seq<Step>, timeout: int)
    requires steps != [] && SoundRun(steps, timeout)
    ensures SoundRun(steps[..|steps| - 1], timeout) && SoundAt(steps, |steps| - 1, timeout)
  {
    var n := |steps| - 1;
    forall i | 0 <= i < n ensures SoundAt(steps[..n], i, timeout) {
      assert SoundAt(steps, i, timeout);
      assert steps[..n][..i] == steps[..i];
    }
    assert SoundAt(steps, n, timeout);
  }

  /** From any point of such a run on, no cached tenant is lost or replaced by
      an older version, in spite of fetches racing with updates. */
  lemma {:induction false} ModifiedNeverDrops(steps: seq<Step>, i: nat, timeout: int)
    requires i <= |steps| && SoundRun(steps, timeout)
    ensures NoOlder(Run(steps[..i], timeout).0.cache, Run(steps, timeout).0.cache)
    decreases |steps|
  {
    var n := |steps| - 1;
    if i == |steps| {
      assert steps[..i] == steps;
    } else {
      SoundPrefix(steps, timeout);
      ModifiedNeverDrops(steps[..n], i, timeout);
      assert steps[..n][..i] == steps[..i];
      VersionsHold(steps[..n], timeout);
      OneFetchPerTenant(steps[..n], timeout);
      VersionsStep(Run(steps[..n], timeout).0, steps[n], timeout);
    }
  }

  /** An update that can be written becomes the entry exactly when the read before it
      gave nothing or a strictly older version; otherwise nothing changes. */
  lemma UpdateStoredIff(s: State, t: Tenant, hit: bool, jitter: nat, stored: bool, timeout: int)
    requires Enabled(s, Update(t, hit, jitter, stored))
    ensures var after := Apply(s, Update(t, hit, jitter, stored), timeout).cache;
      && (stored && (!hit || t.id !in s.cache || s.cache[t.id].tenant.modified < t.modified) ==>
            after == s.cache[t.id := Entry(t, s.clock, timeout, jitter)])
      && (!stored || (hit && t.id in s.cache && t.modified <= s.cache[t.id].tenant.modified) ==> after == s.cache)
  {
    hide Entry;
  }

  /** From an update that was written on, the tenant stays cached in at least that
      version, with fetches and other updates racing. */
  lemma UpdateSticks(steps: seq<Step>, i: nat, timeout: int)
    requires SoundRun(steps, timeout) && i < |steps| && steps[i].Update? && steps[i].stored
    ensures var (t, cache) := (steps[i].tenant, Run(steps, timeout).0.cache);
      t.id in cache && cache[t.id].tenant.modified >= t.modified
  {
    hide Apply, Enabled, Sound, Entry;
    var (s, u) := (Run(steps[..i], timeout).0, steps[i]);
    RunStep(steps, i, timeout);
    assert SoundAt(steps, i, timeout);
    SoundUpdateHits(s, u);
    UpdateStoredIff(s, u.tenant, u.hit, u.jitter, u.stored, timeout);
    EntryIs(u.tenant, s.clock, timeout, u.jitter);
    ModifiedNeverDrops(steps, i + 1, timeout);
  }

  lemma SoundUpdateHits(s: State, step: Step)
    requires step.Update? && Enabled(s, step) && Sound(s, step)
    ensures step.hit
  {
  }

  lemma EntryIs(t: Tenant, now: int, timeout: int, jitter: int)
    ensures Entry(t, now, timeout, jitter).tenant == t
  {
  }

  /** Without that, an entry gets older exactly when a fetch answers with an
      older version, or an update is older and the cache read before it failed. */
  lemma OlderIff(s: State, step: Step, timeout: int, id: int)
    requires Enabled(s, step) && id in s.cache && id in Apply(s, step, timeout).cache
    ensures var m := s.cache[id].tenant.modified;
      Apply(s, step, timeout).cache[id].tenant.modified < m <==>
        || (step.Fetch? && s.calls[step.n].id == id && step.stored && step.reply.Got? && step.reply.tenant.modified < m)
        || (step.Update? && step.tenant.id == id && step.stored && !step.hit && step.tenant.modified < m)
  {
  }

  // ---- The manager itself ----

  lemma {:induction false} RunStep(steps: seq<Step>, i: nat, timeout: int)
    requires i < |steps| && Run(steps, timeout).1
    ensures Run(steps[..i], timeout).1 && Enabled(Run(steps[..i], timeout).0, steps[i])
    ensures Run(steps[..i + 1], timeout) == (Apply(Run(steps[..i], timeout).0, steps[i], timeout), true)
    decreases |steps|
  {
    var n := |steps| - 1;
    if i == n {
      assert steps[..i + 1] == steps;
    } else {
      RunStep(steps[..n], i, timeout);
      assert steps[..n][..i] == steps[..i] && steps[..n][..i + 1] == steps[..i + 1];
    }
  }

  /** The call a step belongs to, if it is one of GetTenant's. */
  predicate Of(step: Step, n: nat) {
    (step.Begin? || step.Look? || step.Acquire? || step.LookAgain? || step.Fetch?) && step.n == n
  }

  lemma OthersLeaveCall(s: State, step: Step, n: nat, timeout: int)
    requires Enabled(s, step) && !Of(step, n) && n in s.calls
    ensures n in Apply(s, step, timeout).calls && Apply(s, step, timeout).calls[n] == s.calls[n]
  {
  }

  /** What call `n` has returned, if it has. */
  function Returned(s: State, n: nat): Option<Reply> {
    if n !in s.calls then None
    else
      match s.calls[n].stage
      case FromCache(entry) => Some(Got(entry.tenant))
      case Answered(reply) => Some(reply)
      case _ => None
  }

  /** All the steps of a call that nobody disturbs, and those from the mutex on. */
  function Alone(s: State, n: nat, id: int, hits: (bool, bool), reply: Reply, jitter: nat, stored: bool, timeout: int): State
    requires n !in s.calls && id !in s.locks
  {
    var looked := Apply(Apply(s, Begin(n, id), timeout), Look(n, hits.0), timeout);
    if looked.calls[n].stage.FromCache? then looked else AloneLocked(looked, n, hits.1, reply, jitter, stored, timeout)
  }

  function AloneLocked(s: State, n: nat, hit: bool, reply: Reply, jitter: nat, stored: bool, timeout: int): State
    requires n in s.calls && s.calls[n].stage.Waiting? && s.calls[n].id !in s.locks
  {
    var again := Apply(Apply(s, Acquire(n), timeout), LookAgain(n, hit), timeout);
    if again.calls[n].stage.FromCache? then again else Apply(again, Fetch(n, reply, jitter, stored), timeout)
  }

  lemma FetchEnds(s: State, n: nat, reply: Reply, jitter: nat, stored: bool, timeout: int)
    requires n in s.calls && s.calls[n].stage.Fetching?
    ensures var (t, c) := (Apply(s, Fetch(n, reply, jitter, stored), timeout), s.calls[n]);
      && t.locks == s.locks - {c.id}
      && Returned(t, n) == Some(if reply.Failed? && c.stage.stale.Some? then Got(c.stage.stale.value.tenant) else reply)
      && t.cache == if reply.Got? && stored then s.cache[c.id := Entry(reply.tenant, s.clock, timeout, jitter)] else s.cache
  {
    hide Entry;
  }

  /** Such a call answers from the cache if the entry read is fresh; otherwise with
      the API's answer, which it stores, or if there is none with the stale entry.
      It leaves no mutex held. */
  lemma UndisturbedLocked(s: State, n: nat, hit: bool, reply: Reply, jitter: nat, stored: bool, timeout: int)
    requires n in s.calls && s.calls[n].stage.Waiting? && s.calls[n].id !in s.locks
    ensures var (t, c) := (AloneLocked(s, n, hit, reply, jitter, stored, timeout), s.calls[n]);
      var read := Read(s.cache, c.id, hit);
      && t.locks == s.locks
      && (Fresh(read, c.start) || (reply.Failed? && read.Some?) ==>
            Returned(t, n) == Some(Got(read.value.tenant)) && t.cache == s.cache)
      && (!Fresh(read, c.start) && reply.Got? ==>
            Returned(t, n) == Some(reply) && t.cache == if stored then s.cache[c.id := Entry(reply.tenant, s.clock, timeout, jitter)] else s.cache)
      && (read.None? && reply.Failed? ==> Returned(t, n) == Some(Failed) && t.cache == s.cache)
  {
    var c := s.calls[n];
    var read := Read(s.cache, c.id, hit);
    var again := Apply(Apply(s, Acquire(n), timeout), LookAgain(n, hit), timeout);
    hide Entry, Read;
    if Fresh(read, c.start) {
      assert again.calls[n].stage == FromCache(read.value) && again.locks == s.locks;
    } else {
      assert again.calls[n] == Call(c.id, c.start, Fetching(read, Version(s, c.id)));
      assert again.cache == s.cache && again.clock == s.clock && again.locks == s.locks[c.id := n];
      FetchEnds(again, n, reply, jitter, stored, timeout);
      assert again.locks - {c.id} == s.locks;
    }
  }

  /** The same from the first look on, which may miss an entry the second finds. */
  lemma UndisturbedCall(s: State, n: nat, id: int, hits: (bool, bool), reply: Reply, jitter: nat, stored: bool, timeout: int)
    requires n !in s.calls && id !in s.locks
    ensures var t := Alone(s, n, id, hits, reply, jitter, stored, timeout);
      var (first, second) := (Read(s.cache, id, hits.0), Read(s.cache, id, hits.1));
      && t.locks == s.locks
      && (Fresh(first, s.clock) ==> Returned(t, n) == Some(Got(first.value.tenant)) && t.cache == s.cache)
      && (!Fresh(first, s.clock) && (Fresh(second, s.clock) || (reply.Failed? && second.Some?)) ==>
            Returned(t, n) == Some(Got(second.value.tenant)) && t.cache == s.cache)
      && (!Fresh(first, s.clock) && !Fresh(second, s.clock) && reply.Got? ==>
            Returned(t, n) == Some(reply) && t.cache == if stored then s.cache[id := Entry(reply.tenant, s.clock, timeout, jitter)] else s.cache)
      && (!Fresh(first, s.clock) && second.None? && reply.Failed? ==> Returned(t, n) == Some(Failed) && t.cache == s.cache)
  {
    hide Entry, Read, AloneLocked;
    var looked := Apply(Apply(s, Begin(n, id), timeout), Look(n, hits.0), timeout);
    if !looked.calls[n].stage.FromCache? {
      UndisturbedLocked(looked, n, hits.1, reply, jitter, stored, timeout);
    }
  }

  /** An update stores version 2, which has expired when a call looks; the API
      answers version 1, and that replaces it. */
  lemma FetchCanInstallOlder()
    ensures var (newer, older) := (Tenant(1, 2.0, None), Tenant(1, 1.0, None));
      var s := Apply(Init(), Update(newer, true, 0, true), 0);
      !NoOlder(s.cache, Alone(s, 0, 1, (true, true), Got(older), 0, true, 0).cache)
  {
    var (newer, older) := (Tenant(1, 2.0, None), Tenant(1, 1.0, None));
    var s := Apply(Init(), Update(newer, true, 0, true), 0);
    assert s.cache == map[1 := Cached(newer, 0, 0)];
    hide Alone;
    UndisturbedCall(s, 0, 1, (true, true), Got(older), 0, true, 0);
  }

  /** The manager in a world where `steps` happen. Its own code works on the cache,
      the mutexes and the clock; the steps of others change them in between. */
  class Manager {
    const timeout: int
    const steps: seq<Step>
    var at: nat                      // how many steps have happened
    var cache: Cache
    var locks: map<int, nat>
    var clock: int
    var world: State                 // what the other goroutines know

    /** Cache, mutexes and clock are those of the run so far. */
    ghost predicate Tracks() reads this {
      && at <= |steps| && Run(steps, timeout).1 && Run(steps[..at], timeout) == (world, true)
      && (cache, locks, clock) == (world.cache, world.locks, world.clock)
    }

    constructor (timeout: int, steps: seq<Step>)
      requires Run(steps, timeout).1
      ensures Tracks() && at == 0 && this.timeout == timeout && this.steps == steps
    {
      this.timeout, this.steps, at := timeout, steps, 0;
      cache, locks, clock, world := map[], map[], 0, Init();
    }

    /** The manager has made the next step. */
    method Advance()
      requires at < |steps| && Run(steps, timeout).1 && Run(steps[..at], timeout) == (world, true)
      requires Enabled(world, steps[at])
      requires var t := Apply(world, steps[at], timeout); (cache, locks, clock) == (t.cache, t.locks, t.clock)
      modifies this`at, this`world
      ensures Tracks() && at == old(at) + 1 && world == Apply(old(world), steps[old(at)], timeout)
    {
      hide Run, Apply, Enabled;
      RunStep(steps, at, timeout);
      world, at := Apply(world, steps[at], timeout), at + 1;
    }

    lemma NextIsEnabled()
      requires Tracks() && at < |steps|
      ensures Enabled(world, steps[at])
    {
      RunStep(steps, at, timeout);
    }

    /** Other goroutines, the clock and the cache's own evictions, until call `n` goes on. */
    method Others(n: nat)
      requires Tracks()
      modifies this
      ensures Tracks() && at >= old(at)
      ensures at < |steps| ==> Of(steps[at], n) && Enabled(world, steps[at])
      ensures n in old(world.calls) ==> n in world.calls && world.calls[n] == old(world.calls[n])
    {
      hide Run, Apply, Enabled;
      while at < |steps| && !Of(steps[at], n)
        invariant Tracks() && at >= old(at)
        invariant n in old(world.calls) ==> n in world.calls && world.calls[n] == old(world.calls[n])
      {
        NextIsEnabled();
        if n in world.calls { OthersLeaveCall(world, steps[at], n, timeout); }
        var next := Apply(world, steps[at], timeout);
        cache, locks, clock := next.cache, next.locks, next.clock;
        Advance();
      }
      if at < |steps| { NextIsEnabled(); }
    }

    /** updateTenant, when its turn for the mutex comes. */
    method UpdateTenant(t: Tenant, jitter: nat, hit: bool, stored: bool)
      requires Tracks() && at < |steps| && steps[at] == Update(t, hit, jitter, stored)
      modifies this
      ensures Tracks() && at == old(at) + 1
      ensures cache == if stored && (hit && t.id in old(cache) ==> old(cache)[t.id].tenant.modified < t.modified)
                       then old(cache)[t.id := Entry(t, clock, timeout, jitter)]
                       else old(cache)
    {
      hide Run, ValidUntil;
      NextIsEnabled();
      var existing := Read(cache, t.id, hit);
      if !(existing.Some? && existing.value.tenant.modified >= t.modified) {
        var validUntil := ValidUntil(t, clock, timeout, jitter);
        if stored { cache := cache[t.id := Cached(t, validUntil, clock)]; }
      }
      Advance();
    }

    /** GetTenant, with any steps of others between its own. It returns what the
        step system says the call returns, unless the run ends before that. */
    method GetTenant(n: nat, id: int) returns (r: Option<Reply>)
      requires Tracks() && at < |steps| && steps[at] == Begin(n, id)
      modifies this
      ensures Tracks() && r == Returned(world, n)
      ensures r.None? ==> at == |steps|
    {
      hide Run, ValidUntil;
      NextIsEnabled();
      var now := clock;
      Advance();
      Others(n);
      if at == |steps| { return None; }
      var cached := Read(cache, id, steps[at].hit);
      Advance();
      if Fresh(cached, now) { return Some(Got(cached.value.tenant)); }
      r := FetchLocked(n, id, now);
    }

    /** The part under the tenant's mutex. */
    method FetchLocked(n: nat, id: int, now: int) returns (r: Option<Reply>)
      requires Tracks() && n in world.calls && world.calls[n] == Call(id, now, Waiting)
      modifies this
      ensures Tracks() && r == Returned(world, n)
      ensures r.None? ==> at == |steps|
    {
      hide Run, ValidUntil;
      Others(n);
      if at == |steps| { return None; }
      locks := locks[id := n];
      Advance();
      Others(n);
      if at == |steps| { return None; }
      var cached := Read(cache, id, steps[at].hit);
      if Fresh(cached, now) {
        locks := locks - {id};
        Advance();
        return Some(Got(cached.value.tenant));
      }
      Advance();
      r := Fetch(n, id, cached);
    }

    /** The request to the API, and what comes of it. */
    method Fetch(n: nat, id: int, cached: Option<Cached>) returns (r: Option<Reply>)
      requires Tracks() && n in world.calls && world.calls[n].id == id
      requires world.calls[n].stage.Fetching? && world.calls[n].stage.stale == cached
      modifies this
      ensures Tracks() && r == Returned(world, n)
      ensures r.None? ==> at == |steps|
    {
      hide Run, ValidUntil;
      Others(n);
      if at == |steps| { return None; }
      var Fetch(_, reply, jitter, stored) := steps[at];
      if reply.Failed? {
        locks := locks - {id};
        Advance();
        return Some(if cached.Some? then Got(cached.value.tenant) else Failed);
      }
      var validUntil := ValidUntil(reply.tenant, clock, timeout, jitter);
      if stored { cache := cache[id := Cached(reply.tenant, validUntil, clock)]; }
      locks := locks - {id};
      Advance();
      return Some(reply);
    }
  }
}
