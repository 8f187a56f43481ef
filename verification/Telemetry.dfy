/** internal/telemetry: executions are counted by region, tenant, check class and
    cost attribution labels, and sent as one message a region. */
module Telemetry {
  import opened Common
  import opened CostLabels
  import Ids

  const MINUTE := 60_000_000_000   // in nanoseconds

  datatype Class = Protocol | Scripted | Browser

  type TenantId = Ids.int64

  type int32 = x: int | -0x8000_0000 <= x < 0x8000_0000

  type RegionId = int32

  datatype Execution = Execution(tenant: TenantId, region: RegionId, class_: Class, duration: int, labels: seq<Label>) {
    function Key(): string { Serialize(labels) }
    predicate Under(t: TenantId, c: Class, k: string) { tenant == t && class_ == c && Key() == k }
    /** (duration + minute - 1) / minute, dividing toward zero as Go does. */
    function Minutes(): int {
      var d := duration + MINUTE - 1;
      if d >= 0 then d / MINUTE else -(-d / MINUTE)
    }
  }

  /** CheckClassTelemetry without the float duration. */
  datatype Entry = Entry(class_: Class, executions: int, sampled: int, labels: seq<Label>)

  /** Conversion to int32, wrapping around. */
  function Int32(x: int): (r: int32) { (x + 0x8000_0000) % 0x1_0000_0000 - 0x8000_0000 }

  lemma Int32Adds(a: int, b: int)
    ensures Int32(Int32(a) + Int32(b)) == Int32(Int32(a) + b) == Int32(a + b)
    ensures Int32(0) == 0
  {
    var q, p := (a + 0x8000_0000) / 0x1_0000_0000, (b + 0x8000_0000) / 0x1_0000_0000;
    assert Int32(a) == a - q * 0x1_0000_0000 && Int32(b) == b - p * 0x1_0000_0000;
    Int32Wraps(a + b, -q - p);
    Int32Wraps(a + b, -q);
    hide Int32;
  }

  lemma Int32Wraps(x: int, k: int)
    ensures Int32(x + k * 0x1_0000_0000) == Int32(x) && Int32(0) == 0
  {
  }

  /** A started minute counts as a whole one. */
  lemma MinutesRoundUp(e: Execution)
    requires e.duration >= 0
    ensures (e.Minutes() - 1) * MINUTE < e.duration <= e.Minutes() * MINUTE
  {
  }

  function TotalDuration(log: seq<Execution>): int {
    if log == [] then 0 else TotalDuration(log[..|log| - 1]) + log[|log| - 1].duration
  }

  /** Together the minutes cover the time taken, with less than one too many each. */
  lemma {:induction false} MinutesCoverDurations(log: seq<Execution>)
    requires forall e :: e in log ==> e.duration >= 0
    ensures TotalDuration(log) <= TotalMinutes(log) * MINUTE <= TotalDuration(log) + |log| * (MINUTE - 1)
  {
    if log != [] {
      hide Execution.Minutes;
      MinutesCoverDurations(log[..|log| - 1]);
      MinutesRoundUp(log[|log| - 1]);
    }
  }

  // ---- What an index should hold, from the log of executions alone ----

  function Matching(log: seq<Execution>, t: TenantId, c: Class, k: string): (r: seq<Execution>) {
    if log == [] then []
    else
      var n := |log| - 1;
      Matching(log[..n], t, c, k) + if log[n].Under(t, c, k) then [log[n]] else []
  }

  function TotalMinutes(log: seq<Execution>): int {
    if log == [] then 0 else TotalMinutes(log[..|log| - 1]) + log[|log| - 1].Minutes()
  }

  function LabelsOf(k: string): seq<Label> {
    match Deserialize(k) case Some(ls) => ls case None => []
  }

  function Summary(log: seq<Execution>, t: TenantId, c: Class, k: string): Option<Entry> {
    var m := Matching(log, t, c, k);
    if m == [] then None else Some(Entry(c, Int32(|m|), Int32(TotalMinutes(m)), LabelsOf(k)))
  }

  /** What AddExecution does to an entry, and the entry it starts from. */
  function Bumped(entry: Entry, e: Execution): Entry {
    entry.(executions := Int32(entry.executions + 1), sampled := Int32(entry.sampled + Int32(e.Minutes())))
  }

  function Blank(c: Class, k: string): Entry { Entry(c, 0, 0, LabelsOf(k)) }

  /** One more execution bumps the summary of its own place and no other. */
  lemma SummaryGrows(log: seq<Execution>, e: Execution, t: TenantId, c: Class, k: string)
    ensures Summary(log + [e], t, c, k) ==
      var was := Summary(log, t, c, k);
      if !e.Under(t, c, k) then was else Some(Bumped(if was.Some? then was.value else Blank(c, k), e))
  {
    hide Int32, Execution.Minutes, LabelsOf, Execution.Key;
    assert (log + [e])[..|log|] == log;
    var m := Matching(log, t, c, k);
    if e.Under(t, c, k) {
      assert (m + [e])[..|m|] == m;
      Int32Adds(|m|, 1);
      Int32Adds(TotalMinutes(m), e.Minutes());
    } else {
      assert m + [] == m;
    }
  }

  function LogTenants(log: seq<Execution>): set<TenantId> { set x | x in log :: x.tenant }

  lemma LogTenantsGrow(log: seq<Execution>, e: Execution)
    ensures LogTenants(log + [e]) == LogTenants(log) + {e.tenant}
  {
    var more := log + [e];
    assert e in more && forall x :: x in log ==> x in more;
  }

  // ---- Messages ----

  datatype TenantTelemetry = TenantTelemetry(tenant: TenantId, entries: seq<Entry>)

  function Tenants(m: seq<TenantTelemetry>): set<TenantId> { set i | 0 <= i < |m| :: m[i].tenant }

  lemma TenantsGrow(m: seq<TenantTelemetry>, part: TenantTelemetry)
    ensures Tenants(m + [part]) == Tenants(m) + {part.tenant}
    ensures forall i :: 0 <= i < |m| ==> m[i].tenant in Tenants(m)
  {
    var more := m + [part];
    assert more[|m|].tenant in Tenants(more);
    forall t | t in Tenants(m) ensures t in Tenants(more) {
      var i :| 0 <= i < |m| && m[i].tenant == t;
      assert more[i].tenant == t;
    }
  }

  /** Where an entry was found in a tenant's index. */
  datatype Place = Place(class_: Class, key: string)

  type TenantIndex = map<Class, map<string, Entry>>

  function Places(m: TenantIndex): set<Place> { set c, k | c in m && k in m[c] :: Place(c, k) }

  predicate NoRepeats<T(==)>(s: seq<T>) { forall i, j :: 0 <= i < j < |s| ==> s[i] != s[j] }

  /** `entries` are the entries of `m`, each once, found at `places`. */
  ghost predicate Lists(m: TenantIndex, entries: seq<Entry>, places: seq<Place>, all: set<Place>) {
    && |entries| == |places| && NoRepeats(places)
    && (forall p :: p in places <==> p in all)
    && (forall i :: 0 <= i < |places| ==> places[i] in Places(m) && entries[i] == m[places[i].class_][places[i].key])
  }

  lemma ListOneMore(m: TenantIndex, entries: seq<Entry>, places: seq<Place>, all: set<Place>, p: Place)
    requires Lists(m, entries, places, all) && p in Places(m) && p !in all
    ensures Lists(m, entries + [m[p.class_][p.key]], places + [p], all + {p})
  {
  }

  /** The two inner loops of next: every class, every key, in any order. */
  method TenantEntries(m: TenantIndex) returns (entries: seq<Entry>, ghost places: seq<Place>)
    ensures Lists(m, entries, places, Places(m))
  {
    hide Lists;
    entries, places := [], [];
    ghost var all: set<Place> := {};
    assert Lists(m, entries, places, all) by { EmptyList(m); }
    var classes := m.Keys;
    while classes != {}
      invariant classes <= m.Keys
      invariant Lists(m, entries, places, all)
      invariant all == set p | p in Places(m) && p.class_ !in classes
      decreases classes
    {
      var c :| c in classes;
      var keys := m[c].Keys;
      while keys != {}
        invariant keys <= m[c].Keys
        invariant Lists(m, entries, places, all)
        invariant all == set p | p in Places(m) && (p.class_ !in classes || (p.class_ == c && p.key !in keys))
        decreases keys
      {
        var k :| k in keys;
        ListOneMore(m, entries, places, all, Place(c, k));
        entries := entries + [m[c][k]];
        places := places + [Place(c, k)];
        all := all + {Place(c, k)};
        keys := keys - {k};
      }
      classes := classes - {c};
    }
    assert all == Places(m);
  }

  lemma EmptyList(m: TenantIndex)
    ensures Lists(m, [], [], {})
  {
  }

  // ---- What a message says ----

  /** The part has exactly one entry for each place its tenant's executions have in
      the log, and the entry is what the log gives for that place. */
  ghost predicate PartReports(part: TenantTelemetry, at: seq<Place>, log: seq<Execution>) {
    && |part.entries| == |at| && NoRepeats(at)
    && (forall j :: 0 <= j < |at| ==> Summary(log, part.tenant, at[j].class_, at[j].key) == Some(part.entries[j]))
    && (forall c, k :: Summary(log, part.tenant, c, k).Some? ==> Place(c, k) in at)
  }

  /** One part for each tenant of the log, and each part agrees with it. */
  ghost predicate Reports(m: seq<TenantTelemetry>, places: seq<seq<Place>>, log: seq<Execution>) {
    && |places| == |m|
    && (forall i, j :: 0 <= i < j < |m| ==> m[i].tenant != m[j].tenant)
    && Tenants(m) == LogTenants(log)
    && forall i :: 0 <= i < |m| ==> PartReports(m[i], places[i], log)
  }

  /** So every execution has its entry in such a message. */
  lemma ExecutionsAreReported(m: seq<TenantTelemetry>, places: seq<seq<Place>>, log: seq<Execution>, x: Execution)
    requires Reports(m, places, log) && x in log
    ensures exists i ::
      && 0 <= i < |m| && m[i].tenant == x.tenant && m[i].entries != []
      && Place(x.class_, x.Key()) in places[i]
  {
    hide Execution.Key;
    assert x.tenant in LogTenants(log);
    var i :| 0 <= i < |m| && m[i].tenant == x.tenant;
    MatchingMember(log, x.tenant, x.class_, x.Key(), x);
    assert Summary(log, x.tenant, x.class_, x.Key()).Some?;
  }

  // ---- The index ----

  class RegionPusher {
    const region: RegionId
    var telemetry: map<TenantId, TenantIndex>
    ghost var log: seq<Execution>

    function At(t: TenantId, c: Class, k: string): Option<Entry> reads this {
      if t in telemetry && c in telemetry[t] && k in telemetry[t][c] then Some(telemetry[t][c][k]) else None
    }

    /** The index is exactly the summary of the log, with a part for each tenant in it. */
    ghost predicate Valid() reads this {
      && (forall t, c, k :: At(t, c, k) == Summary(log, t, c, k))
      && telemetry.Keys == LogTenants(log)
    }

    constructor (region: RegionId)
      ensures Valid() && this.region == region && log == []
    {
      this.region := region;
      telemetry, log := map[], [];
    }

    /** The entry an execution starts; reading its key back would panic on other labels. */
    method NewEntry(e: Execution) returns (entry: Entry)
      requires Readable(e.labels)
      ensures entry == Blank(e.class_, e.Key())
    {
      ReadsBackIff(e.labels);
      var labels := Deserialize(e.Key()).value;
      entry := Entry(e.class_, 0, 0, labels);
    }

    method AddExecution(e: Execution)
      requires Valid() && Readable(e.labels)
      modifies this
      ensures Valid() && log == old(log) + [e]
    {
      hide Summary, Bumped, Blank, Execution.Key;
      var (t, c, k) := (e.tenant, e.class_, e.Key());
      var tenantTele: TenantIndex := map[];
      if t in telemetry {
        tenantTele := telemetry[t];
      }
      var classTele: map<string, Entry> := map[];
      if c in tenantTele {
        classTele := tenantTele[c];
      }
      var entry;
      if k in classTele {
        entry := classTele[k];
      } else {
        entry := NewEntry(e);
      }
      ghost var was := log;
      assert Summary(was, t, c, k) == At(t, c, k);
      telemetry := telemetry[t := tenantTele[c := classTele[k := Bumped(entry, e)]]];
      log := log + [e];
      LogTenantsGrow(was, e);
      forall t', c', k' ensures At(t', c', k') == Summary(log, t', c', k') {
        SummaryGrows(was, e, t', c', k');
        if !e.Under(t', c', k') {
          assert At(t', c', k') == old(At(t', c', k'));
        }
      }
    }

    lemma ListsReport(part: TenantTelemetry, at: seq<Place>)
      requires Valid() && part.tenant in telemetry
      requires Lists(telemetry[part.tenant], part.entries, at, Places(telemetry[part.tenant]))
      ensures PartReports(part, at, log)
    {
      hide Summary;
      var (t, m) := (part.tenant, telemetry[part.tenant]);
      forall j | 0 <= j < |at| ensures Summary(log, t, at[j].class_, at[j].key) == Some(part.entries[j]) {
        assert At(t, at[j].class_, at[j].key) == Some(part.entries[j]);
      }
      forall c, k | Summary(log, t, c, k).Some? ensures Place(c, k) in at {
        assert At(t, c, k).Some?;
        assert Place(c, k) in Places(m);
      }
    }

    /** next: the message agrees with the log of executions. */
    method Next() returns (m: seq<TenantTelemetry>, ghost places: seq<seq<Place>>)
      requires Valid()
      ensures Reports(m, places, log)
    {
      hide Lists, PartReports, Summary;
      m, places := [], [];
      var tenants := telemetry.Keys;
      while tenants != {}
        invariant tenants <= telemetry.Keys && |places| == |m|
        invariant forall i, j :: 0 <= i < j < |m| ==> m[i].tenant != m[j].tenant
        invariant Tenants(m) == telemetry.Keys - tenants
        invariant forall i :: 0 <= i < |m| ==> PartReports(m[i], places[i], log)
        decreases tenants
      {
        var t :| t in tenants;
        var entries, at := TenantEntries(telemetry[t]);
        TenantsGrow(m, TenantTelemetry(t, entries));
        ListsReport(TenantTelemetry(t, entries), at);
        m := m + [TenantTelemetry(t, entries)];
        places := places + [at];
        tenants := tenants - {t};
      }
    }
  }

  // ---- Regions ----

  function OfRegion(log: seq<Execution>, r: RegionId): (s: seq<Execution>) {
    if log == [] then []
    else OfRegion(log[..|log| - 1], r) + if log[|log| - 1].region == r then [log[|log| - 1]] else []
  }

  lemma OfRegionGrows(log: seq<Execution>, e: Execution, r: RegionId)
    ensures OfRegion(log + [e], r) == OfRegion(log, r) + if e.region == r then [e] else []
  {
    assert (log + [e])[..|log|] == log;
  }

  /** Where a call of AddExecution is: before its read-locked section, before its
      write-locked one, or past them. */
  datatype Stage = Reading | Writing | Returned

  /** The executions of the calls that have returned. */
  function Finished(calls: seq<Execution>, stages: seq<Stage>): seq<Execution>
    requires |stages| == |calls|
  {
    if calls == [] then []
    else
      var n := |calls| - 1;
      Finished(calls[..n], stages[..n]) + if stages[n].Returned? then [calls[n]] else []
  }

  lemma {:induction false} NoneFinished(calls: seq<Execution>, stages: seq<Stage>)
    requires |stages| == |calls| && forall i :: 0 <= i < |stages| ==> !stages[i].Returned?
    ensures Finished(calls, stages) == []
  {
    if calls != [] { NoneFinished(calls[..|calls| - 1], stages[..|calls| - 1]); }
  }

  lemma {:induction false} FinishedGrows(calls: seq<Execution>, stages: seq<Stage>, i: nat, next: Stage)
    requires |stages| == |calls| && i < |calls| && !stages[i].Returned?
    ensures multiset(Finished(calls, stages[i := next])) ==
      multiset(Finished(calls, stages)) + if next.Returned? then multiset{calls[i]} else multiset{}
  {
    var n := |calls| - 1;
    if i < n {
      FinishedGrows(calls[..n], stages[..n], i, next);
      assert stages[i := next][..n] == stages[..n][i := next];
    } else {
      assert stages[i := next][..n] == stages[..n];
    }
  }

  /** The log holds what it did at the start and the calls that have returned since. */
  predicate Tallies(start: seq<Execution>, log: seq<Execution>, calls: seq<Execution>, stages: seq<Stage>)
    requires |stages| == |calls|
  {
    multiset(log) == multiset(start) + multiset(Finished(calls, stages))
  }

  lemma TalliesAtStart(log: seq<Execution>, calls: seq<Execution>, stages: seq<Stage>)
    requires |stages| == |calls| && forall i :: 0 <= i < |stages| ==> !stages[i].Returned?
    ensures Tallies(log, log, calls, stages)
  {
    NoneFinished(calls, stages);
  }

  lemma TalliesStep(start: seq<Execution>, was: seq<Execution>, log: seq<Execution>, calls: seq<Execution>, stages: seq<Stage>, i: nat, next: Stage)
    requires |stages| == |calls| && i < |calls| && !stages[i].Returned? && Tallies(start, was, calls, stages)
    requires log == if next.Returned? then was + [calls[i]] else was
    ensures Tallies(start, log, calls, stages[i := next])
  {
    FinishedGrows(calls, stages, i, next);
    hide Finished;
  }

  class Telemeter {
    var pushers: map<RegionId, RegionPusher>
    ghost var log: seq<Execution>    // every execution recorded, in order

    /** One pusher a region, holding exactly that region's executions. */
    ghost predicate Valid()
      reads this, pushers.Values
    {
      && (forall r :: r in pushers ==>
            pushers[r].region == r && pushers[r].Valid() && pushers[r].log == OfRegion(log, r))
      && (forall r :: r !in pushers ==> OfRegion(log, r) == [])
    }

    constructor ()
      ensures Valid() && pushers == map[] && log == []
    {
      pushers, log := map[], [];
    }

    /** The part under the read lock: nothing happens without a pusher. */
    method AddIfPresent(e: Execution) returns (found: bool)
      requires Valid() && Readable(e.labels)
      modifies this, pushers.Values
      ensures Valid() && pushers == old(pushers) && found == (e.region in pushers)
      ensures log == if found then old(log) + [e] else old(log)
    {
      hide RegionPusher.Valid, OfRegion;
      found := e.region in pushers;
      if found {
        ghost var was := log;
        pushers[e.region].AddExecution(e);
        log := log + [e];
        forall r ensures OfRegion(log, r) == OfRegion(was, r) + if e.region == r then [e] else [] {
          OfRegionGrows(was, e, r);
        }
      }
    }

    /** The part under the write lock: another goroutine may have made the
        pusher since; it is looked up again and never replaced. */
    method AddOrCreate(e: Execution)
      requires Valid() && Readable(e.labels)
      modifies this, pushers.Values
      ensures Valid() && log == old(log) + [e]
      ensures e.region in pushers && pushers.Keys == old(pushers.Keys) + {e.region}
      ensures e.region in old(pushers) || fresh(pushers[e.region])
      ensures forall r :: r in old(pushers) ==> pushers[r] == old(pushers[r])
    {
      var found := AddIfPresent(e);
      if !found {
        Create(e);
      }
    }

    method Create(e: Execution)
      requires Valid() && Readable(e.labels) && e.region !in pushers
      modifies this
      ensures Valid() && log == old(log) + [e]
      ensures pushers.Keys == old(pushers.Keys) + {e.region} && fresh(pushers[e.region])
      ensures forall r :: r in old(pushers) ==> pushers[r] == old(pushers[r])
    {
      hide RegionPusher.Valid, OfRegion;
      var p := new RegionPusher(e.region);
      p.AddExecution(e);
      ghost var was := log;
      pushers := pushers[e.region := p];
      log := log + [e];
      forall r ensures OfRegion(log, r) == OfRegion(was, r) + if e.region == r then [e] else [] {
        OfRegionGrows(was, e, r);
      }
      forall r | r in pushers
        ensures pushers[r].region == r && pushers[r].Valid() && pushers[r].log == OfRegion(log, r)
      {
        if r != e.region { assert pushers[r] == old(pushers[r]); }
      }
    }

    /** A call that nobody comes between. */
    method AddExecution(e: Execution)
      requires Valid() && Readable(e.labels)
      modifies this, pushers.Values
      ensures Valid() && log == old(log) + [e] && e.region in pushers
      ensures forall r :: r in old(pushers) ==> r in pushers && pushers[r] == old(pushers[r])
    {
      var found := AddIfPresent(e);
      if !found {
        AddOrCreate(e);
      }
    }

    /** The next locked section of a call of AddExecution. */
    method Section(e: Execution, stage: Stage) returns (next: Stage)
      requires Valid() && Readable(e.labels) && !stage.Returned?
      modifies this, pushers.Values
      ensures Valid() && Kept(old(pushers)) && next != stage && (stage.Writing? ==> next.Returned?)
      ensures log == if next.Returned? then old(log) + [e] else old(log)
      ensures forall r :: r in pushers && r !in old(pushers) ==> fresh(pushers[r])
      ensures next.Returned? ==> e.region in pushers
      ensures next.Writing? ==> e.region !in pushers
    {
      if stage.Reading? {
        var found := AddIfPresent(e);
        next := if found then Returned else Writing;
      } else {
        AddOrCreate(e);
        next := Returned;
      }
    }

    /** Pushers are never taken away or replaced. */
    predicate Kept(was: map<RegionId, RegionPusher>) reads this {
      forall r :: r in was ==> r in pushers && pushers[r] == was[r]
    }

    /** Any number of calls of AddExecution at once: `turns` says whose locked section
        comes next. Whatever happens between the two sections of a call, every
        call that returned is recorded exactly once, in its region's one pusher. */
    method AddExecutions(calls: seq<Execution>, turns: seq<nat>) returns (stages: seq<Stage>)
      requires Valid() && forall i :: 0 <= i < |calls| ==> Readable(calls[i].labels)
      requires forall i :: 0 <= i < |turns| ==> turns[i] < |calls|
      modifies this, pushers.Values
      ensures Valid() && Kept(old(pushers)) && |stages| == |calls|
      ensures Tallies(old(log), log, calls, stages)
      ensures forall i :: 0 <= i < |calls| && stages[i].Returned? ==> calls[i].region in pushers
    {
      hide Valid, Readable, Tallies;
      stages := seq(|calls|, _ => Reading);
      TalliesAtStart(log, calls, stages);
      for k := 0 to |turns|
        invariant Valid() && Kept(old(pushers)) && |stages| == |calls|
        invariant forall r :: r in pushers && r !in old(pushers) ==> fresh(pushers[r])
        invariant Tallies(old(log), log, calls, stages)
        invariant forall i :: 0 <= i < |calls| && stages[i].Returned? ==> calls[i].region in pushers
      {
        var i := turns[k];
        if stages[i].Returned? { continue; }
        ghost var was := log;
        forall p | p in pushers.Values ensures p in old(pushers.Values) || fresh(p) {
          var r :| r in pushers && pushers[r] == p;
          if r in old(pushers) { assert old(pushers)[r] in old(pushers).Values; }
        }
        var next := Section(calls[i], stages[i]);
        TalliesStep(old(log), was, log, calls, stages, i, next);
        stages := stages[i := next];
      }
    }
  }

  // ---- Entries and label sets ----

  /** The executions that share a place are exactly those of the tenant and class
      with the same labels in some order, when the keys can be taken apart again. */
  lemma PlaceIsLabelSet(log: seq<Execution>, e: Execution, x: Execution)
    requires x in log && Separable(e.labels) && Separable(x.labels) && DistinctNames(e.labels)
    ensures x in Matching(log, e.tenant, e.class_, e.Key())
      <==> x.tenant == e.tenant && x.class_ == e.class_ && multiset(x.labels) == multiset(e.labels)
  {
    SameKeyIffSameLabels(e.labels, x.labels);
    MatchingMember(log, e.tenant, e.class_, e.Key(), x);
  }

  /** `x` is recorded where `e` is, without a panic if `e` is, and has other labels. */
  predicate Intrudes(e: Execution, x: Execution) {
    && x.Under(e.tenant, e.class_, e.Key()) && multiset(x.labels) != multiset(e.labels)
    && (Readable(e.labels) ==> Readable(x.labels))
  }

  /** An execution's entry can count executions with other labels exactly when it
      has two labels or more, or one with an equals sign of its own. */
  lemma EntryCanBeSharedIff(e: Execution)
    ensures (exists x :: Intrudes(e, x)) <==> |e.labels| >= 2 || (|e.labels| == 1 && !OneEquals(e.labels[0]))
  {
    hide Serialize, Readable, OneEquals;
    ClashIff(e.labels);
    if t :| Clashes(e.labels, t) {
      ReadsBackIff(e.labels);
      ReadsBackIff(t);
      assert Intrudes(e, e.(labels := t));
    } else {
      forall x ensures !Intrudes(e, x) {
        assert !Clashes(e.labels, x.labels);
      }
    }
  }

  /** It does happen: two executions of one tenant, with the same two label names
      and other values, are counted as two in one entry. */
  lemma OtherLabelsCountedTogether(e: Execution)
    ensures var x := e.(labels := [Label("a", "b,c=x"), Label("c", "y")]);
      var y := e.(labels := [Label("a", "b"), Label("c", "x,c=y")]);
      && Readable(x.labels) && Readable(y.labels) && multiset(x.labels) != multiset(y.labels)
      && Matching([x, y], e.tenant, e.class_, x.Key()) == [x, y]
  {
    var x := e.(labels := [Label("a", "b,c=x"), Label("c", "y")]);
    var y := e.(labels := [Label("a", "b"), Label("c", "x,c=y")]);
    DifferentLabelsCanShareKey();
    hide Serialize, Readable;
    assert [x, y][..1] == [x] && [x][..0] == [];
    assert Matching([x], e.tenant, e.class_, x.Key()) == [x];
  }

  lemma {:induction false} MatchingMember(log: seq<Execution>, t: TenantId, c: Class, k: string, x: Execution)
    ensures x in Matching(log, t, c, k) <==> x in log && x.Under(t, c, k)
  {
    if log != [] {
      MatchingMember(log[..|log| - 1], t, c, k, x);
      assert log == log[..|log| - 1] + [log[|log| - 1]];
    }
  }

  function Indices(log: seq<Execution>, t: TenantId, c: Class, k: string): set<nat> {
    set n: nat | n < |log| && log[n].Under(t, c, k)
  }

  lemma {:induction false} MatchingCounts(log: seq<Execution>, t: TenantId, c: Class, k: string)
    ensures |Matching(log, t, c, k)| == |Indices(log, t, c, k)|
  {
    if log == [] {
      assert Indices(log, t, c, k) == {};
    } else {
      hide Execution.Under, Indices;
      var n: nat := |log| - 1;
      MatchingCounts(log[..n], t, c, k);
      IndicesGrow(log, n, t, c, k);
    }
  }

  lemma IndicesGrow(log: seq<Execution>, n: nat, t: TenantId, c: Class, k: string)
    requires n == |log| - 1
    ensures |Indices(log, t, c, k)| == |Indices(log[..n], t, c, k)| + if log[n].Under(t, c, k) then 1 else 0
  {
    hide Execution.Under;
    var (more, fewer) := (Indices(log, t, c, k), Indices(log[..n], t, c, k));
    assert n !in fewer;
    if log[n].Under(t, c, k) {
      assert more == fewer + {n};
    } else {
      assert more == fewer;
    }
  }

  /** What an entry of a message shows: its class, how many executions of the log have
      its place, their minutes, and the labels of each of them. */
  lemma ReportedNumbers(m: seq<TenantTelemetry>, places: seq<seq<Place>>, log: seq<Execution>, i: nat, j: nat)
    requires Reports(m, places, log) && i < |m| && j < |m[i].entries|
    ensures j < |places[i]|
    ensures var (entry, t, at) := (m[i].entries[j], m[i].tenant, places[i][j]);
      && entry.class_ == at.class_
      && entry.executions == Int32(|Indices(log, t, at.class_, at.key)|)
      && entry.sampled == Int32(TotalMinutes(Matching(log, t, at.class_, at.key)))
      && forall x :: x in log && x.Under(t, at.class_, at.key) && Clean(x.labels) ==> entry.labels == Sort(x.labels)
  {
    hide Int32, Execution.Minutes, Matching, Indices, Sort;
    assert PartReports(m[i], places[i], log);
    var (t, at) := (m[i].tenant, places[i][j]);
    MatchingCounts(log, t, at.class_, at.key);
    forall x | x in log && x.Under(t, at.class_, at.key) && Clean(x.labels) ensures m[i].entries[j].labels == Sort(x.labels) {
      CleanLabelsShown(x);
    }
  }

  /** Clean labels read back, and an entry shows them sorted by name. */
  lemma CleanLabelsShown(e: Execution)
    requires Clean(e.labels)
    ensures Readable(e.labels) && LabelsOf(e.Key()) == Sort(e.labels)
  {
    RoundTripIff(e.labels);
    ReadsBackIff(e.labels);
  }
}
