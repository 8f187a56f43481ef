/** The protocol between an agent and the API: a reconnect that brings the agent
    up to date, then filtered updates. Throughout this module FromSM and the
    scraper factory succeed and the checks to be run are valid and not filtered
    by feature; Updater covers the failures. */
module Sync {
  import opened Checks
  import opened Common
  import opened Updater
  import opened ChecksServer

  predicate Runnable(c: Check, k6: bool) { c.valid && !Filtered(c, k6) }

  function Good(n: nat): (r: seq<Env>)
    ensures |r| == n && forall i :: 0 <= i < n ==> r[i] == Env(true, true)
  {
    seq(n, _ => Env(true, true))
  }

  function Applied(f: Fleet, changes: seq<Change>, k6: bool): Fleet {
    HandledAll(f, changes, k6, Good(|changes|))
  }

  lemma AppliedLast(f: Fleet, changes: seq<Change>, ch: Change, k6: bool)
    ensures Applied(f, changes + [ch], k6) == Handled(Applied(f, changes, k6), ch, k6, Env(true, true))
  {
    var all := changes + [ch];
    assert all[..|changes|] == changes;
    assert Good(|all|)[..|changes|] == Good(|changes|);
  }

  lemma {:induction false} AppliedAppend(f: Fleet, a: seq<Change>, b: seq<Change>, k6: bool)
    ensures Applied(f, a + b, k6) == Applied(Applied(f, a, k6), b, k6)
  {
    if b == [] {
      assert a + b == a;
    } else {
      var n := |b| - 1;
      assert a + b == (a + b[..n]) + [b[n]] && b == b[..n] + [b[n]];
      AppliedLast(f, a + b[..n], b[n], k6);
      AppliedLast(Applied(f, a, k6), b[..n], b[n], k6);
      AppliedAppend(f, a, b[..n], k6);
    }
  }

  // ---- Updates ----

  predicate AllRunnable(probe: int, changes: seq<Change>, k6: bool) {
    forall i :: 0 <= i < |changes| && Wants(probe, changes[i]) ==> Runnable(changes[i].check, k6)
  }

  /** Whether a check runs after the changes: the last one that names it decides. */
  predicate WantedLast(probe: int, changes: seq<Change>, id: Id, before: bool) {
    if changes == [] then before
    else
      var n := |changes| - 1;
      if changes[n].check.id == id then Wants(probe, changes[n]) else WantedLast(probe, changes[..n], id, before)
  }

  lemma OneChange(f: Fleet, probe: int, ch: Change, k6: bool)
    requires Wants(probe, ch) ==> Runnable(ch.check, k6)
    ensures var r := FilterUpdate(probe, ch, f.Keys);
      var g := if r.None? then f else Handled(f, r.value, k6, Env(true, true));
      && g.Keys == (if r.None? then f.Keys else Believed(f.Keys, r.value))
      && g.Keys == (if Wants(probe, ch) then f.Keys + {ch.check.id} else f.Keys - {ch.check.id})
  {
    hide Ids.GlobalID, Ids.GetLocalAndRegionIDs;
    KeyIsId(ch.check.id);
  }

  /** Steady state: when both sides agree before an update they agree after it,
      and a check runs exactly when the last change that names it wants it to. */
  lemma {:induction false} UpdateAgrees(f: Fleet, probe: int, changes: seq<Change>, k6: bool)
    requires AllRunnable(probe, changes, k6)
    ensures var (sent, now) := Update(probe, changes, f.Keys);
      && Applied(f, sent, k6).Keys == now
      && forall id :: id in now <==> WantedLast(probe, changes, id, id in f.Keys)
  {
    if changes != [] {
      var n := |changes| - 1;
      UpdateAgrees(f, probe, changes[..n], k6);
      var (sent, now) := Update(probe, changes[..n], f.Keys);
      var g := Applied(f, sent, k6);
      OneChange(g, probe, changes[n], k6);
      var r := FilterUpdate(probe, changes[n], now);
      if r.Some? {
        AppliedLast(f, sent, r.value, k6);
      }
    }
  }

  /** A change that wants its check run leaves that version running, unless it is
      an ADD for a check that already runs in another: then the old one stays. */
  lemma NewVersionIff(f: Fleet, probe: int, ch: Change, k6: bool)
    requires Wants(probe, ch) && Runnable(ch.check, k6)
    ensures var g := Handled(f, FilterUpdate(probe, ch, f.Keys).value, k6, Env(true, true)); var id := ch.check.id;
      && id in g
      && (g[id] == ch.check <==> !(ch.op.ADD? && id in f && f[id] != ch.check))
  {
    hide Ids.GlobalID, Ids.GetLocalAndRegionIDs;
    KeyIsId(ch.check.id);
  }

  /** A check that runs in version 1 keeps it when an ADD brings version 2. */
  lemma AddCanKeepOldVersion(probe: int)
    ensures var was := Check(1, true, [probe], 1.0, Other(0), true);
      var ch := Change(ADD, was.(modified := 2.0));
      Handled(map[1 := was], FilterUpdate(probe, ch, {1}).value, false, Env(true, true))[1] == was
  {
    KeyIsId(1);
  }

  // ---- Reconnects ----

  /** The entity references an agent sends: what it runs and since when. */
  function Known(f: Fleet): map<Id, real> { map id | id in f :: f[id].modified }

  predicate TableRunnable(checks: seq<Check>, k6: bool) {
    forall i :: 0 <= i < |checks| && checks[i].enabled ==> Runnable(checks[i], k6)
  }

  /** Every enabled check of the table runs, in the table's version. */
  predicate UpToDate(g: Fleet, checks: seq<Check>) {
    forall i :: 0 <= i < |checks| && checks[i].enabled ==>
      checks[i].id in g && g[checks[i].id].Version() == checks[i].Version()
  }

  /** `g` differs from `f` only on the enabled checks of the table. */
  predicate ElseSame(f: Fleet, g: Fleet, checks: seq<Check>) {
    && g.Keys == f.Keys + EnabledIds(checks)
    && forall id :: id in f && id !in EnabledIds(checks) ==> g[id] == f[id]
  }

  lemma EnabledLast(checks: seq<Check>)
    requires checks != [] && Distinct(checks)
    ensures var n := |checks| - 1;
      && EnabledIds(checks) == EnabledIds(checks[..n]) + (if checks[n].enabled then {checks[n].id} else {})
      && checks[n].id !in EnabledIds(checks[..n])
      && Distinct(checks[..n])
  {
    var n := |checks| - 1;
    forall id | id in EnabledIds(checks[..n]) ensures id in EnabledIds(checks) {
      var i :| 0 <= i < n && checks[i].enabled && checks[i].id == id;
    }
    if checks[n].enabled { assert checks[n].id in EnabledIds(checks); }
  }

  /** `h` runs check `c` in its version, and is otherwise like `g`. */
  predicate WithCheck(g: Fleet, h: Fleet, c: Check) {
    && h.Keys == g.Keys + {c.id} && h[c.id].Version() == c.Version()
    && forall id :: id in g && id != c.id ==> h[id] == g[id]
  }

  /** From a table's first checks to all of them. */
  lemma TableLast(f: Fleet, g: Fleet, h: Fleet, checks: seq<Check>)
    requires checks != [] && Distinct(checks)
    requires UpToDate(g, checks[..|checks| - 1]) && ElseSame(f, g, checks[..|checks| - 1])
    requires var c := checks[|checks| - 1]; if c.enabled then WithCheck(g, h, c) else h == g
    ensures UpToDate(h, checks) && ElseSame(f, h, checks)
  {
    hide Check.Version;
    var n := |checks| - 1;
    EnabledLast(checks);
    forall i | 0 <= i < |checks| && checks[i].enabled
      ensures checks[i].id in h && h[checks[i].id].Version() == checks[i].Version()
    {
      if i < n { assert checks[..n][i] == checks[i]; }
    }
  }

  lemma HandledRunnable(g: Fleet, op: Op, c: Check, k6: bool)
    requires Runnable(c, k6) && ((op.ADD? && c.id !in g) || op.UPDATE?)
    ensures Handled(g, Change(op, c), k6, Env(true, true)) == g[c.id := c]
  {
    KeyIsId(c.id);
  }

  lemma InitialAddRunnable(g: Fleet, c: Check, k6: bool)
    requires Runnable(c, k6)
    ensures var (h, ok) := InitialAdd(g, c, k6, Env(true, true));
      && ok && Key(c.id) == c.id
      && WithCheck(g, h, c)
  {
    KeyIsId(c.id);
  }

  lemma {:induction false} MissingApplied(f: Fleet, checks: seq<Check>, k6: bool)
    requires Distinct(checks) && TableRunnable(checks, k6)
    ensures var g := Applied(f, Missing(Known(f), checks), k6); UpToDate(g, checks) && ElseSame(f, g, checks)
  {
    if checks == [] {
      NothingApplied(f, k6);
      assert EnabledIds(checks) == {};
    } else {
      hide Applied, Missing, WithCheck, UpToDate, ElseSame;
      var n := |checks| - 1;
      EnabledLast(checks);
      MissingApplied(f, checks[..n], k6);
      MissingLast(f, checks, k6);
      TableLast(f, Applied(f, Missing(Known(f), checks[..n]), k6), Applied(f, Missing(Known(f), checks), k6), checks);
    }
  }

  lemma MissingLast(f: Fleet, checks: seq<Check>, k6: bool)
    requires checks != [] && Distinct(checks) && TableRunnable(checks, k6)
    requires ElseSame(f, Applied(f, Missing(Known(f), checks[..|checks| - 1]), k6), checks[..|checks| - 1])
    ensures var (n, known) := (|checks| - 1, Known(f));
      var (g, h) := (Applied(f, Missing(known, checks[..n]), k6), Applied(f, Missing(known, checks), k6));
      if checks[n].enabled then WithCheck(g, h, checks[n]) else h == g
  {
    hide Handled, Applied, Check.Version, WithCheck;
    var n := |checks| - 1;
    var c, before := checks[n], Missing(Known(f), checks[..n]);
    var g := Applied(f, before, k6);
    EnabledLast(checks);
    if c.enabled && !(c.id in f && f[c.id].modified == c.modified) {
      var op := if c.id in f then UPDATE else ADD;
      AppliedLast(f, before, Change(op, c), k6);
      HandledRunnable(g, op, c, k6);
      SetCheck(g, c);
    } else if c.enabled {
      HasCheck(g, c);
    }
  }

  lemma SetCheck(g: Fleet, c: Check)
    ensures WithCheck(g, g[c.id := c], c)
  {
  }

  lemma HasCheck(g: Fleet, c: Check)
    requires c.id in g && g[c.id].modified == c.modified
    ensures WithCheck(g, g, c)
  {
    SameVersion(g[c.id], c);
  }

  lemma NothingApplied(f: Fleet, k6: bool)
    ensures Applied(f, [], k6) == f
  {
  }

  lemma SameVersion(a: Check, b: Check)
    requires a.modified == b.modified
    ensures a.Version() == b.Version()
  {
  }

  lemma {:induction false} DeletesApplied(g: Fleet, deletes: seq<Change>, ids: set<Id>, k6: bool)
    requires DeletesExactly(deletes, ids)
    ensures Applied(g, deletes, k6) == g - ids
  {
    if deletes == [] {
      assert Named(deletes) == {};
    } else {
      var n := |deletes| - 1;
      var last := deletes[n].check.id;
      KeyIsId(last);
      assert deletes == deletes[..n] + [deletes[n]];
      assert Named(deletes[..n]) == ids - {last} by {
        forall id | id in ids - {last} ensures id in Named(deletes[..n]) {
          var i :| 0 <= i < |deletes| && deletes[i].check.id == id;
          assert deletes[..n][i].check.id == id;
        }
      }
      DeletesApplied(g, deletes[..n], ids - {last}, k6);
      AppliedLast(g, deletes[..n], deletes[n], k6);
      assert g - (ids - {last}) - {last} == g - ids;
    }
  }

  function FullBatch(f: Fleet, changes: seq<Change>, k6: bool): Fleet {
    FirstBatch(f, changes, k6, Good(|changes|))
  }

  function Added(f: Fleet, changes: seq<Change>, k6: bool): (Fleet, set<Id>) {
    FirstAdds(f, changes, k6, Good(|changes|))
  }

  lemma AddedLast(f: Fleet, changes: seq<Change>, ch: Change, k6: bool)
    ensures var (g, seen) := Added(f, changes, k6);
      Added(f, changes + [ch], k6) ==
        if !ch.op.ADD? then (g, seen)
        else
          var (h, ok) := InitialAdd(g, ch.check, k6, Env(true, true));
          (h, if ok then seen + {Key(ch.check.id)} else seen)
  {
    var all := changes + [ch];
    assert all[..|changes|] == changes;
    assert Good(|all|)[..|changes|] == Good(|changes|);
  }

  lemma {:induction false} FullTableAdded(f: Fleet, checks: seq<Check>, k6: bool)
    requires Distinct(checks) && TableRunnable(checks, k6)
    ensures var (g, seen) := Added(f, Missing(map[], checks), k6);
      UpToDate(g, checks) && ElseSame(f, g, checks) && seen == EnabledIds(checks)
  {
    hide Check.Version, InitialAdd, Key;
    if checks == [] {
      assert EnabledIds(checks) == {};
    } else {
      var n := |checks| - 1;
      var c, before := checks[n], Missing(map[], checks[..n]);
      FullTableAdded(f, checks[..n], k6);
      EnabledLast(checks);
      var (g, _) := Added(f, before, k6);
      if c.enabled {
        InitialAddRunnable(g, c, k6);
        AddedLast(f, before, Change(ADD, c), k6);
      }
      TableLast(f, g, Added(f, Missing(map[], checks), k6).0, checks);
    }
  }

  /** Reconnect, answered with a delta: whatever the agent ran, it ends up with
      exactly the enabled checks of its table, in the table's versions. */
  lemma DeltaConverges(f: Fleet, checks: seq<Check>, deletes: seq<Change>, k6: bool)
    requires Distinct(checks) && TableRunnable(checks, k6)
    requires DeletesExactly(deletes, Known(f).Keys - EnabledIds(checks))
    ensures var g := Applied(f, Missing(Known(f), checks) + deletes, k6);
      g.Keys == EnabledIds(checks) && UpToDate(g, checks)
  {
    MissingApplied(f, checks, k6);
    var g := Applied(f, Missing(Known(f), checks), k6);
    AppliedAppend(f, Missing(Known(f), checks), deletes, k6);
    DeletesApplied(g, deletes, Known(f).Keys - EnabledIds(checks), k6);
  }

  /** Reconnect, answered with a full first batch: the same, from any fleet. */
  lemma FullBatchConverges(f: Fleet, checks: seq<Check>, k6: bool)
    requires Distinct(checks) && TableRunnable(checks, k6)
    ensures var g := FullBatch(f, Missing(map[], checks), k6);
      g.Keys == EnabledIds(checks) && UpToDate(g, checks)
  {
    FullTableAdded(f, checks, k6);
  }

  lemma {:induction false} AppliedElsewhere(f: Fleet, changes: seq<Change>, k6: bool, id: Id)
    requires forall i :: 0 <= i < |changes| ==> changes[i].check.id != id
    ensures (id in Applied(f, changes, k6) <==> id in f) && (id in f ==> Applied(f, changes, k6)[id] == f[id])
  {
    if changes == [] {
      NothingApplied(f, k6);
    } else {
      hide Applied, Key;
      var n := |changes| - 1;
      AppliedElsewhere(f, changes[..n], k6, id);
      assert changes == changes[..n] + [changes[n]];
      AppliedLast(f, changes[..n], changes[n], k6);
      KeyIsId(changes[n].check.id);
    }
  }

  lemma NotOwed(known: map<Id, real>, checks: seq<Check>, ch: Change, i: nat)
    requires Distinct(checks) && Owed(known, checks, ch)
    requires i < |checks| && checks[i].enabled && checks[i].id in known && known[checks[i].id] == checks[i].modified
    ensures ch.check.id != checks[i].id
  {
    assert checks[i].id in EnabledIds(checks);
  }

  lemma CurrentNotNamed(known: map<Id, real>, checks: seq<Check>, deletes: seq<Change>, i: nat)
    requires Distinct(checks) && DeletesExactly(deletes, known.Keys - EnabledIds(checks))
    requires i < |checks| && checks[i].enabled && checks[i].id in known && known[checks[i].id] == checks[i].modified
    ensures var changes := Missing(known, checks) + deletes;
      forall j :: 0 <= j < |changes| ==> changes[j].check.id != checks[i].id
  {
    var changes := Missing(known, checks) + deletes;
    MessageIsOwed(known, checks, deletes);
    hide Missing, Owed;
    forall ch | ch in changes ensures ch.check.id != checks[i].id {
      NotOwed(known, checks, ch, i);
    }
  }

  /** A reconnect leaves alone a check that runs as the table has it: no change names
      it, and its entry is the very same. */
  lemma CurrentCheckUntouched(f: Fleet, checks: seq<Check>, deletes: seq<Change>, k6: bool, i: nat)
    requires Distinct(checks) && DeletesExactly(deletes, Known(f).Keys - EnabledIds(checks))
    requires i < |checks| && checks[i].enabled && checks[i].id in f && f[checks[i].id].modified == checks[i].modified
    ensures var (changes, id) := (Missing(Known(f), checks) + deletes, checks[i].id);
      && (forall j :: 0 <= j < |changes| ==> changes[j].check.id != id)
      && id in Applied(f, changes, k6) && Applied(f, changes, k6)[id] == f[id]
  {
    hide Missing, Applied;
    CurrentNotNamed(Known(f), checks, deletes, i);
    AppliedElsewhere(f, Missing(Known(f), checks) + deletes, k6, checks[i].id);
  }

  // ---- Whole sessions ----

  /** Both ends of a connection: the agent's fleet, whether it still waits for
      its first batch, and the ids the server believes it runs. */
  datatype Link = Link(fleet: Fleet, firstBatch: bool, existing: set<Id>)

  /** An update and whether it carries tenants, which force it to be sent. */
  datatype News = News(changes: seq<Change>, tenants: bool)

  function Delivered(l: Link, probe: int, news: News, k6: bool): Link {
    var (sent, now) := Update(probe, news.changes, l.existing);
    if sent == [] && !news.tenants then l.(existing := now)
    else Link(Processed(l.fleet, sent, k6, Good(|sent|), l.firstBatch), false, now)
  }

  /** The agent waits for its first batch until something is sent to it. */
  lemma FirstBatchPendingIff(l: Link, probe: int, news: News, k6: bool)
    ensures Delivered(l, probe, news, k6).firstBatch <==> l.firstBatch && Update(probe, news.changes, l.existing).0 == [] && !news.tenants
  {
  }

  function Session(l: Link, probe: int, news: seq<News>, k6: bool): Link {
    if news == [] then l
    else Delivered(Session(l, probe, news[..|news| - 1], k6), probe, news[|news| - 1], k6)
  }

  /** The link once the initial exchange is over, as InitialChanges leaves it. */
  predicate Connected(l: Link, f: Fleet, checks: seq<Check>, deletes: seq<Change>, k6: bool) {
    var changes := Missing(Known(f), checks) + deletes;
    && DeletesExactly(deletes, Known(f).Keys - EnabledIds(checks))
    && l.existing == EnabledIds(checks)
    && l.firstBatch == (checks == [] && f == map[])
    && l.fleet == if l.firstBatch then f else Processed(f, changes, k6, Good(|changes|), Known(f) == map[])
  }

  lemma NothingNamed(changes: seq<Change>)
    requires changes != []
    ensures Named(changes) != {}
  {
    assert changes[0].check.id in Named(changes);
  }

  lemma ConnectionConverges(l: Link, f: Fleet, checks: seq<Check>, deletes: seq<Change>, k6: bool)
    requires Connected(l, f, checks, deletes, k6) && Distinct(checks) && TableRunnable(checks, k6)
    ensures l.fleet.Keys == l.existing == EnabledIds(checks) && UpToDate(l.fleet, checks)
  {
    if l.firstBatch {
      assert EnabledIds(checks) == {};
    } else if Known(f) == map[] {
      if deletes != [] { NothingNamed(deletes); assert false; }
      assert Missing(Known(f), checks) + deletes == Missing(map[], checks);
      FullBatchConverges(f, checks, k6);
    } else {
      DeltaConverges(f, checks, deletes, k6);
    }
  }

  /** Once the first batch is consumed the two ends agree after every update. */
  lemma {:induction false} SessionAgrees(l: Link, probe: int, news: seq<News>, k6: bool)
    requires !l.firstBatch && l.fleet.Keys == l.existing
    requires forall i :: 0 <= i < |news| ==> AllRunnable(probe, news[i].changes, k6)
    ensures var e := Session(l, probe, news, k6); !e.firstBatch && e.fleet.Keys == e.existing
  {
    if news != [] {
      var n := |news| - 1;
      SessionAgrees(l, probe, news[..n], k6);
      UpdateAgrees(Session(l, probe, news[..n], k6).fleet, probe, news[n].changes, k6);
    }
  }

  function AllChanges(news: seq<News>): seq<Change> {
    if news == [] then [] else AllChanges(news[..|news| - 1]) + news[|news| - 1].changes
  }

  lemma {:induction false} WantedLastAppend(probe: int, a: seq<Change>, b: seq<Change>, id: Id, before: bool)
    ensures WantedLast(probe, a + b, id, before) == WantedLast(probe, b, id, WantedLast(probe, a, id, before))
  {
    if b == [] {
      assert a + b == a;
    } else {
      assert (a + b)[..|a + b| - 1] == a + b[..|b| - 1];
      WantedLastAppend(probe, a, b[..|b| - 1], id, before);
    }
  }

  /** Over the whole session a check runs exactly when the last change that names
      it, in whatever update, wants it to. */
  lemma {:induction false} SessionFollowsLastChange(l: Link, probe: int, news: seq<News>, k6: bool, id: Id)
    requires !l.firstBatch && l.fleet.Keys == l.existing
    requires forall i :: 0 <= i < |news| ==> AllRunnable(probe, news[i].changes, k6)
    ensures id in Session(l, probe, news, k6).fleet <==> WantedLast(probe, AllChanges(news), id, id in l.existing)
  {
    if news != [] {
      var n := |news| - 1;
      var s := Session(l, probe, news[..n], k6);
      SessionFollowsLastChange(l, probe, news[..n], k6, id);
      SessionAgrees(l, probe, news[..n], k6);
      SessionAgrees(l, probe, news, k6);
      UpdateAgrees(s.fleet, probe, news[n].changes, k6);
      WantedLastAppend(probe, AllChanges(news[..n]), news[n].changes, id, id in l.existing);
    }
  }

  // ---- Versions over a session ----

  /** The version of a check that runs after one more change: an ADD for a check
      that runs already leaves the old one. */
  function RunsAfter(probe: int, ch: Change, id: Id, before: Option<Check>): Option<Check> {
    if ch.check.id != id then before
    else if !Wants(probe, ch) then None
    else if ch.op.ADD? && before.Some? then before
    else Some(ch.check)
  }

  function Runs(probe: int, changes: seq<Change>, id: Id, before: Option<Check>): Option<Check> {
    if changes == [] then before
    else RunsAfter(probe, changes[|changes| - 1], id, Runs(probe, changes[..|changes| - 1], id, before))
  }

  /** The version that should run: that of the last change that names the check. */
  function Latest(probe: int, changes: seq<Change>, id: Id, before: Option<Check>): Option<Check> {
    if changes == [] then before
    else
      var (n, ch) := (|changes| - 1, changes[|changes| - 1]);
      if ch.check.id != id then Latest(probe, changes[..n], id, before)
      else if Wants(probe, ch) then Some(ch.check) else None
  }

  lemma OneChangeRuns(f: Fleet, probe: int, ch: Change, k6: bool, id: Id)
    requires Wants(probe, ch) ==> Runnable(ch.check, k6)
    ensures var r := FilterUpdate(probe, ch, f.Keys);
      Lookup(if r.None? then f else Handled(f, r.value, k6, Env(true, true)), id) == RunsAfter(probe, ch, id, Lookup(f, id))
  {
    hide Ids.GlobalID, Ids.GetLocalAndRegionIDs;
    KeyIsId(ch.check.id);
  }

  lemma {:induction false} UpdateRuns(f: Fleet, probe: int, changes: seq<Change>, k6: bool, id: Id)
    requires AllRunnable(probe, changes, k6)
    ensures Lookup(Applied(f, Update(probe, changes, f.Keys).0, k6), id) == Runs(probe, changes, id, Lookup(f, id))
  {
    if changes == [] {
      NothingApplied(f, k6);
    } else {
      hide FilterUpdate, Handled, Believed, RunsAfter, Lookup, Applied, Wants;
      var n := |changes| - 1;
      UpdateRuns(f, probe, changes[..n], k6, id);
      UpdateAgrees(f, probe, changes[..n], k6);
      var (sent, now) := Update(probe, changes[..n], f.Keys);
      var r := FilterUpdate(probe, changes[n], now);
      OneChangeRuns(Applied(f, sent, k6), probe, changes[n], k6, id);
      if r.Some? { AppliedLast(f, sent, r.value, k6); }
    }
  }

  lemma {:induction false} RunsAppend(probe: int, a: seq<Change>, b: seq<Change>, id: Id, before: Option<Check>)
    ensures Runs(probe, a + b, id, before) == Runs(probe, b, id, Runs(probe, a, id, before))
  {
    if b == [] {
      assert a + b == a;
    } else {
      assert (a + b)[..|a + b| - 1] == a + b[..|b| - 1];
      RunsAppend(probe, a, b[..|b| - 1], id, before);
    }
  }

  /** Over a whole session the agent runs exactly the version the changes leave. */
  lemma {:induction false} SessionRuns(l: Link, probe: int, news: seq<News>, k6: bool, id: Id)
    requires !l.firstBatch && l.fleet.Keys == l.existing
    requires forall i :: 0 <= i < |news| ==> AllRunnable(probe, news[i].changes, k6)
    ensures Lookup(Session(l, probe, news, k6).fleet, id) == Runs(probe, AllChanges(news), id, Lookup(l.fleet, id))
  {
    if news != [] {
      hide Update, Runs, Lookup;
      var n := |news| - 1;
      var s := Session(l, probe, news[..n], k6);
      SessionRuns(l, probe, news[..n], k6, id);
      SessionAgrees(l, probe, news[..n], k6);
      UpdateRuns(s.fleet, probe, news[n].changes, k6, id);
      NothingApplied(s.fleet, k6);
      RunsAppend(probe, AllChanges(news[..n]), news[n].changes, id, Lookup(l.fleet, id));
    } else {
      assert AllChanges(news) == [];
    }
  }

  /** The last change that names the check is an ADD that found another version running. */
  predicate LeftBehind(probe: int, changes: seq<Change>, id: Id, before: Option<Check>) {
    changes != [] &&
    var (n, ch) := (|changes| - 1, changes[|changes| - 1]);
    if ch.check.id != id then LeftBehind(probe, changes[..n], id, before)
    else
      var b := Runs(probe, changes[..n], id, before);
      Wants(probe, ch) && ch.op.ADD? && b.Some? && b.value != ch.check
  }

  /** So the latest version runs exactly when no ADD found another one running. */
  lemma {:induction false} LatestRunsIff(probe: int, changes: seq<Change>, id: Id, before: Option<Check>)
    ensures Runs(probe, changes, id, before) == Latest(probe, changes, id, before) <==> !LeftBehind(probe, changes, id, before)
  {
    if changes != [] { LatestRunsIff(probe, changes[..|changes| - 1], id, before); }
  }

  /** From a reconnect on, with any fleet and table and any updates after it, the
      server knows exactly which checks the agent runs: those the table and the
      last changes ask for. */
  lemma ConnectedSessionAgrees(l: Link, f: Fleet, checks: seq<Check>, deletes: seq<Change>, k6: bool, probe: int, news: seq<News>)
    requires Connected(l, f, checks, deletes, k6) && Distinct(checks) && TableRunnable(checks, k6) && !l.firstBatch
    requires forall i :: 0 <= i < |news| ==> AllRunnable(probe, news[i].changes, k6)
    ensures var e := Session(l, probe, news, k6);
      && e.fleet.Keys == e.existing
      && forall id :: id in e.fleet <==> WantedLast(probe, AllChanges(news), id, id in EnabledIds(checks))
  {
    ConnectionConverges(l, f, checks, deletes, k6);
    SessionAgrees(l, probe, news, k6);
    forall id ensures id in Session(l, probe, news, k6).fleet <==> WantedLast(probe, AllChanges(news), id, id in EnabledIds(checks)) {
      SessionFollowsLastChange(l, probe, news, k6, id);
    }
  }

  // ---- An update that arrives as the first batch ----
  // A probe without checks connects, and the server sends nothing. The first
  // update then reaches the agent as its first batch, which ignores deletes.

  function WantedEver(probe: int, changes: seq<Change>): set<Id> {
    set i | 0 <= i < |changes| && Wants(probe, changes[i]) :: changes[i].check.id
  }

  lemma WantedEverLast(probe: int, changes: seq<Change>)
    requires changes != []
    ensures var n := |changes| - 1;
      WantedEver(probe, changes) ==
        WantedEver(probe, changes[..n]) + (if Wants(probe, changes[n]) then {changes[n].check.id} else {})
  {
    var n := |changes| - 1;
    forall id | id in WantedEver(probe, changes[..n]) ensures id in WantedEver(probe, changes) {
      var i :| 0 <= i < n && Wants(probe, changes[i]) && changes[i].check.id == id;
    }
    if Wants(probe, changes[n]) { assert changes[n].check.id in WantedEver(probe, changes); }
  }

  lemma OneFirstChange(g: Fleet, now: set<Id>, probe: int, ch: Change, k6: bool)
    requires now <= g.Keys && (Wants(probe, ch) ==> Runnable(ch.check, k6))
    ensures var (r, id) := (FilterUpdate(probe, ch, now), ch.check.id);
      && (r.Some? && r.value.op.ADD? ==> Wants(probe, ch) && r.value.check == ch.check)
      && (Wants(probe, ch) && id !in now ==> r.Some? && r.value.op.ADD?)
      && (if r.None? then now else Believed(now, r.value)) == (if Wants(probe, ch) then now + {id} else now - {id})
  {
  }

  lemma {:induction false} FirstUpdateAdds(probe: int, changes: seq<Change>, k6: bool)
    requires AllRunnable(probe, changes, k6)
    ensures var (sent, now) := Update(probe, changes, {});
      var (g, seen) := Added(map[], sent, k6);
      && g.Keys == seen == WantedEver(probe, changes)
      && now <= seen
      && forall id :: id in now <==> WantedLast(probe, changes, id, false)
  {
    hide InitialAdd, Key, FilterUpdate, Believed;
    if changes == [] {
      assert WantedEver(probe, changes) == {};
    } else {
      var n := |changes| - 1;
      var ch := changes[n];
      FirstUpdateAdds(probe, changes[..n], k6);
      WantedEverLast(probe, changes);
      var (sent, now) := Update(probe, changes[..n], {});
      var (g, seen) := Added(map[], sent, k6);
      OneFirstChange(g, now, probe, ch, k6);
      var r := FilterUpdate(probe, ch, now);
      if r.Some? {
        AddedLast(map[], sent, r.value, k6);
        if r.value.op.ADD? { InitialAddRunnable(g, ch.check, k6); }
      }
    }
  }

  /** Such an update leaves the two ends in agreement exactly when every check it
      ever wants run is still wanted by the last change that names it. */
  lemma FirstUpdateAgreesIff(probe: int, news: News, k6: bool)
    requires AllRunnable(probe, news.changes, k6)
    ensures var l := Delivered(Link(map[], true, {}), probe, news, k6);
      l.fleet.Keys == l.existing <==>
        forall id :: id in WantedEver(probe, news.changes) ==> WantedLast(probe, news.changes, id, false)
  {
    FirstUpdateAdds(probe, news.changes, k6);
    var (sent, now) := Update(probe, news.changes, {});
    if sent == [] && !news.tenants {
      assert Added(map[], sent, k6).0 == map[];
    }
  }

  predicate Diverges(probe: int, news: News, k6: bool) {
    var l := Delivered(Link(map[], true, {}), probe, news, k6); l.fleet.Keys != l.existing
  }

  /** It does happen: a check added and deleted in one update keeps running. */
  lemma FirstUpdateCanDiverge(probe: int)
    ensures exists news: News, k6: bool :: AllRunnable(probe, news.changes, k6) && Diverges(probe, news, k6)
  {
    var c := Check(1, true, [probe], 1.0, Other(0), true);
    var news := News([Change(ADD, c), Change(DELETE, Stub(1))], false);
    assert AllRunnable(probe, news.changes, true);
    FirstUpdateAgreesIff(probe, news, true);
    assert news.changes[0].check.id == 1 && Wants(probe, news.changes[0]);
    assert 1 in WantedEver(probe, news.changes);
    assert !WantedLast(probe, news.changes, 1, false);
  }

  // ---- Versions after such an update ----

  /** Whether the API believes a check runs, and the version that does: only an ADD
      reaches the agent, and an UPDATE for a check it runs is dropped. */
  function FirstRunsAfter(probe: int, ch: Change, id: Id, b: (bool, Option<Check>)): (bool, Option<Check>) {
    if ch.check.id != id then b
    else if !Wants(probe, ch) then (false, b.1)
    else if b.0 && !ch.op.ADD? then b
    else (true, if b.1.Some? && b.1.value.Version() == ch.check.Version() then b.1 else Some(ch.check))
  }

  function FirstRuns(probe: int, changes: seq<Change>, id: Id): (r: (bool, Option<Check>))
    ensures r.0 ==> r.1.Some?
  {
    if changes == [] then (false, None)
    else FirstRunsAfter(probe, changes[|changes| - 1], id, FirstRuns(probe, changes[..|changes| - 1], id))
  }

  lemma OneFirstRuns(g: Fleet, now: set<Id>, probe: int, ch: Change, k6: bool, id: Id)
    requires now <= g.Keys && (Wants(probe, ch) ==> Runnable(ch.check, k6))
    ensures var r := FilterUpdate(probe, ch, now);
      var h := if r.Some? && r.value.op.ADD? then InitialAdd(g, r.value.check, k6, Env(true, true)).0 else g;
      var now' := if r.None? then now else Believed(now, r.value);
      (id in now', Lookup(h, id)) == FirstRunsAfter(probe, ch, id, (id in now, Lookup(g, id)))
  {
    hide Ids.GlobalID, Ids.GetLocalAndRegionIDs, Check.Version;
    KeyIsId(ch.check.id);
  }

  lemma {:induction false} FirstUpdateSent(probe: int, changes: seq<Change>, k6: bool, id: Id)
    requires AllRunnable(probe, changes, k6)
    ensures var (sent, now) := Update(probe, changes, {});
      (id in now, Lookup(Added(map[], sent, k6).0, id)) == FirstRuns(probe, changes, id)
  {
    if changes != [] {
      hide InitialAdd, Key, FilterUpdate, Believed, FirstRunsAfter, Lookup, Wants, Added;
      var n := |changes| - 1;
      FirstUpdateSent(probe, changes[..n], k6, id);
      FirstUpdateAdds(probe, changes[..n], k6);
      var (sent, now) := Update(probe, changes[..n], {});
      var g := Added(map[], sent, k6).0;
      OneFirstRuns(g, now, probe, changes[n], k6, id);
      var r := FilterUpdate(probe, changes[n], now);
      if r.Some? { AddedLast(map[], sent, r.value, k6); }
    }
  }

  /** What the agent runs after an update it takes for its first batch. */
  lemma FirstUpdateRuns(probe: int, news: News, k6: bool, id: Id)
    requires AllRunnable(probe, news.changes, k6)
    ensures Lookup(Delivered(Link(map[], true, {}), probe, news, k6).fleet, id) == FirstRuns(probe, news.changes, id).1
  {
    FirstUpdateSent(probe, news.changes, k6, id);
    FirstUpdateAdds(probe, news.changes, k6);
    var sent := Update(probe, news.changes, {}).0;
    var (g, seen) := Added(map[], sent, k6);
    OnlyAll(g, {}, seen);
    assert {} + seen == seen;
    if sent == [] { assert g == map[]; }
  }

  predicate SameVersions(a: Option<Check>, b: Option<Check>) {
    a.Some? == b.Some? && (a.Some? ==> a.value.Version() == b.value.Version())
  }

  /** The last change that names the check was a delete for one that was added, or an
      UPDATE that was dropped. */
  predicate FirstLeftBehind(probe: int, changes: seq<Change>, id: Id) {
    changes != [] &&
    var (n, ch) := (|changes| - 1, changes[|changes| - 1]);
    if ch.check.id != id then FirstLeftBehind(probe, changes[..n], id)
    else
      var (believed, running) := FirstRuns(probe, changes[..n], id);
      if !Wants(probe, ch) then running.Some?
      else believed && !ch.op.ADD? && running.value.Version() != ch.check.Version()
  }

  /** Such an update leaves the latest version running exactly unless that happened. */
  lemma {:induction false} FirstLatestRunsIff(probe: int, changes: seq<Change>, id: Id)
    ensures SameVersions(FirstRuns(probe, changes, id).1, Latest(probe, changes, id, None)) <==> !FirstLeftBehind(probe, changes, id)
  {
    hide Check.Version;
    if changes != [] { FirstLatestRunsIff(probe, changes[..|changes| - 1], id); }
  }

  /** It does happen with both ends agreeing on the ids: added in version 1, updated to 2. */
  lemma FirstUpdateCanKeepOldVersion(probe: int)
    ensures var c := Check(1, true, [probe], 1.0, Other(0), true);
      var news := News([Change(ADD, c), Change(UPDATE, c.(modified := 2.0))], false);
      var l := Delivered(Link(map[], true, {}), probe, news, false);
      l.fleet.Keys == l.existing && Lookup(l.fleet, 1) == Some(c)
  {
    var c := Check(1, true, [probe], 1.0, Other(0), true);
    var changes := [Change(ADD, c), Change(UPDATE, c.(modified := 2.0))];
    var news := News(changes, false);
    assert AllRunnable(probe, changes, false);
    assert changes[..1] == [changes[0]] && changes[..1][..0] == [];
    assert FirstRuns(probe, changes[..1], 1) == (true, Some(c));
    FirstUpdateRuns(probe, news, false, 1);
    hide Delivered, FirstRuns;
    FirstUpdateAgreesIff(probe, news, false);
    forall id | id in WantedEver(probe, changes) ensures WantedLast(probe, changes, id, false) {
    }
  }
}
