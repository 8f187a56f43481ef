/** internal/checks/checks.go: the agent's side. An Updater keeps one running
    scraper per check and applies the batches of changes the API sends. */
module Updater {
  import opened Checks
  import opened Common

  /** The checks an agent runs, by key. */
  type Fleet = map<Id, Check>

  /** What the environment decides for one change: whether FromSM succeeds and
      whether the scraper factory does. */
  datatype Env = Env(decodes: bool, starts: bool)

  // ---- What the handlers do, on the running checks ----

  /** Checks that need k6 are accepted and not run without the k6 feature. */
  predicate Filtered(c: Check, k6: bool) { (c.kind.Scripted? || c.kind.MultiHttp?) && !k6 }

  function Launched(f: Fleet, c: Check, k6: bool, e: Env): Fleet {
    if Filtered(c, k6) || !e.starts then f else f[Key(c.id) := c]
  }

  /** addAndStartScraperWithLock returns no error. */
  predicate LaunchOk(c: Check, k6: bool, e: Env) { Filtered(c, k6) || e.starts }

  function Relaunched(f: Fleet, c: Check, k6: bool, e: Env): Fleet {
    Launched(f - {Key(c.id)}, c, k6, e)
  }

  /** handleCheckAdd, handleCheckUpdate, handleCheckDelete. */
  function Handled(f: Fleet, ch: Change, k6: bool, e: Env): Fleet {
    var Change(op, c) := ch;
    if !e.decodes then f
    else
      match op
      case ADD => if !c.valid || Key(c.id) in f then f else Launched(f, c, k6, e)
      case UPDATE => if !c.valid then f else Relaunched(f, c, k6, e)
      case DELETE => f - {Key(c.id)}
  }

  function HandledAll(f: Fleet, changes: seq<Change>, k6: bool, env: seq<Env>): Fleet
    requires |env| == |changes|
  {
    if changes == [] then f
    else
      var n := |changes| - 1;
      Handled(HandledAll(f, changes[..n], k6, env[..n]), changes[n], k6, env[n])
  }

  /** handleInitialChangeAddWithLock, and whether it returns no error. */
  function InitialAdd(f: Fleet, c: Check, k6: bool, e: Env): (Fleet, bool) {
    if Key(c.id) in f then
      if f[Key(c.id)].Version() == c.Version() then (f, true)
      else (Relaunched(f, c, k6, e), LaunchOk(c, k6, e))
    else if !c.valid then (f, false)
    else (Launched(f, c, k6, e), LaunchOk(c, k6, e))
  }

  /** The first loop of handleFirstBatch: only adds count, and the keys of the
      checks that were accepted are remembered. */
  function FirstAdds(f: Fleet, changes: seq<Change>, k6: bool, env: seq<Env>): (Fleet, set<Id>)
    requires |env| == |changes|
  {
    if changes == [] then (f, {})
    else
      var n := |changes| - 1;
      var (g, seen) := FirstAdds(f, changes[..n], k6, env[..n]);
      if !changes[n].op.ADD? || !env[n].decodes then (g, seen)
      else
        var (h, ok) := InitialAdd(g, changes[n].check, k6, env[n]);
        (h, if ok then seen + {Key(changes[n].check.id)} else seen)
  }

  function Only(f: Fleet, ids: set<Id>): Fleet { map id | id in f && id in ids :: f[id] }

  lemma OnlyDrops(f: Fleet, seen: set<Id>, ids: set<Id>, id: Id)
    requires id in ids
    ensures Only(f, seen + (ids - {id})) == if id in seen then Only(f, seen + ids) else Only(f, seen + ids) - {id}
  {
  }

  lemma OnlyAll(f: Fleet, seen: set<Id>, ids: set<Id>)
    requires ids == f.Keys
    ensures Only(f, seen + ids) == f
  {
  }

  /** handleFirstBatch: what the batch did not name is stopped. */
  function FirstBatch(f: Fleet, changes: seq<Change>, k6: bool, env: seq<Env>): Fleet
    requires |env| == |changes|
  {
    var (g, seen) := FirstAdds(f, changes, k6, env);
    Only(g, seen)
  }

  // ---- What a change means to each check ----

  function Lookup(f: Fleet, id: Id): Option<Check> { if id in f then Some(f[id]) else None }

  /** The scraper for a check starts: the factory succeeds and k6 is there if needed. */
  predicate Starts(c: Check, k6: bool, e: Env) { e.starts && (k6 || (c.kind != Scripted && c.kind != MultiHttp)) }

  /** A change touches only the check it names. Undecodable and invalid changes do
      nothing; a delete stops the check; an update leaves the new version or, if that
      does not start, none; an add never replaces a running version. */
  lemma ChangeEffect(f: Fleet, ch: Change, k6: bool, e: Env, id: Id)
    ensures var (g, c) := (Handled(f, ch, k6, e), ch.check);
      && (id != c.id ==> Lookup(g, id) == Lookup(f, id))
      && (!e.decodes || (ch.op != DELETE && !c.valid) ==> g == f)
      && (e.decodes && ch.op == DELETE ==> Lookup(g, c.id) == None)
      && (e.decodes && c.valid && ch.op == UPDATE ==> Lookup(g, c.id) == if Starts(c, k6, e) then Some(c) else None)
      && (e.decodes && c.valid && ch.op == ADD ==>
            Lookup(g, c.id) == if c.id in f then Some(f[c.id]) else if Starts(c, k6, e) then Some(c) else None)
  {
    KeyIsId(ch.check.id);
    hide Key;
  }

  /** An add of a first batch keeps a check that runs in its version, replaces another
      version without validating the new one, and otherwise starts a valid check. It is
      an error exactly if the factory fails or a new check is invalid. */
  lemma InitialAddEffect(f: Fleet, c: Check, k6: bool, e: Env, id: Id)
    ensures var (g, ok) := InitialAdd(f, c, k6, e);
      && (id != c.id ==> Lookup(g, id) == Lookup(f, id))
      && (c.id in f && f[c.id].Version() == c.Version() ==> g == f && ok)
      && (c.id in f && f[c.id].Version() != c.Version() ==> Lookup(g, c.id) == if Starts(c, k6, e) then Some(c) else None)
      && (c.id !in f && !c.valid ==> g == f && !ok)
      && (c.id !in f && c.valid ==> Lookup(g, c.id) == if Starts(c, k6, e) then Some(c) else None)
      && (ok ==> c.id in g || ((c.kind == Scripted || c.kind == MultiHttp) && !k6))
  {
    KeyIsId(c.id);
    hide Key, Check.Version;
  }

  /** Without the k6 feature no check that needs it runs. */
  predicate Allowed(f: Fleet, k6: bool) {
    forall id :: id in f && (f[id].kind == Scripted || f[id].kind == MultiHttp) ==> k6
  }

  lemma {:induction false} AllowedKept(f: Fleet, changes: seq<Change>, k6: bool, env: seq<Env>, full: bool)
    requires |env| == |changes| && Allowed(f, k6)
    ensures Allowed(Processed(f, changes, k6, env, full), k6)
  {
    if full {
      FirstAddsAllowed(f, changes, k6, env);
    } else if changes != [] {
      var n := |changes| - 1;
      hide Key;
      AllowedKept(f, changes[..n], k6, env[..n], false);
    }
  }

  lemma {:induction false} FirstAddsAllowed(f: Fleet, changes: seq<Change>, k6: bool, env: seq<Env>)
    requires |env| == |changes| && Allowed(f, k6)
    ensures Allowed(FirstAdds(f, changes, k6, env).0, k6)
  {
    if changes != [] {
      hide Key, Check.Version;
      FirstAddsAllowed(f, changes[..|changes| - 1], k6, env[..|changes| - 1]);
    }
  }

  predicate AllValid(f: Fleet) { forall id :: id in f ==> f[id].valid }

  /** Changes one by one never start an invalid check. */
  lemma {:induction false} ValidKept(f: Fleet, changes: seq<Change>, k6: bool, env: seq<Env>)
    requires |env| == |changes| && AllValid(f)
    ensures AllValid(HandledAll(f, changes, k6, env))
  {
    if changes != [] {
      hide Key;
      ValidKept(f, changes[..|changes| - 1], k6, env[..|changes| - 1]);
    }
  }

  /** An add of a first batch does exactly when it replaces another version. */
  lemma InitialAddValidIff(f: Fleet, c: Check, k6: bool, e: Env)
    requires AllValid(f)
    ensures AllValid(InitialAdd(f, c, k6, e).0) <==>
      !(!c.valid && c.id in f && f[c.id].Version() != c.Version() && Starts(c, k6, e))
  {
    KeyIsId(c.id);
    hide Key, Check.Version;
    var g := InitialAdd(f, c, k6, e).0;
    if c.id in f && f[c.id].Version() != c.Version() && Starts(c, k6, e) { assert c.id in g && g[c.id] == c; }
  }

  lemma FirstBatchCanRunInvalid()
    ensures var c := Check(1, true, [], 1.0, Other(0), true);
      var bad := c.(modified := 2.0, valid := false);
      InitialAdd(map[1 := c], bad, false, Env(true, true)) == (map[1 := bad], true)
  {
    KeyIsId(1);
    hide Key;
    var c := Check(1, true, [], 1.0, Other(0), true);
    var bad := c.(modified := 2.0, valid := false);
    assert c.Version() == 1000000000 && bad.Version() == 2000000000;
    assert (map[1 := c] - {1})[1 := bad] == map[1 := bad];
  }

  /** What a first batch does not add does not run. */
  lemma {:induction false} OnlyAddedRun(f: Fleet, changes: seq<Change>, k6: bool, env: seq<Env>, id: Id)
    requires |env| == |changes| && id in FirstBatch(f, changes, k6, env)
    ensures exists i :: 0 <= i < |changes| && AddsNamed(changes[i], env[i], id)
  {
    SeenAdded(f, changes, k6, env, id);
  }

  predicate AddsNamed(ch: Change, e: Env, id: Id) { ch.op == ADD && e.decodes && ch.check.id == id }

  lemma {:induction false} SeenAdded(f: Fleet, changes: seq<Change>, k6: bool, env: seq<Env>, id: Id)
    requires |env| == |changes| && id in FirstAdds(f, changes, k6, env).1
    ensures exists i :: 0 <= i < |changes| && AddsNamed(changes[i], env[i], id)
  {
    hide InitialAdd, Key;
    var n := |changes| - 1;
    KeyIsId(changes[n].check.id);
    if id in FirstAdds(f, changes[..n], k6, env[..n]).1 {
      SeenAdded(f, changes[..n], k6, env[..n], id);
      var i :| 0 <= i < n && AddsNamed(changes[..n][i], env[..n][i], id);
      assert AddsNamed(changes[i], env[i], id);
    } else {
      assert AddsNamed(changes[n], env[n], id);
    }
  }

  // ---- The updater itself ----

  /** A scraper owns a channel; Stop closes it, and closing it twice panics. */
  class Scraper {
    const check: Check
    var stopped: bool

    constructor (check: Check)
      ensures this.check == check && !stopped
    {
      this.check := check;
      stopped := false;
    }

    method Stop()
      requires !stopped
      modifies this
      ensures stopped
    {
      stopped := true;
    }
  }

  function OfType(f: Fleet, k: CheckType): set<Id> { set id | id in f && f[id].kind == k }

  lemma CountAdded(f: Fleet, id: Id, c: Check, k: CheckType)
    requires id !in f
    ensures |OfType(f[id := c], k)| == |OfType(f, k)| + if c.kind == k then 1 else 0
  {
    assert OfType(f[id := c], k) == OfType(f, k) + if c.kind == k then {id} else {};
  }

  lemma CountRemoved(f: Fleet, id: Id, k: CheckType)
    requires id in f
    ensures |OfType(f - {id}, k)| == |OfType(f, k)| - if f[id].kind == k then 1 else 0
  {
    assert OfType(f, k) == OfType(f - {id}, k) + if f[id].kind == k then {id} else {};
  }

  function Names(changes: seq<Change>): set<Id> { set ch | ch in changes :: ch.check.id }

  lemma NamesGrow(changes: seq<Change>, i: nat)
    requires i < |changes|
    ensures Names(changes[..i + 1]) == Names(changes[..i]) + {changes[i].check.id}
  {
    var (fewer, more) := (changes[..i], changes[..i + 1]);
    assert more == fewer + [changes[i]];
    assert changes[i] in more && forall ch :: ch in fewer ==> ch in more;
  }

  class Updater {
    const k6: bool
    var scrapers: map<Id, Scraper>
    var runningScrapers: map<CheckType, int>   // the gauge, by type
    ghost var started: set<Scraper>            // every scraper ever started

    function Gauge(k: CheckType): int reads this {
      if k in runningScrapers then runningScrapers[k] else 0
    }

    function Running(): Fleet reads this { map id | id in scrapers :: scrapers[id].check }

    /** Exactly the scrapers in the map are running: none leaked, none stopped
        twice; and the gauge counts them. */
    ghost predicate Valid()
      reads this, started
    {
      && (forall id :: id in scrapers ==> scrapers[id] in started && Key(scrapers[id].check.id) == id)
      && (forall s :: s in started ==> (!s.stopped <==> Key(s.check.id) in scrapers && scrapers[Key(s.check.id)] == s))
      && (forall k :: Gauge(k) == |OfType(Running(), k)|)
    }

    constructor (k6: bool)
      ensures Valid() && Running() == map[] && this.k6 == k6 && started == {}
    {
      this.k6 := k6;
      scrapers, runningScrapers, started := map[], map[], {};
    }

    /** The scrapers of other checks are the same objects, running on. */
    ghost predicate SameElsewhere(was: map<Id, Scraper>, id: Id) reads this {
      forall x :: x != id ==> (x in scrapers <==> x in was) && (x in was ==> scrapers[x] == was[x])
    }

    /** A check that no change names keeps its scraper, or stays without one. */
    ghost predicate SameUnlessNamed(was: map<Id, Scraper>, changes: seq<Change>) reads this {
      forall x :: x !in Names(changes) ==> (x in scrapers <==> x in was) && (x in was ==> scrapers[x] == was[x])
    }

    method StopAndForget(id: Id)
      requires Valid() && id in scrapers
      modifies this, started
      ensures Valid() && started == old(started)
      ensures Running() == old(Running()) - {id}
      ensures scrapers == old(scrapers) - {id}
    {
      hide Key, OfType;
      var scraper := scrapers[id];
      scraper.Stop();
      ghost var was := Running();
      scrapers := scrapers - {id};
      var k := scraper.check.kind;
      runningScrapers := runningScrapers[k := Gauge(k) - 1];
      assert Running() == was - {id};
      forall t ensures Gauge(t) == |OfType(Running(), t)| {
        CountRemoved(was, id, t);
      }
    }

    method AddAndStart(check: Check, e: Env) returns (ok: bool)
      requires Valid() && Key(check.id) !in scrapers
      modifies this
      ensures Valid() && fresh(started - old(started)) && old(started) <= started
      ensures Running() == Launched(old(Running()), check, k6, e)
      ensures ok == LaunchOk(check, k6, e)
      ensures SameElsewhere(old(scrapers), Key(check.id))
    {
      hide Key, OfType;
      if Filtered(check, k6) {
        return true;
      }
      if !e.starts {
        return false;
      }
      ghost var was := Running();
      var id, k := Key(check.id), check.kind;
      var scraper := new Scraper(check);
      scrapers := scrapers[id := scraper];
      started := started + {scraper};
      runningScrapers := runningScrapers[k := Gauge(k) + 1];
      assert Running() == was[id := check];
      forall t ensures Gauge(t) == |OfType(Running(), t)| {
        CountAdded(was, id, check, t);
      }
      return true;
    }

    method UpdateWithLock(check: Check, e: Env) returns (ok: bool)
      requires Valid()
      modifies this, started
      ensures Valid() && fresh(started - old(started)) && old(started) <= started
      ensures Running() == Relaunched(old(Running()), check, k6, e)
      ensures ok == LaunchOk(check, k6, e)
      ensures SameElsewhere(old(scrapers), check.id)
    {
      KeyIsId(check.id);
      if Key(check.id) in scrapers {
        StopAndForget(Key(check.id));
      } else {
        assert Running() - {Key(check.id)} == Running();
      }
      ok := AddAndStart(check, e);
    }

    /** One change of a batch, as handleChangeBatch applies it. */
    method HandleChange(ch: Change, e: Env)
      requires Valid()
      modifies this, started
      ensures Valid() && fresh(started - old(started)) && old(started) <= started
      ensures Running() == Handled(old(Running()), ch, k6, e)
      ensures SameElsewhere(old(scrapers), ch.check.id)
      ensures ch.op == ADD && ch.check.id in old(scrapers) ==> scrapers == old(scrapers)
    {
      KeyIsId(ch.check.id);
      if !e.decodes {
        return;
      }
      var check := ch.check;
      match ch.op {
        case ADD =>
          if check.valid && Key(check.id) !in scrapers {
            var _ := AddAndStart(check, e);
          }
        case UPDATE =>
          if check.valid {
            var _ := UpdateWithLock(check, e);
          }
        case DELETE =>
          if Key(check.id) in scrapers {
            StopAndForget(Key(check.id));
          } else {
            assert Running() - {Key(check.id)} == Running();
          }
      }
    }

    method InitialAddWithLock(check: Check, e: Env) returns (ok: bool)
      requires Valid()
      modifies this, started
      ensures Valid() && fresh(started - old(started)) && old(started) <= started
      ensures (Running(), ok) == InitialAdd(old(Running()), check, k6, e)
      ensures SameElsewhere(old(scrapers), check.id)
      ensures check.id in old(scrapers) && old(Running())[check.id].Version() == check.Version() ==> scrapers == old(scrapers)
    {
      KeyIsId(check.id);
      if Key(check.id) in scrapers {
        if scrapers[Key(check.id)].check.Version() == check.Version() {
          return true;
        }
        ok := UpdateWithLock(check, e);
        return;
      }
      if !check.valid {
        return false;
      }
      ok := AddAndStart(check, e);
    }

    method HandleFirstBatch(changes: seq<Change>, env: seq<Env>)
      requires Valid() && |env| == |changes|
      modifies this, started
      ensures Valid() && fresh(started - old(started)) && old(started) <= started
      ensures Running() == FirstBatch(old(Running()), changes, k6, env)
    {
      hide Key, InitialAdd;
      ghost var f := Running();
      var seen: set<Id> := {};
      for i := 0 to |changes|
        invariant Valid() && fresh(started - old(started)) && old(started) <= started
        invariant (Running(), seen) == FirstAdds(f, changes[..i], k6, env[..i])
      {
        assert changes[..i + 1][..i] == changes[..i] && env[..i + 1][..i] == env[..i];
        if changes[i].op.ADD? && env[i].decodes {
          var ok := InitialAddWithLock(changes[i].check, env[i]);
          if ok {
            seen := seen + {Key(changes[i].check.id)};
          }
        }
      }
      assert changes[..|changes|] == changes && env[..|env|] == env;
      StopUnseen(seen);
    }

    /** The second loop of handleFirstBatch, in any order. */
    method StopUnseen(seen: set<Id>)
      requires Valid()
      modifies this, started
      ensures Valid() && started == old(started)
      ensures Running() == Only(old(Running()), seen)
    {
      hide Key, OfType, Only;
      ghost var g := Running();
      var ids := scrapers.Keys;
      OnlyAll(g, seen, ids);
      while ids != {}
        invariant Valid() && started == old(started)
        invariant ids <= Running().Keys
        invariant Running() == Only(g, seen + ids)
        decreases ids
      {
        var id :| id in ids;
        OnlyDrops(g, seen, ids, id);
        if id !in seen { StopAndForget(id); }
        ids := ids - {id};
      }
      assert seen + ids == seen;
    }

    method HandleChangeBatch(changes: seq<Change>, env: seq<Env>, firstBatch: bool, delta: bool)
      requires Valid() && |env| == |changes|
      modifies this, started
      ensures Valid() && fresh(started - old(started)) && old(started) <= started
      ensures Running() == Processed(old(Running()), changes, k6, env, firstBatch && !delta)
      ensures !firstBatch || delta ==> SameUnlessNamed(old(scrapers), changes)
    {
      if firstBatch && !delta {
        HandleFirstBatch(changes, env);
        return;
      }
      hide Handled, Names;
      ghost var f := Running();
      for i := 0 to |changes|
        invariant Valid() && fresh(started - old(started)) && old(started) <= started
        invariant Running() == HandledAll(f, changes[..i], k6, env[..i])
        invariant SameUnlessNamed(old(scrapers), changes[..i])
      {
        assert changes[..i + 1][..i] == changes[..i] && env[..i + 1][..i] == env[..i];
        NamesGrow(changes, i);
        HandleChange(changes[i], env[i]);
      }
      assert changes[..|changes|] == changes && env[..|env|] == env;
    }
  }

  /** handleChangeBatch: `full` is a first batch that is not a delta. */
  function Processed(f: Fleet, changes: seq<Change>, k6: bool, env: seq<Env>, full: bool): Fleet
    requires |env| == |changes|
  {
    if full then FirstBatch(f, changes, k6, env) else HandledAll(f, changes, k6, env)
  }
}
