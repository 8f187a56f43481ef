/** cmd/test-api/internal/grpc/checks.go: the API's side. For each connected
    probe it keeps the ids of the checks it believes run there. */
module ChecksServer {
  import opened Checks
  import opened Common

  /** filterUpdate: what a change means to this probe, if anything. */
  function FilterUpdate(probe: int, ch: Change, existing: set<Id>): Option<Change> {
    var Change(op, c) := ch;
    if probe in c.probes then
      if c.id in existing then
        if c.enabled then Some(ch) else Some(Change(DELETE, Stub(c.id)))
      else if !c.enabled || op.DELETE? then None
      else Some(Change(ADD, c))
    else if c.id !in existing then None
    else if op.DELETE? then Some(ch)
    else Some(Change(DELETE, Stub(c.id)))
  }

  /** The change leaves the check running on this probe. */
  predicate Wants(probe: int, ch: Change) { !ch.op.DELETE? && ch.check.enabled && probe in ch.check.probes }

  /** The whole table of filterUpdate: something is sent exactly if the check runs
      there or is to; it is a delete exactly if it is not to, carries the change's
      check otherwise, and is an ADD exactly if it is new to the probe or was one. */
  lemma FilterUpdateIff(probe: int, ch: Change, existing: set<Id>)
    ensures var r := FilterUpdate(probe, ch, existing);
      && (r.Some? <==> ch.check.id in existing || Wants(probe, ch))
      && (r.Some? ==>
            && r.value.check.id == ch.check.id
            && (r.value.op == DELETE <==> !Wants(probe, ch))
            && (Wants(probe, ch) ==> r.value.check == ch.check && (r.value.op == ADD <==> ch.check.id !in existing || ch.op == ADD)))
  {
  }

  /** The ids believed to run after a change was sent. */
  function Believed(existing: set<Id>, sent: Change): set<Id> {
    match sent.op
    case ADD => existing + {sent.check.id}
    case UPDATE => existing
    case DELETE => existing - {sent.check.id}
  }

  /** processUpdate: the changes to send and the ids afterwards. */
  function Update(probe: int, changes: seq<Change>, existing: set<Id>): (seq<Change>, set<Id>) {
    if changes == [] then ([], existing)
    else
      var (sent, now) := Update(probe, changes[..|changes| - 1], existing);
      match FilterUpdate(probe, changes[|changes| - 1], now)
      case None => (sent, now)
      case Some(ch) => (sent + [ch], Believed(now, ch))
  }

  class Session {
    const probe: int
    var existingChecks: set<Id>

    constructor (probe: int, existing: set<Id>)
      ensures this.probe == probe && existingChecks == existing
    {
      this.probe, existingChecks := probe, existing;
    }

    method ProcessUpdate(changes: seq<Change>) returns (checks: seq<Change>)
      modifies this
      ensures (checks, existingChecks) == Update(probe, changes, old(existingChecks))
    {
      checks := [];
      for i := 0 to |changes|
        invariant (checks, existingChecks) == Update(probe, changes[..i], old(existingChecks))
      {
        assert changes[..i + 1][..i] == changes[..i];
        var newChange := FilterUpdate(probe, changes[i], existingChecks);
        if newChange.None? {
          continue;
        }
        checks := checks + [newChange.value];
        match newChange.value.op {
          case ADD => existingChecks := existingChecks + {newChange.value.check.id};
          case UPDATE =>
          case DELETE => existingChecks := existingChecks - {newChange.value.check.id};
        }
      }
      assert changes[..|changes|] == changes;
    }
  }

  /** The probe's table of checks has no id twice. */
  predicate Distinct(checks: seq<Check>) {
    forall i, j :: 0 <= i < j < |checks| ==> checks[i].id != checks[j].id
  }

  function EnabledIds(checks: seq<Check>): set<Id> {
    set i | 0 <= i < |checks| && checks[i].enabled :: checks[i].id
  }

  lemma EnabledGrow(checks: seq<Check>, i: nat)
    requires i < |checks|
    ensures EnabledIds(checks[..i + 1]) == EnabledIds(checks[..i]) + if checks[i].enabled then {checks[i].id} else {}
  {
    var (fewer, more) := (checks[..i], checks[..i + 1]);
    forall id | id in EnabledIds(fewer) ensures id in EnabledIds(more) {
      var j :| 0 <= j < |fewer| && fewer[j].enabled && fewer[j].id == id;
      assert more[j] == fewer[j];
    }
    forall id | id in EnabledIds(more) ensures id in EnabledIds(fewer) || (checks[i].enabled && id == checks[i].id) {
      var j :| 0 <= j < |more| && more[j].enabled && more[j].id == id;
      if j < i { assert fewer[j] == more[j]; }
    }
    if checks[i].enabled { assert more[i].id in EnabledIds(more); }
  }

  /** The changes that bring a probe up to date with its table: what it lacks is
      added, what it runs in another version is updated. */
  function Missing(known: map<Id, real>, checks: seq<Check>): seq<Change> {
    if checks == [] then []
    else
      var before, c := Missing(known, checks[..|checks| - 1]), checks[|checks| - 1];
      if !c.enabled || (c.id in known && known[c.id] == c.modified) then before
      else before + [Change(if c.id in known then UPDATE else ADD, c)]
  }

  function Named(changes: seq<Change>): set<Id> { set i | 0 <= i < |changes| :: changes[i].check.id }

  lemma DeleteOneMore(changes: seq<Change>, ids: set<Id>, id: Id)
    requires DeletesExactly(changes, ids) && id !in ids
    ensures DeletesExactly(changes + [Change(DELETE, Stub(id))], ids + {id})
  {
    var more := changes + [Change(DELETE, Stub(id))];
    assert Named(more) == Named(changes) + {id} by {
      assert more[|changes|].check.id == id;
      forall x | x in Named(changes) ensures x in Named(more) {
        var i :| 0 <= i < |changes| && changes[i].check.id == x;
        assert more[i].check.id == x;
      }
    }
    assert forall i :: 0 <= i < |changes| ==> changes[i].check.id in Named(changes);
  }

  /** Deletes for exactly the given ids, each once, in any order. */
  predicate DeletesExactly(changes: seq<Change>, ids: set<Id>) {
    && (forall i :: 0 <= i < |changes| ==> changes[i] == Change(DELETE, Stub(changes[i].check.id)))
    && Named(changes) == ids
    && (forall i, j :: 0 <= i < j < |changes| ==> changes[i].check.id != changes[j].check.id)
  }

  // ---- What the initial message owes a probe, from its report and the table alone ----

  /** An enabled check the probe lacks is to be added, one it has with another
      modification time updated, and one it has as it is left out. */
  predicate OwedFor(known: map<Id, real>, c: Check, ch: Change) {
    && c.enabled && ch.check == c && (c.id in known ==> known[c.id] != c.modified)
    && ch.op == if c.id in known then UPDATE else ADD
  }

  predicate OwedDelete(known: map<Id, real>, checks: seq<Check>, ch: Change) {
    ch == Change(DELETE, Stub(ch.check.id)) && ch.check.id in known && ch.check.id !in EnabledIds(checks)
  }

  predicate Owed(known: map<Id, real>, checks: seq<Check>, ch: Change) {
    OwedDelete(known, checks, ch) || exists i :: 0 <= i < |checks| && OwedFor(known, checks[i], ch)
  }

  predicate NamesOnce(changes: seq<Change>) {
    forall i, j :: 0 <= i < j < |changes| ==> changes[i].check.id != changes[j].check.id
  }

  lemma {:induction false} MissingIff(known: map<Id, real>, checks: seq<Check>, ch: Change)
    ensures ch in Missing(known, checks) <==> exists i :: 0 <= i < |checks| && OwedFor(known, checks[i], ch)
  {
    if checks != [] {
      var n := |checks| - 1;
      MissingIff(known, checks[..n], ch);
      if i :| 0 <= i < n && OwedFor(known, checks[..n][i], ch) { assert OwedFor(known, checks[i], ch); }
      if i :| 0 <= i < n && OwedFor(known, checks[i], ch) { assert OwedFor(known, checks[..n][i], ch); }
    }
  }

  lemma {:induction false} MissingOnce(known: map<Id, real>, checks: seq<Check>)
    requires Distinct(checks)
    ensures NamesOnce(Missing(known, checks))
    ensures forall i :: 0 <= i < |Missing(known, checks)| ==> Missing(known, checks)[i].check in checks
  {
    if checks != [] {
      var n := |checks| - 1;
      MissingOnce(known, checks[..n]);
      var before := Missing(known, checks[..n]);
      forall i | 0 <= i < |before| ensures before[i].check.id != checks[n].id && before[i].check in checks {
        var j :| 0 <= j < n && checks[..n][j] == before[i].check;
        assert checks[j] == before[i].check;
      }
    }
  }

  /** The whole message: exactly what is owed, and each id once. */
  lemma MessageIsOwed(known: map<Id, real>, checks: seq<Check>, deletes: seq<Change>)
    requires DeletesExactly(deletes, known.Keys - EnabledIds(checks))
    ensures forall ch :: ch in Missing(known, checks) + deletes <==> Owed(known, checks, ch)
    ensures Distinct(checks) ==> NamesOnce(Missing(known, checks) + deletes)
  {
    var missing := Missing(known, checks);
    hide Missing;
    forall ch ensures ch in missing + deletes <==> Owed(known, checks, ch) {
      MissingIff(known, checks, ch);
      DeletesIff(deletes, known.Keys - EnabledIds(checks), ch);
    }
    if Distinct(checks) {
      MissingOnce(known, checks);
      forall i, j | 0 <= i < |missing| && 0 <= j < |deletes| ensures missing[i].check.id != deletes[j].check.id {
        assert missing[i] in missing;
        MissingIff(known, checks, missing[i]);
        assert deletes[j].check.id in Named(deletes);
      }
    }
  }

  lemma DeletesIff(deletes: seq<Change>, ids: set<Id>, ch: Change)
    requires DeletesExactly(deletes, ids)
    ensures ch in deletes <==> ch == Change(DELETE, Stub(ch.check.id)) && ch.check.id in ids
  {
    if ch in deletes {
      var i :| 0 <= i < |deletes| && deletes[i] == ch;
      assert deletes[i].check.id in Named(deletes);
    }
    if ch == Change(DELETE, Stub(ch.check.id)) && ch.check.id in ids {
      assert ch.check.id in Named(deletes);
      var i :| 0 <= i < |deletes| && deletes[i].check.id == ch.check.id;
      assert deletes[i] == ch;
    }
  }

  /** sendInitialChanges: the message, if one is sent, and the ids believed to
      run. Map iteration makes the order of the deletes arbitrary. */
  method InitialChanges(known: map<Id, real>, checks: seq<Check>)
    returns (message: Option<seq<Change>>, ghost deletes: seq<Change>, m: set<Id>)
    ensures m == EnabledIds(checks)
    ensures message.None? <==> checks == [] && known == map[]
    ensures message.Some? ==> message.value == Missing(known, checks) + deletes
    ensures DeletesExactly(deletes, known.Keys - m)
    ensures message.Some? ==> forall ch :: ch in message.value <==> Owed(known, checks, ch)
    ensures message.Some? && Distinct(checks) ==> NamesOnce(message.value)
  {
    hide Owed, NamesOnce;
    m, deletes := {}, [];
    if checks == [] && known == map[] {
      return None, [], m;
    }
    var changes := [];
    for i := 0 to |checks|
      invariant m == EnabledIds(checks[..i])
      invariant changes == Missing(known, checks[..i])
    {
      assert checks[..i + 1][..i] == checks[..i];
      var c := checks[i];
      EnabledGrow(checks, i);
      if !c.enabled { continue; }
      m := m + {c.id};
      if c.id in known && known[c.id] == c.modified {
        continue;
      }
      changes := changes + [Change(if c.id in known then UPDATE else ADD, c)];
    }
    assert checks[..|checks|] == checks;
    var ids := known.Keys;
    while ids != {}
      invariant ids <= known.Keys
      invariant changes == Missing(known, checks) + deletes
      invariant DeletesExactly(deletes, known.Keys - ids - m)
      decreases ids
    {
      var id :| id in ids;
      if id !in m {
        DeleteOneMore(deletes, known.Keys - ids - m, id);
        assert known.Keys - ids - m + {id} == known.Keys - (ids - {id}) - m;
        changes := changes + [Change(DELETE, Stub(id))];
        deletes := deletes + [Change(DELETE, Stub(id))];
      }
      assert id in m ==> known.Keys - ids - m == known.Keys - (ids - {id}) - m;
      ids := ids - {id};
    }
    assert known.Keys - {} - m == known.Keys - m;
    MessageIsOwed(known, checks, deletes);
    return Some(changes), deletes, m;
  }
}
