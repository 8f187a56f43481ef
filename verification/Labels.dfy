/** internal/scraper/scraper.go: the labels of a check's log stream. Probe and check
    labels are merged, renamed by the tenant's label mode, merged into the system
    labels, and split into stream labels and structured metadata. */
module Labels {

  datatype Label = Label(name: string, value: string)

  /** Other stands for any mode value the agent does not know. */
  datatype Mode = Prefixed | DualWrite | Unprefixed | Other

  // ---- Merging ----

  /** The last position holding a name, or -1. */
  function LastIndex(labels: seq<Label>, name: string): (k: int)
    ensures -1 <= k < |labels|
    ensures k >= 0 ==> labels[k].name == name
    ensures forall i :: k < i < |labels| ==> labels[i].name != name
  {
    if labels == [] then -1
    else if labels[|labels| - 1].name == name then |labels| - 1
    else LastIndex(labels[..|labels| - 1], name)
  }

  predicate Has(labels: seq<Label>, name: string) { LastIndex(labels, name) >= 0 }

  /** The value a name ends up with when later labels override earlier ones. */
  function Value(labels: seq<Label>, name: string): string
    requires Has(labels, name)
  {
    labels[LastIndex(labels, name)].value
  }

  predicate Distinct(labels: seq<Label>) {
    forall i, j :: 0 <= i < j < |labels| ==> labels[i].name != labels[j].name
  }

  function Upsert(labels: seq<Label>, l: Label): (r: seq<Label>) {
    var k := LastIndex(labels, l.name);
    if k >= 0 then labels[k := l] else labels + [l]
  }

  function UpsertAll(base: seq<Label>, more: seq<Label>): (r: seq<Label>) {
    if more == [] then base
    else Upsert(UpsertAll(base, more[..|more| - 1]), more[|more| - 1])
  }

  lemma LastIndexIs(labels: seq<Label>, name: string, k: int)
    requires -1 <= k < |labels|
    requires k >= 0 ==> labels[k].name == name
    requires forall i :: k < i < |labels| ==> labels[i].name != name
    ensures LastIndex(labels, name) == k
  {
    hide LastIndex;
  }

  /** One upsert sets one name and leaves the others alone. */
  lemma UpsertAt(labels: seq<Label>, l: Label, name: string)
    ensures LastIndex(Upsert(labels, l), name) ==
            if name == l.name && !Has(labels, name) then |labels| else LastIndex(labels, name)
    ensures Has(Upsert(labels, l), name) <==> name == l.name || Has(labels, name)
    ensures Has(Upsert(labels, l), name) ==>
      Value(Upsert(labels, l), name) == if name == l.name then l.value else Value(labels, name)
  {
    var r := Upsert(labels, l);
    var k := if name == l.name && !Has(labels, name) then |labels| else LastIndex(labels, name);
    forall i | k < i < |r| ensures r[i].name != name {
      if i < |labels| { assert r[i].name == labels[i].name; }
    }
    LastIndexIs(r, name, k);
  }

  /** The last value of a list with one label more. */
  lemma ConcatHas(a: seq<Label>, l: Label, name: string)
    ensures LastIndex(a + [l], name) == if name == l.name then |a| else LastIndex(a, name)
    ensures Has(a + [l], name) <==> name == l.name || Has(a, name)
    ensures Has(a + [l], name) ==> Value(a + [l], name) == if name == l.name then l.value else Value(a, name)
  {
    assert (a + [l])[..|a|] == a;
  }

  /** The merge has every name of both lists, with the last value given to it. */
  lemma {:induction false} LastValueWins(base: seq<Label>, more: seq<Label>, name: string)
    ensures Has(UpsertAll(base, more), name) <==> Has(base + more, name)
    ensures Has(base + more, name) ==> Value(UpsertAll(base, more), name) == Value(base + more, name)
  {
    hide Upsert, LastIndex, Has, Value;
    if more == [] {
      assert base + more == base;
    } else {
      var (rest, l) := (more[..|more| - 1], more[|more| - 1]);
      LastValueWins(base, rest, name);
      UpsertAt(UpsertAll(base, rest), l, name);
      assert base + more == (base + rest) + [l];
      ConcatHas(base + rest, l, name);
    }
  }

  /** The base keeps its places, and distinct names stay distinct. */
  lemma {:induction false} BaseKeepsPlaces(base: seq<Label>, more: seq<Label>)
    ensures var r := UpsertAll(base, more);
      && |base| <= |r| <= |base| + |more|
      && (forall i :: 0 <= i < |base| ==> r[i].name == base[i].name)
      && (Distinct(base) ==> Distinct(r))
  {
    if more != [] {
      BaseKeepsPlaces(base, more[..|more| - 1]);
    }
  }

  /** The first position holding a name, or the length. */
  function FirstIndex(labels: seq<Label>, name: string): (k: nat)
    ensures k <= |labels|
    ensures k < |labels| ==> labels[k].name == name
    ensures forall i :: 0 <= i < k ==> labels[i].name != name
  {
    if labels == [] then 0
    else if labels[0].name == name then 0
    else 1 + FirstIndex(labels[1..], name)
  }

  lemma FirstIndexIs(labels: seq<Label>, name: string, k: nat)
    requires k <= |labels|
    requires k < |labels| ==> labels[k].name == name
    requires forall i :: 0 <= i < k ==> labels[i].name != name
    ensures FirstIndex(labels, name) == k
  {
    hide FirstIndex;
  }

  /** From `from` on, labels are in the order in which `more` first names them. */
  predicate InFirstOrder(labels: seq<Label>, from: nat, more: seq<Label>) {
    && |labels| >= from
    && (forall i :: from <= i < |labels| ==> FirstIndex(more, labels[i].name) < |more|)
    && (forall i, j :: from <= i < j < |labels| ==> FirstIndex(more, labels[i].name) < FirstIndex(more, labels[j].name))
  }

  /** New names follow the base in the order in which they first appear. */
  lemma {:induction false} NewNamesInOrder(base: seq<Label>, more: seq<Label>)
    ensures InFirstOrder(UpsertAll(base, more), |base|, more)
  {
    if more == [] {
    } else {
      var (rest, l) := (more[..|more| - 1], more[|more| - 1]);
      assert more == rest + [l];
      hide InFirstOrder, Upsert;
      NewNamesInOrder(base, rest);
      NewNamesStep(base, rest, l);
    }
  }

  lemma NewNamesStep(base: seq<Label>, rest: seq<Label>, l: Label)
    requires InFirstOrder(UpsertAll(base, rest), |base|, rest)
    ensures InFirstOrder(Upsert(UpsertAll(base, rest), l), |base|, rest + [l])
  {
    hide UpsertAll, FirstIndex, LastIndex, InFirstOrder;
    var (m, more) := (UpsertAll(base, rest), rest + [l]);
    OrderExtends(m, |base|, rest, l);
    if Has(m, l.name) {
      OrderByName(m, Upsert(m, l), |base|, more);
    } else {
      FirstNamedLast(base, rest, l);
      OrderAppends(m, |base|, more, l);
    }
  }

  lemma OrderAppends(labels: seq<Label>, from: nat, more: seq<Label>, l: Label)
    requires more != [] && InFirstOrder(labels, from, more) && FirstIndex(more, l.name) == |more| - 1
    requires forall i :: from <= i < |labels| ==> FirstIndex(more, labels[i].name) < |more| - 1
    ensures InFirstOrder(labels + [l], from, more)
  {
    hide FirstIndex;
  }

  lemma OrderExtends(labels: seq<Label>, from: nat, rest: seq<Label>, l: Label)
    requires InFirstOrder(labels, from, rest)
    ensures InFirstOrder(labels, from, rest + [l])
    ensures forall i :: from <= i < |labels| ==> FirstIndex(rest + [l], labels[i].name) < |rest|
  {
    hide FirstIndex;
    forall i | from <= i < |labels| ensures FirstIndex(rest + [l], labels[i].name) == FirstIndex(rest, labels[i].name) {
      FirstIndexIs(rest + [l], labels[i].name, FirstIndex(rest, labels[i].name));
    }
  }

  lemma OrderByName(a: seq<Label>, b: seq<Label>, from: nat, more: seq<Label>)
    requires |a| == |b| && InFirstOrder(a, from, more)
    requires forall i :: 0 <= i < |a| ==> a[i].name == b[i].name
    ensures InFirstOrder(b, from, more)
  {
    hide FirstIndex;
  }

  lemma FirstNamedLast(base: seq<Label>, rest: seq<Label>, l: Label)
    requires !Has(UpsertAll(base, rest), l.name)
    ensures FirstIndex(rest + [l], l.name) == |rest|
  {
    hide UpsertAll, FirstIndex, LastIndex;
    LastValueWins(base, rest, l.name);
    forall i | 0 <= i < |rest| ensures (rest + [l])[i].name != l.name {
      assert (base + rest)[|base| + i] == rest[i];
    }
    FirstIndexIs(rest + [l], l.name, |rest|);
  }

  ghost predicate Indexes(idx: map<string, int>, labels: seq<Label>) {
    forall name :: name in idx <==> Has(labels, name)
  }

  ghost predicate Points(idx: map<string, int>, labels: seq<Label>) {
    forall name :: name in idx ==> idx[name] == LastIndex(labels, name)
  }

  lemma Appended(idx: map<string, int>, labels: seq<Label>, l: Label)
    requires Indexes(idx, labels) && Points(idx, labels)
    ensures var idx' := idx[l.name := |labels|]; Indexes(idx', labels + [l]) && Points(idx', labels + [l])
  {
    forall name ensures LastIndex(labels + [l], name) == if name == l.name then |labels| else LastIndex(labels, name) {
      ConcatHas(labels, l, name);
    }
  }

  lemma Overwritten(idx: map<string, int>, labels: seq<Label>, l: Label)
    requires Indexes(idx, labels) && Points(idx, labels) && Has(labels, l.name)
    ensures Indexes(idx, Upsert(labels, l)) && Points(idx, Upsert(labels, l))
  {
    forall name ensures LastIndex(Upsert(labels, l), name) == LastIndex(labels, name) {
      UpsertAt(labels, l, name);
    }
  }

  /** mergeUserLabels and mergeLogLabels: an index by name, values overwritten in place. */
  method MergeLabels(base: seq<Label>, more: seq<Label>) returns (labels: seq<Label>)
    ensures labels == UpsertAll(base, more)
  {
    hide Upsert, LastIndex, Indexes, Points;
    var idx: map<string, int>;
    labels, idx := IndexLabels(base);
    for i := 0 to |more|
      invariant labels == UpsertAll(base, more[..i])
      invariant Indexes(idx, labels) && Points(idx, labels)
    {
      var l := more[i];
      assert more[..i + 1][..i] == more[..i];
      UpsertCases(idx, labels, l);
      if l.name in idx {
        Overwritten(idx, labels, l);
        labels := labels[idx[l.name] := labels[idx[l.name]].(value := l.value)];
      } else {
        Appended(idx, labels, l);
        idx := idx[l.name := |labels|];
        labels := labels + [l];
      }
    }
    assert more[..|more|] == more;
  }

  lemma UpsertCases(idx: map<string, int>, labels: seq<Label>, l: Label)
    requires Indexes(idx, labels) && Points(idx, labels)
    ensures l.name !in idx ==> Upsert(labels, l) == labels + [l]
    ensures l.name in idx ==>
      && Has(labels, l.name) && 0 <= idx[l.name] < |labels|
      && Upsert(labels, l) == labels[idx[l.name] := labels[idx[l.name]].(value := l.value)]
  {
  }

  method IndexLabels(base: seq<Label>) returns (labels: seq<Label>, idx: map<string, int>)
    ensures labels == base && Indexes(idx, base) && Points(idx, base)
  {
    hide LastIndex;
    labels, idx := [], map[];
    for i := 0 to |base|
      invariant labels == base[..i] && Indexes(idx, labels) && Points(idx, labels)
    {
      Appended(idx, labels, base[i]);
      idx := idx[base[i].name := |labels|];
      labels := labels + [base[i]];
    }
  }

  // ---- User labels by mode ----

  /** The names reserved by the agent, in order. */
  const RESERVED_C_TO_L: seq<string> := [
    "check", "check_name", "cipher", "config_version", "execution_id", "fingerprint_sha256", "frequency", "geohash",
    "instance", "issuer", "job", "le"]

  const RESERVED_M_TO_V: seq<string> := [
    "method", "name", "phase", "probe", "probe_success", "proto", "rating", "result", "scenario", "serialnumber",
    "sm_region", "source", "status", "subject", "subjectalternative", "tls_version", "url", "version"]

  predicate IsSystemLabel(name: string) { name in RESERVED_C_TO_L || name in RESERVED_M_TO_V }

  const PREFIX := "label_"

  function WithPrefix(labels: seq<Label>): (r: seq<Label>)
    ensures |r| == |labels|
    ensures forall i :: 0 <= i < |labels| ==> r[i] == Label(PREFIX + labels[i].name, labels[i].value)
  {
    seq(|labels|, i requires 0 <= i < |labels| => Label(PREFIX + labels[i].name, labels[i].value))
  }

  function Unreserved(labels: seq<Label>): (r: seq<Label>)
    ensures forall i :: 0 <= i < |r| ==> !IsSystemLabel(r[i].name)
  {
    if labels == [] then []
    else
      var (rest, l) := (Unreserved(labels[..|labels| - 1]), labels[|labels| - 1]);
      if IsSystemLabel(l.name) then rest else rest + [l]
  }

  function UserLabels(probe: seq<Label>, check: seq<Label>, mode: Mode): seq<Label> {
    var user := UpsertAll(probe, check);
    match mode
    case DualWrite => WithPrefix(user) + Unreserved(user)
    case Unprefixed => Unreserved(user)
    case Prefixed => WithPrefix(user)
    case Other => WithPrefix(user)
  }

  /** buildUserLabels. */
  method BuildUserLabels(probe: seq<Label>, check: seq<Label>, mode: Mode) returns (labels: seq<Label>)
    ensures labels == UserLabels(probe, check, mode)
  {
    var user := MergeLabels(probe, check);
    if mode.Unprefixed? {
      labels := AppendUnreserved([], user);
      assert [] + Unreserved(user) == Unreserved(user);
    } else {
      labels := PrefixAll(user);
      if mode.DualWrite? { labels := AppendUnreserved(labels, user); }
    }
  }

  method AppendUnreserved(front: seq<Label>, user: seq<Label>) returns (labels: seq<Label>)
    ensures labels == front + Unreserved(user)
  {
    labels := front;
    for i := 0 to |user|
      invariant labels == front + Unreserved(user[..i])
    {
      assert user[..i + 1][..i] == user[..i];
      if IsSystemLabel(user[i].name) { continue; }
      labels := labels + [user[i]];
    }
    assert user[..|user|] == user;
  }

  method PrefixAll(user: seq<Label>) returns (labels: seq<Label>)
    ensures labels == WithPrefix(user)
  {
    labels := user;
    for i := 0 to |labels|
      invariant |labels| == |user|
      invariant forall j :: 0 <= j < |user| ==> labels[j] == if j < i then WithPrefix(user)[j] else user[j]
    {
      labels := labels[i := labels[i].(name := PREFIX + labels[i].name)];
    }
  }

  lemma {:induction false} UnreservedHas(labels: seq<Label>, name: string)
    requires !IsSystemLabel(name)
    ensures Has(Unreserved(labels), name) <==> Has(labels, name)
    ensures Has(labels, name) ==> Value(Unreserved(labels), name) == Value(labels, name)
  {
    if labels != [] {
      var (rest, l) := (labels[..|labels| - 1], labels[|labels| - 1]);
      UnreservedHas(rest, name);
      assert labels == rest + [l];
      ConcatHas(rest, l, name);
      if !IsSystemLabel(l.name) { ConcatHas(Unreserved(rest), l, name); }
    }
  }

  lemma PrefixHas(labels: seq<Label>, name: string)
    ensures Has(WithPrefix(labels), PREFIX + name) <==> Has(labels, name)
    ensures Has(labels, name) ==> Value(WithPrefix(labels), PREFIX + name) == Value(labels, name)
  {
    var (p, k) := (WithPrefix(labels), LastIndex(labels, name));
    forall i | 0 <= i < |p| ensures p[i].name == PREFIX + name <==> labels[i].name == name {
      assert (PREFIX + labels[i].name)[|PREFIX|..] == labels[i].name;
      assert (PREFIX + name)[|PREFIX|..] == name;
    }
    LastIndexIs(p, PREFIX + name, k);
  }

  // ---- Log labels ----

  datatype Probe = Probe(name: string, region: string)

  datatype Check = Check(target: string, job: string, checkName: string)

  /** The six labels the agent sets, among them regionLabelForMode. */
  function SystemLogLabels(probe: Probe, check: Check, mode: Mode): seq<Label> {
    var region :=
      if mode.Prefixed? then Label("region", probe.region)
      else Label("sm_region", if probe.region == "" then "unset" else probe.region);
    [Label("probe", probe.name), region, Label("instance", check.target), Label("job", check.job),
     Label("check_name", check.checkName), Label("source", "synthetic-monitoring-agent")]
  }

  function LogLabels(probe: Probe, check: Check, probeLabels: seq<Label>, checkLabels: seq<Label>, mode: Mode): seq<Label> {
    UpsertAll(SystemLogLabels(probe, check, mode), UserLabels(probeLabels, checkLabels, mode))
  }

  /** A name no user label can have: reserved, or region while it is still a system label. */
  predicate Guarded(name: string, mode: Mode) {
    IsSystemLabel(name) || (name == "region" && mode.Prefixed?)
  }

  lemma NoReservedPrefix(name: string, user: string)
    requires IsSystemLabel(name) || name == "region"
    ensures PREFIX + user != name
  {
    assert (PREFIX + user)[0] == 'l' && (PREFIX + user)[1] == 'a';
    assert forall i :: 0 <= i < |RESERVED_C_TO_L| ==> RESERVED_C_TO_L[i][1] != 'a';
    assert forall i :: 0 <= i < |RESERVED_M_TO_V| ==> RESERVED_M_TO_V[i][0] != 'l';
  }

  lemma UserLabelsUnguarded(probeLabels: seq<Label>, checkLabels: seq<Label>, mode: Mode, name: string)
    requires Guarded(name, mode)
    ensures !Has(UserLabels(probeLabels, checkLabels, mode), name)
  {
    var (user, r) := (UpsertAll(probeLabels, checkLabels), UserLabels(probeLabels, checkLabels, mode));
    forall i | 0 <= i < |r| ensures r[i].name != name {
      if !mode.Unprefixed? && i < |user| { NoReservedPrefix(name, user[i].name); }
    }
  }

  lemma SystemNamesGuarded(probe: Probe, check: Check, mode: Mode)
    ensures var s := SystemLogLabels(probe, check, mode);
      && |s| == 6 && Distinct(s)
      && forall i :: 0 <= i < |s| ==> Guarded(s[i].name, mode) && s[i].name != "probe_success" && s[i].name != "execution_id"
  {
    assert RESERVED_C_TO_L[8] == "instance" && RESERVED_C_TO_L[10] == "job" && RESERVED_C_TO_L[1] == "check_name";
    assert RESERVED_M_TO_V[3] == "probe" && RESERVED_M_TO_V[10] == "sm_region" && RESERVED_M_TO_V[11] == "source";
  }

  /** No user label displaces a system log label, and all names are distinct. */
  lemma SystemLabelsKept(probe: Probe, check: Check, probeLabels: seq<Label>, checkLabels: seq<Label>, mode: Mode)
    ensures var (s, r) := (SystemLogLabels(probe, check, mode), LogLabels(probe, check, probeLabels, checkLabels, mode));
      s <= r && Distinct(r)
  {
    hide UserLabels, SystemLogLabels, LastIndex, Guarded;
    var (s, user) := (SystemLogLabels(probe, check, mode), UserLabels(probeLabels, checkLabels, mode));
    SystemNamesGuarded(probe, check, mode);
    BaseKeepsPlaces(s, user);
    var r := UpsertAll(s, user);
    forall i | 0 <= i < |s| ensures r[i] == s[i] {
      UserLabelsUnguarded(probeLabels, checkLabels, mode, s[i].name);
      UntouchedValue(s, user, i);
    }
  }

  /** Whatever labels the user has, a migrated tenant's log labels name the region
      as sm_region and never leave it empty; others keep region as it is. */
  lemma RegionShown(probe: Probe, check: Check, probeLabels: seq<Label>, checkLabels: seq<Label>, mode: Mode)
    ensures var (r, name) := (LogLabels(probe, check, probeLabels, checkLabels, mode), if mode.Prefixed? then "region" else "sm_region");
      && Has(r, name)
      && (mode.Prefixed? ==> Value(r, name) == probe.region)
      && (!mode.Prefixed? ==> Value(r, name) == if probe.region == "" then "unset" else probe.region)
  {
    hide LogLabels, LastIndex;
    var (r, s) := (LogLabels(probe, check, probeLabels, checkLabels, mode), SystemLogLabels(probe, check, mode));
    SystemLabelsKept(probe, check, probeLabels, checkLabels, mode);
    assert r[1] == s[1];
    LastIndexIs(r, s[1].name, 1);
  }

  /** Each system label shows what it is named for, whatever labels the user has. */
  lemma SystemValues(probe: Probe, check: Check, probeLabels: seq<Label>, checkLabels: seq<Label>, mode: Mode)
    ensures var r := LogLabels(probe, check, probeLabels, checkLabels, mode);
      && Has(r, "probe") && Value(r, "probe") == probe.name
      && Has(r, "instance") && Value(r, "instance") == check.target
      && Has(r, "job") && Value(r, "job") == check.job
      && Has(r, "check_name") && Value(r, "check_name") == check.checkName
      && Has(r, "source") && Value(r, "source") == "synthetic-monitoring-agent"
  {
    hide LogLabels, LastIndex;
    var (r, s) := (LogLabels(probe, check, probeLabels, checkLabels, mode), SystemLogLabels(probe, check, mode));
    SystemLabelsKept(probe, check, probeLabels, checkLabels, mode);
    assert r[0] == s[0] && r[2] == s[2] && r[3] == s[3] && r[4] == s[4] && r[5] == s[5];
    LastIndexIs(r, "probe", 0);
    LastIndexIs(r, "instance", 2);
    LastIndexIs(r, "job", 3);
    LastIndexIs(r, "check_name", 4);
    LastIndexIs(r, "source", 5);
  }

  /** The name is the prefixed form of one of the user's labels. */
  predicate PrefixedForm(both: seq<Label>, name: string) {
    exists i :: 0 <= i < |both| && name == PREFIX + both[i].name
  }

  /** In DUAL_WRITE mode all prefixed forms come before all un-prefixed ones, so that
      these spill over first. */
  lemma PrefixedFormsFirst(probe: Probe, check: Check, probeLabels: seq<Label>, checkLabels: seq<Label>, i: nat, j: nat)
    requires var r := LogLabels(probe, check, probeLabels, checkLabels, DualWrite);
      6 <= i < |r| && 6 <= j < |r| && PrefixedForm(probeLabels + checkLabels, r[i].name) && !PrefixedForm(probeLabels + checkLabels, r[j].name)
    ensures i < j
  {
    hide LastIndex, FirstIndex, PrefixedForm, UpsertAll, SystemLogLabels;
    var (both, user) := (probeLabels + checkLabels, UpsertAll(probeLabels, checkLabels));
    var (s, r) := (SystemLogLabels(probe, check, DualWrite), LogLabels(probe, check, probeLabels, checkLabels, DualWrite));
    SystemNamesGuarded(probe, check, DualWrite);
    NewNamesInOrder(s, UserLabels(probeLabels, checkLabels, DualWrite));
    PrefixedFirstIndex(probeLabels, checkLabels, r[i].name);
    PrefixedFirstIndex(probeLabels, checkLabels, r[j].name);
  }

  lemma PrefixedFirstIndex(probeLabels: seq<Label>, checkLabels: seq<Label>, name: string)
    ensures var (user, more) := (UpsertAll(probeLabels, checkLabels), UserLabels(probeLabels, checkLabels, DualWrite));
      PrefixedForm(probeLabels + checkLabels, name) <==> FirstIndex(more, name) < |user|
  {
    hide LastIndex, UpsertAll, FirstIndex;
    var (both, user) := (probeLabels + checkLabels, UpsertAll(probeLabels, checkLabels));
    var (p, more) := (WithPrefix(user), UserLabels(probeLabels, checkLabels, DualWrite));
    var k := FirstIndex(more, name);
    if i :| 0 <= i < |both| && name == PREFIX + both[i].name {
      LastValueWins(probeLabels, checkLabels, both[i].name);
      var at := LastIndex(user, both[i].name);
      assert more[at] == p[at] && p[at].name == name;
    }
    if k < |user| {
      assert more[k] == p[k] && name == PREFIX + user[k].name;
      LastValueWins(probeLabels, checkLabels, user[k].name);
      var at := LastIndex(both, user[k].name);
      assert both[at].name == user[k].name;
    }
  }

  lemma UntouchedValue(base: seq<Label>, more: seq<Label>, i: nat)
    requires i < |base| && Distinct(base) && !Has(more, base[i].name)
    ensures |UpsertAll(base, more)| >= |base| && UpsertAll(base, more)[i] == base[i]
  {
    var (r, name) := (UpsertAll(base, more), base[i].name);
    BaseKeepsPlaces(base, more);
    LastValueWins(base, more, name);
    LastIndexIs(base + more, name, i);
    LastIndexIs(r, name, i);
  }

  /** A user label has the check's value, or else the probe's, under the name its
      mode gives it: its own in the migrated modes, unless reserved, and the
      prefixed one otherwise. */
  lemma UserValue(probe: Probe, check: Check, probeLabels: seq<Label>, checkLabels: seq<Label>, mode: Mode, name: string)
    requires Has(probeLabels + checkLabels, name)
    requires mode.Unprefixed? || mode.DualWrite? ==> !IsSystemLabel(name)
    ensures var r := LogLabels(probe, check, probeLabels, checkLabels, mode);
      var shown := if mode.Unprefixed? || mode.DualWrite? then name else PREFIX + name;
      Has(r, shown) && Value(r, shown) == Value(if Has(checkLabels, name) then checkLabels else probeLabels, name)
  {
    hide LastIndex, Has, Value, SystemLogLabels, WithPrefix, Unreserved, UpsertAll, IsSystemLabel;
    var (user, s) := (UpsertAll(probeLabels, checkLabels), SystemLogLabels(probe, check, mode));
    var shown := if mode.Unprefixed? || mode.DualWrite? then name else PREFIX + name;
    var labels := UserLabels(probeLabels, checkLabels, mode);
    LastValueWins(probeLabels, checkLabels, name);
    ConcatValue(probeLabels, checkLabels, name);
    if mode.Unprefixed? || mode.DualWrite? {
      UnreservedHas(user, name);
      ConcatValue(WithPrefix(user), Unreserved(user), name);
    } else {
      PrefixHas(user, name);
    }
    LastValueWins(s, labels, shown);
    ConcatValue(s, labels, shown);
  }

  lemma ConcatValue(a: seq<Label>, b: seq<Label>, name: string)
    ensures Has(a + b, name) <==> Has(a, name) || Has(b, name)
    ensures Has(a + b, name) ==> Value(a + b, name) == if Has(b, name) then Value(b, name) else Value(a, name)
  {
    var k := if Has(b, name) then |a| + LastIndex(b, name) else LastIndex(a, name);
    LastIndexIs(a + b, name, k);
  }

  /** In DUAL_WRITE mode the prefixed form of a label keeps the label's value
      unless the user also has a label of that very name with another value. */
  lemma PrefixedFormKeptIff(probe: Probe, check: Check, probeLabels: seq<Label>, checkLabels: seq<Label>, name: string)
    requires Has(probeLabels + checkLabels, name)
    ensures var (both, r) := (probeLabels + checkLabels, LogLabels(probe, check, probeLabels, checkLabels, DualWrite));
      && Has(r, PREFIX + name)
      && (Value(r, PREFIX + name) == Value(both, name) <==>
          (Has(both, PREFIX + name) ==> Value(both, PREFIX + name) == Value(both, name)))
  {
    hide LastIndex, Has, Value, UpsertAll, WithPrefix, Unreserved, SystemLogLabels, IsSystemLabel;
    var (user, s, full) := (UpsertAll(probeLabels, checkLabels), SystemLogLabels(probe, check, DualWrite), PREFIX + name);
    LastValueWins(probeLabels, checkLabels, name);
    LastValueWins(probeLabels, checkLabels, full);
    PrefixHas(user, name);
    if IsSystemLabel(full) { NoReservedPrefix(full, name); }
    UnreservedHas(user, full);
    ConcatValue(WithPrefix(user), Unreserved(user), full);
    ConcatValue(s, WithPrefix(user) + Unreserved(user), full);
    LastValueWins(s, WithPrefix(user) + Unreserved(user), full);
  }

  /** With labels x and label_x, the value of x is shown under no prefixed name. */
  lemma PrefixedFormCanChange(probe: Probe, check: Check)
    ensures var labels := [Label("x", "1"), Label("label_x", "2")];
      var r := LogLabels(probe, check, labels, [], DualWrite);
      Has(labels, "x") && Value(labels, "x") == "1" && Has(r, "label_x") && Value(r, "label_x") != "1"
  {
    var labels := [Label("x", "1"), Label("label_x", "2")];
    LastIndexIs(labels, "x", 0);
    LastIndexIs(labels, "label_x", 1);
    assert labels + [] == labels && PREFIX + "x" == "label_x";
    hide LogLabels, LastIndex;
    PrefixedFormKeptIff(probe, check, labels, [], "x");
  }

  // ---- Stream labels and overflow ----

  function Stream(labels: seq<Label>, max: nat, success: string): seq<Label>
    requires max >= 1
  {
    (if |labels| > max - 1 then labels[..max - 1] else labels) + [Label("probe_success", success)]
  }

  function Overflow(labels: seq<Label>, max: nat, executionID: string): seq<Label>
    requires max >= 1
  {
    (if |labels| > max - 1 then labels[max - 1..] else []) + [Label("execution_id", executionID)]
  }

  /** For every input and mode: at most max stream labels; stream and overflow
      together are the merged labels, once and in order, with the two labels
      added; all names are distinct; and the system labels stay on the stream
      when there is room for them. */
  lemma SplitIsComplete(probe: Probe, check: Check, probeLabels: seq<Label>, checkLabels: seq<Label>, mode: Mode,
                        max: nat, success: string, executionID: string)
    requires max >= 1
    ensures var labels := LogLabels(probe, check, probeLabels, checkLabels, mode);
      var (stream, rest) := (Stream(labels, max, success), Overflow(labels, max, executionID));
      && 1 <= |stream| <= max && 1 <= |rest|
      && stream[..|stream| - 1] + rest[..|rest| - 1] == labels
      && Distinct(stream + rest)
      && (max >= 7 ==> SystemLogLabels(probe, check, mode) <= stream)
  {
    hide LogLabels, SystemLogLabels, Guarded, LastIndex;
    var (s, labels) := (SystemLogLabels(probe, check, mode), LogLabels(probe, check, probeLabels, checkLabels, mode));
    var (stream, rest) := (Stream(labels, max, success), Overflow(labels, max, executionID));
    SystemLabelsKept(probe, check, probeLabels, checkLabels, mode);
    SystemNamesGuarded(probe, check, mode);
    assert stream[..|stream| - 1] + rest[..|rest| - 1] == labels;
    AddedNamesAreNew(probe, check, probeLabels, checkLabels, mode);
    SplitDistinct(labels, stream, rest);
  }

  lemma AddedNamesAreNew(probe: Probe, check: Check, probeLabels: seq<Label>, checkLabels: seq<Label>, mode: Mode)
    ensures var r := LogLabels(probe, check, probeLabels, checkLabels, mode);
      !Has(r, "probe_success") && !Has(r, "execution_id")
  {
    hide UserLabels, SystemLogLabels, LastIndex;
    assert RESERVED_M_TO_V[4] == "probe_success" && RESERVED_C_TO_L[4] == "execution_id";
    var (s, user) := (SystemLogLabels(probe, check, mode), UserLabels(probeLabels, checkLabels, mode));
    SystemNamesGuarded(probe, check, mode);
    UserLabelsUnguarded(probeLabels, checkLabels, mode, "probe_success");
    UserLabelsUnguarded(probeLabels, checkLabels, mode, "execution_id");
    LastValueWins(s, user, "probe_success");
    LastValueWins(s, user, "execution_id");
    ConcatValue(s, user, "probe_success");
    ConcatValue(s, user, "execution_id");
  }

  lemma SplitDistinct(labels: seq<Label>, stream: seq<Label>, rest: seq<Label>)
    requires Distinct(labels) && !Has(labels, "probe_success") && !Has(labels, "execution_id")
    requires stream != [] && rest != [] && stream[..|stream| - 1] + rest[..|rest| - 1] == labels
    requires stream[|stream| - 1].name == "probe_success" && rest[|rest| - 1].name == "execution_id"
    ensures Distinct(stream + rest)
  {
    hide LastIndex;
    var (all, n) := (stream + rest, |stream| - 1);
    forall i | 0 <= i < |all| && i != n && i != |all| - 1
      ensures all[i] == labels[if i < n then i else i - 1]
    {
      assert i < n ==> (stream[..n] + rest[..|rest| - 1])[i] == stream[i];
      assert i > n ==> (stream[..n] + rest[..|rest| - 1])[i - 1] == rest[i - 1 - n];
    }
    forall i | 0 <= i < |labels| ensures labels[i].name != "probe_success" && labels[i].name != "execution_id" {
      assert !Has(labels, "probe_success");
    }
  }

  /** Go's append on a slice of length n: in place while the backing array has
      room, into a new array otherwise. */
  method Append(backing: array<Label>, n: nat, l: Label) returns (b: array<Label>)
    requires n <= backing.Length
    modifies backing
    ensures n < b.Length && b[..n + 1] == old(backing[..n]) + [l]
    ensures if n < backing.Length then b == backing && backing[..] == old(backing[..])[n := l]
            else fresh(b) && backing[..] == old(backing[..])
  {
    if n < backing.Length {
      backing[n] := l;
      b := backing;
    } else {
      b := new Label[2 * n + 1](_ => l);
      forall i | 0 <= i < n { b[i] := backing[i]; }
    }
  }

  /** The split in collectDataWith. The stream slice shares the merged labels'
      backing array, so appending probe_success overwrites the first overflow
      label; the overflow has been copied out by then. */
  method SplitLabels(backing: array<Label>, n: nat, max: nat, success: string, executionID: string)
    returns (stream: array<Label>, length: nat, overflow: seq<Label>)
    requires n <= backing.Length && max >= 1
    modifies backing
    ensures length <= stream.Length && stream[..length] == Stream(old(backing[..n]), max, success)
    ensures overflow == Overflow(old(backing[..n]), max, executionID)
    ensures forall i :: 0 <= i < backing.Length && i != length - 1 ==> backing[i] == old(backing[i])
  {
    overflow, length := [], n;
    if n > max - 1 {
      length := max - 1;
      for i := max - 1 to n
        invariant overflow == backing[max - 1..i]
      {
        overflow := overflow + [backing[i]];
      }
    }
    stream := Append(backing, length, Label("probe_success", success));
    overflow := overflow + [Label("execution_id", executionID)];
    length := length + 1;
  }

  /** The log labels of one collection, from the configured labels to the split. */
  method CollectLogLabels(probe: Probe, check: Check, probeLabels: seq<Label>, checkLabels: seq<Label>, mode: Mode,
                          max: nat, success: string, executionID: string)
    returns (stream: array<Label>, length: nat, overflow: seq<Label>)
    requires max >= 1
    ensures var labels := LogLabels(probe, check, probeLabels, checkLabels, mode);
      && length <= stream.Length && stream[..length] == Stream(labels, max, success)
      && overflow == Overflow(labels, max, executionID)
  {
    var user := BuildUserLabels(probeLabels, checkLabels, mode);
    var system := SystemLogLabels(probe, check, mode);
    var merged := MergeLabels(system, user);
    BaseKeepsPlaces(system, user);
    hide UpsertAll, UserLabels, SystemLogLabels, Stream, Overflow;
    var backing := new Label[|system| + |user|](_ => Label("", ""));
    forall i | 0 <= i < |merged| { backing[i] := merged[i]; }
    assert backing[..|merged|] == merged;
    stream, length, overflow := SplitLabels(backing, |merged|, max, success, executionID);
  }
}
