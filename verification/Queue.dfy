/** internal/pusher/v2/queue.go: one tenant's queue of encoded records, bounded
    in bytes and in age, with a one-slot wake-up signal (condition.go). */
module Queue {

  /** A queued record: its buffer, the buffer's length, and when it was inserted.
      Buffers are numbered in the order they were inserted. */
  datatype Entry = Entry(id: nat, size: nat, ts: int)

  /** maxQueuedBytes == 0 and maxQueuedTime <= 0 switch a limit off. */
  datatype Options = Options(maxPushBytes: nat, maxQueuedBytes: nat, maxQueuedTime: int, maxRetries: int)

  function Bytes(d: seq<Entry>): nat {
    if d == [] then 0 else d[0].size + Bytes(d[1..])
  }

  predicate Chronological(d: seq<Entry>) {
    forall i, j :: 0 <= i < j < |d| ==> d[i].ts <= d[j].ts
  }

  // ---- What the operations do, on values ----

  /** How many leading entries to drop so that the others fit in `max` bytes. */
  function OverBytes(d: seq<Entry>, max: nat): (k: nat)
    ensures k <= |d|
    ensures max > 0 ==> Bytes(d[k..]) <= max
  {
    if max == 0 || Bytes(d) <= max then assert d[0..] == d; 0
    else
      var k := OverBytes(d[1..], max);
      assert d[1..][k..] == d[1 + k..];
      1 + k
  }

  /** How many leading entries are older than `limit`. */
  function Expired(d: seq<Entry>, limit: int): (k: nat)
    ensures k <= |d|
    ensures forall i :: 0 <= i < k ==> d[i].ts < limit
    ensures k < |d| ==> d[k].ts >= limit
  {
    if d == [] || d[0].ts >= limit then 0 else 1 + Expired(d[1..], limit)
  }

  /** How many entries limitAge drops: the expired ones, unless all are. */
  function OverAge(d: seq<Entry>, now: int, maxAge: int): (k: nat)
    ensures k <= |d|
  {
    if maxAge <= 0 || Expired(d, now - maxAge) == |d| then 0 else Expired(d, now - maxAge)
  }

  /** How many entries applyLimits drops, all from the front. */
  function Excess(d: seq<Entry>, o: Options, now: int): (k: nat)
    ensures k <= |d|
  {
    var k := OverBytes(d, o.maxQueuedBytes);
    k + OverAge(d[k..], now, o.maxQueuedTime)
  }

  /** How many leading entries fit in `room` bytes. */
  function Fitting(d: seq<Entry>, room: int): (k: nat)
    ensures k <= |d|
  {
    if d == [] || d[0].size > room then 0 else 1 + Fitting(d[1..], room - d[0].size)
  }

  /** How many entries the next batch takes: the first one whatever its size,
      then as many as fit with it. */
  function BatchLength(d: seq<Entry>, o: Options): (k: nat)
    ensures k <= |d|
    ensures d != [] ==> k >= 1
  {
    if d == [] then 0 else 1 + Fitting(d[1..], o.maxPushBytes - d[0].size)
  }

  /** The queue as its methods leave it: the entries, whether the wake-up slot
      is full, and the buffers given back to the pool. */
  datatype State = State(data: seq<Entry>, signaled: bool, pool: seq<Entry>)

  function Limited(q: State, o: Options, now: int): State {
    var k := Excess(q.data, o, now);
    q.(data := q.data[k..], pool := q.pool + q.data[..k])
  }

  function Inserted(q: State, e: Entry, o: Options, now: int): State {
    Limited(q.(data := q.data + [e]), o, now).(signaled := true)
  }

  function Requeued(q: State, batch: seq<Entry>, o: Options, now: int): State {
    if batch == [] then q else Limited(q.(data := batch + q.data), o, now).(signaled := true)
  }

  function Taken(q: State, o: Options): State {
    var k := BatchLength(q.data, o);
    q.(data := q.data[k..], signaled := q.signaled || k < |q.data|)
  }

  // ---- What makes them right ----

  lemma {:induction false} BytesAppend(a: seq<Entry>, b: seq<Entry>)
    ensures Bytes(a + b) == Bytes(a) + Bytes(b)
  {
    if a == [] {
      assert a + b == b;
    } else {
      assert (a + b)[1..] == a[1..] + b;
      BytesAppend(a[1..], b);
    }
  }

  lemma BytesSuffix(d: seq<Entry>, k: nat)
    requires k <= |d|
    ensures Bytes(d) == Bytes(d[..k]) + Bytes(d[k..])
  {
    assert d == d[..k] + d[k..];
    BytesAppend(d[..k], d[k..]);
  }

  /** limitBytes drops as little as it can: keeping one more would exceed. */
  lemma {:induction false} OverBytesIsLeast(d: seq<Entry>, max: nat, k: nat)
    requires max > 0 && k < OverBytes(d, max)
    ensures Bytes(d[k..]) > max
  {
    if k == 0 {
      assert d[0..] == d;
    } else {
      assert d[1..][k - 1..] == d[k..];
      OverBytesIsLeast(d[1..], max, k - 1);
    }
  }

  /** On a chronological queue limitAge keeps exactly the entries that have not
      expired, unless every entry has: then it keeps them all. */
  lemma OverAgeSplitsAtLimit(d: seq<Entry>, now: int, maxAge: int)
    requires Chronological(d) && maxAge > 0
    ensures (forall i :: 0 <= i < |d| ==> d[i].ts < now - maxAge) ==> OverAge(d, now, maxAge) == 0
    ensures !(forall i :: 0 <= i < |d| ==> d[i].ts < now - maxAge) ==>
      forall i :: 0 <= i < |d| ==> (i < OverAge(d, now, maxAge) <==> d[i].ts < now - maxAge)
  {
    var k := Expired(d, now - maxAge);
    if k < |d| {
      forall i | k <= i < |d| ensures d[i].ts >= now - maxAge {
        if i > k { assert d[k].ts <= d[i].ts; }
      }
    }
  }

  /** What limitAge returns is called the number removed; it is the number kept. */
  function ReportedOverAge(d: seq<Entry>, now: int, maxAge: int): int {
    if maxAge <= 0 || Expired(d, now - maxAge) == 0 then 0 else |d| - Expired(d, now - maxAge)
  }

  /** The dropped-records counter is right for an age cut exactly when none, all
      or half of the entries have expired. */
  lemma ReportedDropsAreRightIff(d: seq<Entry>, now: int, maxAge: int)
    requires maxAge > 0
    ensures ReportedOverAge(d, now, maxAge) == OverAge(d, now, maxAge)
      <==> var k := Expired(d, now - maxAge); k == 0 || k == |d| || 2 * k == |d|
  {
  }

  lemma ReportedDropsCanBeWrong()
    ensures exists d, now, maxAge :: maxAge > 0 && ReportedOverAge(d, now, maxAge) != OverAge(d, now, maxAge)
  {
    var d := [Entry(0, 1, 0), Entry(1, 1, 10), Entry(2, 1, 10)];
    assert Expired(d, 5) == 1;
    assert ReportedOverAge(d, 6, 1) != OverAge(d, 6, 1);
  }

  lemma {:induction false} FittingFits(d: seq<Entry>, room: int)
    ensures room >= 0 ==> Bytes(d[..Fitting(d, room)]) <= room
    ensures var k := Fitting(d, room); k < |d| ==> Bytes(d[..k + 1]) > room
  {
    var k := Fitting(d, room);
    if d != [] && d[0].size <= room {
      FittingFits(d[1..], room - d[0].size);
      assert d[..k][1..] == d[1..][..k - 1];
      if k < |d| { assert d[..k + 1][1..] == d[1..][..k]; }
    } else if d != [] {
      assert d[..1][1..] == [];
    }
  }

  /** A batch of bounded size: within maxPushBytes, or a single record. */
  predicate Batchable(b: seq<Entry>, o: Options) {
    |b| <= 1 || Bytes(b) <= o.maxPushBytes
  }

  /** A batch is bounded, and greedy: one more entry would exceed the bound. */
  lemma BatchIsGreedy(d: seq<Entry>, o: Options)
    requires d != []
    ensures Batchable(d[..BatchLength(d, o)], o)
    ensures var k := BatchLength(d, o); k < |d| ==> !Batchable(d[..k + 1], o)
  {
    var k := BatchLength(d, o);
    FittingFits(d[1..], o.maxPushBytes - d[0].size);
    assert d[..k][1..] == d[1..][..k - 1];
    if k < |d| { assert d[..k + 1][1..] == d[1..][..k]; }
  }

  lemma TakesGreedily(d: seq<Entry>, o: Options)
    ensures var (take, rest) := (d[..BatchLength(d, o)], d[BatchLength(d, o)..]);
      d == take + rest && Batchable(take, o) && (rest != [] ==> !Batchable(take + [rest[0]], o))
  {
    hide Batchable, BatchLength;
    if d == [] {
      NothingBatched(o);
    } else {
      var k := BatchLength(d, o);
      BatchIsGreedy(d, o);
      if k < |d| { assert d[..k] + [d[k..][0]] == d[..k + 1]; }
    }
  }

  lemma NothingBatched(o: Options)
    ensures BatchLength([], o) == 0 && Batchable([], o)
  {
  }

  /** A batch's worth of entries at the front is taken whole. */
  lemma BatchTakesWhole(d: seq<Entry>, k: nat, o: Options)
    requires k <= |d| && Batchable(d[..k], o)
    ensures k <= BatchLength(d, o)
  {
    if d != [] && BatchLength(d, o) < k {
      var n := BatchLength(d, o);
      BatchIsGreedy(d, o);
      assert d[..n + 1] == d[..k][..n + 1];
      BytesSuffix(d[..k], n + 1);
      assert false;
    }
  }

  /** Dropping entries from the front of a batch leaves a batch. */
  lemma BatchableSuffix(b: seq<Entry>, k: nat, o: Options)
    requires k <= |b| && Batchable(b, o)
    ensures Batchable(b[k..], o)
  {
    BytesSuffix(b, k);
  }

  /** After limits are applied the byte bound holds. */
  lemma LimitedIsBounded(q: State, o: Options, now: int)
    requires o.maxQueuedBytes > 0
    ensures Bytes(Limited(q, o, now).data) <= o.maxQueuedBytes
  {
    hide OverBytes, OverAge, Bytes;
    var k := OverBytes(q.data, o.maxQueuedBytes);
    var j := OverAge(q.data[k..], now, o.maxQueuedTime);
    BytesSuffix(q.data[k..], j);
    assert q.data[k..][j..] == q.data[k + j..];
  }

  // ---- What the limits promise, from sizes and timestamps alone ----

  /** The record and all newer ones are within the byte limit. */
  predicate Fits(d: seq<Entry>, i: nat, o: Options)
    requires i <= |d|
  {
    o.maxQueuedBytes == 0 || Bytes(d[i..]) <= o.maxQueuedBytes
  }

  predicate TooOld(e: Entry, o: Options, now: int) { o.maxQueuedTime > 0 && e.ts < now - o.maxQueuedTime }

  predicate FitsAndFresh(d: seq<Entry>, j: nat, o: Options, now: int)
    requires j < |d|
  {
    Fits(d, j, o) && !TooOld(d[j], o, now)
  }

  /** A record must go: it does not fit, or it is too old while a fitting one is not. */
  predicate MustGo(d: seq<Entry>, i: nat, o: Options, now: int)
    requires i < |d|
  {
    !Fits(d, i, o) || (TooOld(d[i], o, now) && exists j :: 0 <= j < |d| && FitsAndFresh(d, j, o, now))
  }

  /** `d` was cut into what was dropped and what was kept, as the limits ask. */
  predicate CutAsLimited(d: seq<Entry>, dropped: seq<Entry>, kept: seq<Entry>, o: Options, now: int) {
    && d == dropped + kept
    && forall i :: 0 <= i < |d| ==> (i < |dropped| <==> MustGo(d, i, o, now))
  }

  lemma {:induction false} FitsIff(d: seq<Entry>, o: Options, i: nat)
    requires i <= |d|
    ensures Fits(d, i, o) <==> i >= OverBytes(d, o.maxQueuedBytes)
  {
    var k := OverBytes(d, o.maxQueuedBytes);
    if o.maxQueuedBytes > 0 {
      if i < k {
        OverBytesIsLeast(d, o.maxQueuedBytes, i);
      } else {
        BytesSuffix(d[k..], i - k);
        assert d[k..][i - k..] == d[i..];
      }
    }
  }

  /** A record is dropped exactly when the bytes from it on exceed the limit, or it
      has expired and some record that fits has not. */
  lemma LimitsDropExactly(d: seq<Entry>, o: Options, now: int)
    requires Chronological(d)
    ensures var k := Excess(d, o, now); CutAsLimited(d, d[..k], d[k..], o, now)
  {
    hide OverBytes, OverAge, Fits;
    var b := OverBytes(d, o.maxQueuedBytes);
    var rest := d[b..];
    forall i | 0 <= i <= |d| ensures Fits(d, i, o) <==> i >= b { FitsIff(d, o, i); }
    AgeCut(rest, o, now);
    var k := Excess(d, o, now);
    assert d == d[..k] + d[k..];
    forall i | 0 <= i < |d| ensures i < k <==> MustGo(d, i, o, now) {
      if i >= b {
        assert d[i] == rest[i - b];
        assert (exists j :: 0 <= j < |rest| && !TooOld(rest[j], o, now)) <==> exists j :: 0 <= j < |d| && FitsAndFresh(d, j, o, now) by {
          FreshInRest(d, b, o, now);
        }
      }
    }
  }

  lemma FreshInRest(d: seq<Entry>, b: nat, o: Options, now: int)
    requires b <= |d| && forall i :: 0 <= i <= |d| ==> (Fits(d, i, o) <==> i >= b)
    ensures (exists j :: 0 <= j < |d[b..]| && !TooOld(d[b..][j], o, now)) <==> exists j :: 0 <= j < |d| && FitsAndFresh(d, j, o, now)
  {
    hide Fits;
    if j :| 0 <= j < |d[b..]| && !TooOld(d[b..][j], o, now) { assert FitsAndFresh(d, b + j, o, now); }
    if j :| 0 <= j < |d| && FitsAndFresh(d, j, o, now) { assert d[b..][j - b] == d[j]; }
  }

  lemma AgeCut(d: seq<Entry>, o: Options, now: int)
    requires Chronological(d)
    ensures forall i :: 0 <= i < |d| ==>
      (i < OverAge(d, now, o.maxQueuedTime) <==> TooOld(d[i], o, now) && exists j :: 0 <= j < |d| && !TooOld(d[j], o, now))
  {
    if o.maxQueuedTime > 0 {
      OverAgeSplitsAtLimit(d, now, o.maxQueuedTime);
      hide OverAge;
      if forall j :: 0 <= j < |d| ==> TooOld(d[j], o, now) {
        assert forall j :: 0 <= j < |d| ==> d[j].ts < now - o.maxQueuedTime;
      } else {
        var j :| 0 <= j < |d| && !TooOld(d[j], o, now);
        assert !(d[j].ts < now - o.maxQueuedTime);
      }
    }
  }

  /** So nothing kept is too old, unless everything that fits is. */
  lemma KeptAreFresh(d: seq<Entry>, dropped: seq<Entry>, kept: seq<Entry>, o: Options, now: int)
    requires CutAsLimited(d, dropped, kept, o, now)
    ensures (forall e :: e in kept ==> !TooOld(e, o, now)) || (forall j :: 0 <= j < |d| && Fits(d, j, o) ==> TooOld(d[j], o, now))
    ensures o.maxQueuedBytes == 0 && o.maxQueuedTime <= 0 ==> kept == d
  {
    hide Fits;
    if e :| e in kept && TooOld(e, o, now) {
      var i :| 0 <= i < |kept| && kept[i] == e;
      assert d[|dropped| + i] == e;
      assert !MustGo(d, |dropped| + i, o, now);
      forall j | 0 <= j < |d| && Fits(d, j, o) ensures TooOld(d[j], o, now) {
        assert !FitsAndFresh(d, j, o, now);
      }
    }
    if o.maxQueuedBytes == 0 && o.maxQueuedTime <= 0 && dropped != [] {
      NothingMustGo(d, 0, o, now);
      assert false;
    }
  }

  lemma NothingMustGo(d: seq<Entry>, i: nat, o: Options, now: int)
    requires i < |d| && o.maxQueuedBytes == 0 && o.maxQueuedTime <= 0
    ensures !MustGo(d, i, o, now)
  {
  }

  // ---- The queue itself ----

  class Queue {
    const options: Options
    var data: seq<Entry>
    var pending: bool
    var pool: seq<Entry>

    constructor (options: Options)
      ensures this.options == options && Value() == State([], false, [])
    {
      this.options := options;
      data, pending, pool := [], false, [];
    }

    function Value(): State reads this { State(data, pending, pool) }

    /** A send on a channel with one slot, or nothing when the slot is full. */
    method Signal()
      modifies this`pending
      ensures pending
    {
      pending := true;
    }

    /** Scans from the newest entry until the bytes exceed the limit. */
    method LimitBytes(max: nat) returns (numRemoved: nat)
      modifies this`data, this`pool
      ensures numRemoved == OverBytes(old(data), max)
      ensures data == old(data)[numRemoved..] && pool == old(pool) + old(data)[..numRemoved]
    {
      if max == 0 {
        return 0;
      }
      var i, numBytes := |data|, 0;
      while i > 0
        invariant 0 <= i <= |data|
        invariant numBytes == Bytes(data[i..]) <= max
      {
        i := i - 1;
        assert data[i..][1..] == data[i + 1..];
        numBytes := numBytes + data[i].size;
        if numBytes > max {
          CutIsOverBytes(data, max, i + 1);
          pool, data := pool + data[..i + 1], data[i + 1..];
          return i + 1;
        }
      }
      assert data[0..] == data;
      return 0;
    }

    static lemma CutTwice(pool: seq<Entry>, d: seq<Entry>, k: nat, j: nat)
      requires k + j <= |d|
      ensures d[k..][j..] == d[k + j..]
      ensures pool + d[..k] + d[k..][..j] == pool + d[..k + j]
    {
      assert d[..k] + d[k..][..j] == d[..k + j];
    }

    static lemma {:induction false} CutIsOverBytes(d: seq<Entry>, max: nat, k: nat)
      requires max > 0 && 1 <= k <= |d|
      requires Bytes(d[k - 1..]) > max && Bytes(d[k..]) <= max
      ensures OverBytes(d, max) == k
    {
      BytesSuffix(d, k - 1);
      if k > 1 {
        assert d[1..][k - 2..] == d[k - 1..] && d[1..][k - 1..] == d[k..];
        CutIsOverBytes(d[1..], max, k - 1);
      }
    }

    static lemma {:induction false} CutIsExpired(d: seq<Entry>, limit: int, k: nat)
      requires k <= |d| && (forall i :: 0 <= i < k ==> d[i].ts < limit)
      requires k < |d| ==> d[k].ts >= limit
      ensures Expired(d, limit) == k
    {
      if k > 0 { CutIsExpired(d[1..], limit, k - 1); }
    }

    /** Binary search for the first entry that is not older than the limit. */
    method LimitAge(maxAge: int, now: int) returns (numRemoved: int)
      requires Chronological(data)
      modifies this`data, this`pool
      ensures var k := OverAge(old(data), now, maxAge);
        data == old(data)[k..] && pool == old(pool) + old(data)[..k]
      ensures numRemoved == ReportedOverAge(old(data), now, maxAge)
    {
      var n := |data|;
      if n == 0 || maxAge <= 0 {
        return 0;
      }
      var limit := now - maxAge;
      if data[0].ts >= limit {
        return 0;
      }
      var lo, hi := 0, n;
      while lo < hi
        invariant 0 <= lo <= hi <= n
        invariant forall i :: 0 <= i < lo ==> data[i].ts < limit
        invariant forall i :: hi <= i < n ==> data[i].ts >= limit
      {
        var mid := (lo + hi) / 2;
        if data[mid].ts < limit { lo := mid + 1; } else { hi := mid; }
      }
      CutIsExpired(data, limit, lo);
      if lo < n {
        pool, data := pool + data[..lo], data[lo..];
      }
      return n - lo;
    }

    method ApplyLimits(now: int) returns (numDropped: int)
      requires Chronological(data)
      modifies this`data, this`pool
      ensures Value() == Limited(old(Value()), options, now)
      ensures var k := OverBytes(old(data), options.maxQueuedBytes);
        numDropped == k + ReportedOverAge(old(data)[k..], now, options.maxQueuedTime)
      ensures old(pool) <= pool && CutAsLimited(old(data), pool[|old(pool)|..], data, options, now)
    {
      hide OverBytes, OverAge, ReportedOverAge, CutAsLimited;
      ghost var d := data;
      LimitsDropExactly(d, options, now);
      var byBytes := LimitBytes(options.maxQueuedBytes);
      CutTwice(old(pool), d, byBytes, OverAge(data, now, options.maxQueuedTime));
      var byAge := LimitAge(options.maxQueuedTime, now);
      return byBytes + byAge;
    }

    method Insert(id: nat, size: nat, ts: int, now: int)
      requires Chronological(data + [Entry(id, size, ts)])
      modifies this
      ensures Value() == Inserted(old(Value()), Entry(id, size, ts), options, now)
      ensures pending && old(pool) <= pool
      ensures CutAsLimited(old(data) + [Entry(id, size, ts)], pool[|old(pool)|..], data, options, now)
    {
      data := data + [Entry(id, size, ts)];
      var _ := ApplyLimits(now);
      Signal();
    }

    method Get() returns (take: seq<Entry>)
      modifies this`data, this`pending
      ensures take == old(data)[..BatchLength(old(data), options)]
      ensures Value() == Taken(old(Value()), options)
      ensures old(data) == take + data && (take == [] <==> old(data) == [])
      ensures Batchable(take, options) && (data != [] ==> !Batchable(take + [data[0]], options))
      ensures pending <==> old(pending) || data != []
    {
      hide Batchable, Bytes;
      TakesGreedily(data, options);
      var total := |data|;
      if total == 0 {
        return [];
      }
      var limit, numBytes := 1, data[0].size;
      while limit < total && numBytes + data[limit].size <= options.maxPushBytes
        invariant 1 <= limit <= total
        invariant BatchLength(data, options) == limit + Fitting(data[limit..], options.maxPushBytes - numBytes)
      {
        assert data[limit..][1..] == data[limit + 1..];
        numBytes := numBytes + data[limit].size;
        limit := limit + 1;
      }
      take := data[..limit];
      data := data[limit..];
      if limit < total {
        Signal();
      }
    }

    method Requeue(batch: seq<Entry>, now: int)
      requires Chronological(batch + data)
      modifies this
      ensures Value() == Requeued(old(Value()), batch, options, now)
      ensures batch != [] ==> pending && old(pool) <= pool
      ensures batch != [] ==> CutAsLimited(batch + old(data), pool[|old(pool)|..], data, options, now)
    {
      if batch == [] {
        return;
      }
      data := batch + data;
      var _ := ApplyLimits(now);
      Signal();
    }
  }
}
