/** Unsigned base-128 varints, as Go's encoding/binary reads and writes them:
    seven bits a byte, least significant group first, at most ten bytes for a
    64-bit value. */
module Varint {
  import opened Common

  const TWO_64: nat := 0x1_0000_0000_0000_0000
  const MAX_VARINT_LEN_64: nat := 10

  /** Outcome of reading a varint: the value and the bytes used, a buffer that
      ends too early (Go returns n == 0) or a value that needs more than 64
      bits (Go returns n < 0). */
  datatype Read = Value(value: nat, used: nat) | Truncated | Overflow

  function Put(v: nat): (r: seq<byte>)
    ensures |r| >= 1
  {
    if v < 128 then [v] else [v % 128 + 128] + Put(v / 128)
  }

  /** Reads the varint at the start of `buf`; `i` bytes of it were already read. */
  function Get(buf: seq<byte>, i: nat := 0): (r: Read)
    ensures r.Value? ==> 1 <= r.used <= |buf|
    decreases |buf|
  {
    if buf == [] then Truncated
    else if i >= MAX_VARINT_LEN_64 then Overflow
    else if buf[0] < 128 then
      if i == MAX_VARINT_LEN_64 - 1 && buf[0] > 1 then Overflow else Value(buf[0], 1)
    else
      match Get(buf[1..], i + 1)
      case Value(v, n) => Value(buf[0] - 128 + 128 * v, n + 1)
      case other => other
  }

  /** The values that still fit 64 bits after `i` bytes of a varint. */
  function Room(i: nat): (r: nat)
    requires i < MAX_VARINT_LEN_64
    decreases MAX_VARINT_LEN_64 - i
  {
    if i == MAX_VARINT_LEN_64 - 1 then 2 else 128 * Room(i + 1)
  }

  lemma RoomIs64Bits()
    ensures Room(0) == TWO_64
  {
    assert Room(8) == 256;
    assert Room(6) == 128 * 128 * Room(8);
    assert Room(4) == 128 * 128 * Room(6);
    assert Room(2) == 128 * 128 * Room(4);
    assert Room(0) == 128 * 128 * Room(2);
  }

  lemma {:induction false} GetAfterPut(v: nat, rest: seq<byte>, i: nat)
    requires i < MAX_VARINT_LEN_64 && v < Room(i)
    ensures Get(Put(v) + rest, i) == Value(v, |Put(v)|)
    decreases v
  {
    var buf := Put(v) + rest;
    if v >= 128 {
      assert buf[1..] == Put(v / 128) + rest;
      GetAfterPut(v / 128, rest, i + 1);
    }
  }

  /** Writing then reading gives the value back, whatever bytes follow. */
  lemma RoundTrip(v: nat, rest: seq<byte>)
    requires v < TWO_64
    ensures Get(Put(v) + rest) == Value(v, |Put(v)|)
  {
    RoomIs64Bits();
    GetAfterPut(v, rest, 0);
  }

  function Pow128(k: nat): (r: nat)
    ensures r >= 1
  {
    if k == 0 then 1 else 128 * Pow128(k - 1)
  }

  /** A varint fits in `fit` bytes exactly when its value is below 128^fit. */
  lemma {:induction false} PutFits(v: nat, fit: nat)
    ensures fit > 0 ==> (|Put(v)| <= fit <==> v < Pow128(fit))
    decreases fit
  {
    if fit > 1 && v >= 128 {
      PutFits(v / 128, fit - 1);
      assert v / 128 < Pow128(fit - 1) <==> v < 128 * Pow128(fit - 1);
    } else if fit == 1 {
      assert Pow128(1) == 128;
    }
  }

  /** Every 64-bit value fits in ten bytes. */
  lemma PutFits64(v: nat)
    requires v < TWO_64
    ensures |Put(v)| <= MAX_VARINT_LEN_64
  {
    PutFits(v, MAX_VARINT_LEN_64);
    assert Pow128(2) == 128 * 128;
    assert Pow128(4) == 128 * 128 * Pow128(2);
    assert Pow128(6) == 128 * 128 * Pow128(4);
    assert Pow128(8) == 128 * 128 * Pow128(6);
    assert Pow128(10) == 128 * 128 * Pow128(8);
  }
}
