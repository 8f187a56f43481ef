/** internal/pusher/v2/snappy_concat.go: a reader that turns a list of Snappy
    blocks into one block, over whatever buffers its caller reads into. */
module SnappyConcat {
  import opened Common
  import opened Varint
  import opened Snappy

  // ---- What the reader's bytes are, on values ----

  function Concat(streams: seq<seq<byte>>): (r: seq<byte>) {
    if streams == [] then [] else streams[0] + Concat(streams[1..])
  }

  /** Stripping a header panics when the varint overflows (a negative skip). */
  predicate Strippable(streams: seq<seq<byte>>) {
    forall i :: 0 <= i < |streams| ==> !Varint.Get(streams[i]).Overflow?
  }

  /** A truncated header counts as length 0 and skips nothing, as in Go. */
  function HeaderLength(stream: seq<byte>): nat {
    match Varint.Get(stream) case Value(v, _) => v case _ => 0
  }

  function Body(stream: seq<byte>): seq<byte> {
    match Varint.Get(stream) case Value(_, used) => stream[used..] case _ => stream
  }

  function Bodies(streams: seq<seq<byte>>): (r: seq<seq<byte>>)
    ensures |r| == |streams|
    ensures forall i :: 0 <= i < |r| ==> r[i] == Body(streams[i])
  {
    seq(|streams|, i requires 0 <= i < |streams| => Body(streams[i]))
  }

  function HalfStripped(streams: seq<seq<byte>>, n: nat): (r: seq<seq<byte>>)
    ensures |r| == |streams|
  {
    seq(|streams|, i requires 0 <= i < |streams| => if i < n then Body(streams[i]) else streams[i])
  }

  lemma HalfStrippedEnds(streams: seq<seq<byte>>)
    ensures HalfStripped(streams, 0) == streams && HalfStripped(streams, |streams|) == Bodies(streams)
  {
  }

  lemma HalfStrippedStep(streams: seq<seq<byte>>, i: nat)
    requires i < |streams|
    ensures HalfStripped(streams, i)[i] == streams[i]
    ensures HalfStripped(streams, i)[i := Body(streams[i])] == HalfStripped(streams, i + 1)
  {
  }

  function SumLengths(streams: seq<seq<byte>>): nat {
    if streams == [] then 0 else HeaderLength(streams[0]) + SumLengths(streams[1..])
  }

  /** The uint64 accumulator of stripHeaders. */
  function Total(streams: seq<seq<byte>>): (r: nat)
    ensures r < TWO_64
  {
    Wrap64(SumLengths(streams))
  }

  function Wrap64(v: nat): (r: nat)
    ensures r < TWO_64
    ensures r == v <==> v < TWO_64
  {
    v % TWO_64
  }

  /** Everything a reader is meant to deliver: one header, then all bodies. */
  function Wire(streams: seq<seq<byte>>): seq<byte> {
    Varint.Put(Total(streams)) + Concat(Bodies(streams))
  }

  /** The reader's state: before its first Read, or the bodies left to copy. */
  datatype Stage = Fresh(blocks: seq<seq<byte>>) | Started(left: seq<seq<byte>>) {
    function Pending(): seq<byte> {
      match this case Fresh(b) => Wire(b) case Started(l) => Concat(l)
    }
    /** Read answers ErrShortBuffer: the header does not fit in `size` bytes. */
    predicate Short(size: nat) {
      Fresh? && size < MAX_VARINT_LEN_64 && Total(blocks) >= Pow128(size)
    }
    /** Read does not panic. */
    predicate Readable(size: nat) {
      Fresh? ==> Strippable(blocks) && (size > 0 || Total(blocks) > 0)
    }
  }

  /** Drops `n` bytes from the front, and every stream used up on the way. */
  function Advance(streams: seq<seq<byte>>, n: nat): (r: seq<seq<byte>>) {
    if streams == [] then []
    else if n >= |streams[0]| then Advance(streams[1..], n - |streams[0]|)
    else [streams[0][n..]] + streams[1..]
  }

  function Min(a: int, b: int): int { if a < b then a else b }

  /** One Read into a buffer of `size` bytes. */
  function AfterRead(stage: Stage, size: nat): Stage
    requires stage.Readable(size)
  {
    match stage
    case Started(left) => Started(Advance(left, size))
    case Fresh(blocks) =>
      if stage.Short(size) then Started(Bodies(blocks))
      else HeaderFits(blocks, size); Started(Advance(Bodies(blocks), size - |Varint.Put(Total(blocks))|))
  }

  function Delivered(stage: Stage, size: nat): (r: seq<byte>)
    requires stage.Readable(size)
  {
    if stage.Short(size) then [] else stage.Pending()[..Min(size, |stage.Pending()|)]
  }

  lemma HeaderFits(blocks: seq<seq<byte>>, size: nat)
    requires Fresh(blocks).Readable(size) && !Fresh(blocks).Short(size)
    ensures |Varint.Put(Total(blocks))| <= size
  {
    PutFits(Total(blocks), size);
    PutFits64(Total(blocks));
  }

  lemma SameTail(a: seq<byte>, b: seq<byte>, tail: seq<byte>)
    requires a + tail == b + tail
    ensures a == b
  {
    assert |a| == |b|;
    assert a == (a + tail)[..|a|] == (b + tail)[..|b|] == b;
  }

  lemma TakeSplit(head: seq<byte>, tail: seq<byte>, size: nat)
    requires |head| <= size
    ensures (head + tail)[..Min(size, |head + tail|)] + tail[Min(size - |head|, |tail|)..] == head + tail
    ensures head == [] ==> head + tail == tail
  {
    var k := Min(size - |head|, |tail|);
    assert (head + tail)[..Min(size, |head + tail|)] == head + tail[..k];
    assert tail == tail[..k] + tail[k..];
  }

  lemma SplitFirst(pre: seq<byte>, streams: seq<seq<byte>>, n: nat)
    requires streams != [] && n <= |streams[0]|
    ensures pre + streams[0][..n] + Concat([streams[0][n..]] + streams[1..]) == pre + Concat(streams)
  {
    var first, rest := streams[0], streams[1..];
    var cut := [first[n..]] + rest;
    assert cut[1..] == rest;
    assert Concat(cut) == first[n..] + Concat(rest);
    assert first == first[..n] + first[n..];
    assert Concat(streams) == first[..n] + (first[n..] + Concat(rest));
  }

  lemma AdvanceWhole(streams: seq<seq<byte>>, n: nat)
    requires streams != [] && n >= |streams[0]|
    ensures Advance(streams, n) == Advance(streams[1..], n - |streams[0]|)
  {
  }

  lemma AdvancePart(streams: seq<seq<byte>>, n: nat)
    requires streams != [] && n < |streams[0]|
    ensures Advance(streams, n) == [streams[0][n..]] + streams[1..]
  {
  }

  lemma AdvanceNone(streams: seq<seq<byte>>, n: nat)
    ensures streams == [] || (n == 0 < |streams[0]|) ==> Advance(streams, n) == streams
  {
  }

  lemma {:induction false} AdvanceDrops(streams: seq<seq<byte>>, n: nat)
    ensures Concat(Advance(streams, n)) == Concat(streams)[Min(n, |Concat(streams)|)..]
    ensures Advance(streams, n) == [] <==> Concat(Advance(streams, n)) == []
  {
    if streams != [] && n >= |streams[0]| {
      AdvanceDrops(streams[1..], n - |streams[0]|);
    }
  }

  /** A Read that does not fail hands out the next bytes, as many as fit, and
      leaves exactly the others; nothing is left unless bytes are. */
  lemma ReadTakesPrefix(stage: Stage, size: nat)
    requires stage.Readable(size) && !stage.Short(size)
    ensures stage.Pending() == Delivered(stage, size) + AfterRead(stage, size).Pending()
    ensures |Delivered(stage, size)| == Min(size, |stage.Pending()|)
    ensures AfterRead(stage, size).Started?
    ensures AfterRead(stage, size).left == [] <==> AfterRead(stage, size).Pending() == []
  {
    hide Concat, Advance, Bodies, Total, Varint.Put, Pow128;
    match stage
    case Started(left) =>
      AdvanceDrops(left, size);
      TakeSplit([], Concat(left), size);
    case Fresh(blocks) =>
      HeaderFits(blocks, size);
      AdvanceDrops(Bodies(blocks), size - |Varint.Put(Total(blocks))|);
      TakeSplit(Varint.Put(Total(blocks)), Concat(Bodies(blocks)), size);
  }

  lemma NoBytesRead(stage: Stage, size: nat)
    requires stage.Readable(size)
    ensures stage.Short(size) ==> AfterRead(stage, size) == Started(Bodies(stage.blocks))
    ensures stage == Started([]) ==> AfterRead(stage, size) == stage
    ensures stage.Short(size) || stage == Started([]) ==> Delivered(stage, size) == []
  {
  }

  /** What Read does once it has its header: `got` is what it wrote. */
  lemma FinishRead(stage: Stage, size: nat, head: seq<byte>, bodies: seq<seq<byte>>, got: seq<byte>, left: seq<seq<byte>>)
    requires stage.Readable(size) && !stage.Short(size)
    requires stage.Fresh? ==> head == Varint.Put(Total(stage.blocks)) && bodies == Bodies(stage.blocks)
    requires stage.Started? ==> head == [] && bodies == stage.left
    requires |head| <= size && left == Advance(bodies, size - |head|)
    requires got + Concat(left) == head + Concat(bodies)
    ensures AfterRead(stage, size) == Started(left)
    ensures got == Delivered(stage, size)
  {
    hide Advance, Concat, Bodies, Total, Varint.Put, Pow128, Strippable, Delivered;
    ReadTakesPrefix(stage, size);
    assert head + Concat(bodies) == stage.Pending();
    SameTail(got, Delivered(stage, size), Concat(left));
  }

  // ---- Whole runs of Read ----

  function Sum(sizes: seq<nat>): nat {
    if sizes == [] then 0 else sizes[0] + Sum(sizes[1..])
  }

  predicate ReadableRun(stage: Stage, sizes: seq<nat>)
    decreases |sizes|
  {
    sizes != [] ==> stage.Readable(sizes[0]) && ReadableRun(AfterRead(stage, sizes[0]), sizes[1..])
  }

  function RunBytes(stage: Stage, sizes: seq<nat>): (r: seq<byte>)
    requires ReadableRun(stage, sizes)
    decreases |sizes|
  {
    if sizes == [] then []
    else Delivered(stage, sizes[0]) + RunBytes(AfterRead(stage, sizes[0]), sizes[1..])
  }

  function RunEnd(stage: Stage, sizes: seq<nat>): (r: Stage)
    requires ReadableRun(stage, sizes)
    decreases |sizes|
  {
    if sizes == [] then stage else RunEnd(AfterRead(stage, sizes[0]), sizes[1..])
  }

  lemma {:induction false} RunSplits(stage: Stage, sizes: seq<nat>)
    requires ReadableRun(stage, sizes)
    requires sizes != [] ==> !stage.Short(sizes[0])
    ensures RunBytes(stage, sizes) + RunEnd(stage, sizes).Pending() == stage.Pending()
    ensures |RunBytes(stage, sizes)| == Min(Sum(sizes), |stage.Pending()|)
    decreases |sizes|
  {
    hide Stage.Pending, AfterRead, Delivered;
    if sizes != [] {
      var next, rest := AfterRead(stage, sizes[0]), sizes[1..];
      ReadTakesPrefix(stage, sizes[0]);
      RunSplits(next, rest);
      Assoc(Delivered(stage, sizes[0]), RunBytes(next, rest), RunEnd(next, rest).Pending());
    }
  }

  lemma Assoc(a: seq<byte>, b: seq<byte>, c: seq<byte>)
    ensures a + b + c == a + (b + c)
  {
  }

  /** Over any buffer sizes the reads deliver the pending bytes in order, with
      no gap and no repeat, and what is left is exactly the rest. */
  lemma RunDelivers(stage: Stage, sizes: seq<nat>)
    requires ReadableRun(stage, sizes)
    requires sizes != [] ==> !stage.Short(sizes[0])
    ensures RunBytes(stage, sizes) == stage.Pending()[..Min(Sum(sizes), |stage.Pending()|)]
    ensures RunEnd(stage, sizes).Pending() == stage.Pending()[Min(Sum(sizes), |stage.Pending()|)..]
  {
    RunSplits(stage, sizes);
  }

  /** End of file: the run has delivered every byte, and only then. */
  lemma {:induction false} EofExactlyAtEnd(blocks: seq<seq<byte>>, sizes: seq<nat>)
    requires sizes != [] && ReadableRun(Fresh(blocks), sizes) && !Fresh(blocks).Short(sizes[0])
    ensures RunEnd(Fresh(blocks), sizes).Started?
    ensures RunEnd(Fresh(blocks), sizes).left == [] <==> RunBytes(Fresh(blocks), sizes) == Wire(blocks)
  {
    RunSplits(Fresh(blocks), sizes);
    ReadTakesPrefix(Fresh(blocks), sizes[0]);
    EndsTight(AfterRead(Fresh(blocks), sizes[0]), sizes[1..]);
  }

  lemma {:induction false} EndsTight(stage: Stage, sizes: seq<nat>)
    requires stage.Started? && ReadableRun(stage, sizes)
    requires stage.left == [] <==> stage.Pending() == []
    ensures RunEnd(stage, sizes).Started?
    ensures RunEnd(stage, sizes).left == [] <==> RunEnd(stage, sizes).Pending() == []
    decreases |sizes|
  {
    if sizes != [] {
      ReadTakesPrefix(stage, sizes[0]);
      EndsTight(AfterRead(stage, sizes[0]), sizes[1..]);
    }
  }

  /** With buffers for everything, all the bytes arrive exactly when the first
      buffer has room for the header. After ErrShortBuffer the header is gone:
      later reads deliver bare bodies. */
  lemma AllBytesIffHeaderFits(blocks: seq<seq<byte>>, sizes: seq<nat>)
    requires sizes != [] && ReadableRun(Fresh(blocks), sizes)
    requires Sum(sizes) >= |Wire(blocks)|
    ensures RunBytes(Fresh(blocks), sizes) == Wire(blocks) <==> !Fresh(blocks).Short(sizes[0])
    ensures Fresh(blocks).Short(sizes[0]) ==> RunBytes(Fresh(blocks), sizes) <= Concat(Bodies(blocks))
  {
    hide Concat, Bodies, Total, Pow128, Varint.Put, Strippable;
    if Fresh(blocks).Short(sizes[0]) {
      var rest := Started(Bodies(blocks));
      NoBytesRead(Fresh(blocks), sizes[0]);
      RunDelivers(rest, sizes[1..]);
      assert RunBytes(Fresh(blocks), sizes) == [] + RunBytes(rest, sizes[1..]) == RunBytes(rest, sizes[1..]);
      assert |Wire(blocks)| > |rest.Pending()|;
    } else {
      RunDelivers(Fresh(blocks), sizes);
    }
  }

  // ---- Meaning ----

  predicate WellFormed(blocks: seq<seq<byte>>, limit: nat) {
    forall i :: 0 <= i < |blocks| ==> Decode(blocks[i], limit).Some?
  }

  function Decodings(blocks: seq<seq<byte>>, limit: nat): (r: seq<seq<byte>>)
    requires WellFormed(blocks, limit)
    ensures |r| == |blocks|
    ensures forall i :: 0 <= i < |r| ==> Some(r[i]) == Decode(blocks[i], limit)
  {
    seq(|blocks|, i requires 0 <= i < |blocks| => Decode(blocks[i], limit).value)
  }

  lemma {:induction false} LengthsAdd(blocks: seq<seq<byte>>, limit: nat)
    requires WellFormed(blocks, limit)
    ensures Strippable(blocks)
    ensures SumLengths(blocks) == |Concat(Decodings(blocks, limit))|
  {
    forall i | 0 <= i < |blocks| ensures !Varint.Get(blocks[i]).Overflow? {
      assert Decode(blocks[i], limit).Some?;
    }
    if blocks != [] {
      assert Decodings(blocks, limit)[1..] == Decodings(blocks[1..], limit);
      LengthsAdd(blocks[1..], limit);
    }
  }

  lemma BlockDecodes(block: seq<byte>, more: seq<byte>, out: seq<byte>, limit: nat)
    requires Decode(block, limit).Some?
    ensures DecodeBody(Body(block) + more, out) == DecodeBody(more, out + Decode(block, limit).value)
  {
    hide NextElement, Emit;
    DecodeBodyShift(out, Body(block), []);
    assert out + [] == out;
    DecodeBodyAppend(Body(block), more, out);
  }

  lemma {:induction false} BodiesDecode(blocks: seq<seq<byte>>, out: seq<byte>, limit: nat)
    requires WellFormed(blocks, limit)
    ensures DecodeBody(Concat(Bodies(blocks)), out) == Some(out + Concat(Decodings(blocks, limit)))
    decreases |blocks|
  {
    if blocks == [] {
      assert out + [] == out;
    } else {
      hide DecodeBody, Body, Decode;
      var d, rest := Decode(blocks[0], limit).value, blocks[1..];
      assert Bodies(blocks)[1..] == Bodies(rest);
      BlockDecodes(blocks[0], Concat(Bodies(rest)), out, limit);
      BodiesDecode(rest, out + d, limit);
      assert Decodings(blocks, limit)[1..] == Decodings(rest, limit);
      Assoc(out, d, Concat(Decodings(rest, limit)));
    }
  }

  lemma WrapAdd(a: nat, b: nat)
    ensures Wrap64(Wrap64(a) + b) == Wrap64(a + b)
  {
    assert a + b == a % TWO_64 + b + a / TWO_64 * TWO_64;
  }

  /** The concatenated stream is one Snappy block that means the same as the
      blocks one after the other, exactly when the summed length is below the
      decoder's limit: the format's, or any up to the uint64 accumulator's. */
  lemma ConcatenationPreservesMeaning(blocks: seq<seq<byte>>, limit: nat)
    requires WellFormed(blocks, limit) && limit <= TWO_64
    ensures Decode(Wire(blocks), limit) == Some(Concat(Decodings(blocks, limit)))
       <==> |Concat(Decodings(blocks, limit))| < limit
  {
    LengthsAdd(blocks, limit);
    BodiesDecode(blocks, [], limit);
    var all := Concat(Decodings(blocks, limit));
    var header, total := Varint.Put(Total(blocks)), Total(blocks);
    Varint.RoundTrip(total, Concat(Bodies(blocks)));
    assert [] + all == all;
    assert Wire(blocks)[|header|..] == Concat(Bodies(blocks));
  }

  /** End to end: whatever buffers the HTTP client reads into, if they hold the
      whole stream and the first one holds the header, the bytes it sends
      decode to the records in order. */
  lemma SentBytesDecodeToRecords(blocks: seq<seq<byte>>, sizes: seq<nat>, limit: nat)
    requires WellFormed(blocks, limit) && |Concat(Decodings(blocks, limit))| < limit <= TWO_64
    requires sizes != [] && ReadableRun(Fresh(blocks), sizes) && !Fresh(blocks).Short(sizes[0])
    requires Sum(sizes) >= |Wire(blocks)|
    ensures Decode(RunBytes(Fresh(blocks), sizes), limit) == Some(Concat(Decodings(blocks, limit)))
  {
    AllBytesIffHeaderFits(blocks, sizes);
    ConcatenationPreservesMeaning(blocks, limit);
  }

  /** A text of 128 zero bytes, and its block: a header of two bytes, then a
      literal's tag and length and the text. */
  function Text(): (r: seq<byte>)
    ensures |r| == 128
  {
    seq(128, _ => 0)
  }

  function Zeros(): seq<byte> { [128, 1] + ZerosBody() }

  function ZerosBody(): (r: seq<byte>)
    ensures |r| == 130
  {
    [240, 127] + Text()
  }

  lemma ZerosDecode()
    ensures Decode(Zeros(), FORMAT_LIMIT) == Some(Text())
    ensures Varint.Get(Zeros()) == Value(128, 2) && Body(Zeros()) == ZerosBody()
  {
    hide Text;
    var (z, body) := (Zeros(), ZerosBody());
    assert z[0] == 128 && z[1..][0] == 1;
    assert z[2..] == body;
    assert body[1..2] == [127] && body[1..2][1..] == [] && body[2..130] == Text();
    assert ArgumentBytes(body[0]) == 1 && LittleEndian([127]) == 127;
    assert NextElement(body) == Some(Parsed(Literal(Text()), 130));
    assert body[130..] == [] && [] + Text() == Text();
  }

  /** That block, read first into a buffer of one byte, never arrives whole. */
  lemma HeaderCanBeLost()
    ensures var (blocks, sizes) := ([Zeros()], [1, 200]);
      && WellFormed(blocks, FORMAT_LIMIT) && ReadableRun(Fresh(blocks), sizes) && Sum(sizes) >= |Wire(blocks)|
      && RunBytes(Fresh(blocks), sizes) != Wire(blocks)
  {
    var (blocks, sizes) := ([Zeros()], [1, 200]);
    ZerosDecode();
    hide Decode, Varint.Get, Body, Zeros, ZerosBody;
    assert blocks[1..] == [] && SumLengths(blocks) == 128 && Total(blocks) == 128;
    assert Pow128(1) == 128 * Pow128(0);
    assert Bodies(blocks) == [ZerosBody()] && Bodies(blocks)[1..] == [];
    assert Concat(Bodies(blocks)) == ZerosBody() + [];
    assert |Varint.Put(128)| == 2;
    assert sizes[1..] == [200] && sizes[1..][1..] == [] && Sum([200]) == 200;
    AllBytesIffHeaderFits(blocks, sizes);
  }

  // ---- The reader itself ----

  /** A Go byte slice: a window of a buffer that others may hold as well. */
  datatype Slice = Slice(buf: array<byte>, off: nat, len: nat) {
    predicate Valid() { off + len <= buf.Length }
    function Bytes(): seq<byte>
      requires Valid()
      reads buf
    {
      buf[off..off + len]
    }
  }

  predicate AllValid(streams: seq<Slice>) {
    forall i :: 0 <= i < |streams| ==> streams[i].Valid()
  }

  function Buffers(streams: seq<Slice>): set<object> {
    set i | 0 <= i < |streams| :: streams[i].buf
  }

  function Contents(streams: seq<Slice>): (r: seq<seq<byte>>)
    requires AllValid(streams)
    reads Buffers(streams)
    ensures |r| == |streams|
    ensures forall i :: 0 <= i < |r| ==> r[i] == streams[i].Bytes()
  {
    if streams == [] then [] else [streams[0].Bytes()] + Contents(streams[1..])
  }

  datatype ReadError = NoError | EOF | ShortBuffer

  class SnappyConcatReader {
    var streams: seq<Slice>
    var init: bool

    predicate Valid() reads this { AllValid(streams) }

    function State(): Stage
      requires Valid()
      reads this, Buffers(streams)
    {
      if init then Started(Contents(streams)) else Fresh(Contents(streams))
    }

    /** newConcatReader: windows over the records' own buffers. */
    constructor (records: seq<Slice>)
      requires AllValid(records)
      ensures Valid() && streams == records && State() == Fresh(Contents(records))
    {
      streams, init := records, false;
    }

    /** One iteration of stripHeaders: streamLen, and the stream past its header. */
    method StripHeader(i: nat) returns (streamLen: nat)
      requires Valid() && i < |streams| && !Varint.Get(streams[i].Bytes()).Overflow?
      modifies this`streams
      ensures Valid() && Buffers(streams) <= old(Buffers(streams))
      ensures streamLen == HeaderLength(old(streams[i].Bytes()))
      ensures Contents(streams) == old(Contents(streams))[i := Body(old(streams[i].Bytes()))]
    {
      hide Varint.Get, Contents;
      var s := streams[i];
      var header := Varint.Get(s.Bytes());
      streamLen := 0;
      if header.Value? {
        streamLen := header.value;
        streams := streams[i := Slice(s.buf, s.off + header.used, s.len - header.used)];
        assert streams[i].Bytes() == Body(s.Bytes());
      }
    }

    method StripHeaders() returns (total: nat)
      requires Valid() && Strippable(Contents(streams))
      modifies this`streams
      ensures Valid() && Buffers(streams) <= old(Buffers(streams))
      ensures total == Total(old(Contents(streams)))
      ensures Contents(streams) == Bodies(old(Contents(streams)))
    {
      hide Contents, Varint.Get, Body, HeaderLength, Wrap64, Bodies, HalfStripped;
      total := 0;
      ghost var blocks := Contents(streams);
      ghost var sum: nat := 0;
      assert blocks[0..] == blocks;
      HalfStrippedEnds(blocks);
      for i := 0 to |streams|
        invariant Valid() && Buffers(streams) <= old(Buffers(streams))
        invariant |streams| == |blocks| && sum + SumLengths(blocks[i..]) == SumLengths(blocks)
        invariant total == Wrap64(sum)
        invariant Contents(streams) == HalfStripped(blocks, i)
      {
        HalfStrippedStep(blocks, i);
        assert streams[i].Bytes() == Contents(streams)[i];
        var streamLen := StripHeader(i);
        WrapAdd(sum, streamLen);
        total := Wrap64(total + streamLen);
        sum := sum + streamLen;
        assert blocks[i..][1..] == blocks[i + 1..];
      }
    }

    /** io.Reader's Read. It writes only to `out` and to the reader, so the
        records keep their bytes and can be sent again. */
    method Read(out: array<byte>) returns (n: nat, err: ReadError)
      requires Valid() && out !in Buffers(streams)
      requires State().Readable(out.Length)
      modifies this, out
      ensures Valid() && Buffers(streams) <= old(Buffers(streams))
      ensures State() == AfterRead(old(State()), out.Length)
      ensures n <= out.Length && out[..n] == Delivered(old(State()), out.Length)
      ensures err == ShortBuffer <==> old(State().Short(out.Length))
      ensures err == EOF <==> old(State()) == Started([])
    {
      hide Varint.Put, Pow128, Concat, Advance, Strippable, Bodies, Total, AfterRead, Delivered;
      n, err := 0, NoError;
      ghost var before := State();
      if !init {
        var fits;
        n, fits := Start(out);
        if !fits {
          NoBytesRead(before, out.Length);
          return 0, ShortBuffer;
        }
      }
      if n == 0 && streams == [] {
        NoBytesRead(before, out.Length);
        return 0, EOF;
      }
      ghost var head, bodies := out[..n], Contents(streams);
      n := CopyStreams(out, n);
      FinishRead(before, out.Length, head, bodies, out[..n], Contents(streams));
    }

    /** The first half of Read, on the first call: strip the headers and put
        the joint one, when it fits. */
    method Start(out: array<byte>) returns (n: nat, fits: bool)
      requires Valid() && !init && out !in Buffers(streams) && State().Readable(out.Length)
      modifies this, out
      ensures Valid() && init && Buffers(streams) <= old(Buffers(streams))
      ensures Contents(streams) == Bodies(old(Contents(streams)))
      ensures fits <==> !old(State().Short(out.Length))
      ensures fits ==> 1 <= n <= out.Length && out[..n] == Varint.Put(Total(old(Contents(streams))))
    {
      hide Varint.Put, Pow128, Bodies, Total, Contents;
      ghost var blocks := Contents(streams);
      init := true;
      var total := StripHeaders();
      if out.Length < MAX_VARINT_LEN_64 && total >= Pow128(out.Length) {
        return 0, false;
      }
      HeaderFits(blocks, out.Length);
      var header := Varint.Put(total);
      forall k | 0 <= k < |header| { out[k] := header[k]; }
      n, fits := |header|, true;
    }

    /** The second half of Read: whole streams while they fit, then a part of
        the next one. */
    method CopyStreams(out: array<byte>, from: nat) returns (n: nat)
      requires Valid() && out !in Buffers(streams) && from <= out.Length
      modifies this`streams, out
      ensures Valid() && Buffers(streams) <= old(Buffers(streams))
      ensures Contents(streams) == Advance(old(Contents(streams)), out.Length - from)
      ensures from <= n <= out.Length && (n == out.Length || streams == [])
      ensures out[..n] + Concat(Contents(streams)) == old(out[..from]) + Concat(old(Contents(streams)))
    {
      hide Contents, Concat, Advance;
      n := from;
      ghost var bodies := Contents(streams);
      while streams != [] && out.Length - n >= streams[0].len
        invariant from <= n <= out.Length && Valid() && Buffers(streams) <= old(Buffers(streams))
        invariant Advance(Contents(streams), out.Length - n) == Advance(bodies, out.Length - from)
        invariant out[..n] + Concat(Contents(streams)) == old(out[..from]) + Concat(bodies)
        decreases |streams|
      {
        AdvanceWhole(Contents(streams), out.Length - n);
        n := CopyWhole(out, n);
      }
      AdvanceNone(Contents(streams), out.Length - n);
      if out.Length > n && streams != [] {
        n := CopyPart(out, n);
      }
    }

    method CopyWhole(out: array<byte>, from: nat) returns (n: nat)
      requires Valid() && out !in Buffers(streams)
      requires streams != [] && from + streams[0].len <= out.Length
      modifies this`streams, out
      ensures Valid() && streams == old(streams)[1..]
      ensures n == from + old(streams)[0].len
      ensures Contents(streams) == old(Contents(streams))[1..]
      ensures out[..n] + Concat(Contents(streams)) == old(out[..from]) + Concat(old(Contents(streams)))
    {
      ghost var was := Contents(streams);
      CopyInto(out, from, streams[0], streams[0].len);
      n := from + streams[0].len;
      streams := streams[1..];
      assert out[..n] == old(out[..from]) + was[0];
    }

    method CopyPart(out: array<byte>, from: nat) returns (n: nat)
      requires Valid() && out !in Buffers(streams)
      requires streams != [] && from <= out.Length < from + streams[0].len
      modifies this`streams, out
      ensures Valid() && Buffers(streams) <= old(Buffers(streams))
      ensures n == out.Length && Contents(streams) == Advance(old(Contents(streams)), n - from)
      ensures out[..n] + Concat(Contents(streams)) == old(out[..from]) + Concat(old(Contents(streams)))
    {
      hide Advance, Concat, Contents;
      ghost var was := Contents(streams);
      var s, fit := streams[0], out.Length - from;
      CopyInto(out, from, s, fit);
      streams := [Slice(s.buf, s.off + fit, s.len - fit)] + streams[1..];
      n := out.Length;
      assert Contents(streams) == [was[0][fit..]] + was[1..];
      AdvancePart(was, fit);
      assert out[..n] == old(out[..from]) + was[0][..fit];
      SplitFirst(old(out[..from]), was, fit);
    }

    /** Go's copy(out[n:], s[:len]). */
    static method CopyInto(out: array<byte>, n: nat, s: Slice, len: nat)
      requires s.Valid() && out != s.buf && len <= s.len && n + len <= out.Length
      modifies out
      ensures out[..n + len] == old(out[..n]) + s.Bytes()[..len]
    {
      forall k | 0 <= k < len { out[n + k] := s.buf[s.off + k]; }
    }
  }
}
