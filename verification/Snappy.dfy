/** The Snappy block format (Google's format_description.txt): a preamble with
    the decoded length (section 1), then literals (section 2.1) and copies
    (section 2.2). The decoder below is the meaning of a block. */
module Snappy {
  import opened Common
  import opened Varint

  datatype Element = Literal(bytes: seq<byte>) | Copy(offset: nat, length: nat)

  /** An element and the bytes it takes up. */
  datatype Parsed = Parsed(element: Element, size: nat)

  function LittleEndian(b: seq<byte>): nat {
    if b == [] then 0 else b[0] + 256 * LittleEndian(b[1..])
  }

  /** Bytes of length or offset that follow a tag. */
  function ArgumentBytes(tag: byte): nat {
    match tag % 4
    case 0 => if tag / 4 < 60 then 0 else tag / 4 - 59
    case 1 => 1
    case 2 => 2
    case _ => 4
  }

  function NextElement(b: seq<byte>): (r: Option<Parsed>)
    requires b != []
    ensures r.Some? ==> 1 <= r.value.size <= |b|
  {
    var tag: int := b[0];
    var start := 1 + ArgumentBytes(tag);
    if |b| < start then None
    else
      var argument := LittleEndian(b[1..start]);
      match tag % 4
      case 0 =>
        var length := 1 + if start == 1 then tag / 4 else argument;
        if |b| < start + length then None
        else Some(Parsed(Literal(b[start..start + length]), start + length))
      case 1 => Some(Parsed(Copy(tag / 32 * 256 + argument, 4 + tag / 4 % 8), start))
      case _ => Some(Parsed(Copy(argument, 1 + tag / 4), start))
  }

  /** Appends `length` bytes, each read `offset` bytes back from the end; the
      ranges may overlap. */
  function CopyBack(out: seq<byte>, offset: nat, length: nat): (r: seq<byte>)
    requires 1 <= offset <= |out|
    decreases length
  {
    if length == 0 then out else CopyBack(out + [out[|out| - offset]], offset, length - 1)
  }

  function Emit(out: seq<byte>, e: Element): (r: Option<seq<byte>>) {
    match e
    case Literal(bytes) => Some(out + bytes)
    case Copy(offset, length) =>
      if 1 <= offset <= |out| then Some(CopyBack(out, offset, length)) else None
  }

  /** Decodes elements after `out` was already produced. */
  function DecodeBody(body: seq<byte>, out: seq<byte>): (r: Option<seq<byte>>)
    decreases |body|
  {
    if body == [] then Some(out)
    else
      match NextElement(body)
      case None => None
      case Some(p) =>
        match Emit(out, p.element)
        case None => None
        case Some(more) => DecodeBody(body[p.size..], more)
  }

  /** Section 1 of the format: a decoded length is below 2^32. */
  const FORMAT_LIMIT: nat := 0x1_0000_0000

  /** A block whose decoded length is below `limit`, which a decoder may raise
      above the format's. */
  function Decode(block: seq<byte>, limit: nat): (r: Option<seq<byte>>)
    ensures r.Some? ==> |r.value| < limit
  {
    match Varint.Get(block)
    case Value(length, used) =>
      var out := DecodeBody(block[used..], []);
      if out.Some? && |out.value| == length && length < limit then out else None
    case _ => None
  }

  // A back-reference reads only bytes of its own block's output, so bytes
  // produced earlier can stand in front of it without changing what it reads.

  lemma {:induction false} CopyBackShift(pre: seq<byte>, out: seq<byte>, offset: nat, length: nat)
    requires 1 <= offset <= |out|
    ensures CopyBack(pre + out, offset, length) == pre + CopyBack(out, offset, length)
    decreases length
  {
    if length > 0 {
      var b := out[|out| - offset];
      assert (pre + out) + [b] == pre + (out + [b]);
      CopyBackShift(pre, out + [b], offset, length - 1);
    }
  }

  /** What a body decodes to does not depend on what was decoded before it. */
  lemma {:induction false} DecodeBodyShift(pre: seq<byte>, body: seq<byte>, out: seq<byte>)
    requires DecodeBody(body, out).Some?
    ensures DecodeBody(body, pre + out) == Some(pre + DecodeBody(body, out).value)
    decreases |body|
  {
    if body != [] {
      var p := NextElement(body).value;
      match p.element {
        case Literal(bytes) => assert (pre + out) + bytes == pre + (out + bytes);
        case Copy(offset, length) => CopyBackShift(pre, out, offset, length);
      }
      DecodeBodyShift(pre, body[p.size..], Emit(out, p.element).value);
    }
  }

  lemma NextElementExtends(b: seq<byte>, more: seq<byte>)
    requires b != [] && NextElement(b).Some?
    ensures NextElement(b + more) == NextElement(b)
  {
    var c, start := b + more, 1 + ArgumentBytes(b[0]);
    assert c[1..start] == b[1..start];
    if b[0] % 4 == 0 {
      var length := 1 + if start == 1 then b[0] / 4 else LittleEndian(b[1..start]);
      assert c[start..start + length] == b[start..start + length];
    }
  }

  /** Two bodies one after the other decode one after the other. */
  lemma {:induction false} DecodeBodyAppend(body: seq<byte>, more: seq<byte>, out: seq<byte>)
    requires DecodeBody(body, out).Some?
    ensures DecodeBody(body + more, out) == DecodeBody(more, DecodeBody(body, out).value)
    decreases |body|
  {
    if body == [] {
      assert body + more == more;
    } else {
      NextElementExtends(body, more);
      var p := NextElement(body).value;
      assert (body + more)[p.size..] == body[p.size..] + more;
      DecodeBodyAppend(body[p.size..], more, Emit(out, p.element).value);
    }
  }
}
