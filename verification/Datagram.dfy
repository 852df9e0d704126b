/** DATAGRAM frames (section 4 of RFC 9221) and the largest payload one takes. */
module Datagram {
  import opened Options
  import opened Bytes
  import opened ByteBuffer
  import opened QuicVarint

  const FRAME_DATAGRAM: u8 := 0x30
  const FRAME_DATAGRAM_LEN: u8 := 0x31

  function Head(n: nat, withLen: bool): seq<u8>
    requires withLen ==> n <= VARINT_MAX
  {
    if withLen then [FRAME_DATAGRAM_LEN] + Encode(n) else [FRAME_DATAGRAM]
  }

  /** The bytes of a frame carrying data. */
  function Frame(data: seq<u8>, withLen: bool): seq<u8>
    requires withLen ==> |data| <= VARINT_MAX
  {
    Head(|data|, withLen) + data
  }

  /** What a payload of n bytes costs on the wire. */
  function FrameSize(n: nat, withLen: bool): nat {
    1 + (if withLen then Len(n) else 0) + n
  }

  /** A payload of n bytes can be framed within limit. */
  predicate Fits(n: nat, withLen: bool, limit: nat) {
    (withLen ==> n <= VARINT_MAX) && FrameSize(n, withLen) <= limit
  }

  /** The data of the frame at the start of b, and the bytes it takes. */
  function Decode(b: seq<u8>): Option<(seq<u8>, nat)> {
    if b == [] then None
    else if b[0] == FRAME_DATAGRAM then Some((b[1..], |b|))
    else
      match Take(b, 1)
      case None => None
      case Some((n, off)) => if off + n > |b| then None else Some((b[off..off + n], off + n))
  }

  /** A frame decodes to its data, whatever follows it; without a length it must
      be the last thing in the packet. */
  lemma RoundTrips(data: seq<u8>, withLen: bool, rest: seq<u8>)
    requires withLen ==> |data| <= VARINT_MAX
    requires !withLen ==> rest == []
    ensures Decode(Frame(data, withLen) + rest) == Some((data, FrameSize(|data|, withLen)))
    ensures |Frame(data, withLen)| == FrameSize(|data|, withLen)
    ensures Frame(data, withLen)[0] == if withLen then 0x31 else 0x30
    ensures forall limit :: Fits(|data|, withLen, limit) <==> |Frame(data, withLen)| <= limit
  {
    hide Encode, Len, Take;
    var b := Frame(data, withLen) + rest;
    if withLen {
      var n := |data|;
      assert b[1..1 + Len(n)] == Encode(n);
      RoundTrip(b, 1, n);
      assert b[1 + Len(n)..1 + Len(n) + n] == data;
    } else {
      assert b[1..] == data;
    }
  }

  // ---- The largest payload ----

  /** Best in the width of class c. */
  function InWidth(room: nat, c: nat): nat
    requires c < 4
  {
    var n := Width(c);
    if room <= n then 0 else if room - n < Cap(c) then room - n else Cap(c)
  }

  /** p is the most bytes whose own length takes one of the first k widths and
      that fit the room beside it; 0 when none do. */
  ghost predicate BestOf(p: nat, room: nat, k: nat)
    requires k <= 4
  {
    && (p > 0 ==> Class(p) < k && Len(p) + p <= room)
    && forall q :: q > 0 && Class(q) < k && Len(q) + q <= room ==> q <= p
  }

  lemma NextWidth(p: nat, room: nat, c: nat)
    requires c < 4 && BestOf(p, room, c)
    ensures BestOf(if InWidth(room, c) > p then InWidth(room, c) else p, room, c + 1)
  {
    var here := InWidth(room, c);
    var best := if here > p then here else p;
    forall q | q > 0 && Class(q) < c + 1 && Len(q) + q <= room ensures q <= best {
      assert q <= Cap(c);
    }
    assert Width(Class(here)) <= Width(c);
  }

  method BestPayload(room: u64) returns (best: u64)
    ensures BestOf(best, room, 4)
  {
    best := 0;
    for i := 0 to 4
      invariant BestOf(best, room, i)
    {
      NextWidth(best, room, i);
      var p := InWidth(room, i);
      best := if p > best then p else best;
    }
  }

  /** A non-empty payload fits the limit exactly when it is no longer than this. */
  method MaxPayload(limit: u64, withLen: bool) returns (most: u64)
    ensures forall n :: n > 0 ==> (Fits(n, withLen, limit) <==> n <= most)
  {
    if limit < 2 {
      return 0;
    }
    var room := limit - 1;
    if withLen {
      most := BestPayload(room);
      SmallerFits(most, room);
    } else {
      most := room;
    }
  }

  /** What fits keeps fitting when it gets shorter. */
  lemma SmallerFits(p: nat, room: nat)
    requires BestOf(p, room, 4)
    ensures forall n :: 0 < n <= p ==> Class(n) < 4 && Len(n) + n <= room
  {
    forall n | 0 < n <= p ensures Class(n) < 4 && Len(n) + n <= room {
      assert Class(n) <= Class(p);
      assert Width(Class(n)) <= Width(Class(p));
    }
  }

  // ---- In a buffer ----

  method PutHead(buf: array<u8>, n: nat, withLen: bool) returns (end: Option<nat>)
    modifies buf
    ensures end.Some? <==> (withLen ==> n <= VARINT_MAX) && 1 + (if withLen then Len(n) else 0) <= buf.Length
    ensures end.Some? ==> end.value == |Head(n, withLen)| <= buf.Length && buf[..end.value] == Head(n, withLen)
  {
    hide Encode, Len;
    if buf.Length < 1 {
      return None;
    }
    buf[0] := if withLen then FRAME_DATAGRAM_LEN else FRAME_DATAGRAM;
    ghost var first := buf[..1];
    if !withLen {
      return Some(1);
    }
    end := Put(buf, 1, n);
    assert end.Some? ==> buf[..end.value] == buf[..1] + buf[1..end.value];
  }

  /** The frame written to the start of buf, or 0 when it does not fit there. */
  method EncodeIn(buf: array<u8>, data: seq<u8>, withLen: bool) returns (w: nat)
    modifies buf
    ensures w > 0 <==> Fits(|data|, withLen, buf.Length)
    ensures w > 0 ==> w == FrameSize(|data|, withLen) && buf[..w] == Frame(data, withLen)
  {
    hide Encode, Len;
    var at := PutHead(buf, |data|, withLen);
    if at.None? {
      return 0;
    }
    ghost var head := buf[..at.value];
    var ok := PutAt(buf, at.value, data);
    if !ok {
      return 0;
    }
    w := at.value + |data|;
    assert buf[..w] == buf[..at.value] + buf[at.value..w];
  }

  /** The peer's limit lets a frame of this size be sent; 0 means it takes none. */
  predicate Allowed(limit: u64, size: nat) {
    limit != 0 && size <= limit
  }

  /** A payload is accepted exactly when its frame fits both the buffer and the
      peer's limit. */
  method Deliver(out: array<u8>, data: seq<u8>, limit: u64, withLen: bool) returns (w: Option<nat>)
    modifies out
    ensures w.Some? <==> Fits(|data|, withLen, out.Length) && Fits(|data|, withLen, limit)
    ensures w.Some? ==> w.value == FrameSize(|data|, withLen) && out[..w.value] == Frame(data, withLen)
  {
    var n := EncodeIn(out, data, withLen);
    if n == 0 || !Allowed(limit, n) {
      return None;
    }
    return Some(n);
  }

  /** The largest payload is the largest a datagram has room for, and a non-empty
      one the buffer has room for is accepted exactly when it is no longer. */
  method AcceptsUpToMax(out: array<u8>, data: seq<u8>, limit: u64, withLen: bool)
    returns (w: Option<nat>, most: u64)
    requires data != []
    modifies out
    ensures forall n :: n > 0 ==> (Fits(n, withLen, limit) <==> n <= most)
    ensures w.Some? <==> Fits(|data|, withLen, limit) && Fits(|data|, withLen, out.Length)
    ensures w.Some? <==> |data| <= most && Fits(|data|, withLen, out.Length)
  {
    most := MaxPayload(limit, withLen);
    w := Deliver(out, data, limit, withLen);
  }
}
