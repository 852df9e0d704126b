/** Control messages written to a stream, and read back. */
module ControlEnvelope {
  import opened Options
  import opened Bytes
  import opened ByteBuffer
  import opened Seqs
  import opened Varint
  import opened ControlFraming
  import opened ControlEvents

  /** The longest body a Length can announce: 16 bits of it, or from draft-23 on as
      much as a stream can carry. */
  function MaxBody(vi: bool): nat {
    if vi then 0x4000_0000_0000_0000 else 65535
  }

  /** The Length on the wire: a varint from draft-23, before that two bytes, the
      high one first. */
  function LenBytes(vi: bool, n: nat): (b: seq<u8>)
    requires n <= MaxBody(vi)
  {
    if vi then Encode(n) else [n / 256, n % 256]
  }

  /** Type, Length and body. */
  function Envelope(vi: bool, m: Msg): seq<u8>
    requires |m.body| <= MaxBody(vi)
  {
    Encode(m.typ) + LenBytes(vi, |m.body|) + m.body
  }

  predicate Sendable(vi: bool, ms: seq<Msg>) {
    forall i :: 0 <= i < |ms| ==> |ms[i].body| <= MaxBody(vi)
  }

  /** Messages one after the other. */
  function Sent(vi: bool, ms: seq<Msg>): seq<u8>
    requires Sendable(vi, ms)
  {
    if ms == [] then [] else Envelope(vi, ms[0]) + Sent(vi, ms[1..])
  }

  // ---- What is written is read ----

  lemma LenReads(vi: bool, t: seq<u8>, len: nat, rest: seq<u8>)
    requires len <= MaxBody(vi)
    ensures TakeLen(vi, t + LenBytes(vi, len) + rest, |t|) == Some((len, |t| + |LenBytes(vi, len)|))
  {
    hide Encode, Len, Take;
    var l := LenBytes(vi, len);
    var b := t + l + rest;
    assert b[|t|..|t| + |l|] == l;
    if vi { RoundTrip(b, |t|, len); } else { assert b[|t|] == l[0] && b[|t| + 1] == l[1]; }
  }

  lemma HeaderReads(vi: bool, typ: u64, len: nat, rest: seq<u8>)
    requires len <= MaxBody(vi)
    ensures Header(vi, Encode(typ) + LenBytes(vi, len) + rest)
         == Some((typ, len, |Encode(typ) + LenBytes(vi, len)|))
  {
    hide Encode, Len, Take, TakeLen, LenBytes;
    var t := Encode(typ);
    var b := t + LenBytes(vi, len) + rest;
    assert b[0..|t|] == t;
    RoundTrip(b, 0, typ);
    LenReads(vi, t, len, rest);
  }

  /** A message is read back from its envelope, whatever follows it. */
  lemma EnvelopeReads(vi: bool, m: Msg, rest: seq<u8>)
    requires |m.body| <= MaxBody(vi)
    ensures var b := Envelope(vi, m) + rest;
            && Complete(vi, b) && First(vi, b) == m && Cut(vi, b) == |Envelope(vi, m)|
            && Header(vi, b).Some? && SkipLen(vi, b) == |Envelope(vi, m)|
            && Header(vi, b).value.1 == |m.body| && Header(vi, b).value.2 + |m.body| == |Envelope(vi, m)|
  {
    hide Encode, Len, LenBytes, Header, Take;
    var h := Encode(m.typ) + LenBytes(vi, |m.body|);
    var b := Envelope(vi, m) + rest;
    HeaderReads(vi, m.typ, |m.body|, m.body + rest);
    Assoc(h, m.body, rest);
    HeaderBound(vi, b);
    assert b[|h|..|h| + |m.body|] == m.body;
  }

  /** A stream of messages is framed into them. */
  lemma {:induction false} SentFrames(vi: bool, ms: seq<Msg>)
    requires Sendable(vi, ms)
    ensures Frames(vi, Sent(vi, ms)) == Framed(ms, [])
    decreases |ms|
  {
    hide Complete, First, Total, Header, Envelope, MaxBody, SkipLen, Refusal;
    if ms == [] {
      NothingIsQuiet(vi, BIG);
    } else {
      var e, rest := Envelope(vi, ms[0]), Sent(vi, ms[1..]);
      EnvelopeReads(vi, ms[0], rest);
      SentFrames(vi, ms[1..]);
      assert (e + rest)[|e|..] == rest;
      assert [ms[0]] + ms[1..] == ms;
    }
  }

  /** What becomes of a message where messages of limit bytes can be held. */
  function EventOf(vi: bool, limit: nat, m: Msg): Event
    requires |m.body| <= MaxBody(vi)
  {
    if |m.body| > 65535 then Skipped(OverCap)
    else if |Envelope(vi, m)| > limit then Skipped(NoPool)
    else Handed(m)
  }

  function EventsOf(vi: bool, limit: nat, ms: seq<Msg>): seq<Event>
    requires Sendable(vi, ms)
  {
    if ms == [] then [] else [EventOf(vi, limit, ms[0])] + EventsOf(vi, limit, ms[1..])
  }

  /** Each message of a stream is handed on, or passed over for its own length and
      no more of the stream with it. */
  lemma {:induction false} SentThrough(vi: bool, limit: nat, ms: seq<Msg>)
    requires Sendable(vi, ms)
    ensures Reassemble(vi, limit, Sent(vi, ms)) == Outcome(EventsOf(vi, limit, ms), [], 0)
    decreases |ms|
  {
    hide Complete, First, Total, Header, Envelope, MaxBody, SkipLen;
    if ms == [] {
      NothingIsQuiet(vi, limit);
    } else {
      var e, rest := Envelope(vi, ms[0]), Sent(vi, ms[1..]);
      EnvelopeReads(vi, ms[0], rest);
      SentThrough(vi, limit, ms[1..]);
      assert (e + rest)[|e|..] == rest;
    }
  }

  // ---- In the buffer ----

  lemma LenMoved(
      was: seq<u8>, mid: seq<u8>, now: seq<u8>, at: nat, l: seq<u8>, from: nat, len: nat)
    requires at + |l| <= from && from + len <= |was| == |mid| == |now|
    requires mid[..at] == was[..at] && mid[at..at + |l|] == l && mid[at + |l|..] == was[at + |l|..]
    requires now[..at + |l|] == mid[..at + |l|] && now[at + |l|..at + |l| + len] == mid[from..from + len]
    ensures now[..at] == was[..at] && now[at..at + |l| + len] == l + was[from..from + len]
  {
    Grown(mid, now, at, at + |l|, at + |l| + len);
    SliceOfTail(mid, at + |l|, from, from + len);
    SliceOfTail(was, at + |l|, from, from + len);
  }

  /** Writes the Length l into the room kept for it before a body of len bytes at
      from, and moves the body down to meet it. */
  method PutLen(buf: array<u8>, at: nat, l: seq<u8>, from: nat, len: nat)
    requires at + |l| <= from && from + len <= buf.Length
    modifies buf
    ensures buf[..at] == old(buf[..at])
    ensures buf[at..at + |l| + len] == l + old(buf[from..from + len])
  {
    ghost var was := buf[..];
    var _ := PutAt(buf, at, l);
    ghost var mid := buf[..];
    MoveDown(buf, at + |l|, from, len);
    LenMoved(was, mid, buf[..], at, l, from, len);
  }

  lemma LenIsShort(vi: bool, len: nat)
    requires len <= 65535
    ensures |LenBytes(vi, len)| <= LenRoom(vi)
  {
    if vi {
      hide Encode;
      assert len / 128 / 128 / 128 == 0;
    }
  }

  /** The room kept for a Length. */
  function LenRoom(vi: bool): nat {
    if vi then 3 else 2
  }

  /** Writes a message at the start of buf; 0 when it is too long, or does not fit
      with the room kept for its Length. */
  method PutEnvelope(buf: array<u8>, vi: bool, typ: u64, body: seq<u8>) returns (n: nat)
    modifies buf
    ensures n > 0 <==> |body| <= 65535 && |Encode(typ)| + LenRoom(vi) + |body| <= buf.Length
    ensures n > 0 ==> n <= buf.Length && buf[..n] == Envelope(vi, Msg(typ, body))
  {
    hide Encode, Len, LenBytes, LenRoom;
    var t := Encode(typ);
    var at := |t| + LenRoom(vi);
    var ok := PutAt(buf, 0, t);
    if !ok || at > buf.Length {
      return 0;
    }
    ghost var first := buf[..];
    ok := PutAt(buf, at, body);
    if !ok || |body| > 65535 {
      return 0;
    }
    ghost var mid := buf[..];
    LenIsShort(vi, |body|);
    var l := LenBytes(vi, |body|);
    PutLen(buf, |t|, l, at, |body|);
    n := |t| + |l| + |body|;
    Assembled(first, mid, buf[..], t, l, at, body);
  }

  lemma Assembled(first: seq<u8>, mid: seq<u8>, now: seq<u8>, t: seq<u8>, l: seq<u8>, at: nat, body: seq<u8>)
    requires |t| + |l| <= at && at + |body| <= |first| == |mid| == |now|
    requires first[..|t|] == t && mid[..at] == first[..at] && now[..|t|] == mid[..|t|]
    requires mid[at..at + |body|] == body && now[|t|..|t| + |l| + |body|] == l + mid[at..at + |body|]
    ensures now[..|t| + |l| + |body|] == t + l + body
  {
    SliceOfPrefix(mid, at, 0, |t|);
    SliceOfPrefix(first, at, 0, |t|);
    assert now[..|t| + |l| + |body|] == now[..|t|] + now[|t|..|t| + |l| + |body|];
    Assoc(t, l, body);
  }
}
