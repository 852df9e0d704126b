/** Control messages on a stream: a Type, a Length and that many bytes. */
module ControlFraming {
  import opened Options
  import opened Bytes
  import opened Seqs
  import Vi = Varint
  import opened Varint

  /** Longest header: two varints. */
  const HDR_MAX: nat := 18
  const MAX_MSG_LEN: nat := 0xFFFF

  datatype Msg = Msg(typ: u64, body: seq<u8>)

  /** The Length: a varint from draft-23, before that 16 bits big-endian. */
  function TakeLen(vi: bool, b: seq<u8>, at: nat): Option<(u64, nat)>
    requires at <= |b|
  {
    if vi then Vi.Take(b, at)
    else if |b| - at < 2 then None
    else
      var hi: nat := b[at];
      Some((256 * hi + b[at + 1], at + 2))
  }

  /** Type, Length and where the body starts; None while it is incomplete. */
  function Header(vi: bool, b: seq<u8>): Option<(u64, u64, nat)> {
    match Vi.Take(b, 0)
    case None => None
    case Some((typ, at)) =>
      TakeStable(b, [], 0);
      match TakeLen(vi, b, at)
      case None => None
      case Some((len, from)) => Some((typ, len, from))
  }

  /** Bytes of the whole message b starts with, once its header is in. */
  function Total(vi: bool, b: seq<u8>): Option<nat> {
    match Header(vi, b)
    case None => None
    case Some((_, len, from)) => Some(from + len)
  }

  predicate Complete(vi: bool, b: seq<u8>) {
    Total(vi, b).Some? && Total(vi, b).value <= |b|
  }

  function First(vi: bool, b: seq<u8>): Msg
    requires Complete(vi, b)
  {
    var (typ, len, from) := Header(vi, b).value;
    Msg(typ, b[from..from + len])
  }

  lemma TakeShort(b: seq<u8>, at: nat)
    ensures match Vi.Take(b, at)
            case Some((_, next)) => at < next <= at + 9 && next <= |b|
            case None => |b| < at + 9
  {
    if at < |b| {
      HdrLenRange(b[at]);
    }
  }

  /** A header ends within its bound; an incomplete one is below it. */
  lemma HeaderBound(vi: bool, b: seq<u8>)
    ensures match Header(vi, b)
            case Some((_, _, from)) => 0 < from <= HDR_MAX && from <= |b|
            case None => |b| < HDR_MAX
  {
    hide Vi.Take;
    TakeShort(b, 0);
    if Vi.Take(b, 0).Some? {
      TakeShort(b, Vi.Take(b, 0).value.1);
    }
  }

  lemma HeaderStable(vi: bool, b: seq<u8>, x: seq<u8>)
    requires Header(vi, b).Some?
    ensures Header(vi, b + x) == Header(vi, b)
  {
    hide Vi.Take;
    TakeStable(b, x, 0);
    if vi {
      TakeStable(b, x, Vi.Take(b, 0).value.1);
    }
  }

  /** More input does not change a message already complete. */
  lemma FirstStable(vi: bool, b: seq<u8>, x: seq<u8>)
    requires Complete(vi, b)
    ensures Complete(vi, b + x) && Total(vi, b + x) == Total(vi, b) && First(vi, b + x) == First(vi, b)
    ensures 0 < Total(vi, b).value
  {
    hide Header;
    HeaderStable(vi, b, x);
    HeaderBound(vi, b);
    var (typ, len, from) := Header(vi, b).value;
    assert (b + x)[from..from + len] == b[from..from + len];
  }

  /** The messages a byte string is framed into, and the incomplete tail. */
  datatype Framed = Framed(msgs: seq<Msg>, tail: seq<u8>)

  function Frames(vi: bool, b: seq<u8>): Framed
    decreases |b|
  {
    if !Complete(vi, b) then Framed([], b)
    else
      FirstStable(vi, b, []);
      var rest := Frames(vi, b[Total(vi, b).value..]);
      Framed([First(vi, b)] + rest.msgs, rest.tail)
  }

  /** Framing what has come and then the tail with what comes next is framing
      it all at once. */
  lemma {:induction false} FramesSplit(vi: bool, b: seq<u8>, x: seq<u8>)
    ensures var f := Frames(vi, b);
            var g := Frames(vi, f.tail + x);
            Frames(vi, b + x) == Framed(f.msgs + g.msgs, g.tail)
    decreases |b|
  {
    hide Complete, First, Total;
    if Complete(vi, b) {
      FirstStable(vi, b, x);
      var n := Cut(vi, b);
      FramesSplit(vi, b[n..], x);
      assert (b + x)[n..] == b[n..] + x;
      var f := Frames(vi, b[n..]);
      Assoc([First(vi, b)], f.msgs, Frames(vi, f.tail + x).msgs);
    } else {
      assert [] + Frames(vi, b + x).msgs == Frames(vi, b + x).msgs;
    }
  }

  function Cut(vi: bool, b: seq<u8>): (n: nat)
    requires Complete(vi, b)
    ensures 0 < n <= |b| && n == Total(vi, b).value
  {
    FirstStable(vi, b, []);
    Total(vi, b).value
  }

  /** What framing leaves over is no complete message. */
  lemma {:induction false} TailIncomplete(vi: bool, b: seq<u8>)
    ensures !Complete(vi, Frames(vi, b).tail)
    decreases |b|
  {
    hide Complete, First, Total;
    if Complete(vi, b) {
      TailIncomplete(vi, b[Cut(vi, b)..]);
    }
  }

  /** Framing delivery by delivery, the tail carried from one to the next. */
  function FrameEach(vi: bool, tail: seq<u8>, chunks: seq<seq<u8>>): Framed
    decreases |chunks|
  {
    if chunks == [] then Framed([], tail)
    else
      var f := Frames(vi, tail + chunks[0]);
      var g := FrameEach(vi, f.tail, chunks[1..]);
      Framed(f.msgs + g.msgs, g.tail)
  }

  /** However a stream is split into deliveries, the messages and the tail are
      those of the whole byte string. */
  lemma {:induction false} AnySplitFrames(vi: bool, tail: seq<u8>, chunks: seq<seq<u8>>)
    requires !Complete(vi, tail)
    ensures FrameEach(vi, tail, chunks) == Frames(vi, tail + Concat(chunks))
    decreases |chunks|
  {
    hide Complete, First, Total;
    if chunks == [] {
      assert tail + [] == tail;
    } else {
      var b, rest := tail + chunks[0], Concat(chunks[1..]);
      TailIncomplete(vi, b);
      AnySplitFrames(vi, Frames(vi, b).tail, chunks[1..]);
      FramesSplit(vi, b, rest);
      Assoc(tail, chunks[0], rest);
    }
  }
}
