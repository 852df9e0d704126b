/** One stream's reassembly: an inline buffer, or a pool buffer leased while a
    longer message is on its way. */
module ControlAsm {
  import opened Bytes
  import opened ControlFraming
  import opened ControlEvents
  import opened ControlSteps
  import opened ByteBuffer

  class Asm {
    const buf: array<u8>
    var big: array?<u8>
    var n: nat
    var at: nat
    var skip: nat

    function Cap(): nat
      reads this
    {
      if big != null then BIG else INLINE
    }

    function Mem(): array<u8>
      reads this
    {
      if big != null then big else buf
    }

    ghost predicate Shape()
      reads this
    {
      && buf.Length == INLINE && (big != null ==> big.Length == BIG)
      && at <= n <= Cap() && (skip > 0 ==> at == n)
    }

    /** The unread bytes. */
    ghost function Rest(): (r: seq<u8>)
      requires Shape()
      reads this, Mem()
      ensures |r| == n - at
    {
      Mem()[at..n]
    }

    /** Between deliveries: no message is complete, and there is room for the one
        on its way. */
    ghost predicate Calm(vi: bool)
      reads this, Mem()
    {
      Shape() && Quiet(vi, Cap(), Rest())
    }

    /** What a pool buffer holds while it is drained: a message it was leased for
        is at the head, or there is no more than a message's worth. */
    ghost predicate Tame(vi: bool)
      reads this, Mem()
    {
      Shape() && (big != null ==> |Rest()| <= MAX_MSG_LEN || Long(vi, Rest()))
    }

    constructor ()
      ensures Shape() && fresh(buf) && big == null && n == at == skip == 0
    {
      buf := new u8[INLINE](_ => 0);
      big := null;
      n, at, skip := 0, 0, 0;
    }

    /** Lets dst begin with what is unread. */
    method Compact(dst: array<u8>)
      requires Shape() && dst.Length >= n - at
      modifies this`n, this`at, dst
      ensures n == old(n - at) && at == 0
      ensures dst[..n] == old(Rest())
    {
      var keep := n - at;
      var src := Mem();
      for k := 0 to keep
        modifies dst
        invariant dst[..k] == old(src[at..at + k])
        invariant forall j :: at + k <= j < n ==> src[j] == old(src[j])
      {
        dst[k] := src[at + k];
        assert dst[..k + 1] == dst[..k] + [dst[k]];
        assert old(src[at..at + k + 1]) == old(src[at..at + k]) + [old(src[at + k])];
      }
      n, at := keep, 0;
    }

    /** Returns to the inline buffer when the unread bytes are no more than the
        longest header, and only then. */
    method Unlease()
      requires Shape() && big != buf
      modifies this`n, this`at, this`big, buf
      ensures Shape() && Rest() == old(Rest()) && skip == old(skip)
      ensures big == if |Rest()| <= HDR_MAX then null else old(big)
    {
      if big == null || n - at > HDR_MAX {
        return;
      }
      Compact(buf);
      big := null;
    }

    /** Takes as much of data as fits behind the unread bytes. */
    method Fill(data: seq<u8>) returns (left: seq<u8>)
      requires Shape() && (skip > 0 ==> data == [])
      modifies this`n, this`at, Mem()
      ensures Shape() && |left| <= |data| && left == data[|data| - |left|..]
      ensures Rest() == old(Rest()) + data[..|data| - |left|]
      ensures old(n - at) < Cap() && data != [] ==> |left| < |data|
    {
      ghost var rest := Rest();
      Compact(Mem());
      var take := Min(Cap() - n, |data|);
      var _ := PutAt(Mem(), n, data[..take]);
      assert Mem()[..n + take] == Mem()[..n] + Mem()[n..n + take];
      n := n + take;
      left := data[take..];
    }

    /** One delivery: bytes owed go, those after them join the unread ones as far
        as there is room, and the others are left. */
    method Push(data: seq<u8>) returns (left: seq<u8>)
      requires Shape() && big != buf
      modifies this, buf, if big != null then {big} else {}
      ensures Shape() && big == if |old(Rest())| <= HDR_MAX then null else old(big)
      ensures Took(data, left, old(skip), skip, old(Rest()), Rest())
      ensures old(n - at) < old(Cap()) && data != [] ==> |left| < |data|
    {
      hide Took;
      ghost var was, owed := Rest(), skip;
      var more := DropOwed(data);
      Unlease();
      left := Fill(more);
      TookIs(data, |data| - |more|, left, owed, was, Rest());
    }

    /** Drops the bytes a skipped message still owes. */
    method DropOwed(data: seq<u8>) returns (more: seq<u8>)
      requires Shape()
      modifies this`skip
      ensures Shape() && (skip > 0 ==> more == []) && |more| == |data| - Min(old(skip), |data|)
      ensures more == data[|data| - |more|..] && skip == old(skip) - (|data| - |more|)
    {
      var drop := Min(skip, |data|);
      skip := skip - drop;
      more := data[drop..];
    }
  }

  /** All of data but left was taken: the bytes owed dropped, the others put
      behind what was unread. */
  predicate Took(data: seq<u8>, left: seq<u8>, owed: nat, owed': nat, was: seq<u8>, now: seq<u8>) {
    var drop, n := Min(owed, |data|), |data| - |left|;
    0 <= drop <= n && left == data[n..] && owed' == owed - drop && now == was + data[drop..n]
  }

  lemma TookIs(data: seq<u8>, drop: nat, left: seq<u8>, owed: nat, was: seq<u8>, now: seq<u8>)
    requires drop == Min(owed, |data|) && |left| <= |data| - drop
    requires left == data[drop..][|data| - drop - |left|..] && now == was + data[drop..][..|data| - drop - |left|]
    ensures Took(data, left, owed, owed - drop, was, now)
  {
    assert data[drop..][..|data| - drop - |left|] == data[drop..|data| - |left|];
  }

  lemma TookResumes(
    vi: bool, limit: nat, data: seq<u8>, left: seq<u8>, owed: nat, owed': nat, was: seq<u8>, now: seq<u8>, r: Outcome)
    requires Took(data, left, owed, owed', was, now)
    requires r == if owed' > 0 then Outcome([], now, owed') else Reassemble(vi, limit, now)
    ensures |left| <= |data| && r == Resume(vi, limit, was, owed, data[..|data| - |left|])
  {
    hide Reassemble;
    var n := |data| - |left|;
    if owed <= n {
      assert data[..n][owed..] == data[owed..n];
    } else {
      assert data[n..n] == [] && was + [] == was;
    }
  }

  lemma TookSized(vi: bool, limit: nat, data: seq<u8>, left: seq<u8>, was: seq<u8>, now: seq<u8>)
    requires INLINE <= limit && Sized(vi, INLINE, was + data) && Took(data, left, 0, 0, was, now)
    ensures Sized(vi, INLINE, now)
    ensures var r := Reassemble(vi, limit, now); r.owed == 0 && Sized(vi, INLINE, r.rest + left)
  {
    hide Reassemble, Sized;
    assert now + left == was + data;
    SizedPrefix(vi, INLINE, now, left);
    SizedSame(vi, INLINE, limit, now, left);
  }
}
