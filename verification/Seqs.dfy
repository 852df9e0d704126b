/** Small facts about sequences, kept apart so that proofs call them instead of
    reasoning element by element. */
module Seqs {
  lemma Assoc<T>(a: seq<T>, b: seq<T>, c: seq<T>)
    ensures a + b + c == a + (b + c)
  {
  }

  /** All but the last, of a slice. */
  lemma InitOfTail<T>(s: seq<T>, i: nat)
    requires i < |s|
    ensures s[i..][..|s| - 1 - i] == s[..|s| - 1][i..]
    ensures s[..|s| - 1][..i] == s[..i]
  {
  }

  lemma InitOfAppend<T>(s: seq<T>, x: T)
    ensures (s + [x])[..|s|] == s
  {
  }

  lemma SliceOfPrefix<T>(s: seq<T>, n: nat, a: nat, b: nat)
    requires a <= b <= n <= |s|
    ensures s[..n][a..b] == s[a..b]
  {
  }

  lemma SliceOfTail<T>(s: seq<T>, n: nat, a: nat, b: nat)
    requires n <= a <= b <= |s|
    ensures s[n..][a - n..b - n] == s[a..b]
  {
  }

  lemma SliceOfSlice<T>(s: seq<T>, a: nat, b: nat, c: nat, d: nat)
    requires a <= b <= |s| && c <= d <= b - a
    ensures s[a..b][c..d] == s[a + c..a + d]
  {
    var l, r := s[a..b][c..d], s[a + c..a + d];
    assert |l| == |r|;
    assert forall k :: 0 <= k < |l| ==> l[k] == s[a + c + k] == r[k];
  }

  /** A slice cut in two at c. */
  lemma CutSlice<T>(s: seq<T>, a: nat, b: nat, c: nat)
    requires a + c <= b <= |s|
    ensures s[a..b][..c] == s[a..a + c]
    ensures s[a..b][c..] == s[a + c..b]
  {
  }

  lemma JoinSlices<T>(s: seq<T>, a: nat, b: nat, c: nat)
    requires a <= b <= c <= |s|
    ensures s[a..b] + s[b..c] == s[a..c]
  {
  }

  /** The chunks of a stream put together. */
  function Concat<T>(chunks: seq<seq<T>>): seq<T> {
    if chunks == [] then [] else chunks[0] + Concat(chunks[1..])
  }

  lemma {:induction false} ConcatNext<T>(chunks: seq<seq<T>>, k: nat)
    requires k < |chunks|
    ensures Concat(chunks[..k + 1]) == Concat(chunks[..k]) + chunks[k]
    decreases k
  {
    if k > 0 {
      ConcatNext(chunks[1..], k - 1);
      assert chunks[..k + 1][1..] == chunks[1..][..k] && chunks[..k][1..] == chunks[1..][..k - 1];
      Assoc(chunks[0], Concat(chunks[1..][..k - 1]), chunks[k]);
    } else {
      assert chunks[..1][1..] == [] && chunks[..0] == [];
    }
  }

  lemma {:induction false} SubsetSize<T>(a: set<T>, b: set<T>)
    requires a <= b
    ensures |a| <= |b|
  {
    assert b == a + (b - a);
  }
}
