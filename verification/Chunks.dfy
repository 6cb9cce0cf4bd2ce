/**
 Cutting a byte string into chunks of a fixed size and joining them again, as
 SendData (src/L3/ChannelMux.cpp:497-534) and EncodeMshChunked
 (src/link/AmpAdpCarrier.cpp:36-64) cut and the two reassemblers join.
 */
module Chunks {
  import opened Words

  /** How many chunks it takes: the source's rounded-up division. */
  function Needed(len: nat, size: nat): nat
    requires size >= 1
  {
    (len + size - 1) / size
  }

  /** The i-th chunk: `size` bytes from i * size on, fewer at the end. */
  function ChunkAt(whole: Bytes, size: nat, i: nat): Bytes
    requires size >= 1
  {
    whole[Min(i * size, |whole|)..Min(i * size + size, |whole|)]
  }

  function Split(whole: Bytes, size: nat): seq<Bytes>
    requires size >= 1
  {
    seq(Needed(|whole|, size), i requires 0 <= i < Needed(|whole|, size) => ChunkAt(whole, size, i))
  }

  function Join(chunks: seq<Bytes>): Bytes {
    if chunks == [] then [] else Join(chunks[..|chunks| - 1]) + chunks[|chunks| - 1]
  }

  lemma NeededBounds(len: nat, size: nat)
    requires size >= 1
    ensures Needed(len, size) * size >= len
    ensures len >= 1 ==> Needed(len, size) >= 1 && (Needed(len, size) - 1) * size < len
    ensures Needed(len, size) <= len
  {
    var n := Needed(len, size);
    assert n * size <= len + size - 1 < n * size + size;
    if n > len { MulMono(len + 1, n, size); MulMono(1, size, len); }
  }

  lemma MulMono(a: nat, b: nat, c: nat)
    requires a <= b
    ensures a * c <= b * c && c * a <= c * b
  {
  }

  /** Every chunk carries at least a byte and at most `size`. */
  lemma ChunkSizes(whole: Bytes, size: nat, i: nat)
    requires size >= 1 && i < Needed(|whole|, size)
    ensures 1 <= |ChunkAt(whole, size, i)| <= size && i * size < |whole|
    ensures ChunkAt(whole, size, i) == whole[i * size..][..Min(size, |whole| - i * size)]
  {
    NeededBounds(|whole|, size);
    MulMono(i, Needed(|whole|, size) - 1, size);
  }

  lemma Adjacent(whole: Bytes, size: nat, i: nat)
    requires size >= 1
    ensures i * size + size == (i + 1) * size
    ensures whole[..Min(i * size, |whole|)] + ChunkAt(whole, size, i) == whole[..Min((i + 1) * size, |whole|)]
  {
    assert i * size + size == (i + 1) * size;
  }

  lemma {:induction false} JoinSplitPrefix(whole: Bytes, size: nat, n: nat)
    requires size >= 1 && n <= Needed(|whole|, size)
    ensures Join(Split(whole, size)[..n]) == whole[..Min(n * size, |whole|)]
  {
    if n > 0 {
      var front := Split(whole, size)[..n];
      assert front[..n - 1] == Split(whole, size)[..n - 1];
      JoinSplitPrefix(whole, size, n - 1);
      assert front[n - 1] == ChunkAt(whole, size, n - 1);
      Adjacent(whole, size, n - 1);
    }
  }

  /** Joining the chunks gives back what was cut, whatever the size. */
  lemma JoinSplit(whole: Bytes, size: nat)
    requires size >= 1
    ensures Join(Split(whole, size)) == whole
  {
    var n := Needed(|whole|, size);
    JoinSplitPrefix(whole, size, n);
    assert Split(whole, size)[..n] == Split(whole, size);
    NeededBounds(|whole|, size);
  }

  // ------------------------------------------------------------ lengths

  function JoinedLength(chunks: seq<Bytes>): nat {
    if chunks == [] then 0 else JoinedLength(chunks[..|chunks| - 1]) + |chunks[|chunks| - 1]|
  }

  lemma {:induction false} LengthOfJoin(chunks: seq<Bytes>)
    ensures |Join(chunks)| == JoinedLength(chunks)
  {
    if chunks != [] { LengthOfJoin(chunks[..|chunks| - 1]); }
  }

  lemma {:induction false} LengthAfterUpdate(chunks: seq<Bytes>, i: nat, x: Bytes)
    requires i < |chunks|
    ensures JoinedLength(chunks[i := x]) == JoinedLength(chunks) - |chunks[i]| + |x|
  {
    var n := |chunks| - 1;
    if i == n {
      assert chunks[i := x][..n] == chunks[..n];
    } else {
      assert chunks[i := x][..n] == chunks[..n][i := x];
      LengthAfterUpdate(chunks[..n], i, x);
    }
  }

  lemma {:induction false} LengthMonotone(a: seq<Bytes>, b: seq<Bytes>)
    requires |a| == |b| && forall i :: 0 <= i < |a| ==> |a[i]| <= |b[i]|
    ensures JoinedLength(a) <= JoinedLength(b)
  {
    if a != [] { LengthMonotone(a[..|a| - 1], b[..|b| - 1]); }
  }

  lemma {:induction false} LengthOfNone(chunks: seq<Bytes>)
    requires forall i :: 0 <= i < |chunks| ==> chunks[i] == []
    ensures JoinedLength(chunks) == 0
  {
    if chunks != [] { LengthOfNone(chunks[..|chunks| - 1]); }
  }
}
