/** The bookkeeping of the HDFS engine: cutting a list into consecutive
    slices of a fixed size (`for i in range(0, len(s), size): s[i:i + size]`)
    and keeping only the non-empty results, which are the ones written. */
module Chunking {
  import opened Seqs

  /** The slices `s[i:i + size]` for `i` in `range(0, len(s), size)`. */
  function Chunks<T>(s: seq<T>, size: nat): seq<seq<T>>
    requires size >= 1
    decreases |s|
  {
    if |s| <= size then (if s == [] then [] else [s])
    else [s[..size]] + Chunks(s[size..], size)
  }

  /** The slices cover `s` in order without overlap. */
  lemma {:induction false} ChunksConcat<T>(s: seq<T>, size: nat)
    requires size >= 1
    ensures Concat(Chunks(s, size)) == s
    decreases |s|
  {
    if |s| <= size {
      if s != [] {
        assert [s][..0] == [];
      }
    } else {
      ChunksConcat(s[size..], size);
      ConcatCons(s[..size], Chunks(s[size..], size));
      assert s == s[..size] + s[size..];
    }
  }

  /** Each slice holds between 1 and `size` elements, all but the last
      exactly `size`. */
  lemma {:induction false} ChunksSizes<T>(s: seq<T>, size: nat)
    requires size >= 1
    ensures forall c :: 0 <= c < |Chunks(s, size)| ==> 1 <= |Chunks(s, size)[c]| <= size
    ensures forall c :: 0 <= c < |Chunks(s, size)| - 1 ==> |Chunks(s, size)[c]| == size
    decreases |s|
  {
    if |s| > size {
      ChunksSizes(s[size..], size);
    }
  }

  /** There are ceil(|s| / size) slices, none when `s` is empty. */
  lemma {:induction false} ChunksCount<T>(s: seq<T>, size: nat)
    requires size >= 1
    ensures s == [] <==> |Chunks(s, size)| == 0
    ensures |Chunks(s, size)| > 0 ==> (|Chunks(s, size)| - 1) * size < |s| <= |Chunks(s, size)| * size
    decreases |s|
  {
    if |s| > size {
      var c := |Chunks(s[size..], size)|;
      ChunksCount(s[size..], size);
      assert |Chunks(s, size)| == c + 1;
      assert (c + 1 - 1) * size == (c - 1) * size + size;
      assert (c + 1) * size == c * size + size;
    }
  }

  /** The three facts together: the slices are a cover of `s` by
      ceil(|s| / size) pieces of at most `size` elements. */
  lemma ChunksCover<T>(s: seq<T>, size: nat)
    requires size >= 1
    ensures Concat(Chunks(s, size)) == s
    ensures forall c :: 0 <= c < |Chunks(s, size)| ==> 1 <= |Chunks(s, size)[c]| <= size
    ensures forall c :: 0 <= c < |Chunks(s, size)| - 1 ==> |Chunks(s, size)[c]| == size
    ensures s == [] <==> |Chunks(s, size)| == 0
    ensures |Chunks(s, size)| > 0 ==> (|Chunks(s, size)| - 1) * size < |s| <= |Chunks(s, size)| * size
  {
    ChunksConcat(s, size);
    ChunksSizes(s, size);
    ChunksCount(s, size);
  }

  /** A slice of length 1 to `size` is one chunk. */
  lemma OneChunk<T>(s: seq<T>, size: nat)
    requires 1 <= |s| <= size
    ensures Chunks(s, size) == [s]
  {
  }

  /** Chunking a whole number of chunks followed by more elements chunks
      the two parts separately. */
  lemma {:induction false} ChunksAppend<T>(a: seq<T>, b: seq<T>, size: nat, k: nat)
    requires size >= 1 && |a| == k * size
    ensures Chunks(a + b, size) == Chunks(a, size) + Chunks(b, size)
    decreases k
  {
    if k == 0 {
      assert a + b == b;
    } else {
      assert |a| == (k - 1) * size + size;
      assert (a + b)[..size] == a[..size];
      assert (a + b)[size..] == a[size..] + b;
      if |a| == size {
        assert a[size..] == [];
        if b == [] {
          assert a + b == a;
        }
      } else {
        ChunksAppend(a[size..], b, size, k - 1);
      }
    }
  }

  /** The chunks of `s[..end]` are those of `s[..i]` and then the slice
      `s[i..end]`, when `s[..i]` is a whole number of chunks. */
  lemma ChunksStep<T>(s: seq<T>, size: nat, k: nat, i: nat, end: nat)
    requires size >= 1 && i == k * size && i < end <= |s| && end - i <= size
    ensures Chunks(s[..end], size) == Chunks(s[..i], size) + [s[i..end]]
  {
    assert s[..end] == s[..i] + s[i..end];
    ChunksAppend(s[..i], s[i..end], size, k);
    OneChunk(s[i..end], size);
  }

  /** The non-empty lists of `ss`, in order. */
  function NonEmpty<T>(ss: seq<seq<T>>): seq<seq<T>>
  {
    if ss == [] then []
    else NonEmpty(ss[..|ss| - 1]) + (if ss[|ss| - 1] != [] then [ss[|ss| - 1]] else [])
  }

  /** The positions of the non-empty lists of `ss`, in order. */
  function NonEmptyIndices<T>(ss: seq<seq<T>>): seq<nat>
  {
    if ss == [] then []
    else NonEmptyIndices(ss[..|ss| - 1]) + (if ss[|ss| - 1] != [] then [|ss| - 1] else [])
  }

  lemma NonEmptySnoc<T>(ss: seq<seq<T>>, x: seq<T>)
    ensures NonEmpty(ss + [x]) == NonEmpty(ss) + (if x != [] then [x] else [])
    ensures NonEmptyIndices(ss + [x]) == NonEmptyIndices(ss) + (if x != [] then [|ss|] else [])
  {
    assert (ss + [x])[..|ss|] == ss;
  }

  /** Dropping the empty lists changes no concatenation. */
  lemma {:induction false} NonEmptyConcat<T>(ss: seq<seq<T>>)
    ensures Concat(NonEmpty(ss)) == Concat(ss)
  {
    if ss != [] {
      var p := ss[..|ss| - 1];
      var x := ss[|ss| - 1];
      NonEmptyConcat(p);
      if x != [] {
        assert (NonEmpty(p) + [x])[..|NonEmpty(p)|] == NonEmpty(p);
      } else {
        assert NonEmpty(ss) == NonEmpty(p);
      }
    }
  }

  /** What is kept is non-empty, and the kept lists sit, in order, at
      strictly increasing positions of `ss`. */
  lemma {:induction false} NonEmptyPositions<T>(ss: seq<seq<T>>)
    ensures forall j :: 0 <= j < |NonEmpty(ss)| ==> NonEmpty(ss)[j] != []
    ensures |NonEmpty(ss)| <= |ss|
    ensures |NonEmptyIndices(ss)| == |NonEmpty(ss)|
    ensures forall j :: 0 <= j < |NonEmpty(ss)| ==>
              NonEmptyIndices(ss)[j] < |ss| && ss[NonEmptyIndices(ss)[j]] == NonEmpty(ss)[j]
    ensures forall j, l :: 0 <= j < l < |NonEmptyIndices(ss)| ==> NonEmptyIndices(ss)[j] < NonEmptyIndices(ss)[l]
  {
    if ss != [] {
      NonEmptyPositions(ss[..|ss| - 1]);
    }
  }
}
