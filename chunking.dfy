/** `chunkArray`: cutting a list into consecutive slices of a fixed size. */
module Chunking {
  import opened Seqs

  /** The slices `chunkArray` pushes, as a function: slices of `size`
      elements from the front, the last one holding what remains. */
  function Chunks<T>(xs: seq<T>, size: nat): seq<seq<T>>
    requires size > 0
    decreases |xs|
  {
    if xs == [] then []
    else
      var k := if |xs| < size then |xs| else size;
      [xs[..k]] + Chunks(xs[k..], size)
  }

  /** The loop of `chunkArray`: `i` steps by `size` and each step pushes
      `array.slice(i, i + size)`, which stops at the end of the list. */
  method ChunkArray<T>(xs: seq<T>, size: nat) returns (chunked: seq<seq<T>>)
    requires size > 0
    ensures chunked == Chunks(xs, size)
  {
    chunked := [];
    var i := 0;
    while i < |xs|
      invariant 0 <= i
      invariant i < |xs| ==> chunked + Chunks(xs[i..], size) == Chunks(xs, size)
      invariant i >= |xs| ==> chunked == Chunks(xs, size)
      decreases |xs| - i
    {
      var hi := if i + size < |xs| then i + size else |xs|;
      ChunksStep(xs, i, hi, size);
      chunked := chunked + [xs[i..hi]];
      i := i + size;
    }
  }

  /** One step of the loop: the chunks from `i` are the slice up to `hi`
      followed by the chunks from `hi`. */
  lemma ChunksStep<T>(xs: seq<T>, i: nat, hi: nat, size: nat)
    requires size > 0 && i < |xs|
    requires hi == if i + size < |xs| then i + size else |xs|
    ensures Chunks(xs[i..], size) == [xs[i..hi]] + Chunks(xs[hi..], size)
  {
    var ys := xs[i..];
    var k := if |ys| < size then |ys| else size;
    assert ys[..k] == xs[i..hi];
    assert ys[k..] == xs[hi..];
  }

  /** Concatenating the chunks gives back the list. */
  lemma {:induction false} ChunksConcat<T>(xs: seq<T>, size: nat)
    requires size > 0
    ensures Concat(Chunks(xs, size)) == xs
    decreases |xs|
  {
    if xs != [] {
      var k := if |xs| < size then |xs| else size;
      ChunksConcat(xs[k..], size);
      ConcatCons(xs[..k], Chunks(xs[k..], size));
      assert xs == xs[..k] + xs[k..];
    }
  }

  /** Every chunk has between 1 and `size` elements, and every chunk but the
      last has exactly `size`. */
  lemma {:induction false} ChunksSizes<T>(xs: seq<T>, size: nat)
    requires size > 0
    ensures forall i :: 0 <= i < |Chunks(xs, size)| ==> 1 <= |Chunks(xs, size)[i]| <= size
    ensures forall i :: 0 <= i < |Chunks(xs, size)| - 1 ==> |Chunks(xs, size)[i]| == size
    decreases |xs|
  {
    if xs != [] {
      var k := if |xs| < size then |xs| else size;
      ChunksSizes(xs[k..], size);
      var cs := Chunks(xs, size);
      assert cs[1..] == Chunks(xs[k..], size);
      assert k < size ==> xs[k..] == [];
      forall i | 0 <= i < |cs|
        ensures 1 <= |cs[i]| <= size
        ensures i < |cs| - 1 ==> |cs[i]| == size
      {
        if i > 0 {
          assert cs[i] == cs[1..][i - 1];
        }
      }
    }
  }

  /** There are ceil(n / size) chunks: `size` times the count covers the
      list, and one chunk fewer would not. In particular the empty list gives
      no chunk at all. */
  lemma {:induction false} ChunksCount<T>(xs: seq<T>, size: nat)
    requires size > 0
    ensures (|Chunks(xs, size)| - 1) * size < |xs| <= |Chunks(xs, size)| * size
    ensures xs == [] <==> Chunks(xs, size) == []
    decreases |xs|
  {
    if xs != [] && |xs| > size {
      ChunksCount(xs[size..], size);
      var c := |Chunks(xs[size..], size)|;
      assert |Chunks(xs, size)| == c + 1;
      assert (c + 1) * size == c * size + size;
    }
  }

  /** With the chunk size the compiler uses, 2500 rows give three chunks of
      1000, 1000 and 500 rows. */
  lemma Chunks2500<T>(xs: seq<T>)
    requires |xs| == 2500
    ensures |Chunks(xs, 1000)| == 3
    ensures |Chunks(xs, 1000)[0]| == 1000 && |Chunks(xs, 1000)[1]| == 1000
    ensures |Chunks(xs, 1000)[2]| == 500
  {
    ChunksCount(xs, 1000);
    ChunksSizes(xs, 1000);
    var cs := Chunks(xs, 1000);
    assert cs[1..] == Chunks(xs[1000..], 1000);
    assert cs[2] == Chunks(xs[1000..], 1000)[1];
    assert Chunks(xs[1000..], 1000)[1..] == Chunks(xs[2000..], 1000);
  }
}
