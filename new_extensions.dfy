/**
 * The chunking and sampling helpers: splitting a sequence into a given number of blocks of
 * equal size (the last one possibly shorter), and taking a prefix sample of every block.
 * Each LINQ pipeline is a function on sequences; each iterator is a method whose loop
 * builds the sequence of chunks the iterator yields.
 */
module NewExtensions {
  import opened Wrappers
  import opened Sequences

  /** `(int)Math.Ceiling((double)n / d)`, on integers. */
  function CeilDiv(n: nat, d: int): (r: nat)
    requires d >= 1
    ensures r * d >= n && (r - 1) * d < n
  {
    var q := (n + d - 1) / d;
    assert (n + d - 1) == q * d + (n + d - 1) % d;
    q
  }

  /** `Enumerable.Chunk(size)`: consecutive blocks of `size` elements, the last one possibly shorter. */
  function Chunk<T>(src: seq<T>, size: int): (r: seq<seq<T>>)
    requires size >= 1
    ensures forall i :: 0 <= i < |r| ==> r[i] != []
    decreases |src|
  {
    if src == [] then []
    else
      var b := Min(size, |src|);
      [src[..b]] + Chunk(src[b..], size)
  }

  /** The blocks flatten back to the source; each has 1 to `size` elements, and all but the last exactly `size`. */
  lemma {:induction false} ChunkShape<T>(src: seq<T>, size: int)
    requires size >= 1
    ensures var r := Chunk(src, size);
            && Flatten(r) == src
            && (forall i :: 0 <= i < |r| ==> 1 <= |r[i]| <= size)
            && (forall i :: 0 <= i < |r| - 1 ==> |r[i]| == size)
    decreases |src|
  {
    if src != [] {
      var b := Min(size, |src|);
      var rest := Chunk(src[b..], size);
      ChunkShape(src[b..], size);
      var r := Chunk(src, size);
      assert r == [src[..b]] + rest;
      assert r[1..] == rest;
      assert src == src[..b] + src[b..];
      forall i | 1 <= i < |r| ensures r[i] == rest[i - 1] {
      }
    }
  }

  /** There are `CeilDiv(|src|, size)` chunks. */
  lemma {:induction false} ChunkCount<T>(src: seq<T>, size: int)
    requires size >= 1
    ensures |Chunk(src, size)| == CeilDiv(|src|, size)
    decreases |src|
  {
    if src != [] {
      var b := Min(size, |src|);
      ChunkCount(src[b..], size);
      CeilDivStep(|src|, size);
    }
  }

  /** Removing one block of `d` (or everything when fewer remain) takes one off the ceiling. */
  lemma CeilDivStep(n: nat, d: int)
    requires d >= 1 && n >= 1
    ensures CeilDiv(n, d) == 1 + CeilDiv(n - Min(d, n), d)
  {
    var q, q' := CeilDiv(n, d), CeilDiv(n - Min(d, n), d);
    if n <= d {
      assert q' == 0;
      assert 0 * d < n && (1 - 1) * d < n;
      CeilDivUnique(n, d, q, 1);
    } else {
      assert q' * d >= n - d && (q' - 1) * d < n - d;
      assert (q' + 1) * d >= n && q' * d < n;
      CeilDivUnique(n, d, q, q' + 1);
    }
  }

  /** The ceiling is the only `a` with `(a - 1) * d < n <= a * d`. */
  lemma CeilDivUnique(n: nat, d: int, a: int, b: int)
    requires d >= 1
    requires a * d >= n && (a - 1) * d < n
    requires b * d >= n && (b - 1) * d < n
    ensures a == b
  {
    MulCancel(a - 1, b, d);
    MulCancel(b - 1, a, d);
  }

  lemma MulCancel(x: int, y: int, d: int)
    requires d >= 1 && x * d < y * d
    ensures x < y
  {
    assert (y - x) * d == y * d - x * d;
  }

  /** Where block `i` starts: `i * size`, counted block by block. */
  function BlockStart(i: nat, size: int): int
  {
    if i == 0 then 0 else BlockStart(i - 1, size) + size
  }

  lemma {:induction false} BlockStartIsProduct(i: nat, size: int)
    ensures BlockStart(i, size) == i * size
  {
    if i > 0 {
      BlockStartIsProduct(i - 1, size);
      assert (i - 1) * size + size == i * size;
    }
  }

  /** Chunk `i` is the block of the source from `BlockStart(i, size)`, `size` elements long or cut at the end. */
  lemma {:induction false} ChunkAt<T>(src: seq<T>, size: int, i: nat)
    requires size >= 1 && i < |Chunk(src, size)|
    ensures 0 <= BlockStart(i, size) < |src|
    ensures Chunk(src, size)[i] == src[BlockStart(i, size)..Min(BlockStart(i, size) + size, |src|)]
    decreases i
  {
    if i > 0 {
      var rest := src[size..];
      assert |src| > size;
      assert Chunk(src, size)[i] == Chunk(rest, size)[i - 1];
      ChunkAt(rest, size, i - 1);
      var lo := BlockStart(i - 1, size);
      ShiftedSlice(src, size, lo, Min(lo + size, |rest|));
    }
  }

  /** Splitting `n > 0` elements into blocks of `CeilDiv(n, chunks)` gives at most `chunks` blocks. */
  lemma AtMostChunks(n: nat, chunks: int)
    requires chunks >= 1 && n >= 1
    ensures CeilDiv(n, chunks) >= 1
    ensures CeilDiv(n, CeilDiv(n, chunks)) <= chunks
  {
    var c := CeilDiv(n, chunks);
    var m := CeilDiv(n, c);
    assert c * chunks == chunks * c;
    MulCancel(m - 1, chunks, c);
  }

  /**
   * `ChunkedIn(chunks)`: the source split into blocks of `CeilDiv(n, chunks)` elements, hence
   * into at most `chunks` blocks; `chunks < 1` is rejected before the source is looked at.
   */
  function ChunkedIn<T>(source: seq<T>, chunks: int): (r: Result<seq<seq<T>>>)
    ensures chunks < 1 ==> r == Err(ArgumentOutOfRange)
    ensures chunks >= 1 ==>
              && r.Ok?
              && Flatten(r.value) == source
              && |r.value| <= chunks
              && (forall i :: 0 <= i < |r.value| ==> 1 <= |r.value[i]| <= CeilDiv(|source|, chunks))
              && (forall i :: 0 <= i < |r.value| - 1 ==> |r.value[i]| == CeilDiv(|source|, chunks))
              && (source != [] ==> |r.value| == CeilDiv(|source|, CeilDiv(|source|, chunks)))
  {
    if chunks < 1 then Err(ArgumentOutOfRange)
    else if source == [] then Ok([])
    else
      var chunkSize := CeilDiv(|source|, chunks);
      AtMostChunks(|source|, chunks);
      ChunkCount(source, chunkSize);
      ChunkShape(source, chunkSize);
      Ok(Chunk(source, chunkSize))
  }

  /** `Select(chk => chk.First())`: the first element of each block. */
  function Firsts<T>(blocks: seq<seq<T>>): (r: seq<T>)
    requires forall i :: 0 <= i < |blocks| ==> |blocks[i]| >= 1
    ensures |r| == |blocks| && forall i :: 0 <= i < |r| ==> r[i] == blocks[i][0]
  {
    seq(|blocks|, i requires 0 <= i < |blocks| => blocks[i][0])
  }

  /** The first elements of the first `k` blocks of `Chunk(src, size)` are the source elements at multiples of `size`. */
  lemma TakeFirsts<T>(src: seq<T>, size: int, k: int)
    requires size >= 1
    ensures var r := Take(Firsts(Chunk(src, size)), k);
            forall i :: 0 <= i < |r| ==> i * size < |src| && r[i] == src[i * size]
  {
    var blocks := Chunk(src, size);
    var r := Take(Firsts(blocks), k);
    forall i | 0 <= i < |r| ensures i * size < |src| && r[i] == src[i * size] {
      assert r[i] == Firsts(blocks)[i];
      ChunkAt(src, size, i);
      BlockStartIsProduct(i, size);
    }
  }

  /** `SamplesByChunk(chunks, maxSamples)`: the first element of each `ChunkedIn` block, at most `maxSamples` of them. */
  function SamplesByChunk<T>(source: seq<T>, chunks: int, maxSamples: int): (r: Result<seq<T>>)
    ensures chunks < 1 ==> r == Err(ArgumentOutOfRange)
    ensures chunks >= 1 ==>
              && r.Ok?
              && |r.value| <= chunks && |r.value| <= Max(0, maxSamples)
              && (source != [] ==> |r.value| == Max(0, Min(maxSamples, CeilDiv(|source|, CeilDiv(|source|, chunks)))))
              && (forall i :: 0 <= i < |r.value| ==>
                    i * CeilDiv(|source|, chunks) < |source| && r.value[i] == source[i * CeilDiv(|source|, chunks)])
  {
    match ChunkedIn(source, chunks)
    case Err(e) => Err(e)
    case Ok(blocks) =>
      if source == [] then
        Ok(Take(Firsts(blocks), maxSamples))
      else
        var size := CeilDiv(|source|, chunks);
        AtMostChunks(|source|, chunks);
        ChunkCount(source, size);
        TakeFirsts(source, size, maxSamples);
        Ok(Take(Firsts(blocks), maxSamples))
  }

  /** The sample of one block (`allockSize` elements): a prefix of at most `sampleSize`, or the whole block when `sampleSize <= 0`. */
  function Sample<T>(block: seq<T>, sampleSize: int): seq<T>
  {
    if sampleSize > 0 then block[..Min(sampleSize, |block|)] else block
  }

  /** The chunks the sampling iterators yield: the sample of each block of `size` elements, in order. */
  function SampleChunks<T>(src: seq<T>, size: int, sampleSize: int): seq<seq<T>>
    requires size >= 1
    decreases |src|
  {
    if src == [] then []
    else
      var b := Min(size, |src|);
      [Sample(src[..b], sampleSize)] + SampleChunks(src[b..], size, sampleSize)
  }

  /** Chunk `i` of a sampling iterator is the sample of block `i` of `Chunk`: a prefix of it, of length `Min(sampleSize, |block|)`. */
  lemma {:induction false} SampleChunksOfChunk<T>(src: seq<T>, size: int, sampleSize: int)
    requires size >= 1
    ensures var blocks, samples := Chunk(src, size), SampleChunks(src, size, sampleSize);
            && |samples| == |blocks|
            && forall i :: 0 <= i < |blocks| ==>
                 && samples[i] <= blocks[i]
                 && |samples[i]| == (if sampleSize > 0 then Min(sampleSize, |blocks[i]|) else |blocks[i]|)
    decreases |src|
  {
    if src != [] {
      var b := Min(size, |src|);
      SampleChunksOfChunk(src[b..], size, sampleSize);
      var blocks, samples := Chunk(src, size), SampleChunks(src, size, sampleSize);
      assert blocks == [src[..b]] + Chunk(src[b..], size);
      assert samples == [Sample(src[..b], sampleSize)] + SampleChunks(src[b..], size, sampleSize);
      forall i | 1 <= i < |blocks|
        ensures samples[i] == SampleChunks(src[b..], size, sampleSize)[i - 1]
        ensures blocks[i] == Chunk(src[b..], size)[i - 1]
      {
      }
    }
  }

  /** With `sampleSize <= 0` every block is yielded whole. */
  lemma {:induction false} WholeBlocks<T>(src: seq<T>, size: int, sampleSize: int)
    requires size >= 1 && sampleSize <= 0
    ensures SampleChunks(src, size, sampleSize) == Chunk(src, size)
    decreases |src|
  {
    if src != [] {
      WholeBlocks(src[Min(size, |src|)..], size, sampleSize);
    }
  }

  /** One step of a sampling iterator: the sample of the next block, and the rest after it. */
  lemma SampleChunksStep<T>(src: seq<T>, index: nat, size: int, sampleSize: int, blockSize: int, allockSize: int)
    requires size >= 1 && index < |src|
    requires blockSize == Min(size, |src| - index)
    requires allockSize == if sampleSize > 0 then Min(sampleSize, blockSize) else blockSize
    ensures SampleChunks(src[index..], size, sampleSize)
              == [src[index..index + allockSize]] + SampleChunks(src[index + blockSize..], size, sampleSize)
  {
    var rest := src[index..];
    assert rest != [] && Min(size, |rest|) == blockSize;
    assert SampleChunks(rest, size, sampleSize)
        == [Sample(rest[..blockSize], sampleSize)] + SampleChunks(rest[blockSize..], size, sampleSize);
    assert rest[blockSize..] == src[index + blockSize..];
    if sampleSize > 0 {
      assert Min(sampleSize, |rest[..blockSize]|) == allockSize;
      assert rest[..blockSize][..allockSize] == src[index..index + allockSize];
    } else {
      assert rest[..blockSize] == src[index..index + allockSize];
    }
  }

  /** An iterator step in terms of its loop invariant: the chunks so far and the samples of the rest. */
  lemma IteratorStep<T>(src: seq<T>, start: nat, size: int, sampleSize: int, before: seq<seq<T>>,
                        blockSize: int, allockSize: int, chunk: seq<T>, chunks: seq<seq<T>>, index: int)
    requires size >= 1 && start < |src|
    requires before + SampleChunks(src[start..], size, sampleSize) == SampleChunks(src, size, sampleSize)
    requires blockSize == Min(size, |src| - start)
    requires allockSize == if sampleSize > 0 then Min(sampleSize, blockSize) else blockSize
    requires chunk == src[start..start + allockSize]
    requires chunks == before + [chunk] && index == start + blockSize
    ensures index <= |src|
    ensures chunks + SampleChunks(src[index..], size, sampleSize) == SampleChunks(src, size, sampleSize)
  {
    var rest := SampleChunks(src[index..], size, sampleSize);
    SampleChunksStep(src, start, size, sampleSize, blockSize, allockSize);
    AppendAssoc(before, [chunk], rest);
  }

  /** `ArrayChunkIteratorForSample`: copies the sample of each block out of the array. */
  method ArrayChunkIteratorForSample<T>(source: array<T>, size: int, sampleSize: int) returns (chunks: seq<seq<T>>)
    requires size >= 1
    ensures chunks == SampleChunks(source[..], size, sampleSize)
  {
    ghost var items := source[..];
    var index := 0;
    chunks := [];
    assert items[index..] == items;
    while index < source.Length
      invariant 0 <= index <= source.Length
      invariant chunks + SampleChunks(items[index..], size, sampleSize) == SampleChunks(items, size, sampleSize)
      decreases source.Length - index
    {
      var blockSize := Min(size, source.Length - index);
      var allockSize := if sampleSize > 0 then Min(sampleSize, blockSize) else blockSize;
      var chunk := source[index..index + allockSize];
      assert chunk == items[index..index + allockSize];
      ghost var before, start := chunks, index;
      index := index + blockSize;
      chunks := chunks + [chunk];
      IteratorStep(items, start, size, sampleSize, before, blockSize, allockSize, chunk, chunks, index);
    }
    IteratorDone(items, index, size, sampleSize, chunks);
  }

  /** `CollectionChunkIteratorForSample`: `Skip(index).Take(allockSize)` of each block. */
  method CollectionChunkIteratorForSample<T>(source: seq<T>, size: int, sampleSize: int) returns (chunks: seq<seq<T>>)
    requires size >= 1
    ensures chunks == SampleChunks(source, size, sampleSize)
  {
    var index := 0;
    chunks := [];
    assert source[index..] == source;
    while index < |source|
      invariant 0 <= index <= |source|
      invariant chunks + SampleChunks(source[index..], size, sampleSize) == SampleChunks(source, size, sampleSize)
      decreases |source| - index
    {
      var blockSize := Min(size, |source| - index);
      var allockSize := if sampleSize > 0 then Min(sampleSize, blockSize) else blockSize;
      var chunk := Take(source[index..], allockSize);
      SkipTake(source, index, allockSize);
      ghost var before, start := chunks, index;
      index := index + blockSize;
      chunks := chunks + [chunk];
      IteratorStep(source, start, size, sampleSize, before, blockSize, allockSize, chunk, chunks, index);
    }
    IteratorDone(source, index, size, sampleSize, chunks);
  }

  /** An iterator is done when its index reaches the end: the chunks so far are all the sampled chunks. */
  lemma IteratorDone<T>(src: seq<T>, index: nat, size: int, sampleSize: int, chunks: seq<seq<T>>)
    requires size >= 1 && index == |src|
    requires chunks + SampleChunks(src[index..], size, sampleSize) == SampleChunks(src, size, sampleSize)
    ensures chunks == SampleChunks(src, size, sampleSize)
  {
    assert src[index..] == [];
    assert chunks + [] == chunks;
  }

  /** `Skip(index).Take(k)` within bounds is a slice. */
  lemma SkipTake<T>(source: seq<T>, index: nat, k: nat)
    requires index + k <= |source|
    ensures Take(source[index..], k) == source[index..index + k]
  {
  }

  /**
   * `Array.Resize(ref a, newSize)`: a new array of `newSize` elements starting with the old ones.
   * The slots past the old length hold `filler` where .NET puts `default(T)`.
   */
  method Resize<T>(a: array<T>, newSize: nat, filler: T) returns (b: array<T>)
    ensures fresh(b) && b.Length == newSize
    ensures forall k :: 0 <= k < Min(a.Length, newSize) ==> b[k] == a[k]
    ensures forall k :: Min(a.Length, newSize) <= k < newSize ==> b[k] == filler
  {
    b := new T[newSize](_ => filler);
    var n := Min(a.Length, newSize);
    for k := 0 to n
      invariant forall m :: 0 <= m < k ==> b[m] == a[m]
      invariant forall m :: n <= m < newSize ==> b[m] == filler
    {
      b[k] := a[k];
    }
  }

  /**
   * One block's sample as the enumerable iterator reads it: the current item `source[start]`
   * stored first, then up to `sampleSize` items in all, growing the array by doubling (capped at
   * `sampleSize`) while it is still smaller than `sampleSize`, and cut to the items read at the end.
   */
  method ReadSample<T>(source: seq<T>, start: nat, sampleSize: int, arraySize: int)
    returns (arr: array<T>, newArraySize: int)
    requires start < |source| && 1 <= arraySize <= sampleSize
    ensures fresh(arr)
    ensures arr[..] == source[start..start + Min(sampleSize, |source| - start)]
    ensures 1 <= newArraySize <= sampleSize
  {
    newArraySize := arraySize;
    var consumed := start + 1;
    arr := new T[newArraySize](_ => source[start]);
    arr[0] := source[consumed - 1];
    var i := 1;
    if sampleSize != arr.Length {
      while i < sampleSize && consumed < |source|
        invariant 1 <= i <= sampleSize && consumed == start + i <= |source|
        invariant 1 <= newArraySize <= sampleSize
        invariant i <= arr.Length == newArraySize
        invariant fresh(arr)
        invariant forall k :: 0 <= k < i ==> arr[k] == source[start + k]
        decreases sampleSize - i
      {
        consumed := consumed + 1;
        if i >= arr.Length {
          newArraySize := Min(sampleSize, 2 * arr.Length);
          arr := Resize(arr, newArraySize, source[consumed - 1]);
        }
        arr[i] := source[consumed - 1];
        i := i + 1;
      }
    } else {
      while i < arr.Length && consumed < |source|
        invariant 1 <= i <= arr.Length == sampleSize && consumed == start + i <= |source|
        invariant forall k :: 0 <= k < i ==> arr[k] == source[start + k]
        decreases arr.Length - i
      {
        consumed := consumed + 1;
        arr[i] := source[consumed - 1];
        i := i + 1;
      }
    }
    assert i == Min(sampleSize, |source| - start);
    if i != arr.Length {
      arr := Resize(arr, i, arr[0]);
    }
    SliceOfPointwise(arr[..], source, start);
  }

  /** The enumerable iterator's skip loop: `MoveNext` past the rest of the block, `taken` items of which are already read. */
  method SkipRest<T>(source: seq<T>, start: nat, size: int, taken: nat) returns (i: int, consumed: int)
    requires start + taken <= |source| && taken <= size
    ensures i == Min(size, |source| - start) && consumed == start + i
  {
    i := taken;
    consumed := start + i;
    while i < size && consumed < |source|
      invariant consumed == start + i <= |source| && taken <= i <= size
      decreases size - i
    {
      consumed := consumed + 1;
      i := i + 1;
    }
  }

  /** One block of the enumerable iterator: its sample read into an array, then the rest of it skipped. */
  method ReadBlock<T>(source: seq<T>, start: nat, size: int, sampleSize: int, arraySize: int)
    returns (sample: seq<T>, i: int, consumed: int, newArraySize: int)
    requires start < |source| && 1 <= arraySize <= sampleSize <= size
    ensures sample == source[start..start + Min(sampleSize, |source| - start)]
    ensures i == Min(size, |source| - start) && consumed == start + i
    ensures 1 <= newArraySize <= sampleSize
  {
    var arr;
    arr, newArraySize := ReadSample(source, start, sampleSize, arraySize);
    sample := arr[..];
    i, consumed := SkipRest(source, start, size, arr.Length);
  }

  /**
   * `EnumerableChunkIteratorForSample`, with the enumerator as the count `consumed` of items
   * `MoveNext` has passed: `MoveNext` succeeds iff `consumed < |source|`, and `Current` is
   * `source[consumed - 1]`. A non-positive `sampleSize` makes the first allocation or the first
   * store fail, as soon as the source has an element.
   */
  method EnumerableChunkIteratorForSample<T>(source: seq<T>, size: int, sampleSize: int) returns (r: Result<seq<seq<T>>>)
    requires 1 <= size && sampleSize <= size
    ensures source != [] && sampleSize < 0 ==> r == Err(Overflow)
    ensures source != [] && sampleSize == 0 ==> r == Err(IndexOutOfRange)
    ensures source == [] || sampleSize > 0 ==> r == Ok(SampleChunks(source, size, sampleSize))
  {
    var chunks: seq<seq<T>> := [];
    // the first `e.MoveNext()`
    if 0 < |source| {
      var arraySize := Min(sampleSize, 4);
      // The first pass fails on `new T[arraySize]` with a negative size, or on the store
      // `array[0] = e.Current` into an empty array; every later pass has `arraySize >= 1`.
      if arraySize < 0 {
        return Err(Overflow);
      }
      if arraySize == 0 {
        return Err(IndexOutOfRange);
      }
      chunks := SampleBlocks(source, size, sampleSize, arraySize);
    }
    return Ok(chunks);
  }

  /** `IteratorStep` for a block as `ReadBlock` reads it. */
  lemma SampleBlockStep<T>(source: seq<T>, start: nat, size: int, sampleSize: int, before: seq<seq<T>>, i: int, sample: seq<T>,
                           chunks: seq<seq<T>>, index: int)
    requires start < |source| && 1 <= sampleSize <= size
    requires before + SampleChunks(source[start..], size, sampleSize) == SampleChunks(source, size, sampleSize)
    requires i == Min(size, |source| - start)
    requires sample == source[start..start + Min(sampleSize, |source| - start)]
    requires chunks == before + [sample] && index == start + i
    ensures index <= |source|
    ensures chunks + SampleChunks(source[index..], size, sampleSize) == SampleChunks(source, size, sampleSize)
  {
    IteratorStep(source, start, size, sampleSize, before, i, Min(sampleSize, |source| - start), sample, chunks, index);
  }

  /**
   * The `do ... while (i >= size && e.MoveNext())` loop of `EnumerableChunkIteratorForSample`, entered
   * with the enumerator on the first item, `consumed == 1`.
   */
  method SampleBlocks<T>(source: seq<T>, size: int, sampleSize: int, arraySize: int) returns (chunks: seq<seq<T>>)
    requires source != [] && 1 <= arraySize <= sampleSize <= size
    ensures chunks == SampleChunks(source, size, sampleSize)
  {
    var consumed, index, arraySize := 1, 0, arraySize;
    chunks := [];
    assert source[index..] == source;
    while true
      invariant consumed == index + 1 <= |source|
      invariant 1 <= arraySize <= sampleSize
      invariant chunks + SampleChunks(source[index..], size, sampleSize) == SampleChunks(source, size, sampleSize)
      decreases |source| - consumed
    {
      var sample, i;
      sample, i, consumed, arraySize := ReadBlock(source, index, size, sampleSize, arraySize);
      ghost var before, start := chunks, index;
      chunks := chunks + [sample];
      index := index + i;
      SampleBlockStep(source, start, size, sampleSize, before, i, sample, chunks, index);
      if !(i >= size && consumed < |source|) {
        IteratorDone(source, index, size, sampleSize, chunks);
        return;
      }
      consumed := consumed + 1;
    }
  }

  /** What `ChunkForSample` finds the source to be at run time: an array, another collection, or a plain enumerable. */
  datatype Source<T> =
    | ArraySource(arr: array<T>)
    | CollectionSource(items: seq<T>)
    | EnumerableSource(items: seq<T>)

  /** The elements of the source, in enumeration order. */
  function Elements<T>(source: Source<T>): seq<T>
    reads if source.ArraySource? then {source.arr} else {}
  {
    match source
    case ArraySource(arr) => arr[..]
    case CollectionSource(items) => items
    case EnumerableSource(items) => items
  }

  /**
   * `ChunkForSample(chunks, maxSamples)`: blocks of `CeilDiv(n, chunks)` elements and the sample
   * of at most `Min(size, maxSamples)` of each, whatever the kind of source; with a non-positive
   * `maxSamples` arrays and collections give whole blocks while a plain enumerable fails.
   */
  method ChunkForSample<T>(source: Source<T>, chunks: int, maxSamples: int) returns (r: Result<seq<seq<T>>>)
    ensures chunks < 1 ==> r == Err(ArgumentOutOfRange)
    ensures chunks >= 1 && Elements(source) == [] ==> r == Ok([])
    ensures chunks >= 1 && Elements(source) != [] && (maxSamples > 0 || !source.EnumerableSource?) ==>
              var size := CeilDiv(|Elements(source)|, chunks);
              r == Ok(SampleChunks(Elements(source), size, Min(size, maxSamples)))
    ensures chunks >= 1 && Elements(source) != [] && source.EnumerableSource? && maxSamples < 0 ==> r == Err(Overflow)
    ensures chunks >= 1 && Elements(source) != [] && source.EnumerableSource? && maxSamples == 0 ==> r == Err(IndexOutOfRange)
  {
    if chunks < 1 {
      return Err(ArgumentOutOfRange);
    }
    var size;
    match source
    case ArraySource(arr) =>
      if arr.Length == 0 {
        return Ok([]);
      }
      size := CeilDiv(arr.Length, chunks);
      var samples := ArrayChunkIteratorForSample(arr, size, Min(size, maxSamples));
      return Ok(samples);
    case CollectionSource(collection) =>
      if |collection| == 0 {
        return Ok([]);
      }
      size := CeilDiv(|collection|, chunks);
      var samples := CollectionChunkIteratorForSample(collection, size, Min(size, maxSamples));
      return Ok(samples);
    case EnumerableSource(items) =>
      if items == [] {
        return Ok([]);
      }
      var count := |items|;
      size := CeilDiv(count, chunks);
      AtMostChunks(count, chunks);
      r := EnumerableChunkIteratorForSample(items, size, Min(size, maxSamples));
  }

  /** `CollectSamples(k)` as a sequence: the first `k` items of each chunk, chunk after chunk. */
  function Collected<T>(chunks: seq<seq<T>>, k: int): seq<T>
    decreases |chunks|
  {
    if chunks == [] then [] else Collected(chunks[..|chunks| - 1], k) + Take(chunks[|chunks| - 1], k)
  }

  /** `CollectSamples(maxSamplesByChunk)`: yields the items of `arr.Take(maxSamplesByChunk)` for each chunk `arr`. */
  method CollectSamples<T>(chunks: seq<seq<T>>, maxSamplesByChunk: int) returns (items: seq<T>)
    ensures items == Collected(chunks, maxSamplesByChunk)
  {
    items := [];
    for c := 0 to |chunks|
      invariant items == Collected(chunks[..c], maxSamplesByChunk)
    {
      var taken := Take(chunks[c], maxSamplesByChunk);
      ghost var before := items;
      for j := 0 to |taken|
        invariant items == before + taken[..j]
      {
        items := items + [taken[j]];
      }
      assert taken[..|taken|] == taken;
      assert chunks[..c + 1][..c] == chunks[..c];
    }
    assert chunks[..|chunks|] == chunks;
  }

  /** Collecting from a leading chunk and then from the rest. */
  lemma {:induction false} CollectedCons<T>(c: seq<T>, rest: seq<seq<T>>, k: int)
    ensures Collected([c] + rest, k) == Take(c, k) + Collected(rest, k)
    decreases |rest|
  {
    if rest != [] {
      var init, last := rest[..|rest| - 1], rest[|rest| - 1];
      CollectedCons(c, init, k);
      var whole := [c] + rest;
      assert whole[..|whole| - 1] == [c] + init && whole[|whole| - 1] == last;
      assert Collected(whole, k) == Collected([c] + init, k) + Take(last, k);
      AppendAssoc(Take(c, k), Collected(init, k), Take(last, k));
    }
  }

  /** A non-positive `maxSamplesByChunk` collects nothing. */
  lemma {:induction false} CollectedNothing<T>(chunks: seq<seq<T>>, k: int)
    requires k <= 0
    ensures Collected(chunks, k) == []
    decreases |chunks|
  {
    if chunks != [] {
      CollectedNothing(chunks[..|chunks| - 1], k);
    }
  }

  /** When no chunk is longer than `k`, everything is collected: for `Chunk(src, size)` and `k >= size`, the source itself. */
  lemma {:induction false} CollectedEverything<T>(chunks: seq<seq<T>>, k: int)
    requires forall i :: 0 <= i < |chunks| ==> |chunks[i]| <= k
    ensures Collected(chunks, k) == Flatten(chunks)
    decreases |chunks|
  {
    if chunks != [] {
      var init, last := chunks[..|chunks| - 1], chunks[|chunks| - 1];
      CollectedEverything(init, k);
      FlattenSnoc(init, last);
      assert init + [last] == chunks;
    }
  }

  /** Collecting `size` items per block of `Chunk(src, size)` gives back the source. */
  lemma CollectedChunks<T>(src: seq<T>, size: int)
    requires size >= 1
    ensures Collected(Chunk(src, size), size) == src
  {
    ChunkShape(src, size);
    CollectedEverything(Chunk(src, size), size);
  }

  /**
   * Sampling while chunking and collecting after chunking agree: the flattened samples of the
   * sampling iterators are `CollectSamples(sampleSize)` of the plain blocks.
   */
  lemma {:induction false} SamplesAreCollected<T>(src: seq<T>, size: int, sampleSize: int)
    requires size >= 1 && sampleSize >= 1
    ensures Flatten(SampleChunks(src, size, sampleSize)) == Collected(Chunk(src, size), sampleSize)
    decreases |src|
  {
    if src != [] {
      var b := Min(size, |src|);
      SamplesAreCollected(src[b..], size, sampleSize);
      var samples := SampleChunks(src, size, sampleSize);
      assert samples == [Sample(src[..b], sampleSize)] + SampleChunks(src[b..], size, sampleSize);
      assert samples[1..] == SampleChunks(src[b..], size, sampleSize);
      CollectedCons(src[..b], Chunk(src[b..], size), sampleSize);
      assert Chunk(src, size) == [src[..b]] + Chunk(src[b..], size);
    }
  }
}
