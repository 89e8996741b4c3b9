/**
 * The block-device read primitive built by createFileReader in lib/main.js: reads
 * of at most one block from a byte blob of fileSize bytes, with zero-fill past the
 * end of the file and a bounded FIFO cache of whole blocks.
 *
 * The asynchronous cache miss is split in two steps: Read answers Pending with the
 * slice to fetch, and CompleteFetch or FailFetch finishes the request once the
 * source has delivered the slice or failed.
 */
module FileReader {

  import opened Wrappers
  import opened BlockCache

  function Zeros(n: nat): (z: seq<bv8>)
    ensures |z| == n
    ensures forall k :: 0 <= k < n ==> z[k] == 0
  {
    seq(n, _ => 0)
  }

  /**
   * How many of the `size` requested bytes starting at `offset` lie inside a file
   * of `fileSize` bytes (lib/main.js:106).
   */
  function AvailableBytes(fileSize: nat, offset: nat, size: nat): (n: nat)
    ensures n <= size
    ensures n == 0 || offset + n <= fileSize
    ensures n < size ==> offset + n >= fileSize
  {
    if offset < fileSize then Min(size, fileSize - offset) else 0
  }

  /**
   * The single-block test of lib/main.js:101-102: the block of the first byte and
   * the block of `offset + size - 1` agree. Dafny's `/` on a negative dividend and a
   * positive divisor rounds down, as Math.floor does.
   */
  predicate SameBlock(blockSize: nat, offset: nat, size: nat)
    requires blockSize > 0
  {
    offset / blockSize == (offset + size - 1) / blockSize
  }

  lemma MulAtLeast(d: nat, t: int)
    requires t >= 1
    ensures d * t >= d
  {
    assert d * t == d * (t - 1) + d;
    assert d * (t - 1) >= 0;
  }

  lemma FloorDivUnique(x: int, d: nat, q: int)
    requires d > 0 && q * d <= x < q * d + d
    ensures x / d == q
  {
    var p, m := x / d, x % d;
    assert x == d * p + m && 0 <= m < d;
    var t := p - q;
    assert d * p == d * q + d * t;
    if t >= 1 {
      MulAtLeast(d, t);
    } else if t <= -1 {
      assert d * (-t) == -(d * t);
      MulAtLeast(d, -t);
    }
  }

  /**
   * What the single-block test accepts: a non-empty request must fit in the rest
   * of its block; an empty request passes only at an offset that is NOT a multiple
   * of the block size (at a multiple, `offset - 1` lies in the previous block, so
   * the source reports 'Access across blocks').
   */
  lemma SameBlockIff(blockSize: nat, offset: nat, size: nat)
    requires blockSize > 0
    ensures SameBlock(blockSize, offset, size) <==>
      if size == 0 then offset % blockSize != 0 else offset % blockSize + size <= blockSize
  {
    var q, r := offset / blockSize, offset % blockSize;
    assert offset == q * blockSize + r;
    var x := offset + size - 1;
    if size > 0 && r + size <= blockSize {
      FloorDivUnique(x, blockSize, q);
    } else if size == 0 && r != 0 {
      FloorDivUnique(x, blockSize, q);
    } else {
      assert x == blockSize * (x / blockSize) + x % blockSize;
      assert x / blockSize != q;
    }
  }

  /** The bytes a read of `size` bytes at `offset` must deliver: the file's bytes, then zeros past its end. */
  function LogicalBytes(file: seq<bv8>, offset: nat, size: nat): (r: seq<bv8>)
    ensures |r| == size
    ensures forall k :: 0 <= k < size ==> r[k] == if offset + k < |file| then file[offset + k] else 0
  {
    var n := AvailableBytes(|file|, offset, size);
    if n == 0 then Zeros(size) else file[offset..offset + n] + Zeros(size - n)
  }

  /** Reading block 1 of a 100-byte file with 64-byte blocks yields bytes 64 to 99, then 28 zeros. */
  lemma ShortTailScenario(file: seq<bv8>)
    requires |file| == 100
    ensures LogicalBytes(file, 64, 64) == file[64..100] + Zeros(28)
  {
  }

  /** The bytes of block `i`: the slice [i*blockSize, min(i*blockSize + blockSize, fileSize)). */
  function BlockData(file: seq<bv8>, blockSize: nat, i: nat): (b: seq<bv8>)
    requires i * blockSize <= |file|
    ensures |b| <= blockSize && i * blockSize + |b| <= |file|
    ensures |b| == blockSize || i * blockSize + |b| == |file|
    ensures forall k :: 0 <= k < |b| ==> b[k] == file[i * blockSize + k]
  {
    file[i * blockSize..Min(i * blockSize + blockSize, |file|)]
  }

  lemma SliceOfSlice(s: seq<bv8>, a: nat, b: nat, c: nat, d: nat)
    requires a <= b <= |s| && c <= d <= b - a
    ensures s[a..b][c..d] == s[a + c..a + d]
  {
    forall k | 0 <= k < d - c ensures s[a..b][c..d][k] == s[a + c..a + d][k] {
      assert s[a..b][c..d][k] == s[a..b][c + k] == s[a + c + k];
    }
  }

  /** The block of `offset` starts at or before it, `offset % blockSize` bytes earlier. */
  lemma BlockStartFacts(blockSize: nat, offset: nat)
    requires blockSize > 0
    ensures var i := offset / blockSize;
      i >= 0 && i * blockSize <= offset && offset - i * blockSize == offset % blockSize
  {
    assert offset == blockSize * (offset / blockSize) + offset % blockSize;
  }

  /** A read's destination holds its logical bytes once the file part and the zero tail are in place. */
  lemma AssembledLogicalBytes(file: seq<bv8>, offset: nat, size: nat, dest: seq<bv8>)
    requires |dest| == size
    requires var n := AvailableBytes(|file|, offset, size);
      dest[n..] == Zeros(size - n) && (n > 0 ==> dest[..n] == file[offset..offset + n])
    ensures dest == LogicalBytes(file, offset, size)
  {
    var n := AvailableBytes(|file|, offset, size);
    if n > 0 {
      assert dest == dest[..n] + dest[n..];
    }
  }

  /**
   * A destination whose zero tail was already in place holds a read's logical
   * bytes once the file part has been copied in front of it and nothing else moved.
   */
  lemma FetchedLogicalBytes(file: seq<bv8>, offset: nat, size: nat, ptr: nat, before: seq<bv8>, after: seq<bv8>)
    requires ptr + size <= |before|
    requires var n := AvailableBytes(|file|, offset, size);
      && n > 0
      && before[ptr + n..ptr + size] == Zeros(size - n)
      && SameOutside(after, before, ptr, ptr + n)
      && after[ptr..ptr + n] == file[offset..offset + n]
    ensures after[ptr..ptr + size] == LogicalBytes(file, offset, size)
  {
    var n := AvailableBytes(|file|, offset, size);
    assert after[ptr + n..ptr + size] == before[ptr + n..ptr + size];
    var dest := after[ptr..ptr + size];
    assert dest[..n] == after[ptr..ptr + n];
    assert dest[n..] == after[ptr + n..ptr + size];
    AssembledLogicalBytes(file, offset, size, dest);
  }

  /**
   * The bytes a hit or a completed fetch copies, lib/main.js:120 and 129: they lie
   * inside block `offset / blockSize` and are the file's bytes at `offset`.
   */
  lemma CopyWithinBlock(file: seq<bv8>, blockSize: nat, offset: nat, size: nat)
    requires blockSize > 0 && SameBlock(blockSize, offset, size)
    requires AvailableBytes(|file|, offset, size) > 0
    ensures var i := offset / blockSize; var n := AvailableBytes(|file|, offset, size);
      && i * blockSize <= offset < |file|
      && offset - i * blockSize + n <= |BlockData(file, blockSize, i)|
      && BlockData(file, blockSize, i)[offset - i * blockSize..offset - i * blockSize + n]
         == file[offset..offset + n]
  {
    SameBlockIff(blockSize, offset, size);
    BlockStartFacts(blockSize, offset);
    var i := offset / blockSize;
    var start := i * blockSize;
    var r := offset - start;
    var n := AvailableBytes(|file|, offset, size);
    assert r + n <= blockSize;
    var end := Min(start + blockSize, |file|);
    assert r + n <= end - start;
    assert BlockData(file, blockSize, i) == file[start..end];
    SliceOfSlice(file, start, end, r, r + n);
  }

  /** Every cached block lies inside the file and holds the file's bytes of that block. */
  ghost predicate Faithful(file: seq<bv8>, blockSize: nat, blocks: map<nat, seq<bv8>>) {
    forall i | i in blocks :: i * blockSize < |file| && blocks[i] == BlockData(file, blockSize, i)
  }

  /** Storing the true bytes of a block keeps every cached block faithful to the file. */
  lemma StoredKeepsFaithful(file: seq<bv8>, blockSize: nat, s: CacheState, cap: nat, i: nat, data: seq<bv8>)
    requires CacheInv(s, cap) && Faithful(file, blockSize, s.blocks)
    requires i * blockSize < |file| && data == BlockData(file, blockSize, i)
    ensures Faithful(file, blockSize, Stored(s, cap, i, data).blocks)
  {
    var r := Stored(s, cap, i, data);
    forall j | j in r.blocks
      ensures j * blockSize < |file| && r.blocks[j] == BlockData(file, blockSize, j)
    {
      if j != i {
        StoredChangesNoOtherEntry(s, cap, i, data, j);
      }
    }
  }

  datatype ReadError = OutOfBounds | AcrossBlocks | SourceFetchError

  /**
   * A pending cache miss: the block to fetch, the slice [start, end) of the file
   * that holds it, and where its bytes go once they arrive.
   */
  datatype FetchRequest = FetchRequest(
    blockIndex: nat, start: nat, end: nat, offsetInBlock: nat, available: nat, ptr: nat)

  datatype ReadResult = Rejected(error: ReadError) | Done | Pending(request: FetchRequest)

  /** True when `b` equals `a` at every index outside [lo, hi). */
  ghost predicate SameOutside(a: seq<bv8>, b: seq<bv8>, lo: int, hi: int) {
    |a| == |b| && forall k :: 0 <= k < |a| && !(lo <= k < hi) ==> a[k] == b[k]
  }

  /** Sets buffer[from..to] to zero (Uint8Array.fill(0), lib/main.js:108). */
  method FillZero(buffer: array<bv8>, from: nat, to: nat)
    requires from <= to <= buffer.Length
    modifies buffer
    ensures buffer[from..to] == Zeros(to - from)
    ensures SameOutside(buffer[..], old(buffer[..]), from, to)
  {
    forall k | from <= k < to {
      buffer[k] := 0;
    }
  }

  /** Copies src[from..from+n] to buffer[ptr..] (Uint8Array.set, lib/main.js:120 and 129). */
  method CopyInto(buffer: array<bv8>, ptr: nat, src: seq<bv8>, from: nat, n: nat)
    requires from + n <= |src| && ptr + n <= buffer.Length
    modifies buffer
    ensures buffer[ptr..ptr + n] == src[from..from + n]
    ensures SameOutside(buffer[..], old(buffer[..]), ptr, ptr + n)
  {
    forall k | ptr <= k < ptr + n {
      buffer[k] := src[from + k - ptr];
    }
  }

  class BlockReader {
    const file: seq<bv8>
    const blockSize: nat
    const nBlocks: nat
    const maxCachedBlocks: nat
    var cachedBlocks: map<nat, seq<bv8>>
    var cacheQueue: seq<nat>

    function Cache(): CacheState
      reads this
    {
      CacheState(cachedBlocks, cacheQueue)
    }

    /** The cache invariant, and every cached block holds the file's bytes of that block. */
    ghost predicate Valid()
      reads this
    {
      && blockSize > 0
      && CacheInv(Cache(), maxCachedBlocks)
      && Faithful(file, blockSize, cachedBlocks)
    }

    /** The request a cache miss of this reader issues: the whole block around `offset`. */
    ghost predicate WellFormed(req: FetchRequest)
      reads this
    {
      && blockSize > 0
      && req.start == req.blockIndex * blockSize
      && req.start < |file|
      && req.end == Min(req.start + blockSize, |file|)
      && 0 < req.available
      && req.offsetInBlock + req.available <= req.end - req.start
    }

    /** createFileReader(file, blockSize, nBlocks, maxCachedBlocks) with an empty cache (lib/main.js:73-77). */
    constructor (file: seq<bv8>, blockSize: nat, nBlocks: nat, maxCachedBlocks: nat)
      requires blockSize > 0
      ensures Valid()
      ensures this.file == file && this.blockSize == blockSize && this.nBlocks == nBlocks
      ensures this.maxCachedBlocks == maxCachedBlocks && Cache() == Empty
    {
      this.file := file;
      this.blockSize := blockSize;
      this.nBlocks := nBlocks;
      this.maxCachedBlocks := maxCachedBlocks;
      cachedBlocks := map[];
      cacheQueue := [];
    }

    /** storeBlockInCache(blockIndex, data) (lib/main.js:83-94). */
    method StoreBlockInCache(blockIndex: nat, data: seq<bv8>)
      requires Valid()
      requires blockIndex * blockSize < |file| && data == BlockData(file, blockSize, blockIndex)
      modifies this
      ensures Valid()
      ensures Cache() == Stored(old(Cache()), maxCachedBlocks, blockIndex, data)
    {
      ghost var next := Stored(Cache(), maxCachedBlocks, blockIndex, data);
      StoredKeepsInv(Cache(), maxCachedBlocks, blockIndex, data);
      StoredKeepsFaithful(file, blockSize, Cache(), maxCachedBlocks, blockIndex, data);
      cachedBlocks := cachedBlocks[blockIndex := data];
      if blockIndex !in cacheQueue {
        cacheQueue := cacheQueue + [blockIndex];
        if |cacheQueue| > maxCachedBlocks {
          var deleteBlock := cacheQueue[0];
          cacheQueue := cacheQueue[1..];
          cachedBlocks := cachedBlocks - {deleteBlock};
        }
      }
      assert Cache() == next;
    }

    /** The block request a miss at `offset` issues (lib/main.js:115-116 and 126). */
    function MissRequest(offset: nat, ptr: nat, size: nat): (req: FetchRequest)
      reads this
      requires blockSize > 0
      ensures req.blockIndex == offset / blockSize && req.ptr == ptr
      ensures req.start == req.blockIndex * blockSize && req.start + req.offsetInBlock == offset
      ensures req.offsetInBlock == offset % blockSize
      ensures req.available == AvailableBytes(|file|, offset, size)
    {
      BlockStartFacts(blockSize, offset);
      var blockIndex := offset / blockSize;
      var start := blockIndex * blockSize;
      FetchRequest(blockIndex, start, Min(start + blockSize, |file|), offset - start,
                   AvailableBytes(|file|, offset, size), ptr)
    }

    /**
     * What a read that passed both checks does: the destination changes only in
     * [ptr, ptr+size), its bytes past the end of the file are zero, and the read
     * completes with the logical bytes unless the block has to be fetched, in which
     * case nothing but the zero tail has been written yet.
     */
    ghost predicate Served(offset: nat, ptr: nat, size: nat, before: seq<bv8>, after: seq<bv8>, r: ReadResult)
      reads this
      requires blockSize > 0
    {
      var n := AvailableBytes(|file|, offset, size);
      && ptr + size <= |before|
      && SameOutside(after, before, ptr, ptr + size)
      && after[ptr + n..ptr + size] == Zeros(size - n)
      && !r.Rejected?
      && (r.Pending? <==> n > 0 && offset / blockSize !in cachedBlocks)
      && (r.Done? ==> after[ptr..ptr + size] == LogicalBytes(file, offset, size))
      && (r.Pending? ==>
            && SameOutside(after, before, ptr + n, ptr + size)
            && r.request == MissRequest(offset, ptr, size)
            && WellFormed(r.request))
    }

    /**
     * read(offset, buffer, ptr, size) (lib/main.js:96-137): the bounds check, then the
     * single-block check, both before any write; after them the read is served.
     */
    method Read(offset: nat, buffer: array<bv8>, ptr: nat, size: nat) returns (r: ReadResult)
      requires Valid()
      requires ptr + size <= buffer.Length
      modifies buffer
      ensures r == Rejected(OutOfBounds) <==> offset + size > blockSize * nBlocks
      ensures r == Rejected(AcrossBlocks) <==>
        offset + size <= blockSize * nBlocks && !SameBlock(blockSize, offset, size)
      ensures r != Rejected(SourceFetchError)
      ensures r.Rejected? ==> buffer[..] == old(buffer[..])
      ensures !r.Rejected? ==> Served(offset, ptr, size, old(buffer[..]), buffer[..], r)
    {
      if offset + size > blockSize * nBlocks {
        return Rejected(OutOfBounds);
      }
      var blockIndex := offset / blockSize;
      if blockIndex != (offset + size - 1) / blockSize {
        return Rejected(AcrossBlocks);
      }
      r := ServeInBlock(offset, buffer, ptr, size);
    }

    /**
     * The zero-fill, the early return for a read wholly past the end of the file,
     * the cache lookup and the miss of read (lib/main.js:106-136), for a request
     * inside one block.
     */
    method ServeInBlock(offset: nat, buffer: array<bv8>, ptr: nat, size: nat) returns (r: ReadResult)
      requires Valid() && SameBlock(blockSize, offset, size)
      requires ptr + size <= buffer.Length
      modifies buffer
      ensures Served(offset, ptr, size, old(buffer[..]), buffer[..], r)
    {
      var availableBytes := AvailableBytes(|file|, offset, size);
      if availableBytes < size {
        FillZero(buffer, ptr + availableBytes, ptr + size);
      }
      assert buffer[ptr + availableBytes..ptr + size] == Zeros(size - availableBytes);
      if availableBytes == 0 {
        assert buffer[ptr..ptr + size][0..] == buffer[ptr + availableBytes..ptr + size];
        AssembledLogicalBytes(file, offset, size, buffer[ptr..ptr + size]);
        return Done;
      }
      ghost var zeroed := buffer[..];
      r := ServeFilePart(offset, buffer, ptr, size);
      assert buffer[ptr + availableBytes..ptr + size] == zeroed[ptr + availableBytes..ptr + size];
    }

    /**
     * The part of a read that lies inside the file (lib/main.js:115-136): copied from
     * the cached block on a hit, otherwise left to the fetch Read asks for.
     */
    method ServeFilePart(offset: nat, buffer: array<bv8>, ptr: nat, size: nat) returns (r: ReadResult)
      requires Valid() && SameBlock(blockSize, offset, size)
      requires ptr + size <= buffer.Length
      requires var n := AvailableBytes(|file|, offset, size);
        n > 0 && buffer[ptr + n..ptr + size] == Zeros(size - n)
      modifies buffer
      ensures SameOutside(buffer[..], old(buffer[..]), ptr, ptr + AvailableBytes(|file|, offset, size))
      ensures r.Done? || r.Pending?
      ensures r.Pending? <==> offset / blockSize !in cachedBlocks
      ensures r.Done? ==> buffer[ptr..ptr + size] == LogicalBytes(file, offset, size)
      ensures r.Pending? ==>
        buffer[..] == old(buffer[..]) && r.request == MissRequest(offset, ptr, size) && WellFormed(r.request)
    {
      var availableBytes := AvailableBytes(|file|, offset, size);
      BlockStartFacts(blockSize, offset);
      var blockIndex: nat := offset / blockSize;
      var blockStartOffset := blockIndex * blockSize;
      var offsetInBlock := offset - blockStartOffset;
      CopyWithinBlock(file, blockSize, offset, size);
      var cached := Lookup(Cache(), blockIndex);
      if cached.Some? {
        assert cached.value == BlockData(file, blockSize, blockIndex);
        CopyHit(buffer, ptr, cached.value, offset, size);
        return Done;
      }
      r := Pending(FetchRequest(blockIndex, blockStartOffset, Min(blockStartOffset + blockSize, |file|),
                                offsetInBlock, availableBytes, ptr));
    }

    /** The cache-hit copy (lib/main.js:120) completes a zero-filled destination with the file's bytes. */
    method CopyHit(buffer: array<bv8>, ptr: nat, block: seq<bv8>, offset: nat, size: nat)
      requires blockSize > 0 && SameBlock(blockSize, offset, size)
      requires AvailableBytes(|file|, offset, size) > 0
      requires offset / blockSize * blockSize <= |file|
      requires block == BlockData(file, blockSize, offset / blockSize)
      requires ptr + size <= buffer.Length
      requires var n := AvailableBytes(|file|, offset, size);
        buffer[ptr + n..ptr + size] == Zeros(size - n)
      modifies buffer
      ensures SameOutside(buffer[..], old(buffer[..]), ptr, ptr + AvailableBytes(|file|, offset, size))
      ensures buffer[ptr..ptr + size] == LogicalBytes(file, offset, size)
    {
      var n := AvailableBytes(|file|, offset, size);
      CopyWithinBlock(file, blockSize, offset, size);
      ghost var zeroed := buffer[..];
      CopyInto(buffer, ptr, block, offset - offset / blockSize * blockSize, n);
      assert buffer[ptr + n..ptr + size] == zeroed[ptr + n..ptr + size];
      ghost var dest := buffer[ptr..ptr + size];
      assert dest[..n] == buffer[ptr..ptr + n];
      assert dest[n..] == buffer[ptr + n..ptr + size];
      AssembledLogicalBytes(file, offset, size, dest);
    }

    /**
     * The source delivered the requested slice (reader.onload, lib/main.js:127-131):
     * store it under its block index, then copy the requested bytes.
     */
    method CompleteFetch(req: FetchRequest, data: seq<bv8>, buffer: array<bv8>)
      requires Valid() && WellFormed(req)
      requires data == file[req.start..req.end]
      requires req.ptr + req.available <= buffer.Length
      modifies this, buffer
      ensures Valid()
      ensures Cache() == Stored(old(Cache()), maxCachedBlocks, req.blockIndex, data)
      ensures buffer[req.ptr..req.ptr + req.available]
           == file[req.start + req.offsetInBlock..req.start + req.offsetInBlock + req.available]
      ensures SameOutside(buffer[..], old(buffer[..]), req.ptr, req.ptr + req.available)
    {
      StoreBlockInCache(req.blockIndex, data);
      CopyInto(buffer, req.ptr, data, req.offsetInBlock, req.available);
      SliceOfSlice(file, req.start, req.end, req.offsetInBlock, req.offsetInBlock + req.available);
    }

    /**
     * A fetch issued by Read that completes: the destination, whose zero tail Read
     * already wrote, then holds the logical bytes of the request.
     */
    method CompleteRead(offset: nat, buffer: array<bv8>, ptr: nat, size: nat, req: FetchRequest)
      requires Valid() && WellFormed(req) && req == MissRequest(offset, ptr, size)
      requires ptr + size <= buffer.Length
      requires buffer[ptr + req.available..ptr + size] == Zeros(size - req.available)
      modifies this, buffer
      ensures Valid()
      ensures Cache() == Stored(old(Cache()), maxCachedBlocks, req.blockIndex, file[req.start..req.end])
      ensures buffer[ptr..ptr + size] == LogicalBytes(file, offset, size)
      ensures SameOutside(buffer[..], old(buffer[..]), ptr, ptr + req.available)
    {
      ghost var zeroed := buffer[..];
      CompleteFetch(req, file[req.start..req.end], buffer);
      FetchedLogicalBytes(file, offset, size, ptr, zeroed, buffer[..]);
    }

    /**
     * The source failed (reader.onerror, lib/main.js:132-134): the read is rejected
     * with the fetch error. What matters is the frame: the method modifies nothing,
     * so neither the cache nor the buffer changes.
     */
    method FailFetch() returns (e: ReadError)
      ensures e == SourceFetchError
    {
      e := SourceFetchError;
    }

    /**
     * One complete read as the decoding engine awaits it: Read, and on a miss the
     * fetch settling with success (`fetched`) or failure. A read that passes both
     * checks fails only when its fetch fails; otherwise it leaves exactly the logical
     * bytes of the request in buffer[ptr..ptr+size], and the cache changes only by
     * storing the fetched block.
     */
    method ReadAndSettle(offset: nat, buffer: array<bv8>, ptr: nat, size: nat, fetched: bool)
      returns (r: ReadResult)
      requires Valid()
      requires ptr + size <= buffer.Length
      modifies this, buffer
      ensures Valid()
      ensures !r.Pending?
      ensures r == Rejected(OutOfBounds) <==> offset + size > blockSize * nBlocks
      ensures r == Rejected(AcrossBlocks) <==>
        offset + size <= blockSize * nBlocks && !SameBlock(blockSize, offset, size)
      ensures fetched && offset + size <= blockSize * nBlocks && SameBlock(blockSize, offset, size) ==> r.Done?
      ensures !fetched && offset + size <= blockSize * nBlocks && SameBlock(blockSize, offset, size)
        && AvailableBytes(|file|, offset, size) > 0 && offset / blockSize !in old(cachedBlocks)
        ==> r == Rejected(SourceFetchError)
      ensures r.Rejected? && r.error != SourceFetchError ==> buffer[..] == old(buffer[..])
      ensures r.Rejected? ==> Cache() == old(Cache())
      ensures r == Rejected(SourceFetchError) ==>
        var n := AvailableBytes(|file|, offset, size);
        && !fetched && n > 0 && offset / blockSize !in old(cachedBlocks)
        && SameOutside(buffer[..], old(buffer[..]), ptr + n, ptr + size)
        && buffer[ptr + n..ptr + size] == Zeros(size - n)
      ensures r.Done? ==> buffer[ptr..ptr + size] == LogicalBytes(file, offset, size)
      ensures r.Done? ==> SameOutside(buffer[..], old(buffer[..]), ptr, ptr + size)
      ensures r.Done? && (AvailableBytes(|file|, offset, size) == 0 || offset / blockSize in old(cachedBlocks))
        ==> Cache() == old(Cache())
      ensures r.Done? && AvailableBytes(|file|, offset, size) > 0 && offset / blockSize !in old(cachedBlocks)
        ==> var i := offset / blockSize;
            && i * blockSize <= |file|
            && Cache() == Stored(old(Cache()), maxCachedBlocks, i, BlockData(file, blockSize, i))
    {
      r := Read(offset, buffer, ptr, size);
      assert r.Rejected? ==> r.error != SourceFetchError;
      assert r.Rejected? ==> r.error.OutOfBounds? || r.error.AcrossBlocks?;
      if r.Pending? {
        var req := r.request;
        if fetched {
          CompleteRead(offset, buffer, ptr, size, req);
          r := Done;
        } else {
          var e := FailFetch();
          r := Rejected(e);
        }
      }
    }
  }
}
