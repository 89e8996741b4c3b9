/**
 * The geometry options of lib/main.js (getOptions): the block size is mandatory,
 * the other fields are checked against it or defaulted. The record arrives already
 * parsed; getOptionValues turns an empty field into "" and getOptions tests each
 * field with `!v.x`, so an absent field and a field holding 0 are the same thing.
 */
module Options {

  import opened Wrappers

  datatype RawOptions = RawOptions(
    blockSize: Option<nat>, blockCount: Option<nat>, readSize: Option<nat>,
    cacheSize: Option<nat>, lookaheadSize: Option<nat>, maxCachedBlocks: Option<nat>)

  datatype Geometry = Geometry(
    blockSize: nat, blockCount: nat, readSize: nat,
    cacheSize: nat, lookaheadSize: nat, maxCachedBlocks: nat)

  datatype OptionError =
    | BlockSizeMissing
    | ImageTooLarge
    | BlockSizeNotMultipleOfReadSize
    | CacheSizeNotMultipleOfReadSize
    | BlockSizeNotMultipleOfCacheSize
    | LookaheadNotMultipleOf8

  /** The memory budget for cached blocks behind the maxCachedBlocks default: 1 MiB. */
  const CacheBudget: nat := 1024 * 1024

  /** `!v.x` is false: the field holds a non-zero number. */
  predicate Given(o: Option<nat>) {
    o.Some? && o.value != 0
  }

  /** The read size getOptions goes on with: the given one, else 1. */
  function ReadSizeOf(raw: RawOptions): nat {
    if Given(raw.readSize) then raw.readSize.value else 1
  }

  /**
   * getOptions(fileSize) (lib/main.js:553-588). The blockCount default, computed in
   * floating point with Math.log2, is the parameter `defaultBlockCount`; the
   * application constants MAX_CACHE_SIZE and MAX_LOOKAHEAD_SIZE are parameters too.
   */
  function GetOptions(raw: RawOptions, fileSize: nat, defaultBlockCount: nat,
                      maxCacheSize: nat, maxLookaheadSize: nat): Result<Geometry, OptionError>
  {
    if !Given(raw.blockSize) then Failure(BlockSizeMissing)
    else
      var blockSize := raw.blockSize.value;
      if Given(raw.blockCount) && raw.blockCount.value * blockSize < fileSize then Failure(ImageTooLarge)
      else
        var blockCount := if Given(raw.blockCount) then raw.blockCount.value else defaultBlockCount;
        if Given(raw.readSize) && blockSize % raw.readSize.value != 0 then Failure(BlockSizeNotMultipleOfReadSize)
        else
          var readSize := ReadSizeOf(raw);
          if Given(raw.cacheSize) && raw.cacheSize.value % readSize != 0 then Failure(CacheSizeNotMultipleOfReadSize)
          else if Given(raw.cacheSize) && blockSize % raw.cacheSize.value != 0 then Failure(BlockSizeNotMultipleOfCacheSize)
          else
            var cacheSize := if Given(raw.cacheSize) then raw.cacheSize.value
                             else readSize * (Min(blockSize, maxCacheSize) / readSize);
            if Given(raw.lookaheadSize) && raw.lookaheadSize.value % 8 != 0 then Failure(LookaheadNotMultipleOf8)
            else
              var lookaheadSize := if Given(raw.lookaheadSize) then raw.lookaheadSize.value else maxLookaheadSize;
              var maxCachedBlocks := if Given(raw.maxCachedBlocks) then raw.maxCachedBlocks.value
                                     else Min(blockCount, CacheBudget / blockSize);
              Success(Geometry(blockSize, blockCount, readSize, cacheSize, lookaheadSize, maxCachedBlocks))
  }

  /** A given block count must cover the image (lib/main.js:559-560). */
  predicate CoversImage(raw: RawOptions, fileSize: nat)
    requires Given(raw.blockSize)
  {
    Given(raw.blockCount) ==> raw.blockCount.value * raw.blockSize.value >= fileSize
  }

  /** A given read size must divide the block size (lib/main.js:565-566). */
  predicate ReadSizeDividesBlock(raw: RawOptions)
    requires Given(raw.blockSize)
  {
    Given(raw.readSize) ==> raw.blockSize.value % raw.readSize.value == 0
  }

  /** A given cache size must be a multiple of the read size in effect (lib/main.js:572-573). */
  predicate CacheSizeIsReadMultiple(raw: RawOptions) {
    Given(raw.cacheSize) ==> raw.cacheSize.value % ReadSizeOf(raw) == 0
  }

  /** A given cache size must divide the block size (lib/main.js:574-575). */
  predicate CacheSizeDividesBlock(raw: RawOptions)
    requires Given(raw.blockSize)
  {
    Given(raw.cacheSize) ==> raw.blockSize.value % raw.cacheSize.value == 0
  }

  /** A given lookahead size must be a multiple of 8 (lib/main.js:580-581). */
  predicate LookaheadIsByteAligned(raw: RawOptions) {
    Given(raw.lookaheadSize) ==> raw.lookaheadSize.value % 8 == 0
  }

  /** Every rule getOptions enforces on the fields that were given. */
  predicate Acceptable(raw: RawOptions, fileSize: nat) {
    && Given(raw.blockSize)
    && CoversImage(raw, fileSize)
    && ReadSizeDividesBlock(raw)
    && CacheSizeIsReadMultiple(raw)
    && CacheSizeDividesBlock(raw)
    && LookaheadIsByteAligned(raw)
  }

  /**
   * getOptions accepts exactly the acceptable records, and a rejection names the
   * first rule broken, in the order block size, block count, read size, cache size
   * against the read size, block size against the cache size, lookahead size.
   */
  lemma GetOptionsAcceptsExactly(raw: RawOptions, fileSize: nat, defaultBlockCount: nat,
                                 maxCacheSize: nat, maxLookaheadSize: nat)
    ensures var r := GetOptions(raw, fileSize, defaultBlockCount, maxCacheSize, maxLookaheadSize);
      && (r.Success? <==> Acceptable(raw, fileSize))
      && (r == Failure(BlockSizeMissing) <==> !Given(raw.blockSize))
      && (r == Failure(ImageTooLarge) <==>
            Given(raw.blockSize) && !CoversImage(raw, fileSize))
      && (r == Failure(BlockSizeNotMultipleOfReadSize) <==>
            Given(raw.blockSize) && CoversImage(raw, fileSize) && !ReadSizeDividesBlock(raw))
      && (r == Failure(CacheSizeNotMultipleOfReadSize) <==>
            Given(raw.blockSize) && CoversImage(raw, fileSize) && ReadSizeDividesBlock(raw)
            && !CacheSizeIsReadMultiple(raw))
      && (r == Failure(BlockSizeNotMultipleOfCacheSize) <==>
            Given(raw.blockSize) && CoversImage(raw, fileSize) && ReadSizeDividesBlock(raw)
            && CacheSizeIsReadMultiple(raw) && !CacheSizeDividesBlock(raw))
      && (r == Failure(LookaheadNotMultipleOf8) <==>
            Given(raw.blockSize) && CoversImage(raw, fileSize) && ReadSizeDividesBlock(raw)
            && CacheSizeIsReadMultiple(raw) && CacheSizeDividesBlock(raw) && !LookaheadIsByteAligned(raw))
  {
  }

  lemma MultipleOf(k: nat, n: nat)
    requires n > 0
    ensures (n * k) % n == 0
  {
    var m := n * k;
    var q, r := m / n, m % n;
    assert m == n * q + r && 0 <= r < n;
    assert n * (k - q) == r;
    if k - q >= 1 {
      MulMonotone(1, k - q, n);
    } else if k - q <= -1 {
      MulMonotone(1, q - k, n);
    }
  }

  lemma FloorTimes(m: nat, n: nat)
    requires n > 0
    ensures n * (m / n) <= m < n * (m / n) + n
  {
    assert m == n * (m / n) + m % n;
  }

  lemma DivisorAtMost(a: nat, d: nat)
    requires a > 0 && d > 0 && a % d == 0
    ensures d <= a
  {
    assert a == d * (a / d);
    assert a / d >= 1;
    MulMonotone(1, a / d, d);
  }

  lemma MulMonotone(a: int, b: int, c: nat)
    requires a <= b
    ensures a * c <= b * c
  {
    assert b * c == a * c + (b - a) * c;
  }

  /**
   * What an accepted configuration guarantees: a positive block size that the read
   * size divides; a cache size that is a multiple of the read size and at most the
   * block size; a given block count that covers the image; given fields kept as
   * they are; the cache-size default is the largest multiple of the read size not
   * above min(blockSize, MAX_CACHE_SIZE); the maxCachedBlocks default is the largest
   * count that stays within the block count and the 1 MiB budget.
   */
  lemma GetOptionsSound(raw: RawOptions, fileSize: nat, defaultBlockCount: nat,
                        maxCacheSize: nat, maxLookaheadSize: nat)
    requires GetOptions(raw, fileSize, defaultBlockCount, maxCacheSize, maxLookaheadSize).Success?
    ensures var g := GetOptions(raw, fileSize, defaultBlockCount, maxCacheSize, maxLookaheadSize).value;
      && g.blockSize > 0 && g.blockSize == raw.blockSize.value
      && g.readSize > 0 && g.blockSize % g.readSize == 0
      && g.cacheSize % g.readSize == 0 && g.cacheSize <= g.blockSize
      && (Given(raw.blockCount) ==> g.blockCount == raw.blockCount.value && g.blockCount * g.blockSize >= fileSize)
      && (!Given(raw.blockCount) ==> g.blockCount == defaultBlockCount)
      && (Given(raw.readSize) ==> g.readSize == raw.readSize.value)
      && (!Given(raw.readSize) ==> g.readSize == 1)
      && (Given(raw.cacheSize) ==> g.cacheSize == raw.cacheSize.value && g.blockSize % g.cacheSize == 0)
      && (!Given(raw.cacheSize) ==>
            g.cacheSize <= Min(g.blockSize, maxCacheSize) < g.cacheSize + g.readSize)
      && (Given(raw.lookaheadSize) ==> g.lookaheadSize == raw.lookaheadSize.value && g.lookaheadSize % 8 == 0)
      && (!Given(raw.lookaheadSize) ==> g.lookaheadSize == maxLookaheadSize)
      && (Given(raw.maxCachedBlocks) ==> g.maxCachedBlocks == raw.maxCachedBlocks.value)
      && (!Given(raw.maxCachedBlocks) ==>
            && g.maxCachedBlocks <= g.blockCount && g.maxCachedBlocks * g.blockSize <= CacheBudget
            && (g.maxCachedBlocks == g.blockCount || CacheBudget < (g.maxCachedBlocks + 1) * g.blockSize))
  {
    var g := GetOptions(raw, fileSize, defaultBlockCount, maxCacheSize, maxLookaheadSize).value;
    if Given(raw.readSize) {
      DivisorAtMost(g.blockSize, g.readSize);
    }
    if Given(raw.cacheSize) {
      DivisorAtMost(g.blockSize, g.cacheSize);
    } else {
      var m := Min(g.blockSize, maxCacheSize);
      FloorTimes(m, g.readSize);
      MultipleOf(m / g.readSize, g.readSize);
    }
    if !Given(raw.maxCachedBlocks) {
      var perBudget := CacheBudget / g.blockSize;
      FloorTimes(CacheBudget, g.blockSize);
      MulMonotone(g.maxCachedBlocks, perBudget, g.blockSize);
      assert perBudget * g.blockSize == g.blockSize * perBudget;
      assert (perBudget + 1) * g.blockSize == g.blockSize * perBudget + g.blockSize;
    }
  }

  /**
   * The cache-size default is not checked against the block size: with a
   * 1536-byte block, no other field given and MAX_CACHE_SIZE 1024, the configuration
   * is accepted with a cache size of 1024, which does not divide 1536.
   */
  lemma DefaultCacheSizeNeedNotDivideBlockSize()
    ensures var raw := RawOptions(Some(1536), None, None, None, None, None);
      var r := GetOptions(raw, 1536, 1, 1024, 128);
      r.Success? && r.value.cacheSize == 1024 && r.value.blockSize % r.value.cacheSize != 0
  {
  }
}
