# LittleFS image browser: block reader, scheduler and option checks

The web page in `lib/main.js` lets a user open a LittleFS disk image and browse
it in the browser. A LittleFS engine, which `createLfsImageReader` supplies,
reads the image through a read callback, never across a block boundary, and a small scheduler makes sure only one
operation touches the engine at a time. This project models, in Dafny, the parts
of that page that hold its logic:

- **The block reader** (`createFileReader`). It checks each read against the
  device size and the block boundary, zero-fills whatever lies past the end of
  the image file, and serves the rest from a FIFO cache of whole blocks or by
  fetching the block from the file. The cache lives in
  `block_cache.dfy`, as a value with its invariant and eviction lemmas. The
  reader itself is the class `FileReader.BlockReader` in `file_reader.dfy`. Its
  read callback writes into a destination `array<bv8>`, as the source writes
  into the engine's `ArrayBuffer`. On a cache miss the source returns a promise.
  The model splits that miss into `Read`, which answers `Pending` with the slice
  to fetch, and then `CompleteFetch` or `FailFetch`, run when the source returns
  the slice or fails.
- **The scheduler** (`class TaskQueue`). At most one task is active, and it
  starts waiting tasks in FIFO order. It is the class `TaskScheduler.TaskQueue`
  in `task_queue.dfy`:
  - `StartTask` and `OnTaskEnd` are mutually recursive, as in the source.
  - A task's action is abstract. It throws synchronously, or its promise later
    resolves or rejects. `Complete` is the moment that promise settles.
  - Ghost fields record what was submitted, started and ended, and which
    notices each submitter received.
  - The pure functions `Launch` and `Resume` specify what starting work on an
    idle scheduler does.
- **The option checks** (`getOptions`), in `options.dfy`. They validate the
  geometry the user typed (block size, block count, read size, cache size,
  lookahead size) and fill in the defaults, including the cached-block limit.
- **The hex view** (`convertBinaryToHex`), in `hex.dfy`. Each byte becomes two
  zero-padded lower-case hex digits and a space. `ParseHex` is its inverse.

Behaviours of the source that the model keeps:

- An in-bounds empty read at a block-aligned offset is rejected as 'Access across
  blocks'. Past the end of the device the bounds check comes first, so such a read
  is rejected as 'Access out of bounds'.
  `Math.floor` of `offset - 1` falls in the previous block whenever `offset` is
  a multiple of the block size (`FileReader.SameBlockIff`).
- When tasks throw synchronously one after another, their submitters are told
  in REVERSE start order. `startTask` calls `onTaskEnd`, which starts and
  possibly ends the following tasks, before it rejects that task's own promise
  (`TaskScheduler.LaunchNotifiesReversed`, `TaskScheduler.ReversedNoticeScenario`).
  Tasks still start and end in submission order.
- Storing a block that is already queued replaces its bytes and keeps its place
  in the queue (`BlockCache.StoredEvictsOldest`). The read closure does not
  prevent two fetches of one block, so this can happen.
- The default cache size is never checked against the block size
  (`Options.DefaultCacheSizeNeedNotDivideBlockSize`).
- A form field that is empty and a field that holds 0 are the same: both fail
  the `!v.x` test (`Options.Given`).

## Model

| member | source | states |
|---|---|---|
| BlockCache.Lookup | lib/main.js:79-81 | a block is returned exactly when its index is cached, and it is the cached bytes |
| BlockCache.Stored | lib/main.js:83-94 | storeBlockInCache on the cache as a value; it has no contract of its own, and `StoredKeepsInv`, `StoredEvictsOldest`, `StoredHoldsNewest` and `StoredChangesNoOtherEntry` state what it does |
| BlockCache.StoredKeepsInv | lib/main.js:83-94 | storing a block keeps the cache invariant: the queue has no duplicates, holds at most maxCachedBlocks indices, and lists exactly the cached indices |
| BlockCache.StoredEvictsOldest | lib/main.js:83-94 | a queued index has its bytes replaced in place; a new index is appended; a full queue evicts exactly its oldest index; with room for no blocks the cache stays empty |
| BlockCache.StoredHoldsNewest | lib/main.js:83-94 | if the cache has room for at least one block, the block just stored can be looked up with the bytes just stored |
| BlockCache.StoredChangesNoOtherEntry | lib/main.js:83-94 | any other cached block is either kept unchanged or evicted, and an eviction happens only when the queue was full and then removes its head |
| BlockCache.FifoScenario | lib/main.js:83-94 | with room for 2 blocks, storing 0, 1, 2 leaves [1, 2], and storing 0 after that gives [2, 0] |
| FileReader.AvailableBytes | lib/main.js:106 | the bytes of the request that lie inside the file: at most `size`, ending inside the file, and fewer than `size` only when the request runs past the end |
| FileReader.SameBlock | lib/main.js:101-102 | the test that the first and the last byte of the read share a block; it has no contract of its own, and `SameBlockIff` states what it accepts |
| FileReader.SameBlockIff | lib/main.js:101-104 | the single-block test accepts a non-empty read exactly when it fits in the rest of its block, and an empty read exactly when its offset is not a multiple of the block size |
| FileReader.LogicalBytes | lib/main.js:106-113 | the bytes a read must deliver: the file's byte at each position inside the file, 0 at each position past its end |
| FileReader.ShortTailScenario | lib/main.js:106-113 | reading block 1 of a 100-byte image with 64-byte blocks gives bytes 64..99 and then 28 zeros |
| FileReader.BlockData | lib/main.js:126 | the slice a fetch of block `i` asks for: at most one block long, inside the file, a whole block unless it ends at the end of the file, and byte k of it is the file's byte `i * blockSize + k` |
| FileReader.CopyWithinBlock | lib/main.js:115-120 | the bytes copied from block `offset / blockSize`, starting at `offsetInBlock`, lie inside that block's data and are the file's bytes at `offset` |
| FileReader.StoredKeepsFaithful | lib/main.js:126-128 | storing the true bytes of a block keeps every cached block equal to the file's bytes of that block |
| FileReader.FillZero | lib/main.js:107-109 | the tail of the destination is set to zeros and nothing else changes |
| FileReader.CopyInto | lib/main.js:120 | the destination range receives the source bytes and nothing else changes |
| FileReader.BlockReader.constructor | lib/main.js:73-77 | a new reader over the image, with an empty cache and an empty queue |
| FileReader.BlockReader.StoreBlockInCache | lib/main.js:83-94 | the new cache is `Stored` of the old one, and the reader invariant (cache invariant, every block faithful to the file) is kept |
| FileReader.BlockReader.Read | lib/main.js:96-104 | 'Access out of bounds' exactly when `offset + size > blockSize * nBlocks`; 'Access across blocks' exactly when the read is in bounds but spans two blocks; a read is never rejected for any other reason; a rejected read writes nothing; every other read is served as `ServeInBlock` states |
| FileReader.BlockReader.MissRequest | lib/main.js:115-116 | the request a miss issues: the block of `offset`, starting at that block's first byte, `offset % blockSize` bytes before `offset`, asking for the bytes of the read that lie inside the file, to be copied to `ptr` |
| FileReader.BlockReader.ServeInBlock | lib/main.js:106-136 | the destination changes only in [ptr, ptr+size); its bytes past the end of the file are zero; a read that needs no fetch leaves exactly the logical bytes; a miss asks for the block around `offset` and has written only the zero tail |
| FileReader.BlockReader.ServeFilePart | lib/main.js:115-126 | a cached block is copied and the read completes with the logical bytes; otherwise nothing is written and a well-formed fetch of the block is returned |
| FileReader.BlockReader.CopyHit | lib/main.js:118-121 | copying from the cached block completes the zero-filled destination with the logical bytes |
| FileReader.BlockReader.CompleteFetch | lib/main.js:127-131 | the fetched slice is stored as `Stored` of the old cache, the invariant is kept, the requested bytes of the file are copied, and nothing else in the destination changes |
| FileReader.BlockReader.CompleteRead | lib/main.js:124-131 | a fetch that completes leaves exactly the logical bytes of the request in the destination |
| FileReader.BlockReader.FailFetch | lib/main.js:132-134 | a failed fetch rejects the read with the fetch error; the method modifies nothing, so neither the cache nor the destination changes |
| FileReader.BlockReader.ReadAndSettle | lib/main.js:96-137 | a whole read, including the fetch settling: the same two rejection conditions as `Read`; a read that passes both checks with a successful fetch completes; the fetch error happens exactly for a miss whose fetch failed, and then only the zero tail [ptr+n, ptr+size) has been written; a completed read leaves exactly the logical bytes in [ptr, ptr+size) and nothing else in the destination changes; the cache is unchanged after a rejection, an empty read or a hit, and after a miss it is `Stored` of the old cache with the block's bytes |
| TaskScheduler.OutcomeOf | lib/main.js:36-50 | a submitter's promise resolves with the value exactly when the action resolves; otherwise it rejects with the action's error |
| TaskScheduler.Launch | lib/main.js:27-51 | startTask on an idle scheduler as a value; it has no contract of its own, and `LaunchKeepsOrder` and `LaunchNotifiesReversed` state what it does |
| TaskScheduler.LaunchKeepsOrder | lib/main.js:27-51 | starting `t` before queue `q` loses, duplicates and reorders nothing: those that threw, then whichever is active, then the rest of the queue are exactly `[t] + q`; those that threw all threw synchronously; the active one did not; an empty slot means an empty queue |
| TaskScheduler.Resume | lib/main.js:59-63 | onTaskEnd after the active slot is cleared, as a value; it has no contract of its own, and `ResumeKeepsOrder`, `ResumeNotifiesReversed` and `ResumeStartsHead` state what it does |
| TaskScheduler.ResumeKeepsOrder | lib/main.js:53-64 | the same for onTaskEnd with queue `q` |
| TaskScheduler.LaunchNotifiesReversed | lib/main.js:36-41 | submitters of tasks that threw each get their own task's failure once, in reverse start order |
| TaskScheduler.ResumeNotifiesReversed | lib/main.js:59-63 | the same for onTaskEnd |
| TaskScheduler.ResumeStartsHead | lib/main.js:61-63 | when a task ends and others are waiting, the head of the queue is the next task started |
| TaskScheduler.SettleKeepsOrder | lib/main.js:44-50 | when the active task settles, the started tasks followed by the new queue are still everything submitted |
| TaskScheduler.SettleKeepsNotices | lib/main.js:44-50 | when the active task settles, the notices delivered stay a permutation of the ended tasks' own outcomes |
| TaskScheduler.SubmitKeepsBookkeeping | lib/main.js:19-20 | submitting to an idle scheduler keeps the submission order and the notices consistent |
| TaskScheduler.ReversedNoticeScenario | lib/main.js:27-64 | with A and B throwing and C pending, B's submitter hears first, then A's, and C stays active |
| TaskScheduler.TaskQueue.constructor | lib/main.js:5-8 | a new scheduler with no active task and an empty queue |
| TaskScheduler.TaskQueue.Add | lib/main.js:10-25 | add appends its argument to the queue while another task is active, and otherwise starts it as `Launch` says; the invariant holds (FIFO start order, end order, one notice per ended task with its own outcome) |
| TaskScheduler.TaskQueue.StartTask | lib/main.js:27-51 | 'Busy' with no change while a task is active; otherwise the new state is the one `Launch` gives for the old queue |
| TaskScheduler.TaskQueue.OnTaskEnd | lib/main.js:53-64 | 'Idle' with no change when no task is active; otherwise the active task ends and the new state is the one `Resume` gives for the old queue |
| TaskScheduler.TaskQueue.Complete | lib/main.js:44-50 | the active task's promise settles: onTaskEnd runs, then its submitter gets the action's outcome; the invariant is kept |
| TaskScheduler.SubmitThree | lib/main.js:10-25 | three tasks added to a new scheduler: the first is active and the other two wait in order |
| TaskScheduler.FifoRunScenario | lib/main.js:44-64 | the three tasks then settle one at a time: every settlement reports Ok, nothing is left active or queued, the tasks started in submission order, and each submitter heard its own task's outcome in that order |
| Options.GetOptions | lib/main.js:553-588 | getOptions on parsed fields; it has no contract of its own, and `GetOptionsAcceptsExactly` and `GetOptionsSound` state what it accepts and what it returns |
| Options.GetOptionsAcceptsExactly | lib/main.js:553-582 | getOptions succeeds exactly when every rule holds for the given fields; each error is returned exactly when its rule is the first one broken, in source order |
| Options.GetOptionsSound | lib/main.js:553-586 | an accepted configuration has a positive block size that the read size divides, and a cache size that is a multiple of the read size and at most the block size; given fields are kept; a given block count covers the image; the default read size is 1; the default cache size is the largest multiple of the read size not above min(blockSize, MAX_CACHE_SIZE); the default lookahead is MAX_LOOKAHEAD_SIZE; the default cached-block limit is the largest count that is at most the block count and keeps the cached blocks within 1 MiB |
| Options.DefaultCacheSizeNeedNotDivideBlockSize | lib/main.js:569-576 | a 1536-byte block with MAX_CACHE_SIZE 1024 is accepted with a default cache size of 1024, which does not divide the block size |
| HexView.Digit | lib/main.js:203 | one digit of `toString(16)`: a decimal digit or a lower-case letter a to f |
| HexView.Cell | lib/main.js:203 | each byte's cell is three characters and ends with a space |
| HexView.ToHex | lib/main.js:201-204 | the hex view has three characters per byte |
| HexView.ToHexAppend | lib/main.js:201-204 | the view of a concatenation is the concatenation of the views |
| HexView.ToHexAt | lib/main.js:201-204 | byte k owns characters 3k to 3k+2 of the view |
| HexView.ParseToHex | lib/main.js:201-204 | reading the view back gives the original bytes |
| HexView.HexScenario | lib/main.js:201-204 | bytes 0x00 0x0f 0xa5 0xff give "00 0f a5 ff " |

## Left out

- File I/O: a browser `FileReader` and `file.slice` produce the bytes. The
  fetched bytes are a parameter of `CompleteFetch`, and it requires them to be
  the requested slice of the image.
- Promises as a mechanism. A read's promise is the `Pending` result plus an
  explicit `CompleteFetch` or `FailFetch`. A task's promise is the `Complete`
  step. Interleavings with other event-loop work are not modelled.
- Logging with `console.log`, and everything that touches the DOM, SVG, dialogs,
  the LittleFS engine and `createLfsImageReader`.
- `convertBinaryToRaw` (a `TextDecoder`) and `convertBinaryToBase64` (`btoa`)
  are outside this model.
- The default block count (lib/main.js:558) computes `Math.log2` in floating
  point. It is the parameter `defaultBlockCount` of `GetOptions`. The constants
  MAX_CACHE_SIZE and MAX_LOOKAHEAD_SIZE are parameters too. `defaultBlockCount`
  is a `nat`, so it cannot carry the negative `1 << 31` that the source
  computes when `blockSize / 4 < fileSize <= blockSize / 2` (JavaScript takes
  the shift count -1 modulo 32).
- Options.GetOptions takes fields that are already parsed. `getOptionValues`
  (trimming, `parseInt`, rejecting negative values, NaN) is not modelled, so
  every field is absent or a natural number.
- FileReader.BlockReader.Read requires `ptr + size <= buffer.Length`. Beyond
  that, a typed array over the engine's buffer raises a RangeError, and that
  error path is not modelled.
- FileReader.BlockReader.constructor requires `blockSize > 0`, which
  `getOptions` guarantees (`Options.GetOptionsSound`). The source does not
  check it again.
- The source checks `blockIndex !== Math.floor(...)` directly in `Read`.
  `SameBlockIff` gives the equivalent arithmetic form.
- TaskScheduler.TaskQueue.Complete covers only the settlement of the active
  task. Only the active task has a pending promise, so no other settlement is
  possible.
- JavaScript numbers are doubles: `offset + size`, `blockSize * nBlocks` and
  `Math.floor(offset / blockSize)` (lib/main.js:97-102) are exact only below
  2^53. The model's integers are unbounded, so it does not capture rounding for
  images or offsets beyond that size.
- TaskScheduler.Action covers an action that throws or returns a promise. An
  action whose result has no `.then` is not modelled. For such an action,
  `promise.then` (lib/main.js:44) throws outside the `try` of lines 36-42, so
  the active slot stays taken and every later task waits forever. When that
  `startTask` runs from `onTaskEnd` inside an earlier task's callback
  (lines 45-46 and 48-49), the earlier task's own resolve or reject is skipped
  too. Every action the page submits returns a promise. `ResumeStartsHead` and
  the `Valid` invariant rely on this.
