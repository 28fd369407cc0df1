# Page cache acquisition queue (RethinkDB `buffer_cache/alt`)

This project models the core of RethinkDB's alternative buffer cache in
`src/buffer_cache/alt/page.cc`. The model covers:

- the table of current pages by block id;
- the per-block acquisition queue of a `current_page_t` and its handoff walk
  (`pulse_pulsables`), which grants readable and writable status in arrival order and
  splices declared snapshot readers out onto the live page;
- the `current_page_acq_t` handles that join and leave those queues;
- the snapshot reference count of a `page_t`;
- lazy materialisation and copy-on-write of the live page.

The cache is one immutable record, `CacheState.Cache`:

- `registry` is `current_pages_`, indexed by block id. `None` stands for `NULL`.
- `cps` holds every current page ever created. A `CpId` is a position in it.
- `acqs` maps each live acquisition handle (`AcqId`) to its record.
- `pages` holds every page object ever created. A `PageId` is a position in it.

Each public call is a pure function from one cache to the next. Addresses become
positions and handles, and nothing is freed. The whole-state invariant is
`CacheState.Valid`:

- every reference is in range;
- no current page is registered under two block ids, and a registered current page
  that is not yet loaded names its block;
- each queue is duplicate-free and back-linked;
- an acquirer is either queued or detached onto a snapshot, never both;
- each page's snapshot count equals the number of handles detached onto it;
- the handoff rule holds. A queued acquirer is readable exactly when only readers are
  ahead of it, and writable exactly when it is a writer at the head.

Every operation is proved to keep this invariant. That includes `page_for_new_block_id`
as written, whose defect is listed under "## Findings". It keeps the invariant only
because the invariant constrains the block table alone: the unregistered current page
it hands out is outside the table, so a later lookup of the same block may create a
second current page for it without breaking any rule. `Traces.Run` then carries the
invariant across any sequence of enabled calls, starting from an empty cache. The traces
run `page_for_new_block_id` as the source has it.

The modules follow the source. `Pages` models `page_t`, `CurrentPages` the page
handling of `current_page_t`, and `Handoff` its queue. `Acquisitions` models
`current_page_acq_t` and `Registry` the block table of `page_cache_t`. The `*Proof`
modules hold the invariant proofs. `Scenarios` holds concrete runs, and `Traces` holds
arbitrary interleavings.

`rassert`s and waits on a signal become preconditions. A call that would block is
not enabled. The flag `declared_snapshotted_` is not initialised by the constructor
(page.cc:58-62), and the model takes it to start false.

**Where the code and its own comments differ, the model follows the code.** The
comment at page.cc:167-168 says snapshotters leave the queue to make way for writers.
But `declare_snapshotted` re-runs `pulse_pulsables` from the reader itself, and that
call returns at line 153 whenever the reader is already readable. So a reader that
declares after it became readable stays queued, and a writer behind it keeps waiting.

`AcquisitionProof.DeclareOnlyMarks` proves that in every valid state the re-run returns
early, so declaring only sets the flag. A declared reader leaves its queue only when a
later walk reaches it while it is still unreadable, that is, when it waits behind a
writer. `Scenarios.DeclareWhileReadableKeepsWriterWaiting` shows the writer still
waiting. `Scenarios.DeclaredReaderBehindWriter` shows the case where the detach does
happen.

## Model

| member | source | states |
|---|---|---|
| Pages.PageForBlock | src/buffer_cache/alt/page.cc:209-217 | a page built for a block loads that block and starts with no snapshot references |
| Pages.PageFromBuffer | src/buffer_cache/alt/page.cc:219-225 | a page built around a newly allocated buffer comes from no block and starts with no snapshot references |
| Pages.HasSnapshotReferences | src/buffer_cache/alt/page.cc:282-284 | a page has snapshot references exactly when it is what add_snapshotter returns for some page |
| Pages.AddSnapshotter | src/buffer_cache/alt/page.cc:271-274 | adding a snapshotter leaves the page with snapshot references and keeps where its bytes come from |
| Pages.RemoveSnapshotter | src/buffer_cache/alt/page.cc:276-280 | needs a positive count, as the rassert demands; the result is the page that adding one snapshotter turns back into the original |
| Pages.SnapshotterRoundTrip | src/buffer_cache/alt/page.cc:271-280 | removing a snapshotter just added restores the page exactly |
| CurrentPages.ForBlock | src/buffer_cache/alt/page.cc:112-116 | a current page made for a block holds that block's id, no live page and an empty queue, so it can be resolved against any page table |
| CurrentPages.ForPage | src/buffer_cache/alt/page.cc:118-123 | a current page made around a page holds it as the live page with an empty queue; it can be resolved exactly when that page exists |
| CurrentPages.ConvertFromSerializerIfNecessary | src/buffer_cache/alt/page.cc:188-194 | afterwards a live page exists and the block id is cleared; a page is created (loaded from the block) only when none existed, otherwise nothing changes; old pages are untouched |
| CurrentPages.ThePageForRead | src/buffer_cache/alt/page.cc:196-199 | returns the live page, materialised on first use from the current page's block; old pages untouched, a new page has no snapshot references |
| CurrentPages.ThePageForWrite | src/buffer_cache/alt/page.cc:201-207 | returns a page no snapshot holder references; when the live page has references it is a fresh copy of that page, distinct from it, and the old page (its count included) is unchanged; otherwise it is the read page |
| CurrentPages.ReadMaterialisesOnce | src/buffer_cache/alt/page.cc:188-199 | materialisation happens at most once: a second read access changes nothing and returns the same page |
| CurrentPages.ReadLoadsOwnBlock | src/buffer_cache/alt/page.cc:188-194 | a page first reached through the serializer is a new page loaded from that current page's block |
| CurrentPages.WriteCopiesOnce | src/buffer_cache/alt/page.cc:201-207 | a second write access right after a first returns the same page: no second copy |
| Handoff.MarkReadable | src/buffer_cache/alt/page.cc:162 | pulsing the read signal of the node at position i sets that node's read flag and changes nothing else: its other fields, every other handle, the handle set, the queues and the pages are as before |
| Handoff.MarkWritable | src/buffer_cache/alt/page.cc:179-182 | pulsing the write signal of the node at position i sets that node's write flag and changes nothing else: its other fields, every other handle, the handle set, the queues and the pages are as before |
| Handoff.Detach | src/buffer_cache/alt/page.cc:166-173 | splicing a declared reader out shortens its queue by exactly one and leaves every node before it in place |
| Handoff.Walk | src/buffer_cache/alt/page.cc:157-185 | the loop of pulse_pulsables keeps every reference in range; what it achieves is stated by Handoff.WalkFrame and HandoffProof.WalkRestores |
| Handoff.WalkFrame | src/buffer_cache/alt/page.cc:157-185 | a walk from position i changes only that queue and the nodes on it: flags only set, modes kept, pages only added or gaining snapshotters, a live page never replaced, nodes before i kept in place, no node added |
| Handoff.WalkFrameSplice | src/buffer_cache/alt/page.cc:162-174 | the same frame for the walk step that splices out a reader that declared a snapshot |
| Handoff.WalkFramePast | src/buffer_cache/alt/page.cc:162-174 | the same frame for the walk step that marks a reader without a snapshot readable and moves past it |
| Handoff.PulsePulsables | src/buffer_cache/alt/page.cc:142-186 | keeps every reference in range and the number of current pages |
| Handoff.PulseFrame | src/buffer_cache/alt/page.cc:142-186 | pulse_pulsables stays within the handoff frame seeded at the acquirer's position |
| Handoff.AddAcquirer | src/buffer_cache/alt/page.cc:129-132 | the acquirer is appended at the tail and at most it is added; nodes already queued keep their places; flags are never cleared; the registry and the set of handles are unchanged |
| Handoff.RemoveAcquirer | src/buffer_cache/alt/page.cc:134-140 | the queue strictly shrinks and gains no node; flags are never cleared; the registry and the set of handles are unchanged |
| HandoffProof.DetachHasShape | src/buffer_cache/alt/page.cc:162-174 | after pulsing the reader's read signal, the splice does exactly four things: unlinks the reader (others keep their order), clears its current page, points it at the materialised live page, and raises that page's count by exactly one; nothing else changes |
| HandoffProof.WalkRestores | src/buffer_cache/alt/page.cc:157-185 | from a state where earlier nodes are granted readers and later ones untouched, the walk restores the handoff rule and every structural invariant, and every node it detaches views the live page |
| HandoffProof.AddAcquirerRestores | src/buffer_cache/alt/page.cc:129-132 | adding a fresh acquirer to a valid cache yields a valid cache |
| HandoffProof.AddAcquirerBlocked | src/buffer_cache/alt/page.cc:142-149 | behind a writer or an unpulsed reader, add_acquirer only appends: pulse_pulsables refuses to start |
| HandoffProof.AddAcquirerWalks | src/buffer_cache/alt/page.cc:129-132 | behind an empty queue or a readable reader, add_acquirer is the walk from the new tail |
| HandoffProof.RemoveAcquirerRestores | src/buffer_cache/alt/page.cc:134-140 | unlinking a queued acquirer from a valid cache restores the handoff rule and every invariant except that acquirer's own back link, and leaves its record untouched |
| HandoffProof.RemoveAcquirerQuiet | src/buffer_cache/alt/page.cc:134-155 | when the successor's walk would return early (blocked predecessor or already readable reader), remove_acquirer only unlinks |
| HandoffProof.RemoveAcquirerWalks | src/buffer_cache/alt/page.cc:134-140 | otherwise remove_acquirer is the walk from the successor's new position |
| CacheState.NewAcquirer | src/buffer_cache/alt/page.cc:58-62 | a new handle has the requested mode and is attached to its current page; no signal is pulsed, no snapshot declared, and it is settled: queued, not detached |
| Acquisitions.NewAcquisition | src/buffer_cache/alt/page.cc:58-64 | a fresh handle of the requested mode is added and no other handle's flags are cleared; the registry is unchanged and pages only grow |
| Acquisitions.ReleaseSnapshot | src/buffer_cache/alt/page.cc:276-280 | needs a referenced page; exactly that page's count drops by one |
| Acquisitions.DestroyAcquisition | src/buffer_cache/alt/page.cc:66-73 | the handle is gone and no other handle loses a flag or changes mode; no page changes origin; destroying a detached handle changes no queue and no other handle, and lowers its page's count by exactly one while every other page stays the same |
| Acquisitions.DeclareSnapshotted | src/buffer_cache/alt/page.cc:75-83 | only read handles may declare, and an undeclared one must be attached; flags are never cleared; a handle already declared leaves the cache unchanged |
| Acquisitions.ReadAcqSignal | src/buffer_cache/alt/page.cc:85-87 | in a valid cache the read signal of a detached handle is pulsed, and that of an attached handle is pulsed exactly when only readers are ahead of it in its queue |
| Acquisitions.WriteAcqSignal | src/buffer_cache/alt/page.cc:89-92 | only a write handle may ask, as the rassert demands; in a valid cache it is attached, and its write signal is pulsed exactly when it heads its queue |
| Acquisitions.Destructible | src/buffer_cache/alt/page.cc:125-127 | the destructor's assertion is an empty queue; in a valid cache that holds exactly when no handle is attached to the current page |
| Acquisitions.PageForRead | src/buffer_cache/alt/page.cc:94-102 | needs the read signal and a snapshot or a current page; a detached handle gets its snapshot page with the cache unchanged, an attached one the live page of its current page; no queue or handle changes |
| Acquisitions.PageForWrite | src/buffer_cache/alt/page.cc:104-110 | needs a write handle, attached, with its write signal; it gets the live page of its current page, which has no snapshot references; no queue or handle changes |
| AcquisitionProof.NewAcquisitionAppends | src/buffer_cache/alt/page.cc:129-131 | a new acquisition goes to the tail of its queue and nothing queued moves |
| AcquisitionProof.NewAcquisitionJoins | src/buffer_cache/alt/page.cc:58-64 | the new handle is attached at the tail; it is readable if and only if every handle already queued is a reader, and writable if and only if it is a writer alone in the queue; it has the requested mode, every handle already there keeps its mode, and the invariant is kept |
| AcquisitionProof.DestroyAcquisitionValid | src/buffer_cache/alt/page.cc:66-73 | in a valid cache every handle may be destroyed (the handle is in its queue, a snapshot page has references) and the invariant is kept |
| AcquisitionProof.DestroyAttachedValid | src/buffer_cache/alt/page.cc:67-69 | destroying an attached handle, which re-runs the handoff from its successor, keeps the invariant |
| AcquisitionProof.DestroyDetachedValid | src/buffer_cache/alt/page.cc:70-72 | a detached handle's page has a positive count, so remove_snapshotter's assertion holds, and destroying it keeps the invariant |
| AcquisitionProof.MarkDeclaredValid | src/buffer_cache/alt/page.cc:78-79 | setting the declared flag on a read handle keeps the invariant |
| AcquisitionProof.PulseReturnsEarly | src/buffer_cache/alt/page.cc:142-155 | behind a writer or unpulsed reader, or on an already readable reader, pulse_pulsables changes nothing |
| AcquisitionProof.ReaderBehindReadersReadable | src/buffer_cache/alt/page.cc:153-155 | in a valid cache an attached reader at the head or behind a readable reader is already readable, so the second early return fires |
| AcquisitionProof.DeclareOnlyMarks | src/buffer_cache/alt/page.cc:75-83 | in a valid cache every read handle may declare; declaring only sets the flag (no detach, no flag change elsewhere) and keeps the invariant |
| AcquisitionProof.DeclareIdempotent | src/buffer_cache/alt/page.cc:75-83 | after declaring, the handle is a declared reader and a second declaration changes nothing |
| AcquisitionProof.SignalsFollowQueue | src/buffer_cache/alt/page.cc:85-92 | a detached handle's read signal is pulsed; a reader is never writable; an attached handle's read signal is pulsed if and only if only readers are ahead of it, and a writer's write signal if and only if it heads the queue |
| AcquisitionProof.ReadableInArrivalOrder | src/buffer_cache/alt/page.cc:159-174 | readable handles form a prefix of their queue: if a later handle is readable, every earlier one is |
| AcquisitionProof.WriterExclusive | src/buffer_cache/alt/page.cc:179-182 | a writable handle excludes every other handle on its current page from reading and writing, so at most one handle per queue is writable |
| AcquisitionProof.HolderKeepsPageReferenced | src/buffer_cache/alt/page.cc:169-171 | a page some handle is detached onto has snapshot references |
| AcquisitionProof.PageForReadValid | src/buffer_cache/alt/page.cc:94-102 | in a valid cache a readable handle has a snapshot or a current page, and reading keeps the invariant |
| AcquisitionProof.PageForWriteValid | src/buffer_cache/alt/page.cc:104-110 | writing keeps the invariant |
| AcquisitionProof.WriteNeverSharesSnapshot | src/buffer_cache/alt/page.cc:201-207 | the page a writer is handed is the snapshot of no handle, so a write never changes what a detached reader sees |
| AcquisitionProof.ReadersShareLivePage | src/buffer_cache/alt/page.cc:196-199 | two readable handles attached to one current page read the same page, and the second read changes nothing |
| Registry.Grown | src/buffer_cache/alt/page.cc:38-40 | the table grows to cover b only when too short, keeps its entries, and the new entries are empty |
| Registry.PageForBlockId | src/buffer_cache/alt/page.cc:37-47 | afterwards the table covers b and holds the returned current page at b; no other entry changes; a registered block gets its existing current page back with nothing changed, an unregistered one a new unloaded current page for b |
| Registry.PageForNewBlockIdAsWritten | src/buffer_cache/alt/page.cc:49-56 | as written: a new current page around a fresh page is created and the block id handed out, but the table is unchanged |
| Registry.PageForNewBlockId | src/buffer_cache/alt/page.cc:49-56 | as intended: the new current page is also entered in the table under the handed-out block id, and no other entry changes |
| RegistryProof.LookupIdempotent | src/buffer_cache/alt/page.cc:37-47 | a repeated lookup of the same block returns the same current page and changes nothing |
| RegistryProof.PageForBlockIdValid | src/buffer_cache/alt/page.cc:37-47 | a lookup keeps the invariant |
| RegistryProof.LookupsKeepBlocksApart | src/buffer_cache/alt/page.cc:37-47 | the current page found for a block belongs to it, and two different blocks never share a current page |
| RegistryProof.NewBlockAsWrittenIsLost | src/buffer_cache/alt/page.cc:49-56 | as written, looking up the new block afterwards creates a second, unloaded current page instead of finding the fresh one |
| RegistryProof.NewBlockIsFound | src/buffer_cache/alt/page.cc:49-56 | as intended, looking up the new block finds its current page and changes nothing |
| RegistryProof.PageForNewBlockIdValid | src/buffer_cache/alt/page.cc:49-56 | the intended version keeps the invariant |
| RegistryProof.PageForNewBlockIdAsWrittenValid | src/buffer_cache/alt/page.cc:49-56 | the version as written keeps the invariant too: the table is untouched, and the unregistered current page breaks no rule |
| Traces.Step | src/buffer_cache/alt/page.cc:37-110 | every enabled public call on a valid cache, with page_for_new_block_id as written, yields a valid cache in which no handle has lost a flag or changed mode |
| Traces.Run | src/buffer_cache/alt/page.cc:37-110 | any sequence of enabled calls from a valid cache ends in a valid cache |
| Traces.ReachableIsolated | src/buffer_cache/alt/page.cc:179-182 | in every state reachable from an empty cache, a writable handle has its current page to itself |
| Scenarios.WriterJoinsBehindReader | src/buffer_cache/alt/page.cc:176-183 | a writer behind a lone reader sees the value (readable) but may not write |
| Scenarios.ReaderThenWriterJoin | src/buffer_cache/alt/page.cc:129-132 | reader then writer on an empty queue: the writer is readable and not writable |
| Scenarios.ReleaseHeadGrantsWriter | src/buffer_cache/alt/page.cc:134-140 | releasing the reader at the head hands write access to the writer behind it |
| Scenarios.DeclareWhileReadableKeepsWriterWaiting | src/buffer_cache/alt/page.cc:153-155 | a readable reader that declares stays queued and the writer behind it stays unable to write until the reader is released |
| Scenarios.DeclareWhileReadableOnBlockZero | src/buffer_cache/alt/page.cc:75-83 | the same run on a cache holding only block 0 |
| Scenarios.ReaderJoinsBehindWriter | src/buffer_cache/alt/page.cc:146-148 | a reader behind a writable writer waits |
| Scenarios.WriterThenReaderJoin | src/buffer_cache/alt/page.cc:129-132 | writer then reader on an empty queue: the writer may write, the reader waits |
| Scenarios.SecondWriterJoins | src/buffer_cache/alt/page.cc:146-148 | a second writer behind them waits and nobody else's flags change |
| Scenarios.AddAcquirerBlockedQueue | src/buffer_cache/alt/page.cc:146-148 | behind a blocked tail, joining changes no existing handle |
| Scenarios.WalkDetachesThenGrants | src/buffer_cache/alt/page.cc:164-183 | a walk over a declared reader and a writer detaches the reader onto the live page and makes the writer writable at the head |
| Scenarios.ReleaseWriterDetachesReader | src/buffer_cache/alt/page.cc:134-140 | releasing the head writer detaches the declared reader behind it onto the live page, which gains a reference, and the next writer may write |
| Scenarios.ReleaseHeadWriterWalks | src/buffer_cache/alt/page.cc:66-69 | releasing the head writer is the walk from its successor followed by forgetting the handle |
| Scenarios.WriteAfterDetachCopies | src/buffer_cache/alt/page.cc:201-207 | the writer then gets a copy of the page while the detached reader still reads the page it detached onto |
| Scenarios.DeclareWhileWaiting | src/buffer_cache/alt/page.cc:75-83 | a reader waiting behind a writer that declares is only marked |
| Scenarios.DeclaredReaderBehindWriter | src/buffer_cache/alt/page.cc:164-174 | the whole run: writer, declared reader, writer; releasing the first writer detaches the reader, the second writer writes to a copy, and the reader keeps its snapshot |

## Left out

- `page_t::load_with_block_id` (page.cc:228-269) is left out. It spawns a coroutine, switches threads, takes a drainer lock and handles cancellation. A page loaded from a block is modelled as the origin `Loaded(block)`, with no bytes.
- The `page_cache_t` constructor and destructor (page.cc:9-35) are left out. They set up IO accounts, thread affinity and drainer teardown. The empty cache stands in for a new one, and nothing is ever freed.
- Serializer calls are not modelled: `index_read`, `block_read`, `malloc`, `get_block_size` and block tokens. They are foreign interfaces. Block size and buffer contents are not modelled either.
- The free list's `acquire_block_id` is a parameter `b` of `PageForNewBlockId`. The intended version requires that no current page holds `b`, which is what a free list promises.
- Blocking `wait()` on a signal is modelled as a precondition, as are the `rassert`s. A call that would block or abort is not enabled in `Traces`.
- `make_copy` lives in page.hpp, which is not part of this model. A copy is a new page whose origin names its source.
- Addresses are positions and handles. `current_page_acq_t` addresses are caller-chosen fresh `AcqId`s, and `page_cache_` is folded into the block id it travels with.
- Registry.Grown: the `block_id + 1` of the resize is unbounded here. The wrap-around at the largest block id is not modelled, because no block id reaches it.
- `NULL_BLOCK_ID` and `NULL` are modelled as `None`.
- `page_t::destroy_ptr_` is not modelled; it only serves the load. `buf_size_` is not modelled either, because block sizes are not modelled.
- Handoff.Walk: its own contract only keeps references in range. Its effect is stated separately by `Handoff.WalkFrame` and `HandoffProof.WalkRestores`.
- Handoff.PulsePulsables: its own contract only keeps references in range. Its effect is stated separately by `Handoff.PulseFrame`, `AcquisitionProof.PulseReturnsEarly`, `HandoffProof.AddAcquirerWalks` and `HandoffProof.RemoveAcquirerWalks`.

## Findings

| source | as written | input that shows it | evidently intended | confidence | as-written member | corrected member |
|---|---|---|---|---|---|---|
| src/buffer_cache/alt/page.cc:49-56 | `page_for_new_block_id` creates a current page for the new block id but never stores it in `current_pages_` | allocate block `b` (not in the table), then call `page_for_block_id(b)`: it creates a second, unloaded current page for `b`, which tries to load a block that was never written; the first current page is never deleted by the cache destructor | enter the new current page in `current_pages_[b]`, growing the table as `page_for_block_id` does | medium, not executed | Registry.PageForNewBlockIdAsWritten (shown by RegistryProof.NewBlockAsWrittenIsLost) | Registry.PageForNewBlockId (proved by RegistryProof.NewBlockIsFound and RegistryProof.PageForNewBlockIdValid) |
