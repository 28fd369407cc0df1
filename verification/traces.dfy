/**
 Interleavings of the cache's operations: each step is one public call, enabled when
 the source's assertions hold and the call would not block. Every state reached from
 an empty cache satisfies the whole-state invariant.
 */
module Traces {
  import opened Options
  import opened Pages
  import opened CurrentPages
  import opened CacheState
  import opened Registry
  import opened RegistryProof
  import opened Acquisitions
  import opened AcquisitionProof

  datatype Op =
    | FindBlock(block: BlockId)                    // page_for_block_id
    | AllocateBlock(block: BlockId)                // page_for_new_block_id as written; b from the free list
    | Acquire(cp: CpId, mode: Mode, handle: AcqId) // current_page_acq_t(...)
    | Release(handle: AcqId)                       // ~current_page_acq_t
    | Declare(handle: AcqId)                       // declare_snapshotted
    | ReadPage(handle: AcqId)                      // page_for_read
    | WritePage(handle: AcqId)                     // page_for_write

  /**
   The call may be made now: the handle exists (or, for a constructor, is fresh), the
   source's assertions hold, and the signal the call waits on is pulsed.
   */
  predicate Enabled(c: Cache, op: Op)
  {
    match op
    case FindBlock(_) => true
    case AllocateBlock(_) => true
    case Acquire(k, _, a) => k < |c.cps| && a !in c.acqs
    case Release(a) => a in c.acqs
    case Declare(a) =>
      a in c.acqs && c.acqs[a].mode == Read && (!c.acqs[a].declared ==> c.acqs[a].current.Some?)
    case ReadPage(a) => a in c.acqs && c.acqs[a].readable
    case WritePage(a) =>
      a in c.acqs && c.acqs[a].mode == Write && c.acqs[a].current.Some? && c.acqs[a].writable
  }

  /** One enabled call on a valid cache: the invariant holds and no signal is un-pulsed. */
  function Step(c: Cache, op: Op): (r: Cache)
    requires Valid(c) && Enabled(c, op)
    ensures Valid(r)
    ensures FlagsGrow(c.acqs, r.acqs)
  {
    match op
    case FindBlock(b) =>
      PageForBlockIdValid(c, b);
      PageForBlockId(c, b).cache
    case AllocateBlock(b) =>
      PageForNewBlockIdAsWrittenValid(c, b);
      PageForNewBlockIdAsWritten(c, b).cache
    case Acquire(k, mode, a) =>
      NewAcquisitionJoins(c, k, mode, a);
      NewAcquisition(c, k, mode, a)
    case Release(a) =>
      DestroyAcquisitionValid(c, a);
      DestroyAcquisition(c, a)
    case Declare(a) =>
      DeclareOnlyMarks(c, a);
      DeclareSnapshotted(c, a)
    case ReadPage(a) =>
      PageForReadValid(c, a);
      PageForRead(c, a).cache
    case WritePage(a) =>
      PageForWriteValid(c, a);
      PageForWrite(c, a).cache
  }

  /** A sequence of calls; None when some call is not enabled where it is made. */
  function Run(c: Cache, ops: seq<Op>): (r: Option<Cache>)
    requires Valid(c)
    ensures r.Some? ==> Valid(r.value)
    ensures r.None? ==> |ops| > 0
    decreases |ops|
  {
    if |ops| == 0 then
      Some(c)
    else if Enabled(c, ops[0]) then
      Run(Step(c, ops[0]), ops[1..])
    else
      None
  }

  /**
   In every state reached from an empty cache a writable handle has its current page
   to itself: every other handle attached there can neither read nor write.
   */
  lemma ReachableIsolated(ops: seq<Op>, w: AcqId, x: AcqId)
    requires Run(EmptyCache(), ops).Some?
    requires var c := Run(EmptyCache(), ops).value;
             w in c.acqs && x in c.acqs && w != x && c.acqs[w].writable
             && c.acqs[x].current == c.acqs[w].current
    ensures var c := Run(EmptyCache(), ops).value;
            !c.acqs[x].readable && !c.acqs[x].writable
  {
    EmptyCacheValid();
    WriterExclusive(Run(EmptyCache(), ops).value, w, x);
  }

}
