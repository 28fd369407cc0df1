/**
 Concrete runs of the handoff protocol on one block, as the source behaves.
 */
module Scenarios {
  import opened Options
  import opened Pages
  import opened CurrentPages
  import opened CacheState
  import opened Queues
  import opened Handoff
  import opened HandoffProof
  import opened Registry
  import opened RegistryProof
  import opened Acquisitions
  import opened AcquisitionProof

  /** The cache holding only the unloaded current page of block 0. */
  function OneBlock(): (c: Cache)
    ensures Valid(c) && |c.cps| == 1 && c.cps[0] == ForBlock(0) && c.acqs == map[]
  {
    EmptyCacheValid();
    PageForBlockIdValid(EmptyCache(), 0);
    PageForBlockId(EmptyCache(), 0).cache
  }

  /** A writer (handle 2) joining behind a lone readable reader can read but not write. */
  lemma WriterJoinsBehindReader(c: Cache, k: CpId)
    requires Valid(c) && k < |c.cps| && c.cps[k].queue == [1] && 2 !in c.acqs
    requires 1 in c.acqs && c.acqs[1].mode == Read
    ensures var r := NewAcquisition(c, k, Write, 2);
            && Valid(r) && r.cps[k].queue == [1, 2]
            && r.acqs[1].mode == Read && r.acqs[2].mode == Write
            && r.acqs[2].readable && !r.acqs[2].writable
  {
    assert c.cps[k].queue + [2] == [1, 2];
    assert c.acqs[c.cps[k].queue[0]].mode == Read;
    NewAcquisitionJoins(c, k, Write, 2);
  }

  /** A reader (handle 1) then a writer (handle 2) join an empty queue. */
  lemma ReaderThenWriterJoin(c: Cache, k: CpId)
    requires Valid(c) && k < |c.cps| && c.cps[k].queue == [] && 1 !in c.acqs && 2 !in c.acqs
    ensures var c2 := NewAcquisition(NewAcquisition(c, k, Read, 1), k, Write, 2);
            && Valid(c2) && c2.cps[k].queue == [1, 2]
            && c2.acqs[1].mode == Read && c2.acqs[2].mode == Write
            && c2.acqs[2].readable && !c2.acqs[2].writable
  {
    var c1 := NewAcquisition(c, k, Read, 1);
    NewAcquisitionJoins(c, k, Read, 1);
    WriterJoinsBehindReader(c1, k);
  }

  /** Releasing the head of [1, 2] hands the page to writer 2. */
  lemma ReleaseHeadGrantsWriter(c: Cache, k: CpId)
    requires Valid(c) && k < |c.cps| && c.cps[k].queue == [1, 2]
    requires 2 in c.acqs && c.acqs[2].mode == Write
    ensures && 1 in c.acqs && c.acqs[1].current == Some(k) && c.acqs[1].snapshot.None?
            && var r := DestroyAcquisition(c, 1);
               r.cps[k].queue == [2] && 2 in r.acqs && r.acqs[2].writable
  {
    assert QueueLinked(c, k);
    assert c.cps[k].queue[0] == 1;
    assert Settled(c.acqs[1]);
    var q1 := RemoveAt(c.cps[k].queue, 0);
    assert q1 == [2];
    assert IndexOf(c.cps[k].queue, 1) == 0;
    var c1 := c.(cps := c.cps[k := c.cps[k].(queue := q1)]);
    RemoveAcquirerWalks(c, k, 1);
    var w := Walk(c1, k, 0);
    assert w == MarkWritable(MarkReadable(c1, k, 0), k, 0);
    assert DestroyAcquisition(c, 1) == w.(acqs := w.acqs - {1});
  }

  /**
   A reader R (handle 1) that declares a snapshot after it became readable stays in
   the queue, and the writer W (handle 2) queued behind it stays unable to write until
   R is released.
   */
  lemma DeclareWhileReadableKeepsWriterWaiting(c: Cache, k: CpId)
    requires Valid(c) && k < |c.cps| && c.cps[k].queue == [] && 1 !in c.acqs && 2 !in c.acqs
    ensures var c2 := NewAcquisition(NewAcquisition(c, k, Read, 1), k, Write, 2);
            && 1 in c2.acqs && c2.acqs[1].mode == Read && c2.acqs[1].current == Some(k)
            && c2.cps[k].queue == [1, 2] && 1 in c2.cps[k].queue
            && var c3 := DeclareSnapshotted(c2, 1);
               && c3.cps[k].queue == [1, 2] && 1 in c3.cps[k].queue
               && c3.acqs[1].declared && c3.acqs[1].current == Some(k)
               && c3.acqs[2].readable && !c3.acqs[2].writable
               && 1 in c3.acqs && c3.acqs[1].current.Some? && c3.acqs[1].snapshot.None?
               && var c4 := DestroyAcquisition(c3, 1);
                  c4.cps[k].queue == [2] && c4.acqs[2].writable
  {
    ReaderThenWriterJoin(c, k);
    var c2 := NewAcquisition(NewAcquisition(c, k, Read, 1), k, Write, 2);
    assert QueueLinked(c2, k) && c2.cps[k].queue[0] == 1;
    DeclareOnlyMarks(c2, 1);
    var c3 := DeclareSnapshotted(c2, 1);
    ReleaseHeadGrantsWriter(c3, k);
  }

  /** The same run on a cache that holds only block 0. */
  lemma DeclareWhileReadableOnBlockZero()
    ensures var c2 := NewAcquisition(NewAcquisition(OneBlock(), 0, Read, 1), 0, Write, 2);
            && 1 in c2.acqs && c2.acqs[1].mode == Read && c2.acqs[1].current == Some(0)
            && c2.cps[0].queue == [1, 2] && 1 in c2.cps[0].queue
            && var c3 := DeclareSnapshotted(c2, 1);
               c3.cps[0].queue == [1, 2] && !c3.acqs[2].writable
  {
    DeclareWhileReadableKeepsWriterWaiting(OneBlock(), 0);
  }

  /** A reader (handle 2) joining behind a lone writer waits. */
  lemma ReaderJoinsBehindWriter(c: Cache, k: CpId)
    requires Valid(c) && k < |c.cps| && c.cps[k].queue == [1] && 2 !in c.acqs
    requires 1 in c.acqs && c.acqs[1].mode == Write && c.acqs[1].writable
    ensures var r := NewAcquisition(c, k, Read, 2);
            && Valid(r) && r.cps[k].queue == [1, 2]
            && r.acqs[1].mode == Write && r.acqs[1].writable
            && r.acqs[2].mode == Read && !r.acqs[2].readable && r.acqs[2].current == Some(k)
  {
    assert c.cps[k].queue + [2] == [1, 2];
    assert c.cps[k].queue[0] == 1;
    NewAcquisitionJoins(c, k, Read, 2);
  }

  /** A writer (handle 1) then a reader (handle 2) join an empty queue; the reader waits. */
  lemma WriterThenReaderJoin(c: Cache, k: CpId)
    requires Valid(c) && k < |c.cps| && c.cps[k].queue == [] && 1 !in c.acqs && 2 !in c.acqs
    ensures var c2 := NewAcquisition(NewAcquisition(c, k, Write, 1), k, Read, 2);
            && Valid(c2) && |c2.cps| == |c.cps| && c2.acqs.Keys == c.acqs.Keys + {1, 2}
            && c2.cps[k].queue == [1, 2]
            && c2.acqs[1].mode == Write && c2.acqs[1].writable
            && c2.acqs[2].mode == Read && !c2.acqs[2].readable && c2.acqs[2].current == Some(k)
  {
    NewAcquisitionJoins(c, k, Write, 1);
    ReaderJoinsBehindWriter(NewAcquisition(c, k, Write, 1), k);
  }

  /** A second writer (handle 3) joins behind them and waits too. */
  lemma SecondWriterJoins(c: Cache, k: CpId)
    requires Valid(c) && k < |c.cps| && c.cps[k].queue == [1, 2] && 3 !in c.acqs
    requires 1 in c.acqs && c.acqs[1].mode == Write
    ensures var r := NewAcquisition(c, k, Write, 3);
            && Valid(r) && r.cps[k].queue == [1, 2, 3]
            && r.acqs[1] == c.acqs[1] && r.acqs[2] == c.acqs[2]
            && r.acqs[3].mode == Write && !r.acqs[3].readable
  {
    assert c.cps[k].queue + [3] == [1, 2, 3];
    assert c.cps[k].queue[0] == 1;
    NewAcquisitionJoins(c, k, Write, 3);
    AddAcquirerBlockedQueue(c, k, 3);
  }

  /** Behind a blocked tail, the constructor only appends: no flag changes. */
  lemma AddAcquirerBlockedQueue(c: Cache, k: CpId, a: AcqId)
    requires Valid(c) && k < |c.cps| && a !in c.acqs && |c.cps[k].queue| > 0
    requires var q := c.cps[k].queue;
             !(c.acqs[q[|q| - 1]].mode == Read && c.acqs[q[|q| - 1]].readable)
    ensures forall x :: x in c.acqs ==> NewAcquisition(c, k, Write, a).acqs[x] == c.acqs[x]
  {
    AddAcquirerBlocked(c, k, Write, a);
  }

  /** The walk over [2, 3], reader 2 having declared: 2 is spliced out, 3 may write. */
  lemma WalkDetachesThenGrants(c: Cache, k: CpId)
    requires WellFormed(c) && k < |c.cps| && c.cps[k].queue == [2, 3]
    requires 2 in c.acqs && 3 in c.acqs
    requires c.acqs[2].mode == Read && c.acqs[2].declared && c.acqs[3].mode == Write
    ensures var w := Walk(c, k, 0);
            && w.cps[k].queue == [3] && 2 in w.acqs && 3 in w.acqs && w.acqs[3].writable
            && w.acqs[2].current.None? && w.acqs[2].readable
            && w.cps[k].page.Some? && w.acqs[2].snapshot == w.cps[k].page
  {
    assert c.cps[k].queue[0] == 2 && c.cps[k].queue[1] == 3;
    var m1 := MarkReadable(c, k, 0);
    var d := Detach(m1, k, 0);
    assert d.cps[k].queue == [3];
    assert d.acqs[3] == c.acqs[3];
    var w := MarkWritable(MarkReadable(d, k, 0), k, 0);
    assert Walk(d, k, 0) == w;
  }

  /**
   Releasing writer 1 from [1, 2, 3], where reader 2 declared a snapshot while it
   waited: the walk makes 2 readable and splices it out onto the live page, which gains
   a snapshot holder, and writer 3 becomes writable at the head.
   */
  lemma ReleaseWriterDetachesReader(c: Cache, k: CpId)
    requires Valid(c) && k < |c.cps| && c.cps[k].queue == [1, 2, 3]
    requires 1 in c.acqs && 2 in c.acqs && 3 in c.acqs
    requires c.acqs[1].mode == Write && c.acqs[3].mode == Write
    requires c.acqs[2].mode == Read && c.acqs[2].declared
    ensures && c.acqs[1].current == Some(k) && c.acqs[1].snapshot.None?
            && var r := DestroyAcquisition(c, 1);
               && Valid(r) && r.cps[k].queue == [3] && r.acqs[3].writable
               && r.acqs[2].current.None? && r.acqs[2].readable
               && r.cps[k].page.Some? && r.acqs[2].snapshot == r.cps[k].page
               && HasSnapshotReferences(r.pages[r.cps[k].page.value])
  {
    ReleaseHeadWriterWalks(c, k);
    WalkDetachesThenGrants(c.(cps := c.cps[k := c.cps[k].(queue := [2, 3])]), k);
    DestroyAcquisitionValid(c, 1);
    HolderKeepsPageReferenced(DestroyAcquisition(c, 1), 2);
  }

  /** Releasing head writer 1 of [1, 2, 3] runs the walk over [2, 3] from its head. */
  lemma ReleaseHeadWriterWalks(c: Cache, k: CpId)
    requires Valid(c) && k < |c.cps| && c.cps[k].queue == [1, 2, 3]
    requires 1 in c.acqs && 2 in c.acqs && 3 in c.acqs && c.acqs[1].mode == Write
    ensures c.acqs[1].current == Some(k) && c.acqs[1].snapshot.None? && 1 in c.cps[k].queue
    ensures var w := Walk(c.(cps := c.cps[k := c.cps[k].(queue := [2, 3])]), k, 0);
            DestroyAcquisition(c, 1) == w.(acqs := w.acqs - {1})
  {
    var q := c.cps[k].queue;
    assert QueueLinked(c, k) && Disciplined(c.acqs, q);
    assert q[0] == 1 && q[1] == 2 && q[2] == 3;
    assert Settled(c.acqs[1]);
    assert RemoveAt(q, 0) == [2, 3];
    assert IndexOf(q, 1) == 0;
    RemoveAcquirerWalks(c, k, 1);
  }

  /**
   The writer that follows is handed a fresh copy of the page, while the detached
   reader still reads the page it snapshotted.
   */
  lemma WriteAfterDetachCopies(c: Cache, k: CpId)
    requires Valid(c) && k < |c.cps| && 2 in c.acqs && 3 in c.acqs
    requires c.acqs[3].mode == Write && c.acqs[3].current == Some(k) && c.acqs[3].writable
    requires c.cps[k].page.Some? && c.acqs[2].snapshot == c.cps[k].page
    requires c.acqs[2].readable
    ensures var w := PageForWrite(c, 3);
            var p := c.cps[k].page.value;
            && w.page != p
            && w.cache.pages[w.page].origin == CopyOf(p)
            && 2 in w.cache.acqs && w.cache.acqs[2].readable
            && w.cache.acqs[2].snapshot.Some?
            && PageForRead(w.cache, 2).page == p
  {
    HolderKeepsPageReferenced(c, 2);
  }

  /** Writer 1, declared reader 2 and writer 3 queued in that order on current page k. */
  ghost predicate QueuedThree(c: Cache, k: CpId)
  {
    && Valid(c) && k < |c.cps| && c.cps[k].queue == [1, 2, 3]
    && 1 in c.acqs && 2 in c.acqs && 3 in c.acqs
    && c.acqs[1].mode == Write && c.acqs[3].mode == Write
    && c.acqs[2].mode == Read && c.acqs[2].declared && !c.acqs[2].readable
  }

  /** Reader 2, waiting behind writer 1, declares a snapshot: it is only marked. */
  lemma DeclareWhileWaiting(c: Cache, k: CpId)
    requires Valid(c) && k < |c.cps| && c.cps[k].queue == [1, 2]
    requires 1 in c.acqs && 2 in c.acqs && c.acqs[1].mode == Write
    requires c.acqs[2].mode == Read && !c.acqs[2].readable && c.acqs[2].current == Some(k)
    ensures var r := DeclareSnapshotted(c, 2);
            && Valid(r) && r.cps[k].queue == [1, 2] && 2 in r.acqs && r.acqs[1] == c.acqs[1]
            && r.acqs[2].mode == Read && r.acqs[2].declared && !r.acqs[2].readable
  {
    DeclareOnlyMarks(c, 2);
  }

  /** Writer 1 then reader 2 join an empty queue. */
  function QueueTwo(c: Cache, k: CpId): (r: Cache)
    requires Valid(c) && k < |c.cps| && c.cps[k].queue == []
    requires 1 !in c.acqs && 2 !in c.acqs && 3 !in c.acqs
    ensures Valid(r) && k < |r.cps| && r.cps[k].queue == [1, 2] && 3 !in r.acqs
    ensures 1 in r.acqs && 2 in r.acqs && r.acqs[1].mode == Write
    ensures r.acqs[2].mode == Read && !r.acqs[2].readable && r.acqs[2].current == Some(k)
  {
    assert 3 !in c.acqs.Keys + {1, 2};
    WriterThenReaderJoin(c, k);
    NewAcquisition(NewAcquisition(c, k, Write, 1), k, Read, 2)
  }

  /** ... then 2 declares a snapshot while it waits. */
  function QueueTwoDeclared(c: Cache, k: CpId): (r: Cache)
    requires Valid(c) && k < |c.cps| && c.cps[k].queue == []
    requires 1 !in c.acqs && 2 !in c.acqs && 3 !in c.acqs
    ensures Valid(r) && k < |r.cps| && r.cps[k].queue == [1, 2] && 3 !in r.acqs
    ensures 1 in r.acqs && 2 in r.acqs && r.acqs[1].mode == Write
    ensures r.acqs[2].mode == Read && r.acqs[2].declared && !r.acqs[2].readable
  {
    var c2 := QueueTwo(c, k);
    DeclareWhileWaiting(c2, k);
    DeclareSnapshotted(c2, 2)
  }

  /** ... and writer 3 joins behind them. */
  function QueueThree(c: Cache, k: CpId): (r: Cache)
    requires Valid(c) && k < |c.cps| && c.cps[k].queue == []
    requires 1 !in c.acqs && 2 !in c.acqs && 3 !in c.acqs
    ensures QueuedThree(r, k)
  {
    var c3 := QueueTwoDeclared(c, k);
    SecondWriterJoins(c3, k);
    NewAcquisition(c3, k, Write, 3)
  }

  /**
   The whole run: releasing writer 1 detaches reader 2 onto the live page and lets
   writer 3 write; 3's write goes to a copy while 2 keeps reading the page it
   detached onto.
   */
  lemma DeclaredReaderBehindWriter(c: Cache, k: CpId)
    requires Valid(c) && k < |c.cps| && c.cps[k].queue == []
    requires 1 !in c.acqs && 2 !in c.acqs && 3 !in c.acqs
    ensures var c4 := QueueThree(c, k);
            && c4.acqs[1].current == Some(k) && c4.acqs[1].snapshot.None?
            && var c5 := DestroyAcquisition(c4, 1);
               && WellFormed(c5) && 2 in c5.acqs && 3 in c5.acqs
               && c5.cps[k].queue == [3] && c5.acqs[3].writable
               && c5.acqs[3].mode == Write && c5.acqs[3].current == Some(k)
               && c5.cps[k].page.Some? && c5.acqs[2].snapshot == c5.cps[k].page
               && var w := PageForWrite(c5, 3);
                  && w.page != c5.cps[k].page.value
                  && 2 in w.cache.acqs && w.cache.acqs[2].readable
                  && w.cache.acqs[2].snapshot.Some?
                  && PageForRead(w.cache, 2).page == c5.cps[k].page.value
  {
    var c4 := QueueThree(c, k);
    ReleaseWriterDetachesReader(c4, k);
    var c5 := DestroyAcquisition(c4, 1);
    assert QueueLinked(c5, k) && c5.cps[k].queue[0] == 3;
    WriteAfterDetachCopies(c5, k);
  }

}
