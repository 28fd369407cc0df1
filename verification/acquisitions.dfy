/**
 Acquisition handles (current_page_acq_t): joining and leaving a current page's queue,
 declaring a snapshot, the two signals, and the page each access hands out. Waiting on
 a signal is a precondition here: an operation that would block is simply not enabled.
 */
module Acquisitions {
  import opened Options
  import opened Queues
  import opened Pages
  import opened CurrentPages
  import opened CacheState
  import opened Handoff

  /** The cache after an access, and the page the access returned. */
  datatype Handed = Handed(cache: Cache, page: PageId)

  /** current_page_acq_t(current_page, access): a fresh handle joins the queue of k. */
  function NewAcquisition(c: Cache, k: CpId, mode: Mode, a: AcqId): (r: Cache)
    requires WellFormed(c) && k < |c.cps| && a !in c.acqs
    ensures WellFormed(r) && |r.cps| == |c.cps|
    ensures r.acqs.Keys == c.acqs.Keys + {a} && r.acqs[a].mode == mode
    ensures r.registry == c.registry && PagesGrow(c.pages, r.pages)
    ensures FlagsGrow(c.acqs, r.acqs)
  {
    var c1 := SetAcquirer(c, a, NewAcquirer(mode, k));
    assert FlagsGrow(c.acqs, c1.acqs);
    AddAcquirer(c1, k, a)
  }

  /** remove_snapshotter on page p: one snapshot holder fewer, nothing else changes. */
  function ReleaseSnapshot(c: Cache, p: PageId): (r: Cache)
    requires p < |c.pages| && HasSnapshotReferences(c.pages[p])
    ensures r.acqs == c.acqs && r.cps == c.cps && r.registry == c.registry
    ensures |r.pages| == |c.pages|
    ensures forall p' :: 0 <= p' < |c.pages| ==> r.pages[p'].origin == c.pages[p'].origin
    ensures forall p' :: 0 <= p' < |c.pages| && p' != p ==> r.pages[p'] == c.pages[p']
    ensures r.pages[p].snapshotRefcount + 1 == c.pages[p].snapshotRefcount
  {
    c.(pages := c.pages[p := RemoveSnapshotter(c.pages[p])])
  }

  /**
   ~current_page_acq_t: a handle still queued leaves its queue (handing off to its
   successor), a detached handle releases its snapshot, and the handle is gone.
   */
  function DestroyAcquisition(c: Cache, a: AcqId): (r: Cache)
    requires WellFormed(c) && a in c.acqs
    requires c.acqs[a].current.Some? ==> a in c.cps[c.acqs[a].current.value].queue
    requires c.acqs[a].snapshot.Some? ==> HasSnapshotReferences(c.pages[c.acqs[a].snapshot.value])
    ensures r.acqs.Keys == c.acqs.Keys - {a} && |r.cps| == |c.cps|
    ensures r.registry == c.registry && |r.pages| >= |c.pages|
    ensures forall p :: 0 <= p < |c.pages| ==> r.pages[p].origin == c.pages[p].origin
    ensures FlagsGrow(c.acqs, r.acqs)
    ensures c.acqs[a].current.None? ==> r.cps == c.cps && r.acqs == c.acqs - {a}
    ensures c.acqs[a].current.None? && c.acqs[a].snapshot.Some? ==>
              var p := c.acqs[a].snapshot.value;
              && r.pages[p].snapshotRefcount + 1 == c.pages[p].snapshotRefcount
              && forall p' :: 0 <= p' < |c.pages| && p' != p ==> r.pages[p'] == c.pages[p']
  {
    var x := c.acqs[a];
    var c1 := if x.current.Some? then RemoveAcquirer(c, x.current.value, a) else c;
    assert PagesGrow(c.pages, c1.pages) && FlagsGrow(c.acqs, c1.acqs);
    var c2 := if x.snapshot.Some? then ReleaseSnapshot(c1, x.snapshot.value) else c1;
    assert c2.acqs == c1.acqs;
    FlagsGrowForget(c.acqs, c1.acqs, a);
    c2.(acqs := c2.acqs - {a})
  }

  /**
   declare_snapshotted: a reader may declare more than once; the first declaration marks
   it and re-runs the handoff from its own position.
   */
  function DeclareSnapshotted(c: Cache, a: AcqId): (r: Cache)
    requires WellFormed(c) && a in c.acqs && c.acqs[a].mode == Read
    requires !c.acqs[a].declared ==>
               c.acqs[a].current.Some? && a in c.cps[c.acqs[a].current.value].queue
    ensures WellFormed(r) && |r.cps| == |c.cps|
    ensures r.acqs.Keys == c.acqs.Keys && FlagsGrow(c.acqs, r.acqs)
    ensures r.registry == c.registry && PagesGrow(c.pages, r.pages)
    ensures c.acqs[a].declared ==> r == c
  {
    var x := c.acqs[a];
    if x.declared then
      c
    else
      var k := x.current.value;
      var c1 := SetAcquirer(c, a, x.(declared := true));
      assert FlagsGrow(c.acqs, c1.acqs);
      PulseFrame(c1, k, a);
      var r := PulsePulsables(c1, k, a);
      FlagsGrowTrans(c.acqs, c1.acqs, r.acqs);
      r
  }

  /**
   read_acq_signal: in a valid cache it is pulsed for every detached handle, and for an
   attached one exactly when only readers are ahead of it in its queue.
   */
  function ReadAcqSignal(c: Cache, a: AcqId): (pulsed: bool)
    requires a in c.acqs
    ensures Valid(c) && c.acqs[a].current.None? ==> pulsed
    ensures Valid(c) && c.acqs[a].current.Some? ==>
              var q := c.cps[c.acqs[a].current.value].queue;
              a in q && (pulsed <==> ReadersAhead(c.acqs, q, IndexOf(q, a)))
  {
    assert Valid(c) ==> Settled(c.acqs[a]) && BackLinkedFor(c, a);
    assert Valid(c) && c.acqs[a].current.Some? ==>
             Disciplined(c.acqs, c.cps[c.acqs[a].current.value].queue);
    c.acqs[a].readable
  }

  /**
   write_acq_signal: only a write handle has one. In a valid cache such a handle is
   attached, and its signal is pulsed exactly when it heads its queue.
   */
  function WriteAcqSignal(c: Cache, a: AcqId): (pulsed: bool)
    requires a in c.acqs && c.acqs[a].mode == Write
    ensures Valid(c) ==>
              && c.acqs[a].current.Some?
              && var q := c.cps[c.acqs[a].current.value].queue;
                 a in q && (pulsed <==> IndexOf(q, a) == 0)
  {
    assert Valid(c) ==> Settled(c.acqs[a]) && BackLinkedFor(c, a);
    assert Valid(c) && c.acqs[a].current.Some? ==>
             Disciplined(c.acqs, c.cps[c.acqs[a].current.value].queue);
    c.acqs[a].writable
  }

  /** Current page k after resolving it through r. */
  function Resolve(c: Cache, k: CpId, r: Resolved): (c': Cache)
    requires WellFormed(c) && k < |c.cps|
    requires Resolvable(r.cp, r.pages) && r.cp.queue == c.cps[k].queue
    requires |c.pages| <= |r.pages|
    ensures WellFormed(c') && c'.acqs == c.acqs && c'.registry == c.registry
    ensures |c'.cps| == |c.cps| && c'.cps[k] == r.cp && c'.pages == r.pages
    ensures forall k' :: 0 <= k' < |c.cps| && k' != k ==> c'.cps[k'] == c.cps[k']
  {
    c.(cps := c.cps[k := r.cp], pages := r.pages)
  }

  /**
   page_for_read: once readable, a detached handle reads its snapshot; an attached one
   reads the live page of its current page, materialised on first use.
   */
  function PageForRead(c: Cache, a: AcqId): (r: Handed)
    requires WellFormed(c) && a in c.acqs
    requires c.acqs[a].snapshot.Some? || c.acqs[a].current.Some?
    requires c.acqs[a].readable
    ensures WellFormed(r.cache) && r.page < |r.cache.pages|
    ensures r.cache.acqs == c.acqs && r.cache.registry == c.registry
    ensures |r.cache.cps| == |c.cps| && PagesGrow(c.pages, r.cache.pages)
    ensures forall k :: 0 <= k < |c.cps| ==> r.cache.cps[k].queue == c.cps[k].queue
    ensures c.acqs[a].snapshot.Some? ==> r.page == c.acqs[a].snapshot.value && r.cache == c
    ensures c.acqs[a].snapshot.None? ==>
              r.cache.cps[c.acqs[a].current.value].page == Some(r.page)
  {
    var x := c.acqs[a];
    if x.snapshot.Some? then
      Handed(c, x.snapshot.value)
    else
      var k := x.current.value;
      var live := ThePageForRead(c.cps[k], c.pages);
      Handed(Resolve(c, k, live), live.page)
  }

  /**
   page_for_write: once writable, a write handle gets the live page of its current
   page, copied first when snapshot holders still reference it.
   */
  function PageForWrite(c: Cache, a: AcqId): (r: Handed)
    requires WellFormed(c) && a in c.acqs && c.acqs[a].mode == Write
    requires c.acqs[a].current.Some? && c.acqs[a].writable
    ensures WellFormed(r.cache) && r.page < |r.cache.pages|
    ensures r.cache.acqs == c.acqs && r.cache.registry == c.registry
    ensures |r.cache.cps| == |c.cps| && PagesGrow(c.pages, r.cache.pages)
    ensures forall k :: 0 <= k < |c.cps| ==> r.cache.cps[k].queue == c.cps[k].queue
    ensures r.cache.cps[c.acqs[a].current.value].page == Some(r.page)
    ensures !HasSnapshotReferences(r.cache.pages[r.page])
  {
    var k := c.acqs[a].current.value;
    var live := ThePageForWrite(c.cps[k], c.pages);
    Handed(Resolve(c, k, live), live.page)
  }

  /**
   ~current_page_t may only run on a current page with no acquirer queued; in a valid
   cache that is exactly when no handle is attached to it.
   */
  predicate Destructible(c: Cache, k: CpId): (ok: bool)
    requires k < |c.cps|
    ensures Valid(c) ==> (ok <==> forall a :: a in c.acqs ==> c.acqs[a].current != Some(k))
  {
    assert Valid(c) && |c.cps[k].queue| > 0 ==>
             QueueLinked(c, k) && c.cps[k].queue[0] in c.acqs;
    assert Valid(c) ==> forall a :: a in c.acqs ==> BackLinkedFor(c, a);
    |c.cps[k].queue| == 0
  }

}
