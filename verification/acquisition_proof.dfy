/**
 What the acquisition operations promise about a cache that satisfies the whole-state
 invariant: each keeps it, each is enabled whenever the source's assertions demand, and
 the signals, queue positions and pages handed out mean what the handoff rule says.
 */
module AcquisitionProof {
  import opened Options
  import opened Queues
  import opened Pages
  import opened CurrentPages
  import opened CacheState
  import opened Handoff
  import opened HandoffProof
  import opened Acquisitions

  // ---------------------------------------------------------------- joining

  /** A walk started at an undeclared tail node leaves the queue as it is. */
  lemma WalkAtUndeclaredTail(c: Cache, k: CpId)
    requires WellFormed(c) && k < |c.cps| && |c.cps[k].queue| > 0
    requires !c.acqs[c.cps[k].queue[|c.cps[k].queue| - 1]].declared
    ensures Walk(c, k, |c.cps[k].queue| - 1).cps[k].queue == c.cps[k].queue
  {
  }

  /** A new acquisition is appended at the tail and nothing already queued moves. */
  lemma NewAcquisitionAppends(c: Cache, k: CpId, mode: Mode, a: AcqId)
    requires Valid(c) && k < |c.cps| && a !in c.acqs
    ensures NewAcquisition(c, k, mode, a).cps[k].queue == c.cps[k].queue + [a]
  {
    var q := c.cps[k].queue;
    if |q| > 0 && !(c.acqs[q[|q| - 1]].mode == Read && c.acqs[q[|q| - 1]].readable) {
      AddAcquirerBlocked(c, k, mode, a);
    } else {
      AddAcquirerWalks(c, k, mode, a);
      WalkAtUndeclaredTail(Appended(c, k, mode, a), k);
    }
  }

  /** The flags the handoff rule gives a node appended at the tail of a valid queue. */
  lemma TailFlags(c: Cache, r: Cache, k: CpId, a: AcqId)
    requires Valid(r) && k < |c.cps| && k < |r.cps| && a !in c.acqs
    requires forall j :: 0 <= j < |c.cps[k].queue| ==> c.cps[k].queue[j] in c.acqs
    requires r.cps[k].queue == c.cps[k].queue + [a]
    requires FlagsGrow(c.acqs, r.acqs)
    ensures var q := c.cps[k].queue;
            && a in r.acqs && r.acqs[a].current == Some(k)
            && (r.acqs[a].readable <==> forall j :: 0 <= j < |q| ==> c.acqs[q[j]].mode == Read)
            && (r.acqs[a].writable <==> |q| == 0 && r.acqs[a].mode == Write)
  {
    var q := c.cps[k].queue;
    var q1 := q + [a];
    assert q1[|q|] == a;
    assert QueueLinked(r, k);
    assert Disciplined(r.acqs, q1);
    forall j | 0 <= j < |q|
      ensures q1[j] == q[j] && q[j] in r.acqs && r.acqs[q[j]].mode == c.acqs[q[j]].mode
    {
    }
  }

  /**
   A new acquisition joins at the tail of its queue and is readable exactly when every
   acquirer already queued is a reader, writable exactly when it is a writer alone in
   the queue; the invariant is kept.
   */
  lemma NewAcquisitionJoins(c: Cache, k: CpId, mode: Mode, a: AcqId)
    requires Valid(c) && k < |c.cps| && a !in c.acqs
    ensures var r := NewAcquisition(c, k, mode, a);
            var q := c.cps[k].queue;
            && Valid(r)
            && r.cps[k].queue == q + [a]
            && r.acqs[a].current == Some(k)
            && (r.acqs[a].readable <==> forall j :: 0 <= j < |q| ==> c.acqs[q[j]].mode == Read)
            && (r.acqs[a].writable <==> |q| == 0 && mode == Write)
            && r.acqs[a].mode == mode
            && forall x :: x in c.acqs ==> x in r.acqs && r.acqs[x].mode == c.acqs[x].mode
  {
    var r := NewAcquisition(c, k, mode, a);
    AddAcquirerRestores(c, k, mode, a);
    NewAcquisitionAppends(c, k, mode, a);
    TailFlags(c, r, k, a);
  }

  // ---------------------------------------------------------------- leaving

  /** Forgetting a handle that no queue holds keeps the invariant, given the page counts. */
  lemma ForgetKeepsValid(c: Cache, a: AcqId)
    requires WellFormed(c) && RegistryOk(c) && Linked(c) && AllSettled(c) && AllDisciplined(c)
    requires a in c.acqs
    requires forall k :: 0 <= k < |c.cps| ==> a !in c.cps[k].queue
    requires forall x :: x in c.acqs && x != a ==> BackLinkedFor(c, x)
    requires forall p :: 0 <= p < |c.pages| ==>
               c.pages[p].snapshotRefcount == |Holders(c.acqs, p) - {a}|
    ensures Valid(c.(acqs := c.acqs - {a}))
  {
    var r := c.(acqs := c.acqs - {a});
    forall k | 0 <= k < |r.cps|
      ensures QueueLinked(r, k) && Disciplined(r.acqs, r.cps[k].queue)
    {
      assert QueueLinked(c, k);
      assert Disciplined(c.acqs, c.cps[k].queue);
      DisciplinedFrame(c.acqs, r.acqs, c.cps[k].queue);
    }
    forall p | 0 <= p < |r.pages|
      ensures r.pages[p].snapshotRefcount == |Holders(r.acqs, p)|
    {
      HoldersRemove(c.acqs, a, p);
    }
    forall x | x in r.acqs
      ensures BackLinkedFor(r, x)
    {
      assert BackLinkedFor(c, x);
    }
  }

  /** A handle whose queue no longer holds it is in no queue at all. */
  lemma UnqueuedEverywhere(c: Cache, a: AcqId)
    requires WellFormed(c) && Linked(c) && a in c.acqs
    requires c.acqs[a].current.Some? ==>
               c.acqs[a].current.value < |c.cps| && a !in c.cps[c.acqs[a].current.value].queue
    ensures forall k :: 0 <= k < |c.cps| ==> a !in c.cps[k].queue
  {
    forall k | 0 <= k < |c.cps|
      ensures a !in c.cps[k].queue
    {
      assert QueueLinked(c, k);
    }
  }

  /**
   In a valid state every handle may be destroyed (the source's assertions hold), and
   destroying it keeps the invariant.
   */
  lemma DestroyAcquisitionValid(c: Cache, a: AcqId)
    requires Valid(c) && a in c.acqs
    ensures && (c.acqs[a].current.Some? ==> a in c.cps[c.acqs[a].current.value].queue)
            && (c.acqs[a].snapshot.Some? ==> HasSnapshotReferences(c.pages[c.acqs[a].snapshot.value]))
            && Valid(DestroyAcquisition(c, a))
  {
    var x := c.acqs[a];
    assert BackLinkedFor(c, a) && Settled(x);
    if x.current.Some? {
      DestroyAttachedValid(c, a);
    } else {
      DestroyDetachedValid(c, a);
    }
  }

  lemma DestroyAttachedValid(c: Cache, a: AcqId)
    requires Valid(c) && a in c.acqs && c.acqs[a].current.Some?
    ensures Valid(DestroyAcquisition(c, a))
  {
    var x := c.acqs[a];
    var k := x.current.value;
    assert BackLinkedFor(c, a) && Settled(x);
    var c1 := RemoveAcquirer(c, k, a);
    RemoveAcquirerRestores(c, k, a);
    assert DestroyAcquisition(c, a) == c1.(acqs := c1.acqs - {a});
    ForgetUnhookedValid(c, c1, k, a);
  }

  /** Forgetting the acquirer remove_acquirer just unlinked restores the invariant. */
  lemma ForgetUnhookedValid(c: Cache, c1: Cache, k: CpId, a: AcqId)
    requires a in c.acqs && Unhooked(c, c1, k, a)
    requires c.acqs[a].current == Some(k) && c.acqs[a].snapshot.None?
    ensures Valid(c1.(acqs := c1.acqs - {a}))
  {
    UnqueuedEverywhere(c1, a);
    forall p | 0 <= p < |c1.pages|
      ensures c1.pages[p].snapshotRefcount == |Holders(c1.acqs, p) - {a}|
    {
      assert a !in Holders(c1.acqs, p);
      assert Holders(c1.acqs, p) - {a} == Holders(c1.acqs, p);
    }
    ForgetKeepsValid(c1, a);
  }

  lemma DestroyDetachedValid(c: Cache, a: AcqId)
    requires Valid(c) && a in c.acqs && c.acqs[a].current.None?
    ensures c.acqs[a].snapshot.Some? ==> HasSnapshotReferences(c.pages[c.acqs[a].snapshot.value])
    ensures Valid(DestroyAcquisition(c, a))
  {
    var x := c.acqs[a];
    assert Settled(x);
    var p := x.snapshot.value;
    assert a in Holders(c.acqs, p);
    var c2 := ReleaseSnapshot(c, p);
    assert DestroyAcquisition(c, a) == c2.(acqs := c2.acqs - {a});
    forall k | 0 <= k < |c2.cps|
      ensures QueueLinked(c2, k) && Disciplined(c2.acqs, c2.cps[k].queue)
    {
      assert QueueLinked(c, k);
      assert Disciplined(c.acqs, c.cps[k].queue);
    }
    UnqueuedEverywhere(c2, a);
    forall p' | 0 <= p' < |c2.pages|
      ensures c2.pages[p'].snapshotRefcount == |Holders(c2.acqs, p') - {a}|
    {
      if p' != p {
        assert a !in Holders(c.acqs, p');
        assert Holders(c2.acqs, p') - {a} == Holders(c.acqs, p');
      }
    }
    forall y | y in c2.acqs && y != a
      ensures BackLinkedFor(c2, y)
    {
      assert BackLinkedFor(c, y);
    }
    ForgetKeepsValid(c2, a);
  }

  // ---------------------------------------------------------------- declaring

  /** The handoff rule does not look at the declared flag. */
  lemma DisciplineIgnoresDeclared(acqs: map<AcqId, Acquirer>, x: AcqId, q: seq<AcqId>)
    requires x in acqs && Disciplined(acqs, q)
    ensures Disciplined(acqs[x := acqs[x].(declared := true)], q)
  {
    var b := acqs[x := acqs[x].(declared := true)];
    forall i | 0 <= i < |q|
      ensures ReadersAhead(b, q, i) <==> ReadersAhead(acqs, q, i)
    {
    }
  }

  /** Marking a read handle as declared keeps the invariant. */
  lemma MarkDeclaredValid(c: Cache, a: AcqId)
    requires Valid(c) && a in c.acqs && c.acqs[a].mode == Read
    ensures Valid(c.(acqs := c.acqs[a := c.acqs[a].(declared := true)]))
  {
    var v := c.acqs[a].(declared := true);
    var r := c.(acqs := c.acqs[a := v]);
    assert Settled(c.acqs[a]);
    UpdateKeepsCore(c, a, v);
    forall k | 0 <= k < |r.cps|
      ensures Disciplined(r.acqs, r.cps[k].queue)
    {
      assert Disciplined(c.acqs, c.cps[k].queue);
      DisciplineIgnoresDeclared(c.acqs, a, c.cps[k].queue);
    }
    forall x | x in r.acqs
      ensures BackLinkedFor(r, x)
    {
      assert BackLinkedFor(c, x);
    }
  }

  /** pulse_pulsables returns at one of its two early exits. */
  lemma PulseReturnsEarly(c: Cache, k: CpId, a: AcqId)
    requires WellFormed(c) && k < |c.cps| && a in c.cps[k].queue
    requires var q := c.cps[k].queue;
             var i := IndexOf(q, a);
             || (i > 0 && !(c.acqs[q[i - 1]].mode == Read && c.acqs[q[i - 1]].readable))
             || (c.acqs[a].mode == Read && c.acqs[a].readable)
    ensures PulsePulsables(c, k, a) == c
  {
    var q := c.cps[k].queue;
    var i := IndexOf(q, a);
    if !(i > 0 && !(c.acqs[q[i - 1]].mode == Read && c.acqs[q[i - 1]].readable)) {
      assert c.acqs[a].mode == Read && c.acqs[a].readable;
    }
  }

  /** An attached reader at the head or behind a readable reader is itself readable. */
  lemma ReaderBehindReadersReadable(c: Cache, k: CpId, a: AcqId)
    requires Valid(c) && k < |c.cps| && a in c.cps[k].queue
    requires var q := c.cps[k].queue;
             var i := IndexOf(q, a);
             i > 0 ==> c.acqs[q[i - 1]].mode == Read && c.acqs[q[i - 1]].readable
    ensures c.acqs[a].readable
  {
    var q := c.cps[k].queue;
    var i := IndexOf(q, a);
    assert Disciplined(c.acqs, q);
    if i > 0 {
      assert ReadersAhead(c.acqs, q, i - 1);
    }
    assert ReadersAhead(c.acqs, q, i);
  }

  /**
   In a valid state the handoff that declare_snapshotted re-runs always returns early:
   an attached reader with only readers ahead is already readable, and one behind a
   writer is not reached. Declaring only marks the handle; it leaves its queue later,
   when a walk reaches it. Every read handle may declare, and the invariant is kept.
   */
  lemma DeclareOnlyMarks(c: Cache, a: AcqId)
    requires Valid(c) && a in c.acqs && c.acqs[a].mode == Read
    requires !c.acqs[a].declared ==> c.acqs[a].current.Some?
    ensures && (!c.acqs[a].declared ==> a in c.cps[c.acqs[a].current.value].queue)
            && DeclareSnapshotted(c, a) == c.(acqs := c.acqs[a := c.acqs[a].(declared := true)])
            && Valid(DeclareSnapshotted(c, a))
  {
    var x := c.acqs[a];
    assert BackLinkedFor(c, a);
    MarkDeclaredValid(c, a);
    if x.declared {
      assert c.acqs[a := x.(declared := true)] == c.acqs;
    } else {
      var k := x.current.value;
      var q := c.cps[k].queue;
      var i := IndexOf(q, a);
      var c1 := c.(acqs := c.acqs[a := x.(declared := true)]);
      if !(i > 0 && !(c.acqs[q[i - 1]].mode == Read && c.acqs[q[i - 1]].readable)) {
        ReaderBehindReadersReadable(c, k, a);
      }
      assert i > 0 ==> q[i - 1] != a;
      PulseReturnsEarly(c1, k, a);
    }
  }

  /** Declaring a second time changes nothing. */
  lemma DeclareIdempotent(c: Cache, a: AcqId)
    requires WellFormed(c) && a in c.acqs && c.acqs[a].mode == Read
    requires !c.acqs[a].declared ==>
               c.acqs[a].current.Some? && a in c.cps[c.acqs[a].current.value].queue
    ensures var r := DeclareSnapshotted(c, a);
            a in r.acqs && r.acqs[a].mode == Read && r.acqs[a].declared
            && DeclareSnapshotted(r, a) == r
  {
    var x := c.acqs[a];
    if !x.declared {
      var k := x.current.value;
      var c1 := c.(acqs := c.acqs[a := x.(declared := true)]);
      PulseFrame(c1, k, a);
    }
  }

  // ---------------------------------------------------------------- signals

  /**
   The read signal of an attached handle is pulsed exactly when only readers are ahead
   of it; the write signal of a write handle exactly when it heads its queue. A
   detached handle can always read.
   */
  lemma SignalsFollowQueue(c: Cache, a: AcqId)
    requires Valid(c) && a in c.acqs
    ensures c.acqs[a].snapshot.Some? ==> ReadAcqSignal(c, a)
    ensures c.acqs[a].mode == Read ==> !c.acqs[a].writable
    ensures c.acqs[a].current.Some? ==>
              var q := c.cps[c.acqs[a].current.value].queue;
              && a in q
              && (ReadAcqSignal(c, a) <==> ReadersAhead(c.acqs, q, IndexOf(q, a)))
              && (c.acqs[a].mode == Write ==> (WriteAcqSignal(c, a) <==> IndexOf(q, a) == 0))
  {
    assert Settled(c.acqs[a]) && BackLinkedFor(c, a);
    if c.acqs[a].current.Some? {
      assert Disciplined(c.acqs, c.cps[c.acqs[a].current.value].queue);
    }
  }

  /** Readable handles form a prefix of their queue, in arrival order. */
  lemma ReadableInArrivalOrder(c: Cache, k: CpId, i: nat, j: nat)
    requires Valid(c) && k < |c.cps| && i <= j < |c.cps[k].queue|
    requires c.acqs[c.cps[k].queue[j]].readable
    ensures c.acqs[c.cps[k].queue[i]].readable
  {
    var q := c.cps[k].queue;
    assert Disciplined(c.acqs, q);
    assert ReadersAhead(c.acqs, q, j);
    assert ReadersAhead(c.acqs, q, i);
  }

  /** A writable handle excludes every other handle attached to the same current page. */
  lemma WriterExclusive(c: Cache, w: AcqId, x: AcqId)
    requires Valid(c) && w in c.acqs && x in c.acqs && w != x
    requires c.acqs[w].writable && c.acqs[x].current == c.acqs[w].current
    ensures !c.acqs[x].readable && !c.acqs[x].writable
  {
    assert Settled(c.acqs[w]) && BackLinkedFor(c, w) && BackLinkedFor(c, x);
    var k := c.acqs[w].current.value;
    var q := c.cps[k].queue;
    assert Disciplined(c.acqs, q) && QueueLinked(c, k);
    var iw := IndexOf(q, w);
    var ix := IndexOf(q, x);
    assert iw == 0;
    assert ix != 0;
    assert !ReadersAhead(c.acqs, q, ix);
  }

  // ---------------------------------------------------------------- pages

  /** A page some handle has detached onto has snapshot references. */
  lemma HolderKeepsPageReferenced(c: Cache, x: AcqId)
    requires Valid(c) && x in c.acqs && c.acqs[x].snapshot.Some?
    ensures HasSnapshotReferences(c.pages[c.acqs[x].snapshot.value])
  {
    assert x in Holders(c.acqs, c.acqs[x].snapshot.value);
  }

  /** Resolving a current page's live page keeps the invariant. */
  lemma ResolveKeepsValid(c: Cache, k: CpId, live: Resolved)
    requires Valid(c) && k < |c.cps|
    requires Resolvable(live.cp, live.pages) && live.cp.queue == c.cps[k].queue
    requires live.cp.blockId == c.cps[k].blockId || live.cp.blockId.None?
    requires |c.pages| <= |live.pages| && live.pages[..|c.pages|] == c.pages
    requires forall p :: |c.pages| <= p < |live.pages| ==> !HasSnapshotReferences(live.pages[p])
    ensures Valid(Resolve(c, k, live))
  {
    var r := Resolve(c, k, live);
    forall k' | 0 <= k' < |r.cps|
      ensures QueueLinked(r, k') && Disciplined(r.acqs, r.cps[k'].queue)
    {
      assert QueueLinked(c, k');
      assert Disciplined(c.acqs, c.cps[k'].queue);
    }
    forall p | 0 <= p < |r.pages|
      ensures r.pages[p].snapshotRefcount == |Holders(r.acqs, p)|
    {
      if p < |c.pages| {
        assert r.pages[p] == live.pages[..|c.pages|][p];
      } else {
        forall x | x in r.acqs
          ensures r.acqs[x].snapshot != Some(p)
        {
        }
        assert Holders(r.acqs, p) == {};
      }
    }
    forall x | x in r.acqs
      ensures BackLinkedFor(r, x)
    {
      assert BackLinkedFor(c, x);
    }
  }

  /** page_for_read keeps the invariant; a detached handle gets its snapshot. */
  lemma PageForReadValid(c: Cache, a: AcqId)
    requires Valid(c) && a in c.acqs && c.acqs[a].readable
    ensures c.acqs[a].snapshot.Some? || c.acqs[a].current.Some?
    ensures Valid(PageForRead(c, a).cache)
  {
    var x := c.acqs[a];
    assert Settled(x);
    if x.snapshot.None? {
      var k := x.current.value;
      ResolveKeepsValid(c, k, ThePageForRead(c.cps[k], c.pages));
    }
  }

  /** page_for_write keeps the invariant. */
  lemma PageForWriteValid(c: Cache, a: AcqId)
    requires Valid(c) && a in c.acqs && c.acqs[a].mode == Write
    requires c.acqs[a].current.Some? && c.acqs[a].writable
    ensures Valid(PageForWrite(c, a).cache)
  {
    var k := c.acqs[a].current.value;
    ResolveKeepsValid(c, k, ThePageForWrite(c.cps[k], c.pages));
  }

  /**
   Snapshot isolation: the page a writer is handed is viewed by no snapshot holder, so
   a write never changes what a detached reader sees.
   */
  lemma WriteNeverSharesSnapshot(c: Cache, w: AcqId)
    requires Valid(c) && w in c.acqs && c.acqs[w].mode == Write
    requires c.acqs[w].current.Some? && c.acqs[w].writable
    ensures var r := PageForWrite(c, w);
            forall x :: x in r.cache.acqs ==> r.cache.acqs[x].snapshot != Some(r.page)
  {
    var r := PageForWrite(c, w);
    PageForWriteValid(c, w);
    assert Holders(r.cache.acqs, r.page) == {};
    forall x | x in r.cache.acqs
      ensures r.cache.acqs[x].snapshot != Some(r.page)
    {
      assert x !in Holders(r.cache.acqs, r.page);
    }
  }

  /** Two readable handles attached to one current page read the same page. */
  lemma ReadersShareLivePage(c: Cache, x: AcqId, y: AcqId)
    requires Valid(c) && x in c.acqs && y in c.acqs
    requires c.acqs[x].current.Some? && c.acqs[y].current == c.acqs[x].current
    requires c.acqs[x].readable && c.acqs[y].readable
    ensures var r1 := PageForRead(c, x);
            var r2 := PageForRead(r1.cache, y);
            r2.page == r1.page && r2.cache == r1.cache
  {
    assert Settled(c.acqs[x]) && Settled(c.acqs[y]);
    var k := c.acqs[x].current.value;
    ReadMaterialisesOnce(c.cps[k], c.pages);
  }

}
