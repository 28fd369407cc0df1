/**
 Proof that the handoff walk of pulse_pulsables turns a queue whose readable prefix
 has just been disturbed (by an append, an unlink or a declaration) back into one that
 obeys the handoff rule, while keeping every other invariant of the cache.
 */
module HandoffProof {
  import opened Options
  import opened Queues
  import opened Pages
  import opened CurrentPages
  import opened CacheState
  import opened Handoff

  /** A reader the walk has already passed: readable, and (being a reader) not writable. */
  ghost predicate Granted(x: Acquirer)
  {
    x.mode == Read && x.readable && !x.writable
  }

  /** A node the walk has not reached yet: neither readable nor writable. */
  ghost predicate Pending(x: Acquirer)
  {
    !x.readable && !x.writable
  }

  /**
   The state at each step of the walk from position i of queue k: every node before i
   is a granted reader, every node after i is pending, and the node at i is not
   writable and is a writer or not yet readable. All other queues obey the rule.
   */
  ghost predicate WalkPre(c: Cache, k: CpId, i: nat)
  {
    && Core(c) && k < |c.cps| && i <= |c.cps[k].queue|
    && (forall k' :: 0 <= k' < |c.cps| && k' != k ==> Disciplined(c.acqs, c.cps[k'].queue))
    && (forall j :: 0 <= j < i ==>
          c.cps[k].queue[j] in c.acqs && Granted(c.acqs[c.cps[k].queue[j]]))
    && (forall j :: i < j < |c.cps[k].queue| ==>
          c.cps[k].queue[j] in c.acqs && Pending(c.acqs[c.cps[k].queue[j]]))
    && (i < |c.cps[k].queue| ==>
          && c.cps[k].queue[i] in c.acqs
          && !c.acqs[c.cps[k].queue[i]].writable
          && (c.acqs[c.cps[k].queue[i]].mode == Write || !c.acqs[c.cps[k].queue[i]].readable))
  }

  /** The handoff rule of a queue only depends on the records of its own nodes. */
  lemma DisciplinedFrame(a: map<AcqId, Acquirer>, b: map<AcqId, Acquirer>, q: seq<AcqId>)
    requires forall j :: 0 <= j < |q| ==> q[j] in a && q[j] in b && b[q[j]] == a[q[j]]
    requires Disciplined(a, q)
    ensures Disciplined(b, q)
  {
    forall i | 0 <= i < |q|
      ensures ReadersAhead(a, q, i) <==> ReadersAhead(b, q, i)
    {
    }
  }

  /** Queues other than k keep the rule across a step confined to queue k. */
  lemma OthersStayDisciplined(c: Cache, r: Cache, k: CpId)
    requires WellFormed(c) && Linked(c) && HandoffFrame(c, r, k, 0)
    requires forall k' :: 0 <= k' < |c.cps| && k' != k ==> Disciplined(c.acqs, c.cps[k'].queue)
    ensures forall k' :: 0 <= k' < |r.cps| && k' != k ==> Disciplined(r.acqs, r.cps[k'].queue)
  {
    forall k' | 0 <= k' < |r.cps| && k' != k
      ensures Disciplined(r.acqs, r.cps[k'].queue)
    {
      var q := c.cps[k'].queue;
      assert QueueLinked(c, k');
      assert QueueLinked(c, k);
      forall j | 0 <= j < |q|
        ensures q[j] in c.acqs && q[j] in r.acqs && r.acqs[q[j]] == c.acqs[q[j]]
      {
        assert c.acqs[q[j]].current == Some(k');
        assert q[j] !in c.cps[k].queue;
      }
      DisciplinedFrame(c.acqs, r.acqs, q);
    }
  }

  /** Rewriting one acquirer's flags keeps every structural invariant. */
  lemma UpdateKeepsCore(c: Cache, x: AcqId, v: Acquirer)
    requires Core(c) && x in c.acqs
    requires v.current == c.acqs[x].current && v.snapshot == c.acqs[x].snapshot && Settled(v)
    ensures Core(c.(acqs := c.acqs[x := v]))
  {
    var r := c.(acqs := c.acqs[x := v]);
    forall p | 0 <= p < |r.pages|
      ensures r.pages[p].snapshotRefcount == |Holders(r.acqs, p)|
    {
      HoldersUpdate(c.acqs, x, v, p);
      if v.snapshot == Some(p) {
        assert x in Holders(c.acqs, p);
      } else {
        assert x !in Holders(c.acqs, p);
      }
      assert Holders(r.acqs, p) == Holders(c.acqs, p);
    }
    forall k | 0 <= k < |r.cps|
      ensures QueueLinked(r, k)
    {
      assert QueueLinked(c, k);
    }
  }

  /** Step of the walk over a plain reader: it becomes readable, the walk moves on. */
  lemma ReaderStep(c: Cache, k: CpId, i: nat)
    requires WalkPre(c, k, i) && i < |c.cps[k].queue|
    requires c.acqs[c.cps[k].queue[i]].mode == Read && !c.acqs[c.cps[k].queue[i]].declared
    ensures WalkPre(MarkReadable(c, k, i), k, i + 1)
    ensures MarkReadable(c, k, i).cps == c.cps
    ensures forall a :: a in c.acqs ==> MarkReadable(c, k, i).acqs[a].current == c.acqs[a].current
  {
    var q := c.cps[k].queue;
    var x := q[i];
    var v := c.acqs[x].(readable := true);
    var r := MarkReadable(c, k, i);
    assert r == c.(acqs := c.acqs[x := v]);
    assert QueueLinked(c, k);
    UpdateKeepsCore(c, x, v);
    OthersStayDisciplined(c, r, k);
    forall j | 0 <= j < i + 1
      ensures q[j] in r.acqs && Granted(r.acqs[q[j]])
    {
      if j < i {
        assert q[j] != x;
      }
    }
    forall j | i + 1 < j < |q|
      ensures q[j] in r.acqs && Pending(r.acqs[q[j]])
    {
      assert q[j] != x;
    }
    if i + 1 < |q| {
      assert q[i + 1] != x;
    }
  }

  /** Step of the walk over a writer: it ends the walk with the rule restored. */
  lemma WriterStep(c: Cache, k: CpId, i: nat)
    requires WalkPre(c, k, i) && i < |c.cps[k].queue|
    requires c.acqs[c.cps[k].queue[i]].mode == Write
    ensures var c1 := MarkReadable(c, k, i);
            var r := if i == 0 then MarkWritable(c1, k, i) else c1;
            && Core(r) && AllDisciplined(r)
            && r.cps == c.cps
            && (forall a :: a in c.acqs ==> r.acqs[a].current == c.acqs[a].current)
  {
    var q := c.cps[k].queue;
    var x := q[i];
    var v := c.acqs[x].(readable := true, writable := c.acqs[x].writable || i == 0);
    var c1 := MarkReadable(c, k, i);
    var r := if i == 0 then MarkWritable(c1, k, i) else c1;
    assert r == c.(acqs := c.acqs[x := v]);
    assert QueueLinked(c, k);
    UpdateKeepsCore(c, x, v);
    FrameTrans(c, c1, r, k, |q|, |q|, 0);
    OthersStayDisciplined(c, r, k);
    forall j | 0 <= j < |q|
      ensures q[j] in r.acqs
      ensures r.acqs[q[j]].readable <==> ReadersAhead(r.acqs, q, j)
      ensures r.acqs[q[j]].writable <==> j == 0 && r.acqs[q[j]].mode == Write
    {
      if j < i {
        assert q[j] != x;
        assert ReadersAhead(r.acqs, q, j) by {
          forall m | 0 <= m < j ensures q[m] in r.acqs && r.acqs[q[m]].mode == Read {
            assert q[m] != x;
          }
        }
      } else if j == i {
        assert ReadersAhead(r.acqs, q, j) by {
          forall m | 0 <= m < j ensures q[m] in r.acqs && r.acqs[q[m]].mode == Read {
            assert q[m] != x;
          }
        }
      } else {
        assert q[j] != x;
        assert !ReadersAhead(r.acqs, q, j) by {
          assert r.acqs[q[i]].mode == Write;
        }
      }
    }
    assert Disciplined(r.acqs, q);
  }

  /** End of the walk past the tail: every node is a granted reader. */
  lemma EndStep(c: Cache, k: CpId)
    requires k < |c.cps| && WalkPre(c, k, |c.cps[k].queue|)
    ensures AllDisciplined(c)
  {
    var q := c.cps[k].queue;
    forall j | 0 <= j < |q|
      ensures c.acqs[q[j]].readable <==> ReadersAhead(c.acqs, q, j)
    {
      assert ReadersAhead(c.acqs, q, j) by {
        forall m | 0 <= m < j ensures q[m] in c.acqs && c.acqs[q[m]].mode == Read {
        }
      }
    }
    assert Disciplined(c.acqs, q);
  }

  /** The shape of the state after the snapshot splice of the reader at position i. */
  ghost predicate DetachShape(c: Cache, k: CpId, i: nat, r: Cache, p: PageId)
    requires k < |c.cps| && i < |c.cps[k].queue| && c.cps[k].queue[i] in c.acqs
  {
    var q := c.cps[k].queue;
    var x := q[i];
    && r.registry == c.registry
    && |r.cps| == |c.cps|
    && (forall k' :: 0 <= k' < |c.cps| && k' != k ==> r.cps[k'] == c.cps[k'])
    && r.cps[k].queue == RemoveAt(q, i)
    && r.cps[k].page == Some(p) && r.cps[k].blockId.None?
    && r.acqs == c.acqs[x := c.acqs[x].(readable := true, snapshot := Some(p), current := None)]
    && p <= |c.pages|
    && |r.pages| == (if p == |c.pages| then |c.pages| + 1 else |c.pages|)
    && (forall p' :: 0 <= p' < |c.pages| && p' != p ==> r.pages[p'] == c.pages[p'])
    && (p < |c.pages| ==> r.pages[p].snapshotRefcount == c.pages[p].snapshotRefcount + 1)
    && (p == |c.pages| ==> r.pages[p].snapshotRefcount == 1)
  }

  lemma DetachHasShape(c: Cache, k: CpId, i: nat)
    requires WellFormed(c) && k < |c.cps| && i < |c.cps[k].queue|
    requires c.acqs[c.cps[k].queue[i]].declared
    ensures var r := Detach(MarkReadable(c, k, i), k, i);
            DetachShape(c, k, i, r, r.cps[k].page.value)
  {
    var c1 := MarkReadable(c, k, i);
    var live := ThePageForRead(c1.cps[k], c1.pages);
    assert live.pages[..|c.pages|] == c.pages;
  }

  /** The splice keeps the registry, the links and the per-acquirer rules. */
  lemma DetachKeepsLinks(c: Cache, k: CpId, i: nat, r: Cache, p: PageId)
    requires WalkPre(c, k, i) && i < |c.cps[k].queue|
    requires c.acqs[c.cps[k].queue[i]].mode == Read && c.acqs[c.cps[k].queue[i]].declared
    requires WellFormed(r) && DetachShape(c, k, i, r, p)
    ensures RegistryOk(r) && Linked(r) && AllSettled(r)
  {
    var q := c.cps[k].queue;
    var x := q[i];
    var q2 := r.cps[k].queue;
    assert QueueLinked(c, k);
    RemoveAtMembers(q, i);
    forall k' | 0 <= k' < |r.cps|
      ensures QueueLinked(r, k')
    {
      assert QueueLinked(c, k');
      if k' != k {
        forall j | 0 <= j < |r.cps[k'].queue|
          ensures r.cps[k'].queue[j] != x
        {
          assert c.acqs[c.cps[k'].queue[j]].current == Some(k');
        }
      } else {
        forall j | 0 <= j < |q2|
          ensures q2[j] in r.acqs && r.acqs[q2[j]].current == Some(k)
        {
          assert q2[j] in q && q2[j] != x;
        }
      }
    }
    assert AllSettled(r) by {
      forall a | a in r.acqs ensures Settled(r.acqs[a]) {
        if a != x {
          assert Settled(c.acqs[a]);
        }
      }
    }
  }

  /** The splice adds exactly the one snapshotter it records. */
  lemma DetachKeepsRefcounts(c: Cache, k: CpId, i: nat, r: Cache, p: PageId)
    requires WalkPre(c, k, i) && i < |c.cps[k].queue|
    requires WellFormed(r) && DetachShape(c, k, i, r, p)
    ensures Refcounted(r)
  {
    var x := c.cps[k].queue[i];
    assert QueueLinked(c, k);
    var v := r.acqs[x];
    forall p' | 0 <= p' < |r.pages|
      ensures r.pages[p'].snapshotRefcount == |Holders(r.acqs, p')|
    {
      HoldersUpdate(c.acqs, x, v, p');
      assert x !in Holders(c.acqs, p');
      if p' == p {
        assert Holders(r.acqs, p') == Holders(c.acqs, p') + {x};
        if p == |c.pages| {
          assert Holders(c.acqs, p') == {};
        }
      } else {
        assert Holders(r.acqs, p') == Holders(c.acqs, p');
      }
    }
  }

  /** After the splice the walk may resume at position i. */
  lemma DetachKeepsWalkPre(c: Cache, k: CpId, i: nat, r: Cache, p: PageId)
    requires WalkPre(c, k, i) && i < |c.cps[k].queue|
    requires Core(r) && DetachShape(c, k, i, r, p) && HandoffFrame(c, r, k, 0)
    ensures WalkPre(r, k, i)
  {
    var q := c.cps[k].queue;
    var x := q[i];
    OthersStayDisciplined(c, r, k);
    assert QueueLinked(c, k);
    var q2 := r.cps[k].queue;
    forall j | 0 <= j < i
      ensures q2[j] in r.acqs && Granted(r.acqs[q2[j]])
    {
      assert q2[j] == q[j] && q[j] != x;
    }
    forall j | i <= j < |q2|
      ensures q2[j] in r.acqs && Pending(r.acqs[q2[j]])
    {
      assert q2[j] == q[j + 1] && q[j + 1] != x;
    }
  }

  /** The splice keeps the back link of every acquirer but the one it detaches. */
  lemma DetachKeepsBackLinks(c: Cache, k: CpId, i: nat, r: Cache, p: PageId)
    requires WalkPre(c, k, i) && i < |c.cps[k].queue|
    requires DetachShape(c, k, i, r, p)
    ensures forall a :: a in c.acqs && BackLinkedFor(c, a) ==> a in r.acqs && BackLinkedFor(r, a)
  {
    var q := c.cps[k].queue;
    var x := q[i];
    assert QueueLinked(c, k);
    RemoveAtMembers(q, i);
    forall a | a in c.acqs && BackLinkedFor(c, a)
      ensures a in r.acqs && BackLinkedFor(r, a)
    {
      if a != x && c.acqs[a].current == Some(k) {
        assert a in r.cps[k].queue;
      }
    }
  }

  /**
   Step of the walk over a reader that declared a snapshot: it is detached onto the live
   page, and the walk resumes at the same position, now holding its former successor.
   */
  lemma DetachStep(c: Cache, k: CpId, i: nat)
    requires WalkPre(c, k, i) && i < |c.cps[k].queue|
    requires c.acqs[c.cps[k].queue[i]].mode == Read && c.acqs[c.cps[k].queue[i]].declared
    ensures var r := Detach(MarkReadable(c, k, i), k, i);
            && WalkPre(r, k, i)
            && (forall a :: a in c.acqs && BackLinkedFor(c, a) ==> a in r.acqs && BackLinkedFor(r, a))
            && DetachShape(c, k, i, r, r.cps[k].page.value)
  {
    var q := c.cps[k].queue;
    var c1 := MarkReadable(c, k, i);
    var r := Detach(c1, k, i);
    DetachHasShape(c, k, i);
    var p := r.cps[k].page.value;
    DetachKeepsLinks(c, k, i, r, p);
    DetachKeepsRefcounts(c, k, i, r, p);
    FrameTrans(c, c1, r, k, |q|, i, 0);
    DetachKeepsWalkPre(c, k, i, r, p);
    DetachKeepsBackLinks(c, k, i, r, p);
  }

  /**
   What a handoff run from state c to state r achieves on queue k: the handoff rule and
   every structural invariant hold, every back link holds that held before, and every
   acquirer the run detached from queue k views the live page of k.
   */
  ghost predicate Restored(c: Cache, r: Cache, k: CpId)
  {
    && Core(r) && AllDisciplined(r) && k < |r.cps|
    && (forall a :: a in c.acqs && BackLinkedFor(c, a) ==> a in r.acqs && BackLinkedFor(r, a))
    && (forall a :: a in c.acqs && c.acqs[a].current == Some(k) ==>
          a in r.acqs && (r.acqs[a].current != Some(k) ==> r.acqs[a].snapshot == r.cps[k].page))
  }

  /**
   The walk restores the handoff rule and every structural invariant, keeps the back
   link of every acquirer it does not detach, and points every acquirer it detaches at
   the live page of the queue.
   */
  lemma {:induction false} WalkRestores(c: Cache, k: CpId, i: nat)
    requires WalkPre(c, k, i)
    ensures Restored(c, Walk(c, k, i), k)
    decreases |c.cps[k].queue| - i, 1
  {
    var q := c.cps[k].queue;
    if i == |q| {
      EndStep(c, k);
    } else if c.acqs[q[i]].mode == Write {
      WriterCase(c, k, i);
    } else if c.acqs[q[i]].declared {
      DetachCase(c, k, i);
    } else {
      ReaderCase(c, k, i);
    }
  }

  lemma {:induction false} DetachCase(c: Cache, k: CpId, i: nat)
    requires WalkPre(c, k, i) && i < |c.cps[k].queue|
    requires c.acqs[c.cps[k].queue[i]].mode == Read && c.acqs[c.cps[k].queue[i]].declared
    ensures Restored(c, Walk(c, k, i), k)
    decreases |c.cps[k].queue| - i, 0
  {
    var q := c.cps[k].queue;
    var x := q[i];
    var c1 := MarkReadable(c, k, i);
    var c2 := Detach(c1, k, i);
    var r := Walk(c, k, i);
    assert r == Walk(c2, k, i);
    DetachStep(c, k, i);
    WalkRestores(c2, k, i);
    WalkFrame(c2, k, i);
    assert QueueLinked(c, k);
    RemoveAtMembers(q, i);
    assert x !in c2.cps[k].queue;
    assert r.acqs[x] == c2.acqs[x];
  }

  lemma {:induction false} ReaderCase(c: Cache, k: CpId, i: nat)
    requires WalkPre(c, k, i) && i < |c.cps[k].queue|
    requires c.acqs[c.cps[k].queue[i]].mode == Read && !c.acqs[c.cps[k].queue[i]].declared
    ensures Restored(c, Walk(c, k, i), k)
    decreases |c.cps[k].queue| - i, 0
  {
    var c1 := MarkReadable(c, k, i);
    ReaderStep(c, k, i);
    WalkRestores(c1, k, i + 1);
    RestoredBack(c, c1, Walk(c1, k, i + 1), k);
    assert Walk(c, k, i) == Walk(c1, k, i + 1);
  }

  /** A run restored from m is restored from c when m only changed flags of c. */
  lemma RestoredBack(c: Cache, m: Cache, r: Cache, k: CpId)
    requires Restored(m, r, k) && m.cps == c.cps && m.acqs.Keys == c.acqs.Keys
    requires forall a :: a in c.acqs ==> m.acqs[a].current == c.acqs[a].current
    ensures Restored(c, r, k)
  {
    forall a | a in c.acqs && BackLinkedFor(c, a)
      ensures a in r.acqs && BackLinkedFor(r, a)
    {
      assert BackLinkedFor(m, a);
    }
  }

  lemma WriterCase(c: Cache, k: CpId, i: nat)
    requires WalkPre(c, k, i) && i < |c.cps[k].queue|
    requires c.acqs[c.cps[k].queue[i]].mode == Write
    ensures Restored(c, Walk(c, k, i), k)
  {
    var c1 := MarkReadable(c, k, i);
    var r := Walk(c, k, i);
    WriterStep(c, k, i);
    assert r == if i == 0 then MarkWritable(c1, k, i) else c1;
    forall a | a in c.acqs && BackLinkedFor(c, a)
      ensures BackLinkedFor(r, a)
    {
    }
  }

  /** Only readers ahead up to i: the same holds at every earlier position. */
  lemma ReadersAheadPrefix(a: map<AcqId, Acquirer>, q: seq<AcqId>, i: int, j: int)
    requires ReadersAhead(a, q, i) && j <= i
    ensures ReadersAhead(a, q, j)
  {
  }

  /** Two queues that agree up to position i have the same readers ahead of i. */
  lemma ReadersAheadSamePrefix(a: map<AcqId, Acquirer>, q: seq<AcqId>, q': seq<AcqId>, i: int)
    requires 0 <= i <= |q| && i <= |q'| && q[..i] == q'[..i]
    ensures ReadersAhead(a, q, i) <==> ReadersAhead(a, q', i)
  {
    forall j | 0 <= j < i
      ensures q[j] == q'[j]
    {
      assert q[..i][j] == q'[..i][j];
    }
  }

  /** Unlinking a reader does not change which later nodes have only readers ahead. */
  lemma ReadersAheadSkipReader(a: map<AcqId, Acquirer>, q: seq<AcqId>, m: nat, j: nat)
    requires m < |q| && q[m] in a && a[q[m]].mode == Read && m <= j < |q| - 1
    ensures ReadersAhead(a, RemoveAt(q, m), j) <==> ReadersAhead(a, q, j + 1)
  {
    var q1 := RemoveAt(q, m);
    if ReadersAhead(a, q1, j) {
      forall t | 0 <= t < j + 1
        ensures q[t] in a && a[q[t]].mode == Read
      {
        if t < m {
          assert q1[t] == q[t];
        } else if t > m {
          assert q1[t - 1] == q[t];
        }
      }
    }
    if ReadersAhead(a, q, j + 1) {
      forall t | 0 <= t < j
        ensures q1[t] in a && a[q1[t]].mode == Read
      {
        if t < m {
          assert q1[t] == q[t];
        } else {
          assert q1[t] == q[t + 1];
        }
      }
    }
  }

  /** In a valid state a readable reader has only readers, all readable, ahead of it. */
  lemma GrantedPrefix(c: Cache, k: CpId, i: nat)
    requires Valid(c) && k < |c.cps| && i <= |c.cps[k].queue|
    requires i > 0 ==> var p := c.cps[k].queue[i - 1];
                       p in c.acqs && c.acqs[p].mode == Read && c.acqs[p].readable
    ensures forall j :: 0 <= j < i ==> c.cps[k].queue[j] in c.acqs && Granted(c.acqs[c.cps[k].queue[j]])
  {
    var q := c.cps[k].queue;
    assert Disciplined(c.acqs, q);
    if i > 0 {
      assert ReadersAhead(c.acqs, q, i - 1);
      forall j | 0 <= j < i
        ensures q[j] in c.acqs && Granted(c.acqs[q[j]])
      {
        ReadersAheadPrefix(c.acqs, q, i - 1, j);
        if j < i - 1 {
          assert c.acqs[q[j]].mode == Read;
        }
      }
    }
  }

  /** The state just after a fresh acquirer is appended to queue k. */
  function Appended(c: Cache, k: CpId, mode: Mode, a: AcqId): (r: Cache)
    requires k < |c.cps|
  {
    c.(acqs := c.acqs[a := NewAcquirer(mode, k)],
       cps := c.cps[k := c.cps[k].(queue := c.cps[k].queue + [a])])
  }

  lemma AppendedCore(c: Cache, k: CpId, mode: Mode, a: AcqId)
    requires Valid(c) && k < |c.cps| && a !in c.acqs
    ensures Core(Appended(c, k, mode, a))
    ensures forall k' :: 0 <= k' < |c.cps| && k' != k ==>
              Disciplined(Appended(c, k, mode, a).acqs, Appended(c, k, mode, a).cps[k'].queue)
    ensures BackLinked(Appended(c, k, mode, a))
  {
    var r := Appended(c, k, mode, a);
    var q := c.cps[k].queue;
    assert QueueLinked(c, k);
    forall k' | 0 <= k' < |r.cps|
      ensures QueueLinked(r, k')
    {
      assert QueueLinked(c, k');
    }
    forall p | 0 <= p < |r.pages|
      ensures r.pages[p].snapshotRefcount == |Holders(r.acqs, p)|
    {
      HoldersUpdate(c.acqs, a, NewAcquirer(mode, k), p);
      assert Holders(r.acqs, p) == Holders(c.acqs, p);
    }
    forall k' | 0 <= k' < |c.cps| && k' != k
      ensures Disciplined(r.acqs, r.cps[k'].queue)
    {
      assert Disciplined(c.acqs, c.cps[k'].queue);
      DisciplinedFrame(c.acqs, r.acqs, c.cps[k'].queue);
    }
    forall x | x in r.acqs
      ensures BackLinkedFor(r, x)
    {
      if x != a {
        assert BackLinkedFor(c, x);
      } else {
        assert r.cps[k].queue[|q|] == a;
      }
    }
  }

  /** A fresh node appended behind a writer or an unreadable reader keeps the rule. */
  lemma AppendBehindBlocker(acqs: map<AcqId, Acquirer>, q: seq<AcqId>, a: AcqId, v: Acquirer)
    requires Disciplined(acqs, q) && a !in acqs && |q| > 0
    requires forall j :: 0 <= j < |q| ==> q[j] in acqs
    requires !(acqs[q[|q| - 1]].mode == Read && acqs[q[|q| - 1]].readable)
    requires !v.readable && !v.writable
    ensures Disciplined(acqs[a := v], q + [a])
  {
    var a1 := acqs[a := v];
    var q1 := q + [a];
    forall j | 0 <= j < |q1|
      ensures q1[j] in a1
      ensures a1[q1[j]].readable <==> ReadersAhead(a1, q1, j)
      ensures a1[q1[j]].writable <==> j == 0 && a1[q1[j]].mode == Write
    {
      if j < |q| {
        assert q1[..j] == q[..j];
        ReadersAheadSamePrefix(acqs, q, q1, j);
        assert ReadersAhead(acqs, q1, j) <==> ReadersAhead(a1, q1, j);
      } else {
        var p := q[|q| - 1];
        assert q1[|q| - 1] == p;
        if acqs[p].mode == Read {
          assert !ReadersAhead(acqs, q, |q| - 1);
          var t :| 0 <= t < |q| - 1 && !(q[t] in acqs && acqs[q[t]].mode == Read);
          assert q1[t] == q[t];
        }
        assert !ReadersAhead(a1, q1, j);
      }
    }
  }

  /** A fresh node appended behind readable readers is where the walk starts. */
  lemma AppendBehindReaders(c: Cache, k: CpId, mode: Mode, a: AcqId)
    requires Valid(c) && k < |c.cps| && a !in c.acqs
    requires |c.cps[k].queue| > 0 ==>
               var p := c.cps[k].queue[|c.cps[k].queue| - 1];
               c.acqs[p].mode == Read && c.acqs[p].readable
    ensures WalkPre(Appended(c, k, mode, a), k, |c.cps[k].queue|)
  {
    var c1 := Appended(c, k, mode, a);
    var q := c.cps[k].queue;
    var q1 := q + [a];
    AppendedCore(c, k, mode, a);
    GrantedPrefix(c, k, |q|);
    forall j | 0 <= j < |q|
      ensures q1[j] in c1.acqs && Granted(c1.acqs[q1[j]])
    {
      assert q1[j] == q[j] && q[j] != a;
    }
  }

  /** A run that restored queue k from a back-linked state yields a valid state. */
  lemma RestoredIsValid(c: Cache, r: Cache, k: CpId)
    requires Restored(c, r, k) && BackLinked(c) && r.acqs.Keys == c.acqs.Keys
    ensures Valid(r)
  {
    forall x | x in r.acqs
      ensures BackLinkedFor(r, x)
    {
      assert BackLinkedFor(c, x);
    }
  }

  /**
   add_acquirer on a fresh acquirer restores the whole invariant: either the walk runs
   from the new tail, or the new node sits behind a writer or an unreadable reader and
   is rightly left unreadable.
   */
  lemma AddAcquirerRestores(c: Cache, k: CpId, mode: Mode, a: AcqId)
    requires Valid(c) && k < |c.cps| && a !in c.acqs
    ensures Valid(AddAcquirer(c.(acqs := c.acqs[a := NewAcquirer(mode, k)]), k, a))
  {
    var q := c.cps[k].queue;
    if |q| > 0 && !(c.acqs[q[|q| - 1]].mode == Read && c.acqs[q[|q| - 1]].readable) {
      AddBlockedValid(c, k, mode, a);
    } else {
      AddWalkValid(c, k, mode, a);
    }
  }

  lemma AddBlockedValid(c: Cache, k: CpId, mode: Mode, a: AcqId)
    requires Valid(c) && k < |c.cps| && a !in c.acqs
    requires var q := c.cps[k].queue;
             |q| > 0 && !(c.acqs[q[|q| - 1]].mode == Read && c.acqs[q[|q| - 1]].readable)
    ensures Valid(AddAcquirer(c.(acqs := c.acqs[a := NewAcquirer(mode, k)]), k, a))
  {
    var q := c.cps[k].queue;
    AppendedCore(c, k, mode, a);
    assert Disciplined(c.acqs, q);
    AppendBehindBlocker(c.acqs, q, a, NewAcquirer(mode, k));
    AddAcquirerBlocked(c, k, mode, a);
  }

  lemma AddWalkValid(c: Cache, k: CpId, mode: Mode, a: AcqId)
    requires Valid(c) && k < |c.cps| && a !in c.acqs
    requires var q := c.cps[k].queue;
             !(|q| > 0 && !(c.acqs[q[|q| - 1]].mode == Read && c.acqs[q[|q| - 1]].readable))
    ensures Valid(AddAcquirer(c.(acqs := c.acqs[a := NewAcquirer(mode, k)]), k, a))
  {
    var q := c.cps[k].queue;
    var c1 := Appended(c, k, mode, a);
    AppendedCore(c, k, mode, a);
    AppendBehindReaders(c, k, mode, a);
    WalkRestores(c1, k, |q|);
    WalkFrame(c1, k, |q|);
    AddAcquirerWalks(c, k, mode, a);
    RestoredIsValid(c1, Walk(c1, k, |q|), k);
  }

  /** Behind a blocker, add_acquirer only appends. */
  lemma AddAcquirerBlocked(c: Cache, k: CpId, mode: Mode, a: AcqId)
    requires WellFormed(c) && k < |c.cps| && a !in c.acqs
    requires var q := c.cps[k].queue;
             |q| > 0 && !(c.acqs[q[|q| - 1]].mode == Read && c.acqs[q[|q| - 1]].readable)
    ensures AddAcquirer(c.(acqs := c.acqs[a := NewAcquirer(mode, k)]), k, a) == Appended(c, k, mode, a)
  {
    var q := c.cps[k].queue;
    assert IndexOf(q + [a], a) == |q|;
    assert q[|q| - 1] != a;
  }

  /** Behind readable readers, add_acquirer walks from the new tail. */
  lemma AddAcquirerWalks(c: Cache, k: CpId, mode: Mode, a: AcqId)
    requires WellFormed(c) && k < |c.cps| && a !in c.acqs
    requires var q := c.cps[k].queue;
             !(|q| > 0 && !(c.acqs[q[|q| - 1]].mode == Read && c.acqs[q[|q| - 1]].readable))
    ensures AddAcquirer(c.(acqs := c.acqs[a := NewAcquirer(mode, k)]), k, a)
            == Walk(Appended(c, k, mode, a), k, |c.cps[k].queue|)
  {
    var q := c.cps[k].queue;
    assert IndexOf(q + [a], a) == |q|;
    if |q| > 0 {
      assert q[|q| - 1] != a;
    }
  }

  /** Only readable readers lie before a readable reader at position i - 1. */
  lemma GrantedBefore(acqs: map<AcqId, Acquirer>, q: seq<AcqId>, i: nat)
    requires Disciplined(acqs, q) && i <= |q|
    requires forall j :: 0 <= j < |q| ==> q[j] in acqs
    requires i > 0 ==> acqs[q[i - 1]].mode == Read && acqs[q[i - 1]].readable
    ensures forall j :: 0 <= j < i ==> Granted(acqs[q[j]])
  {
    if i > 0 {
      assert ReadersAhead(acqs, q, i - 1);
      forall j | 0 <= j < i
        ensures Granted(acqs[q[j]])
      {
        ReadersAheadPrefix(acqs, q, i - 1, j);
      }
    }
  }

  /** Unlinking the tail keeps the rule. */
  lemma UnlinkTail(acqs: map<AcqId, Acquirer>, q: seq<AcqId>)
    requires Disciplined(acqs, q) && |q| > 0
    requires forall j :: 0 <= j < |q| ==> q[j] in acqs
    ensures Disciplined(acqs, RemoveAt(q, |q| - 1))
  {
    var q1 := RemoveAt(q, |q| - 1);
    forall j | 0 <= j < |q1|
      ensures ReadersAhead(acqs, q1, j) <==> ReadersAhead(acqs, q, j)
    {
      assert q1[..j] == q[..j];
      ReadersAheadSamePrefix(acqs, q, q1, j);
    }
  }

  /** Unlinking a node behind a writer or an unreadable reader keeps the rule. */
  lemma UnlinkBehindBlocker(acqs: map<AcqId, Acquirer>, q: seq<AcqId>, m: nat)
    requires Disciplined(acqs, q) && 0 < m < |q|
    requires forall j :: 0 <= j < |q| ==> q[j] in acqs
    requires !(acqs[q[m - 1]].mode == Read && acqs[q[m - 1]].readable)
    ensures Disciplined(acqs, RemoveAt(q, m))
  {
    var q1 := RemoveAt(q, m);
    var blocker: nat := m - 1;
    if acqs[q[m - 1]].mode == Read {
      assert !ReadersAhead(acqs, q, m - 1);
      var t :| 0 <= t < m - 1 && !(q[t] in acqs && acqs[q[t]].mode == Read);
      blocker := t;
    }
    assert acqs[q[blocker]].mode == Write && blocker < m;
    forall j | 0 <= j < |q1|
      ensures acqs[q1[j]].readable <==> ReadersAhead(acqs, q1, j)
      ensures acqs[q1[j]].writable <==> j == 0 && acqs[q1[j]].mode == Write
    {
      if j < m {
        assert q1[..j] == q[..j];
        ReadersAheadSamePrefix(acqs, q, q1, j);
      } else {
        assert q1[j] == q[j + 1];
        assert q1[blocker] == q[blocker];
        assert !ReadersAhead(acqs, q, j + 1);
        assert !ReadersAhead(acqs, q1, j);
      }
    }
  }

  /** Unlinking a node whose successor is a readable reader keeps the rule. */
  lemma UnlinkBeforeReader(acqs: map<AcqId, Acquirer>, q: seq<AcqId>, m: nat)
    requires Disciplined(acqs, q) && m + 1 < |q|
    requires forall j :: 0 <= j < |q| ==> q[j] in acqs
    requires acqs[q[m + 1]].mode == Read && acqs[q[m + 1]].readable
    ensures Disciplined(acqs, RemoveAt(q, m))
  {
    var q1 := RemoveAt(q, m);
    assert ReadersAhead(acqs, q, m + 1);
    assert acqs[q[m]].mode == Read;
    forall j | 0 <= j < |q1|
      ensures acqs[q1[j]].readable <==> ReadersAhead(acqs, q1, j)
      ensures acqs[q1[j]].writable <==> j == 0 && acqs[q1[j]].mode == Write
    {
      if j < m {
        assert q1[..j] == q[..j];
        ReadersAheadSamePrefix(acqs, q, q1, j);
      } else {
        assert q1[j] == q[j + 1];
        ReadersAheadSkipReader(acqs, q, m, j);
        if j == m {
          assert acqs[q1[j]].mode == Read;
        }
      }
    }
  }

  /** Unlinking a node whose successor must be resolved leaves the walk's start state. */
  lemma UnlinkBeforePending(acqs: map<AcqId, Acquirer>, q: seq<AcqId>, m: nat)
    requires Disciplined(acqs, q) && m + 1 < |q|
    requires forall j :: 0 <= j < |q| ==> q[j] in acqs
    requires m > 0 ==> acqs[q[m - 1]].mode == Read && acqs[q[m - 1]].readable
    requires !(acqs[q[m + 1]].mode == Read && acqs[q[m + 1]].readable)
    ensures var q1 := RemoveAt(q, m);
            && (forall j :: 0 <= j < m ==> Granted(acqs[q1[j]]))
            && !acqs[q1[m]].writable
            && (acqs[q1[m]].mode == Write || !acqs[q1[m]].readable)
            && (forall j :: m < j < |q1| ==> Pending(acqs[q1[j]]))
  {
    var q1 := RemoveAt(q, m);
    GrantedBefore(acqs, q, m);
    var blocker: nat := m + 1;
    if acqs[q[m + 1]].mode == Read {
      assert !ReadersAhead(acqs, q, m + 1);
      var t :| 0 <= t < m + 1 && !(q[t] in acqs && acqs[q[t]].mode == Read);
      blocker := t;
    }
    assert acqs[q[blocker]].mode == Write && blocker <= m + 1;
    forall j | m < j < |q1|
      ensures Pending(acqs[q1[j]])
    {
      assert q1[j] == q[j + 1];
      assert !ReadersAhead(acqs, q, j + 1);
    }
  }

  /** What remove_acquirer leaves behind: everything but the unlinked acquirer's link holds. */
  ghost predicate Unhooked(c: Cache, r: Cache, k: CpId, a: AcqId)
    requires a in c.acqs
  {
    && Core(r) && AllDisciplined(r) && k < |r.cps|
    && r.acqs.Keys == c.acqs.Keys
    && (forall x :: x in c.acqs && x != a ==> BackLinkedFor(r, x))
    && a !in r.cps[k].queue
    && r.acqs[a] == c.acqs[a]
  }

  /** Unlinking one node keeps every structural invariant and every other back link. */
  lemma UnlinkedCore(c: Cache, k: CpId, a: AcqId)
    requires Valid(c) && k < |c.cps| && a in c.cps[k].queue
    ensures var q := c.cps[k].queue;
            var q1 := RemoveAt(q, IndexOf(q, a));
            var c1 := c.(cps := c.cps[k := c.cps[k].(queue := q1)]);
            && Core(c1)
            && (forall k' :: 0 <= k' < |c1.cps| && k' != k ==> Disciplined(c1.acqs, c1.cps[k'].queue))
            && (forall x :: x in c.acqs && x != a ==> BackLinkedFor(c1, x))
            && a !in q1
  {
    var q := c.cps[k].queue;
    var m := IndexOf(q, a);
    var q1 := RemoveAt(q, m);
    var c1 := c.(cps := c.cps[k := c.cps[k].(queue := q1)]);
    assert QueueLinked(c, k);
    RemoveAtMembers(q, m);
    forall k' | 0 <= k' < |c1.cps|
      ensures QueueLinked(c1, k')
    {
      assert QueueLinked(c, k');
    }
    forall x | x in c.acqs && x != a
      ensures BackLinkedFor(c1, x)
    {
      assert BackLinkedFor(c, x);
    }
  }

  /** With queue k already obeying the rule after the unlink, nothing more is needed. */
  lemma UnlinkedUnhooked(c: Cache, k: CpId, a: AcqId)
    requires Valid(c) && k < |c.cps| && a in c.cps[k].queue
    requires Disciplined(c.acqs, RemoveAt(c.cps[k].queue, IndexOf(c.cps[k].queue, a)))
    ensures var q1 := RemoveAt(c.cps[k].queue, IndexOf(c.cps[k].queue, a));
            Unhooked(c, c.(cps := c.cps[k := c.cps[k].(queue := q1)]), k, a)
  {
    UnlinkedCore(c, k, a);
  }

  /**
   remove_acquirer keeps every invariant except the back link of the acquirer it
   unlinks, whose record it leaves untouched: whichever of the early returns of
   pulse_pulsables fires, or the walk from the former successor.
   */
  lemma RemoveAcquirerRestores(c: Cache, k: CpId, a: AcqId)
    requires Valid(c) && k < |c.cps| && a in c.cps[k].queue
    ensures Unhooked(c, RemoveAcquirer(c, k, a), k, a)
  {
    var q := c.cps[k].queue;
    var m := IndexOf(q, a);
    if m + 1 == |q| {
      RemoveTailCase(c, k, a);
    } else if m > 0 && !(c.acqs[q[m - 1]].mode == Read && c.acqs[q[m - 1]].readable) {
      RemoveBlockedCase(c, k, a);
    } else if c.acqs[q[m + 1]].mode == Read && c.acqs[q[m + 1]].readable {
      RemoveReaderCase(c, k, a);
    } else {
      RemoveWalkCase(c, k, a);
    }
  }

  lemma RemoveTailCase(c: Cache, k: CpId, a: AcqId)
    requires Valid(c) && k < |c.cps| && a in c.cps[k].queue
    requires IndexOf(c.cps[k].queue, a) + 1 == |c.cps[k].queue|
    ensures Unhooked(c, RemoveAcquirer(c, k, a), k, a)
  {
    var q := c.cps[k].queue;
    var m := IndexOf(q, a);
    assert m == |q| - 1;
    assert Disciplined(c.acqs, q) && QueueLinked(c, k);
    UnlinkTail(c.acqs, q);
    assert RemoveAt(q, m) == RemoveAt(q, |q| - 1);
    UnlinkedUnhooked(c, k, a);
    RemoveAcquirerTail(c, k, a);
  }

  /** When the unlinked node was the tail, remove_acquirer pulses nobody. */
  lemma RemoveAcquirerTail(c: Cache, k: CpId, a: AcqId)
    requires WellFormed(c) && k < |c.cps| && a in c.cps[k].queue
    requires IndexOf(c.cps[k].queue, a) + 1 == |c.cps[k].queue|
    ensures var q1 := RemoveAt(c.cps[k].queue, IndexOf(c.cps[k].queue, a));
            RemoveAcquirer(c, k, a) == c.(cps := c.cps[k := c.cps[k].(queue := q1)])
  {
  }

  lemma RemoveBlockedCase(c: Cache, k: CpId, a: AcqId)
    requires Valid(c) && k < |c.cps| && a in c.cps[k].queue
    requires var q := c.cps[k].queue;
             var m := IndexOf(q, a);
             && 0 < m && m + 1 < |q|
             && !(c.acqs[q[m - 1]].mode == Read && c.acqs[q[m - 1]].readable)
    ensures Unhooked(c, RemoveAcquirer(c, k, a), k, a)
  {
    var q := c.cps[k].queue;
    var m := IndexOf(q, a);
    assert Disciplined(c.acqs, q) && QueueLinked(c, k);
    UnlinkBehindBlocker(c.acqs, q, m);
    RemoveAcquirerQuiet(c, k, a);
    QuietUnhooked(c, k, a);
  }

  lemma RemoveReaderCase(c: Cache, k: CpId, a: AcqId)
    requires Valid(c) && k < |c.cps| && a in c.cps[k].queue
    requires var q := c.cps[k].queue;
             var m := IndexOf(q, a);
             && m + 1 < |q|
             && (m > 0 ==> c.acqs[q[m - 1]].mode == Read && c.acqs[q[m - 1]].readable)
             && c.acqs[q[m + 1]].mode == Read && c.acqs[q[m + 1]].readable
    ensures Unhooked(c, RemoveAcquirer(c, k, a), k, a)
  {
    var q := c.cps[k].queue;
    var m := IndexOf(q, a);
    assert Disciplined(c.acqs, q) && QueueLinked(c, k);
    UnlinkBeforeReader(c.acqs, q, m);
    RemoveAcquirerQuiet(c, k, a);
    QuietUnhooked(c, k, a);
  }

  /** When remove_acquirer only unlinks and the rule survives the unlink, it unhooks. */
  lemma QuietUnhooked(c: Cache, k: CpId, a: AcqId)
    requires Valid(c) && k < |c.cps| && a in c.cps[k].queue
    requires var q1 := RemoveAt(c.cps[k].queue, IndexOf(c.cps[k].queue, a));
             && Disciplined(c.acqs, q1)
             && RemoveAcquirer(c, k, a) == c.(cps := c.cps[k := c.cps[k].(queue := q1)])
    ensures Unhooked(c, RemoveAcquirer(c, k, a), k, a)
  {
    UnlinkedUnhooked(c, k, a);
  }

  lemma RemoveWalkCase(c: Cache, k: CpId, a: AcqId)
    requires Valid(c) && k < |c.cps| && a in c.cps[k].queue
    requires var q := c.cps[k].queue;
             var m := IndexOf(q, a);
             && m + 1 < |q|
             && (m > 0 ==> c.acqs[q[m - 1]].mode == Read && c.acqs[q[m - 1]].readable)
             && !(c.acqs[q[m + 1]].mode == Read && c.acqs[q[m + 1]].readable)
    ensures Unhooked(c, RemoveAcquirer(c, k, a), k, a)
  {
    var q := c.cps[k].queue;
    var m := IndexOf(q, a);
    var c1 := c.(cps := c.cps[k := c.cps[k].(queue := RemoveAt(q, m))]);
    assert QueueLinked(c, k);
    RemoveAcquirerWalks(c, k, a);
    UnlinkedWalkPre(c, k, a);
    WalkUnhooks(c, c1, k, a, m);
  }

  /** Unlinking a node whose successor waits leaves a state the walk from there accepts. */
  lemma UnlinkedWalkPre(c: Cache, k: CpId, a: AcqId)
    requires Valid(c) && k < |c.cps| && a in c.cps[k].queue
    requires var q := c.cps[k].queue;
             var m := IndexOf(q, a);
             && m + 1 < |q|
             && (m > 0 ==> c.acqs[q[m - 1]].mode == Read && c.acqs[q[m - 1]].readable)
             && !(c.acqs[q[m + 1]].mode == Read && c.acqs[q[m + 1]].readable)
    ensures var q := c.cps[k].queue;
            var m := IndexOf(q, a);
            var c1 := c.(cps := c.cps[k := c.cps[k].(queue := RemoveAt(q, m))]);
            && WalkPre(c1, k, m)
            && (forall x :: x in c.acqs && x != a ==> BackLinkedFor(c1, x))
            && a !in c1.cps[k].queue
  {
    var q := c.cps[k].queue;
    var m := IndexOf(q, a);
    var c1 := c.(cps := c.cps[k := c.cps[k].(queue := RemoveAt(q, m))]);
    assert Disciplined(c.acqs, q);
    UnlinkedCore(c, k, a);
    UnlinkBeforePending(c.acqs, q, m);
    assert WalkPre(c1, k, m);
  }

  /** A walk over a queue that no longer holds a, from a state that only lost a's link, unhooks a. */
  lemma WalkUnhooks(c: Cache, c1: Cache, k: CpId, a: AcqId, m: nat)
    requires a in c.acqs && c1.acqs == c.acqs && WalkPre(c1, k, m)
    requires forall x :: x in c.acqs && x != a ==> BackLinkedFor(c1, x)
    requires a !in c1.cps[k].queue
    ensures Unhooked(c, Walk(c1, k, m), k, a)
  {
    WalkRestores(c1, k, m);
    WalkFrame(c1, k, m);
  }

  /** When pulse_pulsables returns early, remove_acquirer only unlinks. */
  lemma RemoveAcquirerQuiet(c: Cache, k: CpId, a: AcqId)
    requires WellFormed(c) && k < |c.cps| && a in c.cps[k].queue
    requires NoDup(c.cps[k].queue)
    requires var q := c.cps[k].queue;
             var m := IndexOf(q, a);
             && m + 1 < |q|
             && ((m > 0 && !(c.acqs[q[m - 1]].mode == Read && c.acqs[q[m - 1]].readable))
                 || (c.acqs[q[m + 1]].mode == Read && c.acqs[q[m + 1]].readable))
    ensures var q1 := RemoveAt(c.cps[k].queue, IndexOf(c.cps[k].queue, a));
            RemoveAcquirer(c, k, a) == c.(cps := c.cps[k := c.cps[k].(queue := q1)])
  {
    var q := c.cps[k].queue;
    var m := IndexOf(q, a);
    var q1 := RemoveAt(q, m);
    RemoveAtMembers(q, m);
    assert q1[m] == q[m + 1];
    assert m > 0 ==> q1[m - 1] == q[m - 1];
    assert IndexOf(q1, q[m + 1]) == m;
  }

  /** Otherwise remove_acquirer walks from the successor's new position. */
  lemma RemoveAcquirerWalks(c: Cache, k: CpId, a: AcqId)
    requires WellFormed(c) && k < |c.cps| && a in c.cps[k].queue
    requires NoDup(c.cps[k].queue)
    requires var q := c.cps[k].queue;
             var m := IndexOf(q, a);
             && m + 1 < |q|
             && (m > 0 ==> c.acqs[q[m - 1]].mode == Read && c.acqs[q[m - 1]].readable)
             && !(c.acqs[q[m + 1]].mode == Read && c.acqs[q[m + 1]].readable)
    ensures var q1 := RemoveAt(c.cps[k].queue, IndexOf(c.cps[k].queue, a));
            && (forall x :: x in q1 ==> x in c.acqs)
            && RemoveAcquirer(c, k, a)
               == Walk(c.(cps := c.cps[k := c.cps[k].(queue := q1)]), k, IndexOf(c.cps[k].queue, a))
  {
    var q := c.cps[k].queue;
    var m := IndexOf(q, a);
    var q1 := RemoveAt(q, m);
    RemoveAtMembers(q, m);
    assert q1[m] == q[m + 1];
    assert m > 0 ==> q1[m - 1] == q[m - 1];
    assert IndexOf(q1, q[m + 1]) == m;
  }

}
