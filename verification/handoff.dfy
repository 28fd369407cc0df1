/**
 The acquisition queue of a current page (current_page_t::add_acquirer,
 remove_acquirer and pulse_pulsables) and the proof that the handoff walk restores
 the queue discipline.
 */
module Handoff {
  import opened Options
  import opened Queues
  import opened Pages
  import opened CurrentPages
  import opened CacheState

  /**
   What a handoff may change: only current page k and the acquirers queued on it, with
   flags only ever set, pages only added or gaining snapshotters, a live page never
   replaced, and the queue only losing nodes while those before `seed` stay put.
   */
  ghost predicate HandoffFrame(c: Cache, r: Cache, k: CpId, seed: nat)
  {
    && k < |c.cps|
    && r.registry == c.registry
    && |r.cps| == |c.cps|
    && (forall k' :: 0 <= k' < |c.cps| && k' != k ==> r.cps[k'] == c.cps[k'])
    && r.acqs.Keys == c.acqs.Keys
    && PagesGrow(c.pages, r.pages)
    && FlagsGrow(c.acqs, r.acqs)
    && (forall a :: a in c.acqs && a !in c.cps[k].queue ==> r.acqs[a] == c.acqs[a])
    && (c.cps[k].page.Some? ==> r.cps[k].page == c.cps[k].page)
    && (forall a :: a in r.cps[k].queue ==> a in c.cps[k].queue)
    && seed <= |r.cps[k].queue| <= |c.cps[k].queue|
    && r.cps[k].queue[..seed] == c.cps[k].queue[..seed]
  }

  lemma FrameTrans(c: Cache, m: Cache, r: Cache, k: CpId, s1: nat, s2: nat, s: nat)
    requires HandoffFrame(c, m, k, s1) && HandoffFrame(m, r, k, s2)
    requires s <= s1 && s <= s2
    ensures HandoffFrame(c, r, k, s)
  {
    assert m.cps[k].queue[..s] == c.cps[k].queue[..s] by {
      assert m.cps[k].queue[..s] == m.cps[k].queue[..s1][..s];
      assert c.cps[k].queue[..s] == c.cps[k].queue[..s1][..s];
    }
    assert r.cps[k].queue[..s] == m.cps[k].queue[..s2][..s];
  }

  /** read_cond_.pulse_if_not_already_pulsed() on the acquirer at position i of queue k. */
  function MarkReadable(c: Cache, k: CpId, i: nat): (r: Cache)
    requires WellFormed(c) && k < |c.cps| && i < |c.cps[k].queue|
    ensures WellFormed(r)
    ensures HandoffFrame(c, r, k, |c.cps[k].queue|)
    ensures r.cps == c.cps && r.pages == c.pages
    ensures r.acqs.Keys == c.acqs.Keys
    ensures var x := c.cps[k].queue[i];
      r.acqs[x].readable && r.acqs[x].(readable := c.acqs[x].readable) == c.acqs[x]
    ensures forall y :: y in c.acqs && y != c.cps[k].queue[i] ==> r.acqs[y] == c.acqs[y]
  {
    var x := c.cps[k].queue[i];
    c.(acqs := c.acqs[x := c.acqs[x].(readable := true)])
  }

  /** write_cond_.pulse_if_not_already_pulsed() on the acquirer at position i of queue k. */
  function MarkWritable(c: Cache, k: CpId, i: nat): (r: Cache)
    requires WellFormed(c) && k < |c.cps| && i < |c.cps[k].queue|
    ensures WellFormed(r)
    ensures HandoffFrame(c, r, k, |c.cps[k].queue|)
    ensures r.cps == c.cps && r.pages == c.pages
    ensures r.acqs.Keys == c.acqs.Keys
    ensures var x := c.cps[k].queue[i];
      r.acqs[x].writable && r.acqs[x].(writable := c.acqs[x].writable) == c.acqs[x]
    ensures forall y :: y in c.acqs && y != c.cps[k].queue[i] ==> r.acqs[y] == c.acqs[y]
  {
    var x := c.cps[k].queue[i];
    c.(acqs := c.acqs[x := c.acqs[x].(writable := true)])
  }

  /**
   The snapshot splice of the walk for the reader at position i of queue k: it is
   pointed at the (materialised) live page, which gains one snapshotter, and unlinked.
   */
  function Detach(c: Cache, k: CpId, i: nat): (r: Cache)
    requires WellFormed(c) && k < |c.cps| && i < |c.cps[k].queue|
    requires c.acqs[c.cps[k].queue[i]].declared
    ensures WellFormed(r)
    ensures HandoffFrame(c, r, k, i)
    ensures |r.cps[k].queue| == |c.cps[k].queue| - 1
  {
    var q := c.cps[k].queue;
    var x := q[i];
    var live := ThePageForRead(c.cps[k], c.pages);
    var r := c.(cps := c.cps[k := live.cp.(queue := RemoveAt(q, i))],
                acqs := c.acqs[x := c.acqs[x].(snapshot := Some(live.page), current := None)],
                pages := live.pages[live.page := AddSnapshotter(live.pages[live.page])]);
    assert r.cps[k].queue[..i] == q[..i];
    r
  }

  /**
   The loop of pulse_pulsables, from position i of queue k towards the tail: each node
   reached becomes readable; a reader that declared a snapshot is spliced out and the
   walk continues at its successor; a writer becomes writable when it is at the head
   and ends the walk.
   */
  function Walk(c: Cache, k: CpId, i: nat): (r: Cache)
    requires WellFormed(c) && k < |c.cps| && i <= |c.cps[k].queue|
    ensures WellFormed(r) && |r.cps| == |c.cps|
    decreases |c.cps[k].queue| - i
  {
    var q := c.cps[k].queue;
    if i == |q| then
      c
    else
      var c1 := MarkReadable(c, k, i);
      if c1.acqs[q[i]].mode == Read then
        if c1.acqs[q[i]].declared then
          Walk(Detach(c1, k, i), k, i)
        else
          Walk(c1, k, i + 1)
      else if i == 0 then
        MarkWritable(c1, k, i)
      else
        c1
  }

  /** The walk stays within the frame of a handoff seeded at position i. */
  lemma {:induction false} WalkFrame(c: Cache, k: CpId, i: nat)
    requires WellFormed(c) && k < |c.cps| && i <= |c.cps[k].queue|
    ensures HandoffFrame(c, Walk(c, k, i), k, i)
    decreases |c.cps[k].queue| - i, 1
  {
    var q := c.cps[k].queue;
    if i < |q| {
      var c1 := MarkReadable(c, k, i);
      if c1.acqs[q[i]].mode == Read && c1.acqs[q[i]].declared {
        WalkFrameSplice(c, k, i);
      } else if c1.acqs[q[i]].mode == Read {
        WalkFramePast(c, k, i);
      } else if i == 0 {
        FrameTrans(c, c1, Walk(c, k, i), k, |q|, |q|, i);
      }
    }
  }

  /** The step of WalkFrame at a reader that declared a snapshot: its splice. */
  lemma {:induction false} WalkFrameSplice(c: Cache, k: CpId, i: nat)
    requires WellFormed(c) && k < |c.cps| && i < |c.cps[k].queue|
    requires c.acqs[c.cps[k].queue[i]].mode == Read && c.acqs[c.cps[k].queue[i]].declared
    ensures HandoffFrame(c, Walk(c, k, i), k, i)
    decreases |c.cps[k].queue| - i, 0
  {
    var c1 := MarkReadable(c, k, i);
    var c2 := Detach(c1, k, i);
    WalkFrame(c2, k, i);
    FrameTrans(c1, c2, Walk(c2, k, i), k, i, i, i);
    FrameTrans(c, c1, Walk(c, k, i), k, |c.cps[k].queue|, i, i);
  }

  /** The step of WalkFrame at a reader without a snapshot: past it. */
  lemma {:induction false} WalkFramePast(c: Cache, k: CpId, i: nat)
    requires WellFormed(c) && k < |c.cps| && i < |c.cps[k].queue|
    requires c.acqs[c.cps[k].queue[i]].mode == Read && !c.acqs[c.cps[k].queue[i]].declared
    ensures HandoffFrame(c, Walk(c, k, i), k, i)
    decreases |c.cps[k].queue| - i, 0
  {
    var c1 := MarkReadable(c, k, i);
    WalkFrame(c1, k, i + 1);
    FrameTrans(c, c1, Walk(c, k, i), k, |c.cps[k].queue|, i + 1, i);
  }

  /**
   pulse_pulsables(acq): no walk when the predecessor is not a readable reader, nor when
   acq is itself a reader that is already readable.
   */
  function PulsePulsables(c: Cache, k: CpId, a: AcqId): (r: Cache)
    requires WellFormed(c) && k < |c.cps| && a in c.cps[k].queue
    ensures WellFormed(r) && |r.cps| == |c.cps|
  {
    var q := c.cps[k].queue;
    var i := IndexOf(q, a);
    if i > 0 && !(c.acqs[q[i - 1]].mode == Read && c.acqs[q[i - 1]].readable) then
      c
    else if c.acqs[a].mode == Read && c.acqs[a].readable then
      c
    else
      Walk(c, k, i)
  }

  lemma PulseFrame(c: Cache, k: CpId, a: AcqId)
    requires WellFormed(c) && k < |c.cps| && a in c.cps[k].queue
    ensures HandoffFrame(c, PulsePulsables(c, k, a), k, IndexOf(c.cps[k].queue, a))
  {
    var i := IndexOf(c.cps[k].queue, a);
    if PulsePulsables(c, k, a) == Walk(c, k, i) {
      WalkFrame(c, k, i);
    }
  }

  /** Current page k with its queue replaced by q. */
  function WithQueue(c: Cache, k: CpId, q: seq<AcqId>): (r: Cache)
    requires WellFormed(c) && k < |c.cps|
    requires forall x :: x in q ==> x in c.acqs
    ensures WellFormed(r) && |r.cps| == |c.cps| && r.cps[k].queue == q
    ensures r.acqs == c.acqs && r.pages == c.pages && r.registry == c.registry
    ensures forall k' :: 0 <= k' < |c.cps| && k' != k ==> r.cps[k'] == c.cps[k']
    ensures r.cps[k] == c.cps[k].(queue := q)
  {
    c.(cps := c.cps[k := c.cps[k].(queue := q)])
  }

  /** add_acquirer: appends at the tail; the nodes already queued keep their places. */
  function AddAcquirer(c: Cache, k: CpId, a: AcqId): (r: Cache)
    requires WellFormed(c) && k < |c.cps| && a in c.acqs && a !in c.cps[k].queue
    ensures WellFormed(r) && |r.cps| == |c.cps|
    ensures |c.cps[k].queue| <= |r.cps[k].queue| <= |c.cps[k].queue| + 1
    ensures r.cps[k].queue[..|c.cps[k].queue|] == c.cps[k].queue
    ensures forall x :: x in r.cps[k].queue ==> x in c.cps[k].queue || x == a
    ensures FlagsGrow(c.acqs, r.acqs) && PagesGrow(c.pages, r.pages)
    ensures r.registry == c.registry && r.acqs.Keys == c.acqs.Keys
  {
    var q := c.cps[k].queue;
    var c1 := WithQueue(c, k, q + [a]);
    assert IndexOf(q + [a], a) == |q|;
    PulseFrame(c1, k, a);
    assert (q + [a])[..|q|] == q;
    PulsePulsables(c1, k, a)
  }

  /** remove_acquirer: unlinks acq and re-runs the handoff from its former successor. */
  function RemoveAcquirer(c: Cache, k: CpId, a: AcqId): (r: Cache)
    requires WellFormed(c) && k < |c.cps| && a in c.cps[k].queue
    ensures WellFormed(r) && |r.cps| == |c.cps|
    ensures |r.cps[k].queue| < |c.cps[k].queue|
    ensures forall x :: x in r.cps[k].queue ==> x in c.cps[k].queue
    ensures FlagsGrow(c.acqs, r.acqs) && PagesGrow(c.pages, r.pages)
    ensures r.registry == c.registry && r.acqs.Keys == c.acqs.Keys
  {
    var q := c.cps[k].queue;
    var i := IndexOf(q, a);
    assert forall x :: x in RemoveAt(q, i) ==> x in q;
    var c1 := WithQueue(c, k, RemoveAt(q, i));
    if i + 1 < |q| then
      PulseFrame(c1, k, q[i + 1]);
      PulsePulsables(c1, k, q[i + 1])
    else
      c1
  }

}
