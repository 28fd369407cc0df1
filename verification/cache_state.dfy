/**
 The whole state of one page cache as an immutable record: the registry
 (current_pages_), every current page, every live acquisition handle and the page
 table, together with the invariants the handoff protocol keeps.
 */
module CacheState {
  import opened Options
  import opened Queues
  import opened Pages
  import opened CurrentPages

  /** Identity of a current page: its position in the table of current pages. */
  type CpId = nat

  /** alt_access_t */
  datatype Mode = Read | Write

  /** current_page_acq_t */
  datatype Acquirer = Acquirer(
    mode: Mode,
    readable: bool,            // read_cond_ has been pulsed
    writable: bool,            // write_cond_ has been pulsed
    declared: bool,            // declared_snapshotted_ (taken to start false)
    current: Option<CpId>,     // current_page_: queued on that current page
    snapshot: Option<PageId>)  // snapshotted_page_: detached onto that page

  datatype Cache = Cache(
    registry: seq<Option<CpId>>,      // current_pages_, indexed by block id
    cps: seq<CurrentPage>,            // every current page ever created
    acqs: map<AcqId, Acquirer>,       // live acquisition handles
    pages: seq<Page>)                 // every page ever created

  function EmptyCache(): Cache
  {
    Cache([], [], map[], [])
  }

  /** The fields a fresh acquisition of `mode` on current page `cp` starts with. */
  function NewAcquirer(mode: Mode, cp: CpId): (r: Acquirer)
    ensures Settled(r) && r.mode == mode && r.current == Some(cp)
    ensures !r.readable && !r.writable && !r.declared
  {
    Acquirer(mode, false, false, false, Some(cp), None)
  }

  ghost predicate RefsInRange(x: Acquirer, cpCount: nat, pageCount: nat)
  {
    && (x.current.Some? ==> x.current.value < cpCount)
    && (x.snapshot.Some? ==> x.snapshot.value < pageCount)
  }

  /** Every handle the state holds points at something that exists. */
  ghost predicate WellFormed(c: Cache)
  {
    && (forall b :: 0 <= b < |c.registry| && c.registry[b].Some? ==> c.registry[b].value < |c.cps|)
    && (forall k :: 0 <= k < |c.cps| ==> Resolvable(c.cps[k], c.pages))
    && (forall k, i :: 0 <= k < |c.cps| && 0 <= i < |c.cps[k].queue| ==> c.cps[k].queue[i] in c.acqs)
    && (forall a :: a in c.acqs ==> RefsInRange(c.acqs[a], |c.cps|, |c.pages|))
  }

  /**
   No current page sits in two slots of the block table, and a registered one names its
   block while unloaded. Current pages outside the table are not constrained.
   */
  ghost predicate RegistryOk(c: Cache)
  {
    && (forall b1, b2 :: 0 <= b1 < b2 < |c.registry| && c.registry[b1].Some? && c.registry[b2].Some?
          ==> c.registry[b1].value != c.registry[b2].value)
    && (forall b :: 0 <= b < |c.registry| && c.registry[b].Some? && c.registry[b].value < |c.cps|
          ==> c.cps[c.registry[b].value].blockId in {None, Some(b)})
  }

  /** Each queue is duplicate-free and holds only acquirers attached to it. */
  ghost predicate Linked(c: Cache)
  {
    forall k :: 0 <= k < |c.cps| ==> QueueLinked(c, k)
  }

  ghost predicate QueueLinked(c: Cache, k: CpId)
    requires k < |c.cps|
  {
    && NoDup(c.cps[k].queue)
    && (forall i :: 0 <= i < |c.cps[k].queue| && c.cps[k].queue[i] in c.acqs ==>
          c.acqs[c.cps[k].queue[i]].current == Some(k))
  }

  /** An attached acquirer is linked into the queue of its current page. */
  ghost predicate BackLinkedFor(c: Cache, a: AcqId)
    requires a in c.acqs
  {
    c.acqs[a].current.Some? ==>
      c.acqs[a].current.value < |c.cps| && a in c.cps[c.acqs[a].current.value].queue
  }

  ghost predicate BackLinked(c: Cache)
  {
    forall a :: a in c.acqs ==> BackLinkedFor(c, a)
  }

  /**
   Per acquirer: it is either queued or detached onto a snapshot, never both; a detached
   acquirer is a reader that declared a snapshot and can read; only writers are writable.
   */
  ghost predicate Settled(x: Acquirer)
  {
    && (x.current.Some? <==> x.snapshot.None?)
    && (x.snapshot.Some? ==> x.mode == Read && x.declared && x.readable)
    && (x.writable ==> x.mode == Write)
  }

  ghost predicate AllSettled(c: Cache)
  {
    forall a :: a in c.acqs ==> Settled(c.acqs[a])
  }

  /** The acquirers detached onto page p. */
  function Holders(acqs: map<AcqId, Acquirer>, p: PageId): set<AcqId>
  {
    set a | a in acqs && acqs[a].snapshot == Some(p)
  }

  /** Every page's snapshot count is the number of acquirers detached onto it. */
  ghost predicate Refcounted(c: Cache)
  {
    forall p :: 0 <= p < |c.pages| ==> c.pages[p].snapshotRefcount == |Holders(c.acqs, p)|
  }

  /** Every acquirer before position i is a reader. */
  ghost predicate ReadersAhead(acqs: map<AcqId, Acquirer>, q: seq<AcqId>, i: int)
  {
    forall j :: 0 <= j < i && j < |q| ==> q[j] in acqs && acqs[q[j]].mode == Read
  }

  /**
   The handoff rule: a queued acquirer is readable exactly when only readers are ahead
   of it, and writable exactly when it is a writer at the head.
   */
  ghost predicate Disciplined(acqs: map<AcqId, Acquirer>, q: seq<AcqId>)
  {
    forall i :: 0 <= i < |q| && q[i] in acqs ==>
      && (acqs[q[i]].readable <==> ReadersAhead(acqs, q, i))
      && (acqs[q[i]].writable <==> i == 0 && acqs[q[i]].mode == Write)
  }

  ghost predicate AllDisciplined(c: Cache)
  {
    forall k :: 0 <= k < |c.cps| ==> Disciplined(c.acqs, c.cps[k].queue)
  }

  /** Everything the protocol keeps except the back links of attached acquirers. */
  ghost predicate Core(c: Cache)
  {
    && WellFormed(c)
    && RegistryOk(c)
    && Linked(c)
    && AllSettled(c)
    && Refcounted(c)
  }

  /** The whole-state invariant of the page cache. */
  ghost predicate Valid(c: Cache)
  {
    && Core(c)
    && BackLinked(c)
    && AllDisciplined(c)
  }

  /** Flags of surviving acquirers are never cleared and their mode never changes. */
  ghost predicate FlagsGrow(before: map<AcqId, Acquirer>, after: map<AcqId, Acquirer>)
  {
    forall a :: a in before && a in after ==>
      && after[a].mode == before[a].mode
      && (before[a].readable ==> after[a].readable)
      && (before[a].writable ==> after[a].writable)
      && (before[a].declared ==> after[a].declared)
  }

  /** The state with acquirer a set to v (added when new); everything else as it was. */
  function SetAcquirer(c: Cache, a: AcqId, v: Acquirer): (r: Cache)
    requires WellFormed(c) && RefsInRange(v, |c.cps|, |c.pages|)
    ensures WellFormed(r) && r.acqs == c.acqs[a := v]
    ensures r.registry == c.registry && r.cps == c.cps && r.pages == c.pages
  {
    c.(acqs := c.acqs[a := v])
  }

  /** Forgetting a handle keeps every other handle's flags. */
  lemma FlagsGrowForget(before: map<AcqId, Acquirer>, after: map<AcqId, Acquirer>, x: AcqId)
    requires FlagsGrow(before, after)
    ensures FlagsGrow(before, after - {x})
  {
  }

  /** Flags that grew twice grew once. */
  lemma FlagsGrowTrans(a: map<AcqId, Acquirer>, b: map<AcqId, Acquirer>, c: map<AcqId, Acquirer>)
    requires FlagsGrow(a, b) && FlagsGrow(b, c) && a.Keys <= b.Keys
    ensures FlagsGrow(a, c)
  {
  }

  lemma EmptyCacheValid()
    ensures Valid(EmptyCache())
  {
  }

  /** Changing one acquirer moves it between holder sets and leaves the others alone. */
  lemma HoldersUpdate(acqs: map<AcqId, Acquirer>, x: AcqId, v: Acquirer, p: PageId)
    ensures Holders(acqs[x := v], p)
            == (Holders(acqs, p) - {x}) + (if v.snapshot == Some(p) then {x} else {})
  {
  }

  lemma HoldersRemove(acqs: map<AcqId, Acquirer>, x: AcqId, p: PageId)
    ensures Holders(acqs - {x}, p) == Holders(acqs, p) - {x}
  {
  }

}
