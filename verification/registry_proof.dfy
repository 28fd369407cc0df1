/**
 What the block table promises: lookups are idempotent and keep at most one current
 page per block, and a new block's current page is the one later lookups find (which
 the source as written does not achieve).
 */
module RegistryProof {
  import opened Options
  import opened Pages
  import opened CurrentPages
  import opened CacheState
  import opened Registry

  /** Looking the same block up twice changes nothing the second time. */
  lemma LookupIdempotent(c: Cache, b: BlockId)
    requires WellFormed(c)
    ensures var r := PageForBlockId(c, b);
            PageForBlockId(r.cache, b) == r
  {
  }

  /** A lookup keeps the invariant. */
  lemma PageForBlockIdValid(c: Cache, b: BlockId)
    requires Valid(c)
    ensures Valid(PageForBlockId(c, b).cache)
  {
    var r := PageForBlockId(c, b);
    if !Registered(c, b) {
      forall k | 0 <= k < |r.cache.cps|
        ensures QueueLinked(r.cache, k) && Disciplined(r.cache.acqs, r.cache.cps[k].queue)
      {
        if k < |c.cps| {
          assert QueueLinked(c, k);
          assert Disciplined(c.acqs, c.cps[k].queue);
        }
      }
      forall x | x in r.cache.acqs
        ensures BackLinkedFor(r.cache, x)
      {
        assert BackLinkedFor(c, x);
      }
    }
  }

  /**
   The current page found for block b belongs to b: while unloaded it names b; and two
   different blocks never share a current page.
   */
  lemma LookupsKeepBlocksApart(c: Cache, b1: BlockId, b2: BlockId)
    requires Valid(c) && b1 != b2
    ensures var r1 := PageForBlockId(c, b1);
            var r2 := PageForBlockId(r1.cache, b2);
            && r1.cache.cps[r1.cp].blockId in {None, Some(b1)}
            && r2.cp != r1.cp
  {
    var r1 := PageForBlockId(c, b1);
    PageForBlockIdValid(c, b1);
    PageForBlockIdValid(r1.cache, b2);
    var r2 := PageForBlockId(r1.cache, b2);
    assert r2.cache.registry[b1] == Some(r1.cp);
    assert r2.cache.registry[b2] == Some(r2.cp);
  }

  /**
   The source as written: after page_for_new_block_id hands out block b, looking b up
   creates a second, unloaded current page for it instead of finding the fresh one.
   */
  lemma NewBlockAsWrittenIsLost(c: Cache, b: BlockId)
    requires Valid(c) && !Registered(c, b)
    ensures var n := PageForNewBlockIdAsWritten(c, b);
            var l := PageForBlockId(n.cache, b);
            && l.cp != n.cp
            && n.cache.cps[n.cp].page == Some(|c.pages|)
            && l.cache.cps[l.cp].blockId == Some(b) && l.cache.cps[l.cp].page.None?
  {
  }

  /**
   The source's page_for_new_block_id keeps the invariant too: the table is untouched,
   so the unregistered current page breaks no rule of it.
   */
  lemma PageForNewBlockIdAsWrittenValid(c: Cache, b: BlockId)
    requires Valid(c)
    ensures Valid(PageForNewBlockIdAsWritten(c, b).cache)
  {
    var r := PageForNewBlockIdAsWritten(c, b);
    forall k | 0 <= k < |r.cache.cps|
      ensures QueueLinked(r.cache, k) && Disciplined(r.cache.acqs, r.cache.cps[k].queue)
    {
      if k < |c.cps| {
        assert QueueLinked(c, k);
        assert Disciplined(c.acqs, c.cps[k].queue);
      }
    }
    forall p | 0 <= p < |r.cache.pages|
      ensures r.cache.pages[p].snapshotRefcount == |Holders(r.cache.acqs, p)|
    {
      if p == |c.pages| {
        forall x | x in r.cache.acqs
          ensures r.cache.acqs[x].snapshot != Some(p)
        {
        }
        assert Holders(r.cache.acqs, p) == {};
      }
    }
    forall x | x in r.cache.acqs
      ensures BackLinkedFor(r.cache, x)
    {
      assert BackLinkedFor(c, x);
    }
  }

  /** As intended: a later lookup of the new block finds its current page and changes nothing. */
  lemma NewBlockIsFound(c: Cache, b: BlockId)
    requires WellFormed(c) && !Registered(c, b)
    ensures var n := PageForNewBlockId(c, b);
            PageForBlockId(n.cache, b) == Lookup(n.cache, n.cp)
  {
  }

  /** The intended page_for_new_block_id keeps the invariant. */
  lemma PageForNewBlockIdValid(c: Cache, b: BlockId)
    requires Valid(c) && !Registered(c, b)
    ensures Valid(PageForNewBlockId(c, b).cache)
  {
    var r := PageForNewBlockId(c, b);
    forall k | 0 <= k < |r.cache.cps|
      ensures QueueLinked(r.cache, k) && Disciplined(r.cache.acqs, r.cache.cps[k].queue)
    {
      if k < |c.cps| {
        assert QueueLinked(c, k);
        assert Disciplined(c.acqs, c.cps[k].queue);
      }
    }
    forall p | 0 <= p < |r.cache.pages|
      ensures r.cache.pages[p].snapshotRefcount == |Holders(r.cache.acqs, p)|
    {
      if p == |c.pages| {
        forall x | x in r.cache.acqs
          ensures r.cache.acqs[x].snapshot != Some(p)
        {
        }
        assert Holders(r.cache.acqs, p) == {};
      }
    }
    forall x | x in r.cache.acqs
      ensures BackLinkedFor(r.cache, x)
    {
      assert BackLinkedFor(c, x);
    }
  }

}
