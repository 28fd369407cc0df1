/**
 The cache's table of current pages by block id (page_cache_t::current_pages_):
 looking up a block's current page, and creating the current page of a new block.
 */
module Registry {
  import opened Options
  import opened Pages
  import opened CurrentPages
  import opened CacheState

  /** The cache after a lookup, and the current page found or created. */
  datatype Lookup = Lookup(cache: Cache, cp: CpId)

  /** The cache after page_for_new_block_id, its current page, and the block id handed out. */
  datatype NewBlock = NewBlock(cache: Cache, cp: CpId, blockId: BlockId)

  /** True when the table holds a current page for block b. */
  predicate Registered(c: Cache, b: BlockId)
  {
    b < |c.registry| && c.registry[b].Some?
  }

  /** current_pages_.resize(block_id + 1, NULL) when the table is too short to hold b. */
  function Grown(registry: seq<Option<CpId>>, b: BlockId): (r: seq<Option<CpId>>)
    ensures |r| == if |registry| <= b then b + 1 else |registry|
    ensures r[..|registry|] == registry
    ensures forall b' :: |registry| <= b' < |r| ==> r[b'] == None
  {
    if |registry| <= b then registry + seq(b + 1 - |registry|, _ => None) else registry
  }

  /**
   page_for_block_id: the table grows to cover b, and b's current page is created,
   unloaded, on first use; later lookups return the same one.
   */
  function PageForBlockId(c: Cache, b: BlockId): (r: Lookup)
    requires WellFormed(c)
    ensures WellFormed(r.cache) && r.cp < |r.cache.cps|
    ensures r.cache.acqs == c.acqs && r.cache.pages == c.pages
    ensures |r.cache.registry| == if |c.registry| <= b then b + 1 else |c.registry|
    ensures r.cache.registry[b] == Some(r.cp)
    ensures forall b' :: 0 <= b' < |r.cache.registry| && b' != b ==>
              r.cache.registry[b'] == if b' < |c.registry| then c.registry[b'] else None
    ensures Registered(c, b) ==> r == Lookup(c, c.registry[b].value)
    ensures !Registered(c, b) ==>
              r.cp == |c.cps| && r.cache.cps == c.cps + [ForBlock(b)]
  {
    var reg := Grown(c.registry, b);
    if reg[b].None? then
      var k := |c.cps|;
      Lookup(c.(registry := reg[b := Some(k)], cps := c.cps + [ForBlock(b)]), k)
    else
      assert reg == c.registry;
      Lookup(c, reg[b].value)
  }

  /**
   page_for_new_block_id as the source has it: the free list hands out block id b,
   and a current page wrapping a fresh resident buffer is created, but it is never
   entered in current_pages_.
   */
  function PageForNewBlockIdAsWritten(c: Cache, b: BlockId): (r: NewBlock)
    requires WellFormed(c)
    ensures WellFormed(r.cache) && r.cp == |c.cps| && r.blockId == b
    ensures r.cache.registry == c.registry && r.cache.acqs == c.acqs
    ensures r.cache.cps == c.cps + [ForPage(|c.pages|)]
    ensures r.cache.pages == c.pages + [PageFromBuffer()]
  {
    var p := |c.pages|;
    NewBlock(c.(cps := c.cps + [ForPage(p)], pages := c.pages + [PageFromBuffer()]), |c.cps|, b)
  }

  /**
   page_for_new_block_id as intended: the fresh current page is also entered in the
   table under the block id the free list handed out, which no current page holds.
   */
  function PageForNewBlockId(c: Cache, b: BlockId): (r: NewBlock)
    requires WellFormed(c) && !Registered(c, b)
    ensures WellFormed(r.cache) && r.cp == |c.cps| && r.blockId == b
    ensures r.cache.acqs == c.acqs
    ensures r.cache.cps == c.cps + [ForPage(|c.pages|)]
    ensures r.cache.pages == c.pages + [PageFromBuffer()]
    ensures Registered(r.cache, b) && r.cache.registry[b] == Some(r.cp)
    ensures forall b' :: 0 <= b' < |r.cache.registry| && b' != b ==>
              r.cache.registry[b'] == if b' < |c.registry| then c.registry[b'] else None
  {
    var p := |c.pages|;
    var k := |c.cps|;
    var reg := Grown(c.registry, b);
    NewBlock(c.(registry := reg[b := Some(k)],
                cps := c.cps + [ForPage(p)],
                pages := c.pages + [PageFromBuffer()]), k, b)
  }

}
