/**
 The per-block coordinator (current_page_t): either a pending serializer reference
 (a block id, page not yet materialised) or a live page, plus the acquirer queue.
 */
module CurrentPages {
  import opened Options
  import opened Pages

  /** Identity of an acquisition handle (current_page_acq_t). */
  type AcqId = nat

  datatype CurrentPage = CurrentPage(
    blockId: Option<BlockId>,  // block_id_ (None is NULL_BLOCK_ID; page_cache_ is set with it)
    page: Option<PageId>,      // page_ (None is NULL)
    queue: seq<AcqId>)         // acquirers_, in arrival order

  /** current_page_t(block_id, page_cache): loads lazily on first access. */
  function ForBlock(block: BlockId): (r: CurrentPage)
    ensures forall pages :: Resolvable(r, pages)
    ensures r.blockId == Some(block) && r.queue == []
  {
    CurrentPage(Some(block), None, [])
  }

  /** current_page_t(block_size, buf): wraps a page that is already resident. */
  function ForPage(page: PageId): (r: CurrentPage)
    ensures forall pages :: Resolvable(r, pages) <==> page < |pages|
    ensures r.page == Some(page) && r.queue == []
  {
    CurrentPage(None, Some(page), [])
  }

  /** Exactly one of the serializer reference and the live page is held, and the page exists. */
  predicate Resolvable(cp: CurrentPage, pages: seq<Page>)
  {
    && (cp.page.None? <==> cp.blockId.Some?)
    && (cp.page.Some? ==> cp.page.value < |pages|)
  }

  /** The current page after an access, the page table, and the page handed out. */
  datatype Resolved = Resolved(cp: CurrentPage, pages: seq<Page>, page: PageId)

  /**
   convert_from_serializer_if_necessary: only when no page exists is one created, loaded
   from the block id, and the block id reset to NULL_BLOCK_ID.
   */
  function ConvertFromSerializerIfNecessary(cp: CurrentPage, pages: seq<Page>): (r: Resolved)
    requires Resolvable(cp, pages)
    ensures Resolvable(r.cp, r.pages)
    ensures r.cp.page == Some(r.page) && r.cp.blockId.None?
    ensures r.cp.queue == cp.queue
    ensures |pages| <= |r.pages| <= |pages| + 1 && r.pages[..|pages|] == pages
    ensures cp.page.Some? ==> r == Resolved(cp, pages, cp.page.value)
    ensures cp.page.None? ==>
              r.page == |pages| && r.pages[r.page] == PageForBlock(cp.blockId.value)
  {
    if cp.page.None? then
      var id := |pages|;
      Resolved(cp.(page := Some(id), blockId := None), pages + [PageForBlock(cp.blockId.value)], id)
    else
      Resolved(cp, pages, cp.page.value)
  }

  /** the_page_for_read: the live page, materialised on first use. */
  function ThePageForRead(cp: CurrentPage, pages: seq<Page>): (r: Resolved)
    requires Resolvable(cp, pages)
    ensures Resolvable(r.cp, r.pages)
    ensures r.cp.page == Some(r.page) && r.page < |r.pages|
    ensures r.cp.queue == cp.queue
    ensures |pages| <= |r.pages| <= |pages| + 1 && r.pages[..|pages|] == pages
    ensures forall p :: |pages| <= p < |r.pages| ==> !HasSnapshotReferences(r.pages[p])
    ensures cp.page.Some? ==> r == Resolved(cp, pages, cp.page.value)
    ensures cp.page.None? ==>
              r.page == |pages| && r.pages[r.page] == PageForBlock(cp.blockId.value)
  {
    ConvertFromSerializerIfNecessary(cp, pages)
  }

  /**
   the_page_for_write: the live page, replaced first by a fresh copy when snapshot
   holders still reference it. The page handed out never has snapshot references, and
   the old page (its count included) is left alone.
   */
  function ThePageForWrite(cp: CurrentPage, pages: seq<Page>): (r: Resolved)
    requires Resolvable(cp, pages)
    ensures Resolvable(r.cp, r.pages)
    ensures r.cp.page == Some(r.page) && r.page < |r.pages|
    ensures !HasSnapshotReferences(r.pages[r.page])
    ensures r.cp.queue == cp.queue
    ensures |pages| <= |r.pages| <= |pages| + 2 && r.pages[..|pages|] == pages
    ensures forall p :: |pages| <= p < |r.pages| ==> !HasSnapshotReferences(r.pages[p])
    ensures var live := ThePageForRead(cp, pages);
            if HasSnapshotReferences(live.pages[live.page]) then
              && r.page != live.page
              && r.page >= |live.pages|
              && r.pages[r.page].origin == CopyOf(live.page)
            else
              r == live
  {
    var live := ConvertFromSerializerIfNecessary(cp, pages);
    if HasSnapshotReferences(live.pages[live.page]) then
      var id := |live.pages|;
      Resolved(live.cp.(page := Some(id)), live.pages + [CopyOfPage(live.page)], id)
    else
      live
  }

  /** Materialisation happens at most once: a second read changes nothing. */
  lemma ReadMaterialisesOnce(cp: CurrentPage, pages: seq<Page>)
    requires Resolvable(cp, pages)
    ensures var r := ThePageForRead(cp, pages);
            ThePageForRead(r.cp, r.pages) == r
  {
  }

  /** A page first reached through the serializer holds that block's bytes. */
  lemma ReadLoadsOwnBlock(cp: CurrentPage, pages: seq<Page>)
    requires Resolvable(cp, pages) && cp.blockId.Some?
    ensures var r := ThePageForRead(cp, pages);
            r.pages[r.page].origin == Loaded(cp.blockId.value) && r.page == |pages|
  {
  }

  /** A second write access right after a first returns the same page: no second copy. */
  lemma WriteCopiesOnce(cp: CurrentPage, pages: seq<Page>)
    requires Resolvable(cp, pages)
    ensures var r := ThePageForWrite(cp, pages);
            ThePageForWrite(r.cp, r.pages) == r
  {
  }

}
