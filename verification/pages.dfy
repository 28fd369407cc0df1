/**
 The page object (page_t): an in-memory copy of one block whose bytes are opaque here.
 Only where the bytes come from and the snapshot reference count matter.
 */
module Pages {

  /** A durable block id; the sentinel NULL_BLOCK_ID is modelled as an absent id. */
  type BlockId = nat

  /** Identity of a page object; pages are kept in a table and never freed. */
  type PageId = nat

  datatype Origin =
    | Loaded(block: BlockId)   // read from the serializer for this block id
    | Fresh                    // the newly allocated buffer of a new block
    | CopyOf(source: PageId)   // a copy-on-write clone of another page

  datatype Page = Page(origin: Origin, snapshotRefcount: nat)

  /** page_t(block_id, page_cache): the load it spawns is not modelled. */
  function PageForBlock(block: BlockId): (r: Page)
    ensures r.origin == Loaded(block) && !HasSnapshotReferences(r)
  {
    Page(Loaded(block), 0)
  }

  /** page_t(block_size, buf): a page around an already allocated buffer. */
  function PageFromBuffer(): (r: Page)
    ensures r.origin.Fresh? && !HasSnapshotReferences(r)
  {
    Page(Fresh, 0)
  }

  /** make_copy: an independent page holding a copy of the source's bytes. */
  function CopyOfPage(source: PageId): Page
  {
    Page(CopyOf(source), 0)
  }

  /** A page has snapshot references exactly when add_snapshotter could have produced it. */
  predicate HasSnapshotReferences(page: Page): (referenced: bool)
    ensures referenced <==> exists before :: AddSnapshotter(before) == page
  {
    assert page.snapshotRefcount > 0 ==>
             AddSnapshotter(page.(snapshotRefcount := page.snapshotRefcount - 1)) == page;
    page.snapshotRefcount > 0
  }

  function AddSnapshotter(page: Page): (r: Page)
    ensures r.origin == page.origin
    ensures r.snapshotRefcount > 0
  {
    page.(snapshotRefcount := page.snapshotRefcount + 1)
  }

  /** The count may not drop below zero: removing needs a reference to remove. */
  function RemoveSnapshotter(page: Page): (r: Page)
    requires page.snapshotRefcount > 0
    ensures r.origin == page.origin
    ensures AddSnapshotter(r) == page
  {
    page.(snapshotRefcount := page.snapshotRefcount - 1)
  }

  /** Adding then removing a snapshotter leaves the page as it was. */
  lemma SnapshotterRoundTrip(page: Page)
    ensures RemoveSnapshotter(AddSnapshotter(page)) == page
  {
  }

  /** Old pages keep their origin; a table only grows. */
  ghost predicate PagesGrow(before: seq<Page>, after: seq<Page>)
  {
    && |before| <= |after|
    && (forall p :: 0 <= p < |before| ==>
          after[p].origin == before[p].origin
          && after[p].snapshotRefcount >= before[p].snapshotRefcount)
  }

}
