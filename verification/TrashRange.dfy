/**
 * The trash range (kernel/ipu4/ipu6-mmu.c:511-568): 8 MiB of IOVA space, every page of which is mapped to
 * one and the same page.
 */
module TrashRange {
  import opened Common
  import opened PageTable
  import opened DmaLayer

  /** 8 MiB. */
  const TRASH_PAGES: nat := 2048

  function Same(frame: nat, n: nat): (s: seq<nat>)
    ensures |s| == n && forall k :: 0 <= k < n ==> s[k] == frame
  {
    seq(n, _ => frame)
  }

  /** The books with the trash range in them. */
  ghost function WithTrash(b: Ledger, lo: nat, frame: nat, page: nat): Ledger {
    b.(iovas := b.iovas[lo := TRASH_PAGES], pci := b.pci[frame := page],
       pages := MapAll(b.pages, lo, Same(frame, TRASH_PAGES)))
  }

  /** A free range and a new frame keep the books balanced ... */
  lemma {:induction false} TrashBalanced(b: Ledger, lo: nat, frame: nat, page: nat)
    requires b.Balanced() && FreeRange(b, lo, TRASH_PAGES) && frame !in b.pci
    ensures WithTrash(b, lo, frame, page).Balanced()
  {
    FreshIsUnmapped(b, lo, TRASH_PAGES);
    MapAllAt(b.pages, lo, Same(frame, TRASH_PAGES));
    RangeAdded(b, WithTrash(b, lo, frame, page), lo, TRASH_PAGES);
  }

  /** ... and the ranges on frames of their own. */
  lemma {:induction false} TrashIsolated(b: Ledger, lo: nat, frame: nat, page: nat)
    requires b.Balanced() && b.Isolated() && FreeRange(b, lo, TRASH_PAGES) && frame !in b.pci
    ensures WithTrash(b, lo, frame, page).Isolated()
  {
    var c, n := WithTrash(b, lo, frame, page), TRASH_PAGES;
    FreshIsUnmapped(b, lo, n);
    MapAllAt(b.pages, lo, Same(frame, n));
    forall p | p in c.pages && lo <= p < lo + n
      ensures c.pages[p] in c.pci && forall q :: q in b.pages ==> b.pages[q] != c.pages[p]
    {
      assert c.pages[lo + (p - lo)] == Same(frame, n)[p - lo] == frame;
    }
    RangeIsolated(b, c, lo, n);
  }

  lemma {:induction false} SameMore(m: map<nat, nat>, lo: nat, frame: nat, i: nat)
    ensures MapAll(m, lo, Same(frame, i + 1)) == MapAll(m, lo, Same(frame, i))[lo + i := frame]
  {
    assert Same(frame, i + 1)[..i] == Same(frame, i);
  }

  /** The mapping loop: a part of the range, all of it when `ok`. */
  method MapTrash(dma: Dma, lo: nat, frame: nat) returns (ok: bool, i: nat)
    requires dma.mmu.Valid() && frame < U32 && lo + TRASH_PAGES <= PAGES
    requires dma.mmu.pages.Keys !! Range(lo, TRASH_PAGES)
    modifies dma.mmu`ram, dma.mmu`bus, dma.mmu`l2Pts, dma.mmu`pages, dma.mmu`refusals
    ensures dma.mmu.Valid() && i <= TRASH_PAGES && (ok ==> i == TRASH_PAGES)
    ensures dma.mmu.pages == MapAll(old(dma.mmu.pages), lo, Same(frame, i))
    ensures !ok ==> dma.mmu.refusals > old(dma.mmu.refusals)
  {
    ghost var m := dma.mmu.pages;
    i, ok := 0, true;
    assert MapAll(m, lo, Same(frame, 0)) == m;
    while i < TRASH_PAGES
      invariant i <= TRASH_PAGES && dma.mmu.Valid() && dma.mmu.refusals == old(dma.mmu.refusals)
      invariant dma.mmu.pages == MapAll(m, lo, Same(frame, i))
    {
      MapAllAt(m, lo, Same(frame, i));
      assert lo + i in Range(lo, TRASH_PAGES);
      ok := dma.MapOne(lo + i, frame);
      if !ok { return; }
      SameMore(m, lo, frame, i);
      i := i + 1;
    }
  }

  /** Unmapping the whole range takes the mapped part back, and whatever else the cursor reaches. */
  lemma {:induction false} TrashUnwind(t: Tables, m: map<nat, nat>, lo: nat, frame: nat, i: nat)
    requires i <= TRASH_PAGES && lo + TRASH_PAGES <= PAGES && m.Keys !! Range(lo, TRASH_PAGES)
    requires t.Represents(MapAll(m, lo, Same(frame, i)))
    ensures var T := Touched(t.Present(), lo, TRASH_PAGES); MapAll(m, lo, Same(frame, i)) - T == m - T
    ensures UnmapSafe(t.Present(), lo, TRASH_PAGES) ==> m - Touched(t.Present(), lo, TRASH_PAGES) == m
  {
    MapAllAt(m, lo, Same(frame, i));
    MappedIsPresent(t, MapAll(m, lo, Same(frame, i)), lo, i);
    TouchedCoversPrefix(t.Present(), lo, i, TRASH_PAGES);
    UnmapExactIff(t.Present(), lo, TRASH_PAGES);
    assert Wanted(t.Present(), lo, lo + TRASH_PAGES) <= Range(lo, TRASH_PAGES);
  }

  /** The `out_unmap` path. */
  method UnmapTrash(dma: Dma, lo: nat, ghost m: map<nat, nat>, ghost frame: nat, ghost i: nat)
    requires dma.mmu.Valid() && i <= TRASH_PAGES && lo + TRASH_PAGES <= PAGES && m.Keys !! Range(lo, TRASH_PAGES)
    requires dma.mmu.pages == MapAll(m, lo, Same(frame, i))
    modifies dma.mmu`ram, dma.mmu`pages
    ensures dma.mmu.Valid() && dma.mmu.pages == m - Touched(dma.mmu.Present(), lo, TRASH_PAGES)
    ensures UnmapSafe(dma.mmu.Present(), lo, TRASH_PAGES) ==> dma.mmu.pages == m
  {
    TrashUnwind(dma.mmu.State(), m, lo, frame, i);
    assert lo * PAGE_SIZE / PAGE_SIZE == lo && TRASH_PAGES * PAGE_SIZE / PAGE_SIZE == TRASH_PAGES;
    ghost var e := dma.mmu.Unmap(lo * PAGE_SIZE, TRASH_PAGES * PAGE_SIZE);
  }

  /** What a failed attempt may leave: everything as before, or fewer pages if unmapping went astray. */
  ghost predicate GaveUp(b: Ledger, c: Ledger, present: seq<bool>, lo: nat) {
    && c == b.(pages := c.pages) && |present| == PTES
    && (c.pages == b.pages || c.pages == b.pages - Touched(present, lo, TRASH_PAGES))
    && (UnmapSafe(present, lo, TRASH_PAGES) ==> c.pages == b.pages)
  }

  /** Both labels of the error path. */
  method GiveUp(dma: Dma, lo: nat, frame: nat, ghost b: Ledger, ghost i: nat)
    requires dma.mmu.Valid() && i <= TRASH_PAGES && lo + TRASH_PAGES <= PAGES && b.pages.Keys !! Range(lo, TRASH_PAGES)
    requires lo !in b.iovas && dma.iovas == b.iovas[lo := TRASH_PAGES]
    requires frame !in b.pci && frame in dma.mmu.pci && dma.mmu.pci - {frame} == b.pci
    requires dma.mmu.pages == MapAll(b.pages, lo, Same(frame, i)) && dma.owned == b.owned && dma.vmas == b.vmas
    modifies dma`iovas, dma.mmu`pci, dma.mmu`ram, dma.mmu`pages
    ensures dma.mmu.Valid() && GaveUp(b, dma.Books(), dma.mmu.Present(), lo)
  {
    UnmapTrash(dma, lo, b.pages, frame, i);
    dma.DmaUnmapPage(frame);
    dma.FreeIova(lo);
    assert dma.iovas == b.iovas;
  }

  /** `allocate_trash_buffer` once it has its range and its frame. */
  method TrashGranted(dma: Dma, lo: nat, frame: nat, page: nat, ghost b: Ledger) returns (ok: bool)
    requires dma.mmu.Valid() && lo + TRASH_PAGES <= PAGES && b.pages.Keys !! Range(lo, TRASH_PAGES)
    requires lo !in b.iovas && frame < U32 && frame !in b.pci
    requires dma.Books() == b.(iovas := b.iovas[lo := TRASH_PAGES], pci := b.pci[frame := page])
    modifies dma`iovas, dma.mmu
    ensures dma.mmu.Valid()
    ensures ok ==> dma.Books() == WithTrash(b, lo, frame, page)
    ensures !ok ==> dma.mmu.refusals > old(dma.mmu.refusals) && GaveUp(b, dma.Books(), dma.mmu.Present(), lo)
  {
    var i;
    ok, i := MapTrash(dma, lo, frame);
    if !ok {
      assert dma.mmu.pci - {frame} == b.pci;
      GiveUp(dma, lo, frame, b, i);
    }
  }

  /**
   * `allocate_trash_buffer`.  Success adds the range; a failure, which takes a refusal, gives back range and
   * frame and leaves the page map as it was if `UnmapSafe` holds of the tables.  Either way the ranges share
   * no frame.
   */
  method AllocTrash(dma: Dma, page: nat) returns (ok: bool, lo: nat, ghost frame: nat)
    requires dma.Valid()
    modifies dma, dma.mmu
    ensures dma.mmu.Valid()
    ensures ok ==> FreeRange(old(dma.Books()), lo, TRASH_PAGES) && frame !in old(dma.mmu.pci)
    ensures ok ==> dma.Valid() && dma.Books() == WithTrash(old(dma.Books()), lo, frame, page)
    ensures !ok ==> dma.Refusals() > old(dma.Refusals()) && GaveUp(old(dma.Books()), dma.Books(), dma.mmu.Present(), lo)
    ensures old(dma.Books()).Isolated() ==> dma.Books().Isolated()
  {
    ghost var b := dma.Books();
    ok, lo, frame := false, 0, 0;
    var got, first := dma.AllocIova(TRASH_PAGES);
    if !got { return; }
    lo := first;
    FreshIsUnmapped(b, lo, TRASH_PAGES);
    var f := dma.DmaMapPage(page);
    frame := f;
    if f == 0 {
      dma.FreeIova(lo);
      assert dma.iovas == b.iovas;
      return;
    }
    TrashBalanced(b, lo, f, page);
    if b.Isolated() { TrashIsolated(b, lo, f, page); }
    ok := TrashGranted(dma, lo, f, page, b);
    if !ok && b.Isolated() { FewerIsolated(b, dma.Books()); }
  }
}
