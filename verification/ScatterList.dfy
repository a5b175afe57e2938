/**
 * Scatter lists (kernel/ipu4/ipu6-dma.c): `ipu6_dma_map_sg` packs the entries one after the
 * other into a fresh IOVA range and overwrites each entry's bus address with its IOVA;
 * `ipu6_dma_unmap_sg` reads the bus addresses back from the page table.
 */
module ScatterList {
  import opened Common
  import opened DmaLayer
  import opened PageTable

  /** One entry: DMA address, DMA length and offset, all in bytes. */
  datatype Entry = Entry(addr: nat, len: nat, offset: nat)
  {
    function Pages(): nat { PagesUp(len) }
    function Frame(): nat { addr / PAGE_SIZE }
  }

  /** Pages needed by a list. */
  function Total(sgl: seq<Entry>): nat {
    if sgl == [] then 0 else Total(sgl[..|sgl| - 1]) + sgl[|sgl| - 1].Pages()
  }

  /** Entry `k` moved to its place in the consecutive IOVA ranges from page `lo` on. */
  function Moved(sgl: seq<Entry>, lo: nat, k: nat): Entry
    requires k < |sgl|
  {
    sgl[k].(addr := (lo + Total(sgl[..k])) * PAGE_SIZE)
  }

  /** The first `i` entries were moved, the others not. */
  ghost predicate Placed(now: seq<Entry>, sgl: seq<Entry>, lo: nat, i: nat) {
    && |now| == |sgl| && i <= |sgl|
    && (forall k :: 0 <= k < i ==> now[k] == Moved(sgl, lo, k) && Aligned(sgl[k].addr))
    && (forall k :: i <= k < |sgl| ==> now[k] == sgl[k])
  }

  /** The page map after every entry was mapped. */
  function SgMap(m: map<nat, nat>, lo: nat, sgl: seq<Entry>): map<nat, nat> {
    if sgl == [] then m
    else
      var init, last := sgl[..|sgl| - 1], sgl[|sgl| - 1];
      Extend(SgMap(m, lo, init), lo + Total(init), last.Frame(), last.Pages())
  }

  lemma {:induction false} TotalSnoc(sgl: seq<Entry>, k: nat)
    requires k < |sgl|
    ensures Total(sgl[..k + 1]) == Total(sgl[..k]) + sgl[k].Pages()
  {
    assert sgl[..k + 1][..k] == sgl[..k];
  }

  lemma {:induction false} TotalMonotone(sgl: seq<Entry>, i: nat, j: nat)
    requires i <= j <= |sgl|
    ensures Total(sgl[..i]) <= Total(sgl[..j])
    decreases j
  {
    if i < j {
      TotalMonotone(sgl, i, j - 1);
      TotalSnoc(sgl, j - 1);
    }
  }

  /** Entries occupy consecutive, disjoint IOVA ranges that together are exactly the whole range. */
  lemma {:induction false} EntriesDisjoint(sgl: seq<Entry>, i: nat, j: nat)
    requires i < j < |sgl|
    ensures Total(sgl[..i]) + sgl[i].Pages() == Total(sgl[..i + 1]) <= Total(sgl[..j])
    ensures Total(sgl[..j]) + sgl[j].Pages() <= Total(sgl)
  {
    TotalSnoc(sgl, i);
    TotalSnoc(sgl, j);
    TotalMonotone(sgl, i + 1, j);
    TotalMonotone(sgl, j + 1, |sgl|);
    assert sgl[..|sgl|] == sgl;
  }

  /** The map adds exactly the range, and leaves every other page alone. */
  lemma {:induction false} SgMapKeys(m: map<nat, nat>, lo: nat, sgl: seq<Entry>)
    ensures SgMap(m, lo, sgl).Keys == m.Keys + Range(lo, Total(sgl))
    ensures forall p :: p in m && p !in Range(lo, Total(sgl)) ==> SgMap(m, lo, sgl)[p] == m[p]
  {
    if sgl != [] {
      var init, last := sgl[..|sgl| - 1], sgl[|sgl| - 1];
      SgMapKeys(m, lo, init);
      ExtendAt(SgMap(m, lo, init), lo + Total(init), last.Frame(), last.Pages());
      RangeJoin(lo, Total(init), last.Pages());
    }
  }

  lemma {:induction false} ExtendPoint(m: map<nat, nat>, start: nat, pfn: nat, n: nat, p: nat)
    ensures start <= p < start + n ==>
      p in Extend(m, start, pfn, n) && Extend(m, start, pfn, n)[p] == Pte(pfn + (p - start))
    ensures p < start && p in m ==> p in Extend(m, start, pfn, n) && Extend(m, start, pfn, n)[p] == m[p]
  {
    ExtendAt(m, start, pfn, n);
  }

  /** The last entry adds its own pages behind those of the others. */
  lemma {:induction false} SgMapLast(m: map<nat, nat>, lo: nat, sgl: seq<Entry>, p: nat)
    requires sgl != []
    ensures var init, last := sgl[..|sgl| - 1], sgl[|sgl| - 1]; var at := lo + Total(init);
      && (at <= p < at + last.Pages() ==>
        p in SgMap(m, lo, sgl) && SgMap(m, lo, sgl)[p] == Pte(last.Frame() + (p - at)))
      && (p < at && p in SgMap(m, lo, init) ==> p in SgMap(m, lo, sgl) && SgMap(m, lo, sgl)[p] == SgMap(m, lo, init)[p])
  {
    var init, last := sgl[..|sgl| - 1], sgl[|sgl| - 1];
    ExtendPoint(SgMap(m, lo, init), lo + Total(init), last.Frame(), last.Pages(), p);
  }

  lemma {:induction false} PageBelowTotal(sgl: seq<Entry>, k: nat, j: nat)
    requires k < |sgl| && j < sgl[k].Pages()
    ensures Total(sgl[..k]) + j < Total(sgl)
  {
    TotalSnoc(sgl, k);
    TotalMonotone(sgl, k + 1, |sgl|);
    assert sgl[..|sgl|] == sgl;
  }

  /** Page j of entry k translates to page j of the entry's original bus range. */
  lemma {:induction false} SgMapAt(m: map<nat, nat>, lo: nat, sgl: seq<Entry>, k: nat, j: nat)
    requires k < |sgl| && j < sgl[k].Pages()
    ensures
      var p := lo + Total(sgl[..k]) + j;
      p in SgMap(m, lo, sgl) && SgMap(m, lo, sgl)[p] == Pte(sgl[k].Frame() + j)
  {
    SgMapLast(m, lo, sgl, lo + Total(sgl[..k]) + j);
    if k < |sgl| - 1 {
      var init := sgl[..|sgl| - 1];
      assert init[..k] == sgl[..k] && init[k] == sgl[k];
      SgMapAt(m, lo, init, k, j);
      PageBelowTotal(init, k, j);
    }
  }

  /** Addresses the PCI DMA mask allows, so that an entry's u32 page frame is exact. */
  ghost predicate Addressable(sgl: seq<Entry>) {
    forall k :: 0 <= k < |sgl| ==> sgl[k].addr < U32 * PAGE_SIZE
  }

  ghost predicate NonEmpty(sgl: seq<Entry>) {
    forall k :: 0 <= k < |sgl| ==> 0 < sgl[k].len
  }

  /** What `ipu6_dma_unmap_sg` makes of an entry: the address in the table, or the dummy page's. */
  function Restored(e: Entry, pages: map<nat, nat>, dummy: nat): Entry {
    var p := e.addr / PAGE_SIZE;
    e.(addr := (if p in pages then pages[p] else dummy) * PAGE_SIZE)
  }

  /** The address lies in a slot that has a table, which the lookup does not check. */
  predicate HasTable(present: seq<bool>, addr: nat) {
    addr < U32 && addr / 0x40_0000 < |present| && present[addr / 0x40_0000]
  }

  /** An entry that cannot be mapped: it is unaligned, or lacks a table where its pages go. */
  ghost predicate Blocked(present: seq<bool>, lo: nat, sgl: seq<Entry>, i: nat)
    requires |present| == PTES && i < |sgl|
  {
    Aligned(sgl[i].addr) ==> !AllPresent(present, lo + Total(sgl[..i]), sgl[i].Pages())
  }

  /** Mapping the list stopped at entry `i`, which, if aligned, takes that something was `refused`. */
  ghost predicate StoppedAt(present: seq<bool>, lo: nat, sgl: seq<Entry>, i: nat, refused: bool) {
    && |present| == PTES && i < |sgl| && Blocked(present, lo, sgl, i) && (Aligned(sgl[i].addr) ==> refused)
    && forall k :: 0 <= k < i ==> Aligned(sgl[k].addr)
  }

  lemma {:induction false} BlockedBefore(before: seq<bool>, after: seq<bool>, lo: nat, sgl: seq<Entry>, i: nat)
    requires |before| == PTES && Grown(before, after) && i < |sgl| && Blocked(after, lo, sgl, i)
    ensures Blocked(before, lo, sgl, i)
  {
  }

  /** The first page of a moved entry is mapped to the entry's original frame. */
  lemma {:induction false} MovedMapped(m: map<nat, nat>, lo: nat, sgl: seq<Entry>, k: nat, i: nat)
    requires k < i <= |sgl| && 0 < sgl[k].len
    ensures var p := lo + Total(sgl[..k]);
      && Moved(sgl, lo, k).addr == p * PAGE_SIZE
      && p in SgMap(m, lo, sgl[..i]) && SgMap(m, lo, sgl[..i])[p] == Pte(sgl[k].Frame())
  {
    var pre := sgl[..i];
    assert pre[..k] == sgl[..k] && pre[k] == sgl[k];
    SgMapAt(m, lo, pre, k, 0);
  }

  /** Reading the page table at a moved entry gives back the original entry. */
  lemma {:induction false} MovedRestores(m: map<nat, nat>, lo: nat, sgl: seq<Entry>, k: nat, i: nat, dummy: nat)
    requires k < i <= |sgl| && 0 < sgl[k].len && Aligned(sgl[k].addr)
    ensures Moved(sgl, lo, k).addr / PAGE_SIZE in SgMap(m, lo, sgl[..i])
    ensures sgl[k].addr < U32 * PAGE_SIZE ==> Restored(Moved(sgl, lo, k), SgMap(m, lo, sgl[..i]), dummy) == sgl[k]
  {
    MovedMapped(m, lo, sgl, k, i);
    assert Moved(sgl, lo, k).addr / PAGE_SIZE == lo + Total(sgl[..k]);
  }

  /** After the first `i` entries were moved, reading the page table restores all of them. */
  lemma {:induction false} PlacedRestores(
    m: map<nat, nat>, now: seq<Entry>, sgl: seq<Entry>, lo: nat, i: nat, dummy: nat)
    requires Placed(now, sgl, lo, i) && NonEmpty(sgl)
    ensures forall k :: 0 <= k < i ==> now[k].addr / PAGE_SIZE in SgMap(m, lo, sgl[..i])
    ensures 0 < i ==> now[0].addr / PAGE_SIZE == lo && 0 < Total(sgl)
    ensures Addressable(sgl) ==> forall k :: 0 <= k < i ==> Restored(now[k], SgMap(m, lo, sgl[..i]), dummy) == sgl[k]
  {
    forall k | 0 <= k < i
      ensures now[k].addr / PAGE_SIZE in SgMap(m, lo, sgl[..i])
      ensures Addressable(sgl) ==> Restored(now[k], SgMap(m, lo, sgl[..i]), dummy) == sgl[k]
    {
      MovedRestores(m, lo, sgl, k, i, dummy);
    }
    if 0 < i {
      TotalSnoc(sgl, 0);
      TotalMonotone(sgl, 1, |sgl|);
      assert sgl[..|sgl|] == sgl && Total(sgl[..0]) == 0;
    }
  }

  /** Unmapping the whole range takes back exactly what mapping the list added. */
  lemma {:induction false} SgUndo(m: map<nat, nat>, lo: nat, sgl: seq<Entry>)
    requires m.Keys !! Range(lo, Total(sgl))
    ensures Range(lo, Total(sgl)) <= SgMap(m, lo, sgl).Keys
    ensures SgMap(m, lo, sgl) - Range(lo, Total(sgl)) == m
  {
    SgMapKeys(m, lo, sgl);
  }

  /** The page map after the range was unmapped: without what the cursor reached, the range itself if it was mapped. */
  ghost predicate Unmapped(pages: map<nat, nat>, present: seq<bool>, lo: nat, n: nat, after: map<nat, nat>)
    requires |present| == PTES
  {
    after == pages - Touched(present, lo, n) && (Range(lo, n) <= pages.Keys ==> after == pages - Range(lo, n))
  }

  /** Unwinding a list mapped in part takes that part back, and whatever else the cursor reaches. */
  lemma {:induction false} PartialUnwind(m: map<nat, nat>, present: seq<bool>, lo: nat, sgl: seq<Entry>, i: nat)
    requires i <= |sgl| && lo + Total(sgl) <= PAGES && |present| == PTES
    requires AllPresent(present, lo, Total(sgl[..i]))
    ensures SgMap(m, lo, sgl[..i]) - Touched(present, lo, Total(sgl)) == m - Touched(present, lo, Total(sgl))
  {
    TotalMonotone(sgl, i, |sgl|);
    assert sgl[..|sgl|] == sgl;
    TouchedCoversPrefix(present, lo, Total(sgl[..i]), Total(sgl));
    SgMapKeys(m, lo, sgl[..i]);
  }

  /**
   * That leaves the other mappings alone, whatever they are, exactly when `UnmapSafe` holds of the slots
   * that have tables; the first slot has one whenever there is something to unwind.
   */
  lemma {:induction false} UnwindHarmlessIff(present: seq<bool>, lo: nat, n: nat)
    requires |present| == PTES && (lo / PTES < PTES ==> present[lo / PTES])
    ensures (forall m: map<nat, nat> :: m.Keys !! Range(lo, n) ==> m - Touched(present, lo, n) == m)
       <==> UnmapSafe(present, lo, n)
  {
    UnmapStaysIff(present, lo, n);
    var T := Touched(present, lo, n);
    if T <= Range(lo, n) {
      forall m: map<nat, nat> | m.Keys !! Range(lo, n) ensures m - T == m {
        assert m.Keys !! T;
      }
    } else {
      var q :| q in T && q !in Range(lo, n);
      var m: map<nat, nat> := map[q := 0];
      assert m.Keys !! Range(lo, n) && q in m && q !in m - T;
    }
  }

  /**
   * An input on which it does not: two entries of 1024 pages and of one page at IOVA 0, the table for the
   * second one refused, and another buffer at page 2048.  The unwind clears that buffer's page.
   */
  lemma {:induction false} UnwindHurts(m: map<nat, nat>, present: seq<bool>, sgl: seq<Entry>)
    requires |present| == PTES && present[0] && !present[1] && present[2]
    requires |sgl| == 2 && sgl[0].Pages() == 1024 && sgl[1].Pages() == 1 && 2048 in m
    ensures 2048 in SgMap(m, 0, sgl[..1])
    ensures 2048 !in SgMap(m, 0, sgl[..1]) - Touched(present, 0, Total(sgl))
    ensures !UnmapSafe(present, 0, Total(sgl))
  {
    TotalSnoc(sgl, 0);
    TotalSnoc(sgl, 1);
    assert sgl[..2] == sgl && Total(sgl[..0]) == 0;
    SgMapKeys(m, 0, sgl[..1]);
    assert Touched(present, 0, 1025) == Range(0, 1024) + TouchedFrom(present, 1, 1024, 1);
    assert TouchedFrom(present, 1, 1024, 1) == TouchedFrom(present, 2, 1024, 1);
    assert Page(2, 0) == 2048 && 2048 in Range(2048, 1);
    assert Page(2, PTES) == 3072;
  }

  /** The books after a list was mapped from page `lo` on. */
  ghost function WithList(b: Ledger, lo: nat, sgl: seq<Entry>): Ledger {
    b.(iovas := b.iovas[lo := Total(sgl)], pages := SgMap(b.pages, lo, sgl))
  }

  /** The books after a list was mapped into a fresh range are balanced. */
  lemma {:induction false} SgBalanced(b: Ledger, lo: nat, sgl: seq<Entry>)
    requires b.Balanced() && FreeRange(b, lo, Total(sgl))
    ensures WithList(b, lo, sgl).Balanced()
  {
    SgMapKeys(b.pages, lo, sgl);
    FreshIsUnmapped(b, lo, Total(sgl));
    RangeAdded(b, WithList(b, lo, sgl), lo, Total(sgl));
  }

  /** So are they when the range was granted but nothing was mapped. */
  lemma {:induction false} GrantBalanced(b: Ledger, lo: nat, n: nat)
    requires b.Balanced() && FreeRange(b, lo, n)
    ensures b.pages.Keys !! Range(lo, n) && b.(iovas := b.iovas[lo := n]).Balanced()
  {
    FreshIsUnmapped(b, lo, n);
    RangeAdded(b, b.(iovas := b.iovas[lo := n]), lo, n);
  }

  // ----- the frames of a list

  /** The bus frame of page `j` of an entry, as a table entry. */
  function BusPage(e: Entry, j: nat): nat { Pte(e.Frame() + j) }

  /** The list's bus frames were handed out by the host. */
  ghost predicate ListHeld(b: Ledger, sgl: seq<Entry>) {
    forall k, j :: 0 <= k < |sgl| && 0 <= j < sgl[k].Pages() ==> BusPage(sgl[k], j) in b.pci
  }

  /** They were, and no page is mapped to one of them. */
  ghost predicate ListNew(b: Ledger, sgl: seq<Entry>) {
    && ListHeld(b, sgl)
    && forall k, j, q :: 0 <= k < |sgl| && 0 <= j < sgl[k].Pages() && q in b.pages ==> b.pages[q] != BusPage(sgl[k], j)
  }

  /** The entry that page number `x` of the list belongs to. */
  lemma {:induction false} FindEntry(sgl: seq<Entry>, x: nat) returns (k: nat, j: nat)
    requires x < Total(sgl)
    ensures k < |sgl| && j < sgl[k].Pages() && Total(sgl[..k]) + j == x
  {
    var n := |sgl| - 1;
    if Total(sgl[..n]) <= x {
      k, j := n, x - Total(sgl[..n]);
    } else {
      k, j := FindEntry(sgl[..n], x);
      assert sgl[..n][..k] == sgl[..k];
    }
  }

  lemma {:induction false} SgMapFrames(b: Ledger, lo: nat, sgl: seq<Entry>)
    requires ListHeld(b, sgl)
    ensures var m := SgMap(b.pages, lo, sgl); forall p :: p in m && lo <= p < lo + Total(sgl) ==> m[p] in b.pci
    ensures ListNew(b, sgl) ==> var m := SgMap(b.pages, lo, sgl);
      forall p, q :: p in m && lo <= p < lo + Total(sgl) && q in b.pages ==> b.pages[q] != m[p]
  {
    var m := SgMap(b.pages, lo, sgl);
    forall p | p in m && lo <= p < lo + Total(sgl)
      ensures m[p] in b.pci && (ListNew(b, sgl) ==> forall q :: q in b.pages ==> b.pages[q] != m[p])
    {
      var k, j := FindEntry(sgl, p - lo);
      SgMapAt(b.pages, lo, sgl, k, j);
      assert m[p] == BusPage(sgl[k], j);
    }
  }

  /** A list on new frames keeps all ranges on frames of their own, one on frames in use keeps them the host's. */
  lemma {:induction false} SgIsolated(b: Ledger, lo: nat, sgl: seq<Entry>)
    requires b.Balanced() && FreeRange(b, lo, Total(sgl)) && ListHeld(b, sgl)
    ensures b.Held() ==> WithList(b, lo, sgl).Held()
    ensures b.Isolated() && ListNew(b, sgl) ==> WithList(b, lo, sgl).Isolated()
  {
    FreshIsUnmapped(b, lo, Total(sgl));
    SgMapKeys(b.pages, lo, sgl);
    SgMapFrames(b, lo, sgl);
    if b.Isolated() && ListNew(b, sgl) { RangeIsolated(b, WithList(b, lo, sgl), lo, Total(sgl)); }
  }

  /** A range that was granted and left empty shares nothing. */
  lemma {:induction false} GrantIsolated(b: Ledger, lo: nat, n: nat)
    requires b.Balanced() && FreeRange(b, lo, n) && b.Isolated()
    ensures b.(iovas := b.iovas[lo := n]).Isolated()
  {
    FreshIsUnmapped(b, lo, n);
    RangeIsolated(b, b.(iovas := b.iovas[lo := n]), lo, n);
  }

  /** How `ipu6_dma_map_sg` ends. */
  datatype SgOutcome =
    | Mapped
    | BadOffset
    | NoIova
    /** The first entry could not be mapped: the IOVA range stays allocated. */
    | FirstFailed
    /** Entry `at` could not, and is not the first: what was mapped is unwound. */
    | Unwound(at: nat)
  {
    predicate Stopped() { FirstFailed? || Unwound? }

    /** The entry at which mapping stopped. */
    function Stop(): nat { if Unwound? then at else 0 }
  }

  /** The books after a call that had its IOVA range; `present` are the slots with tables then. */
  ghost predicate Outcome(b: Ledger, c: Ledger, present: seq<bool>, lo: nat, sgl: seq<Entry>, out: SgOutcome) {
    match out
    case Mapped => c == WithList(b, lo, sgl)
    case FirstFailed => c == b.(iovas := b.iovas[lo := Total(sgl)])
    case Unwound(at) =>
      && 0 < at && |present| == PTES && (lo / PTES < PTES ==> present[lo / PTES])
      && c == b.(pages := b.pages - Touched(present, lo, Total(sgl)))
    case _ => c == b
  }

  /** They are balanced unless an unwind went astray, and as before if it did not. */
  lemma {:induction false} OutcomeBalanced(
    b: Ledger, c: Ledger, present: seq<bool>, lo: nat, sgl: seq<Entry>, out: SgOutcome)
    requires b.Balanced() && FreeRange(b, lo, Total(sgl)) && Outcome(b, c, present, lo, sgl, out)
    ensures !out.Unwound? ==> c.Balanced()
    ensures out.Unwound? && UnmapSafe(present, lo, Total(sgl)) ==> c == b
  {
    match out
    case Mapped => SgBalanced(b, lo, sgl);
    case FirstFailed => GrantBalanced(b, lo, Total(sgl));
    case Unwound(_) =>
      FreshIsUnmapped(b, lo, Total(sgl));
      UnwindHarmlessIff(present, lo, Total(sgl));
    case _ =>
  }

  /** However it ends, ranges share no more frames than before, unless the list itself shares some. */
  lemma {:induction false} OutcomeIsolated(
    b: Ledger, c: Ledger, present: seq<bool>, lo: nat, sgl: seq<Entry>, out: SgOutcome)
    requires b.Balanced() && FreeRange(b, lo, Total(sgl)) && Outcome(b, c, present, lo, sgl, out)
    ensures b.Isolated() && (out.Mapped? ==> ListNew(b, sgl)) ==> c.Isolated()
    ensures b.Held() && (out.Mapped? ==> ListHeld(b, sgl)) ==> c.Held()
  {
    match out
    case Mapped => if ListHeld(b, sgl) { SgIsolated(b, lo, sgl); }
    case FirstFailed => if b.Isolated() { GrantIsolated(b, lo, Total(sgl)); }
    case _ => if b.Isolated() { FewerIsolated(b, c); }
  }

  /** The scatter-list calls of one device's DMA layer. */
  class Mapper {
    const dma: Dma

    constructor (dma: Dma)
      ensures this.dma == dma
    {
      this.dma := dma;
    }

    /** `ipu6_mmu_map` of one entry into an unmapped range. */
    method MapEntry(p: nat, e: Entry) returns (ok: bool)
      requires dma.mmu.Valid() && p + e.Pages() <= PAGES && dma.mmu.pages.Keys !! Range(p, e.Pages())
      modifies dma.mmu`ram, dma.mmu`bus, dma.mmu`l2Pts, dma.mmu`pages, dma.mmu`refusals
      ensures dma.mmu.Valid() && (ok ==> Aligned(e.addr))
      ensures dma.mmu.pages == if ok then Extend(old(dma.mmu.pages), p, e.Frame(), e.Pages()) else old(dma.mmu.pages)
      ensures !ok && Aligned(e.addr) ==>
        !AllPresent(old(dma.mmu.Present()), p, e.Pages()) && dma.mmu.refusals > old(dma.mmu.refusals)
      ensures ok ==> dma.mmu.refusals == old(dma.mmu.refusals)
      ensures Grown(old(dma.mmu.Present()), dma.mmu.Present())
    {
      if p == PAGES {
        // An empty entry at the very end of the IOVA space: the page number wraps, nothing is written.
        assert e.Pages() == 0 && Extend(dma.mmu.pages, p, e.Frame(), 0) == dma.mmu.pages;
      }
      var err;
      ghost var eff;
      assert p * PAGE_SIZE / PAGE_SIZE == p && e.Pages() * PAGE_SIZE / PAGE_SIZE == e.Pages();
      assert p < PAGES ==> p % PAGES == p;
      assert Range(p % PAGES, e.Pages()) == Range(p, e.Pages()) || e.Pages() == 0;
      assert e.Pages() == 0 ==> Range(p % PAGES, e.Pages()) == {};
      err, eff := dma.mmu.Map(p * PAGE_SIZE, e.addr, e.Pages() * PAGE_SIZE);
      ok := err == Ok;
    }

    /** The loop of `ipu6_dma_unmap_sg` that returns the bus addresses to the first `n` entries. */
    method RestoreEntries(sgl: array<Entry>, n: nat)
      requires dma.mmu.Valid() && n <= sgl.Length
      requires forall k :: 0 <= k < n ==> HasTable(dma.mmu.Present(), sgl[k].addr)
      modifies sgl
      ensures forall k :: 0 <= k < n ==> sgl[k] == Restored(old(sgl[k]), dma.mmu.pages, dma.mmu.dummyPte)
      ensures forall k :: n <= k < sgl.Length ==> sgl[k] == old(sgl[k])
    {
      var i := 0;
      while i < n
        invariant i <= n
        invariant forall k :: 0 <= k < i ==> sgl[k] == Restored(old(sgl[k]), dma.mmu.pages, dma.mmu.dummyPte)
        invariant forall k :: i <= k < sgl.Length ==> sgl[k] == old(sgl[k])
      {
        assert HasTable(dma.mmu.Present(), sgl[i].addr);
        var phys := dma.mmu.IovaToPhys(sgl[i].addr);
        sgl[i] := sgl[i].(addr := phys);
        i := i + 1;
      }
    }

    /**
     * `ipu6_dma_unmap_sg` on the first `n` entries: each entry gets its bus address back, and the IOVA
     * range that holds the first one is unmapped as a whole and released.  Without entries, or if there
     * is no such range, nothing happens.
     */
    method UnmapSg(sgl: array<Entry>, n: nat) returns (found: bool, first: nat)
      requires dma.mmu.Valid() && n <= sgl.Length
      requires 0 < n && InUse(dma.iovas, sgl[0].addr / PAGE_SIZE) ==>
        forall k :: 0 <= k < n ==> HasTable(dma.mmu.Present(), sgl[k].addr)
      modifies sgl, dma`iovas,
               dma.mmu`ram, dma.mmu`bus, dma.mmu`l2Pts, dma.mmu`pages, dma.mmu`refusals
      ensures dma.mmu.Valid() && dma.mmu.Present() == old(dma.mmu.Present())
      ensures dma.mmu.refusals == old(dma.mmu.refusals)
      ensures found <==> 0 < n && InUse(old(dma.iovas), old(sgl[..])[0].addr / PAGE_SIZE)
      ensures !found ==> dma.Books() == old(dma.Books()) && sgl[..] == old(sgl[..])
      ensures found ==>
        && first in old(dma.iovas) && dma.iovas == old(dma.iovas) - {first}
        && first <= old(sgl[..])[0].addr / PAGE_SIZE < first + old(dma.iovas)[first]
        && Unmapped(old(dma.mmu.pages), dma.mmu.Present(), first, old(dma.iovas)[first], dma.mmu.pages)
      ensures found ==>
        forall k :: 0 <= k < n ==> sgl[k] == Restored(old(sgl[k]), old(dma.mmu.pages), dma.mmu.dummyPte)
      ensures old(dma.Books()).Isolated() ==> dma.Books().Isolated()
      ensures forall k :: n <= k < sgl.Length ==> sgl[k] == old(sgl[k])
    {
      found, first := false, 0;
      if n == 0 { return; }
      found, first := dma.FindIova(sgl[0].addr / PAGE_SIZE);
      if !found { return; }
      RestoreEntries(sgl, n);
      var count := dma.iovas[first];
      assert first * PAGE_SIZE / PAGE_SIZE == first && count * PAGE_SIZE / PAGE_SIZE == count;
      ghost var b := dma.Books();
      ghost var e := dma.mmu.Unmap(first * PAGE_SIZE, count * PAGE_SIZE);
      dma.FreeIova(first);
      if b.Isolated() { FewerIsolated(b, dma.Books()); }
    }

    /** The entry's new address. */
    method MoveEntry(sgl: array<Entry>, lo: nat, p: nat, i: nat, ghost src: seq<Entry>)
      requires i < sgl.Length == |src| && p == lo + Total(src[..i])
      requires Placed(sgl[..], src, lo, i) && Aligned(src[i].addr)
      modifies sgl
      ensures Placed(sgl[..], src, lo, i + 1)
    {
      ghost var before := sgl[..];
      assert sgl[i] == before[i] == src[i];
      sgl[i] := sgl[i].(addr := p * PAGE_SIZE);
      assert sgl[..] == before[i := Moved(src, lo, i)];
      PlacedStep(before, sgl[..], src, lo, i);
    }

    /** One round of the mapping loop: the entry's pages ... */
    method MapPagesOf(e: Entry, lo: nat, p: nat, ghost i: nat, ghost m: map<nat, nat>, ghost src: seq<Entry>)
      returns (ok: bool)
      requires dma.mmu.Valid() && i < |src| && e == src[i] && p == lo + Total(src[..i])
      requires lo + Total(src) <= PAGES && m.Keys !! Range(lo, Total(src)) && dma.mmu.pages == SgMap(m, lo, src[..i])
      modifies dma.mmu`ram, dma.mmu`bus, dma.mmu`l2Pts, dma.mmu`pages, dma.mmu`refusals
      ensures dma.mmu.Valid() && dma.mmu.pages == SgMap(m, lo, src[..if ok then i + 1 else i])
      ensures if ok then Aligned(e.addr) else Blocked(old(dma.mmu.Present()), lo, src, i)
      ensures !ok && Aligned(e.addr) ==> dma.mmu.refusals > old(dma.mmu.refusals)
      ensures ok ==> dma.mmu.refusals == old(dma.mmu.refusals)
      ensures Grown(old(dma.mmu.Present()), dma.mmu.Present())
    {
      EntryRoom(m, lo, src, i);
      SgMapSnoc(m, lo, src, i);
      ok := MapEntry(p, e);
    }

    /** ... then its new address. */
    method MapNext(sgl: array<Entry>, lo: nat, p: nat, i: nat, ghost m: map<nat, nat>, ghost src: seq<Entry>)
      returns (ok: bool)
      requires dma.mmu.Valid() && i < sgl.Length == |src| && lo + Total(src) <= PAGES && m.Keys !! Range(lo, Total(src))
      requires p == lo + Total(src[..i]) && dma.mmu.pages == SgMap(m, lo, src[..i]) && Placed(sgl[..], src, lo, i)
      modifies sgl,
               dma.mmu`ram, dma.mmu`bus, dma.mmu`l2Pts, dma.mmu`pages, dma.mmu`refusals
      ensures dma.mmu.Valid() && dma.mmu.pages == SgMap(m, lo, src[..if ok then i + 1 else i])
      ensures Placed(sgl[..], src, lo, if ok then i + 1 else i) && p + src[i].Pages() == lo + Total(src[..i + 1])
      ensures !ok ==> Blocked(old(dma.mmu.Present()), lo, src, i)
      ensures !ok && Aligned(src[i].addr) ==> dma.mmu.refusals > old(dma.mmu.refusals)
      ensures ok ==> dma.mmu.refusals == old(dma.mmu.refusals)
      ensures Grown(old(dma.mmu.Present()), dma.mmu.Present())
    {
      assert sgl[i] == sgl[..][i] == src[i];
      TotalSnoc(src, i);
      ok := MapPagesOf(sgl[i], lo, p, i, m, src);
      if ok { MoveEntry(sgl, lo, p, i, src); }
    }

    /** The mapping loop of `ipu6_dma_map_sg`: a prefix of the entries, all of them when `ok`. */
    method MapEntries(sgl: array<Entry>, lo: nat) returns (ok: bool, i: nat)
      requires dma.mmu.Valid() && lo + Total(sgl[..]) <= PAGES
      requires dma.mmu.pages.Keys !! Range(lo, Total(sgl[..]))
      modifies sgl,
               dma.mmu`ram, dma.mmu`bus, dma.mmu`l2Pts, dma.mmu`pages, dma.mmu`refusals
      ensures dma.mmu.Valid() && i <= sgl.Length && (ok ==> i == sgl.Length)
      ensures dma.mmu.pages == SgMap(old(dma.mmu.pages), lo, old(sgl[..])[..i])
      ensures Placed(sgl[..], old(sgl[..]), lo, i)
      ensures !ok ==> StoppedAt(old(dma.mmu.Present()), lo, old(sgl[..]), i, dma.mmu.refusals > old(dma.mmu.refusals))
    {
      ghost var src, m := sgl[..], dma.mmu.pages;
      var p: nat := lo;
      i, ok := 0, true;
      while i < sgl.Length
        invariant i <= sgl.Length && dma.mmu.Valid() && p == lo + Total(src[..i])
        invariant dma.mmu.pages == SgMap(m, lo, src[..i])
        invariant Placed(sgl[..], src, lo, i) && dma.mmu.refusals == old(dma.mmu.refusals)
        invariant |old(dma.mmu.Present())| == PTES && Grown(old(dma.mmu.Present()), dma.mmu.Present())
      {
        var pages := sgl[i].Pages();
        assert sgl[i] == sgl[..][i] == src[i];
        ghost var present := dma.mmu.Present();
        ok := MapNext(sgl, lo, p, i, m, src);
        if !ok {
          BlockedBefore(old(dma.mmu.Present()), present, lo, src, i);
          return;
        }
        p, i := p + pages, i + 1;
      }
    }

    /** The loop that refuses entries with an offset. */
    method OffsetsZero(sgl: array<Entry>) returns (b: bool)
      ensures b <==> forall k :: 0 <= k < sgl.Length ==> sgl[k].offset == 0
    {
      for i := 0 to sgl.Length
        invariant forall k :: 0 <= k < i ==> sgl[k].offset == 0
      {
        if sgl[i].offset != 0 { return false; }
      }
      return true;
    }

    /** The loop that adds up the pages. */
    method CountPages(sgl: array<Entry>) returns (n: nat)
      ensures n == Total(sgl[..])
    {
      n := 0;
      for i := 0 to sgl.Length
        invariant n == Total(sgl[..][..i])
      {
        TotalSnoc(sgl[..], i);
        n := n + sgl[i].Pages();
      }
      assert sgl[..][..sgl.Length] == sgl[..];
    }

    /** `ipu6_dma_unmap_sg` of the first `i` entries as the mapping loop left them. */
    method UnmapMoved(sgl: array<Entry>, i: nat, ghost lo: nat, ghost src: seq<Entry>, ghost m: map<nat, nat>)
      requires dma.mmu.Valid() && dma.Books().RangesApart() && NonEmpty(src) && 0 < i <= |src|
      requires lo in dma.iovas && dma.iovas[lo] == Total(src)
      requires Placed(sgl[..], src, lo, i) && dma.mmu.pages == SgMap(m, lo, src[..i])
      modifies sgl, dma`iovas,
               dma.mmu`ram, dma.mmu`bus, dma.mmu`l2Pts, dma.mmu`pages, dma.mmu`refusals
      ensures dma.mmu.Valid() && dma.mmu.refusals == old(dma.mmu.refusals)
      ensures dma.mmu.Present() == old(dma.mmu.Present()) && lo < PAGES && dma.mmu.Present()[lo / PTES]
      ensures dma.iovas == old(dma.iovas) - {lo}
      ensures Unmapped(old(dma.mmu.pages), dma.mmu.Present(), lo, Total(src), dma.mmu.pages)
      ensures Addressable(src) ==> sgl[..] == src
    {
      ghost var now, pages := sgl[..], dma.mmu.pages;
      PlacedRestores(m, now, src, lo, i, dma.mmu.dummyPte);
      PlacedHaveTables(dma.mmu.State(), m, lo, src, now, i);
      assert InUse(dma.iovas, now[0].addr / PAGE_SIZE);
      var found, first := UnmapSg(sgl, i);
      assert first == lo;
      RestoredAll(now, sgl[..], src, pages, i, lo, dma.mmu.dummyPte);
    }

    /** The `out_fail` path: the first `i` entries are mapped and placed, the next one could not be. */
    method UnwindEntries(sgl: array<Entry>, i: nat, lo: nat, npages: nat, ghost src: seq<Entry>, ghost m: map<nat, nat>)
      requires dma.mmu.Valid() && dma.Books().RangesApart() && NonEmpty(src) && i < |src|
      requires npages == Total(src) && lo + npages <= PAGES && lo in dma.iovas && dma.iovas[lo] == npages
      requires Placed(sgl[..], src, lo, i) && dma.mmu.pages == SgMap(m, lo, src[..i]) && m.Keys !! Range(lo, npages)
      modifies sgl, dma`iovas,
               dma.mmu`ram, dma.mmu`bus, dma.mmu`l2Pts, dma.mmu`pages, dma.mmu`refusals
      ensures dma.mmu.Valid() && dma.mmu.refusals == old(dma.mmu.refusals)
      ensures i == 0 ==> dma.iovas == old(dma.iovas) && dma.mmu.pages == m
      ensures i > 0 ==>
        dma.iovas == old(dma.iovas) - {lo} && dma.mmu.pages == m - Touched(dma.mmu.Present(), lo, npages)
      ensures i > 0 ==> lo < PAGES && dma.mmu.Present()[lo / PTES]
      ensures Addressable(src) ==> sgl[..] == src
    {
      if i > 0 {
        PrefixMapped(dma.mmu.State(), m, lo, src, i);
        UnmapMoved(sgl, i, lo, src, m);
        PartialUnwind(m, dma.mmu.Present(), lo, src, i);
      } else {
        var found, first := UnmapSg(sgl, 0);
        assert src[..0] == [];
        assert sgl[..] == src;
      }
    }

    /** `ipu6_dma_map_sg` once the IOVA range is there. */
    method MapInto(sgl: array<Entry>, lo: nat, npages: nat) returns (ghost out: SgOutcome, ok: bool)
      requires dma.mmu.Valid() && dma.Books().RangesApart() && NonEmpty(sgl[..])
      requires npages == Total(sgl[..]) && lo + npages <= PAGES && lo in dma.iovas && dma.iovas[lo] == npages
      requires dma.mmu.pages.Keys !! Range(lo, npages)
      modifies sgl, dma`iovas,
               dma.mmu`ram, dma.mmu`bus, dma.mmu`l2Pts, dma.mmu`pages, dma.mmu`refusals
      ensures dma.mmu.Valid() && (ok <==> out.Mapped?) && (out.Mapped? || out.Stopped())
      ensures ok ==> dma.iovas == old(dma.iovas) && dma.mmu.pages == SgMap(old(dma.mmu.pages), lo, old(sgl[..]))
      ensures ok ==> Placed(sgl[..], old(sgl[..]), lo, sgl.Length)
      ensures out.FirstFailed? ==> dma.iovas == old(dma.iovas) && dma.mmu.pages == old(dma.mmu.pages)
      ensures out.Unwound? ==>
        && dma.iovas == old(dma.iovas) - {lo}
        && dma.mmu.pages == old(dma.mmu.pages) - Touched(dma.mmu.Present(), lo, npages)
        && 0 < out.at && lo < PAGES && dma.mmu.Present()[lo / PTES]
      ensures !ok ==>
        StoppedAt(old(dma.mmu.Present()), lo, old(sgl[..]), out.Stop(), dma.mmu.refusals > old(dma.mmu.refusals))
      ensures !ok && Addressable(old(sgl[..])) ==> sgl[..] == old(sgl[..])
    {
      ghost var src, m := sgl[..], dma.mmu.pages;
      var i;
      ok, i := MapEntries(sgl, lo);
      out := if ok then Mapped else if i == 0 then FirstFailed else Unwound(i);
      if !ok {
        UnwindEntries(sgl, i, lo, npages, src, m);
      } else {
        assert src[..i] == src;
      }
    }

    /** The same on the books: the range is new, so `b` were the books before it was granted. */
    method MapGranted(sgl: array<Entry>, lo: nat, npages: nat, ghost b: Ledger) returns (ghost out: SgOutcome, ok: bool)
      requires dma.mmu.Valid() && dma.Books().RangesApart() && NonEmpty(sgl[..]) && npages == Total(sgl[..])
      requires lo !in b.iovas && lo + npages <= PAGES && dma.Books() == b.(iovas := b.iovas[lo := npages])
      requires b.pages.Keys !! Range(lo, npages)
      modifies sgl, dma`iovas,
               dma.mmu`ram, dma.mmu`bus, dma.mmu`l2Pts, dma.mmu`pages, dma.mmu`refusals
      ensures dma.mmu.Valid() && (ok <==> out.Mapped?) && (out.Mapped? || out.Stopped())
      ensures ok ==> Placed(sgl[..], old(sgl[..]), lo, sgl.Length)
      ensures Outcome(b, dma.Books(), dma.mmu.Present(), lo, old(sgl[..]), out)
      ensures !ok ==>
        StoppedAt(old(dma.mmu.Present()), lo, old(sgl[..]), out.Stop(), dma.mmu.refusals > old(dma.mmu.refusals))
      ensures !ok && Addressable(old(sgl[..])) ==> sgl[..] == old(sgl[..])
    {
      out, ok := MapInto(sgl, lo, npages);
      assert b.iovas[lo := npages] - {lo} == b.iovas;
    }

    /** `alloc_iova`: a free range, in which nothing is mapped. */
    method Reserve(n: nat) returns (got: bool, lo: nat)
      requires dma.Valid()
      modifies dma`iovas, dma`refusals
      ensures dma.refusals == old(dma.refusals) + if got then 0 else 1
      ensures !got ==> dma.iovas == old(dma.iovas)
      ensures got ==>
        && FreeRange(old(dma.Books()), lo, n) && lo + n <= PAGES && dma.Books().RangesApart()
        && dma.iovas == old(dma.iovas)[lo := n] && dma.mmu.pages.Keys !! Range(lo, n)
    {
      ghost var b := dma.Books();
      got, lo := dma.AllocIova(n);
      if got { GrantBalanced(b, lo, n); }
    }

    /**
     * `ipu6_dma_map_sg`.  Success places the entries in consecutive disjoint IOVA ranges that
     * translate to their original bus pages; a non-zero offset or a failed IOVA allocation changes
     * nothing.  A failed mapping gives every entry its address back; if it was the first entry that
     * could not be mapped the IOVA range stays allocated, otherwise the range is released and the page
     * map loses what unmapping the whole range reaches, nothing else if `UnmapSafe` holds of the tables
     * (see `UnwindHarmlessIff`).  The entry at which it stops is unaligned, or lacks a table and the
     * kernel refused one in this very call; all entries before it are aligned.
     */
    method MapSg(sgl: array<Entry>) returns (ret: int, ghost out: SgOutcome, ghost lo: nat)
      requires dma.Valid() && NonEmpty(sgl[..])
      modifies sgl, dma`iovas, dma`refusals,
               dma.mmu`ram, dma.mmu`bus, dma.mmu`l2Pts, dma.mmu`pages, dma.mmu`refusals
      ensures dma.mmu.Valid() && (out.BadOffset? <==> exists k :: 0 <= k < sgl.Length && old(sgl[k].offset) != 0)
      ensures ret == if out.Mapped? then sgl.Length else if out.BadOffset? then -14 else 0
      ensures out.BadOffset? || out.NoIova? ==> sgl[..] == old(sgl[..]) && dma.Books() == old(dma.Books())
      ensures out.Mapped? || out.Stopped() ==>
        && FreeRange(old(dma.Books()), lo, Total(old(sgl[..]))) && lo + Total(old(sgl[..])) <= PAGES
        && Outcome(old(dma.Books()), dma.Books(), dma.mmu.Present(), lo, old(sgl[..]), out)
      ensures out.Mapped? ==> Placed(sgl[..], old(sgl[..]), lo, sgl.Length)
      ensures out.Unwound? && UnmapSafe(dma.mmu.Present(), lo, Total(old(sgl[..]))) ==> dma.Books() == old(dma.Books())
      ensures !out.Unwound? ==> dma.Valid()
      ensures out.Stopped() ==>
        StoppedAt(old(dma.mmu.Present()), lo, old(sgl[..]), out.Stop(), dma.Refusals() > old(dma.Refusals()))
      ensures out.NoIova? ==> dma.Refusals() > old(dma.Refusals())
      ensures 0 < sgl.Length && !Aligned(old(sgl[..])[0].addr) ==> out.BadOffset? || out.NoIova? || out.FirstFailed?
      ensures !out.Mapped? && Addressable(old(sgl[..])) ==> sgl[..] == old(sgl[..])
      ensures old(dma.Books()).Isolated() && (out.Mapped? ==> ListNew(old(dma.Books()), old(sgl[..]))) ==>
        dma.Books().Isolated()
      ensures old(dma.Books()).Held() && (out.Mapped? ==> ListHeld(old(dma.Books()), old(sgl[..]))) ==>
        dma.Books().Held()
    {
      ghost var b, src := dma.Books(), sgl[..];
      var offsetFree := OffsetsZero(sgl);
      if !offsetFree { return -14, BadOffset, 0; }
      var npages := CountPages(sgl);
      var got, first := Reserve(npages);
      if !got { return 0, NoIova, 0; }
      lo := first;
      var all;
      out, all := MapGranted(sgl, first, npages, b);
      OutcomeBalanced(b, dma.Books(), dma.mmu.Present(), first, src, out);
      OutcomeIsolated(b, dma.Books(), dma.mmu.Present(), first, src, out);
      ret := if all then sgl.Length else 0;
    }

    /**
     * The leak at one input: a single page at an odd address.  Whenever there is an IOVA page for it, that
     * page stays allocated, and nothing is mapped there.
     */
    method FirstFailedLeaks() returns (ghost out: SgOutcome, ghost lo: nat)
      requires dma.Valid()
      modifies dma`iovas, dma`refusals,
               dma.mmu`ram, dma.mmu`bus, dma.mmu`l2Pts, dma.mmu`pages, dma.mmu`refusals
      ensures out.NoIova? || out.FirstFailed?
      ensures out.NoIova? ==> dma.Books() == old(dma.Books())
      ensures out.FirstFailed? ==>
        && lo !in old(dma.iovas) && lo !in dma.mmu.pages
        && dma.Books() == old(dma.Books()).(iovas := old(dma.iovas)[lo := 1])
    {
      var sgl := new Entry[1](_ => Entry(1, 4096, 0));
      var ret;
      assert Total(sgl[..]) == 1 by {
        TotalSnoc(sgl[..], 0);
        assert sgl[..][..1] == sgl[..] && Total(sgl[..][..0]) == 0;
      }
      ret, out, lo := MapSg(sgl);
      assert out.FirstFailed? ==> lo in Range(lo, 1);
    }

    /** `ipu6_dma_unmap_sg` of a list as `MapSg` left it: the books and the list from before the map. */
    method UnmapPlaced(sgl: array<Entry>, ghost src: seq<Entry>, ghost b: Ledger, ghost lo: nat)
      requires dma.mmu.Valid() && dma.Books().RangesApart() && NonEmpty(src) && Addressable(src) && 0 < sgl.Length
      requires Placed(sgl[..], src, lo, sgl.Length) && lo !in b.iovas && b.pages.Keys !! Range(lo, Total(src))
      requires dma.Books() == b.(iovas := b.iovas[lo := Total(src)], pages := SgMap(b.pages, lo, src))
      modifies sgl, dma`iovas,
               dma.mmu`ram, dma.mmu`bus, dma.mmu`l2Pts, dma.mmu`pages, dma.mmu`refusals
      ensures dma.mmu.Valid() && dma.Books() == b && sgl[..] == src
    {
      assert src[..sgl.Length] == src;
      SgUndo(b.pages, lo, src);
      UnmapMoved(sgl, sgl.Length, lo, src, b.pages);
      assert b.iovas[lo := Total(src)] - {lo} == b.iovas;
    }

    /** Mapping a scatter list and unmapping it again leaves no trace at all. */
    method SgRoundTrip(sgl: array<Entry>) returns (ghost out: SgOutcome)
      requires dma.Valid() && NonEmpty(sgl[..]) && Addressable(sgl[..])
      modifies sgl, dma`iovas, dma`refusals,
               dma.mmu`ram, dma.mmu`bus, dma.mmu`l2Pts, dma.mmu`pages, dma.mmu`refusals
      ensures out.Mapped? && 0 < sgl.Length ==> dma.Valid() && dma.Books() == old(dma.Books())
      ensures sgl[..] == old(sgl[..])
    {
      ghost var src, b := sgl[..], dma.Books();
      var ret;
      ghost var lo;
      ret, out, lo := MapSg(sgl);
      if ret > 0 {
        UnmapPlaced(sgl, src, b, lo);
      }
    }
  }

  /** The slots of the entries mapped so far all have tables. */
  lemma {:induction false} PrefixMapped(t: Tables, m: map<nat, nat>, lo: nat, sgl: seq<Entry>, i: nat)
    requires i <= |sgl| && t.Represents(SgMap(m, lo, sgl[..i]))
    ensures AllPresent(t.Present(), lo, Total(sgl[..i]))
  {
    SgMapKeys(m, lo, sgl[..i]);
    MappedIsPresent(t, SgMap(m, lo, sgl[..i]), lo, Total(sgl[..i]));
  }

  lemma {:induction false} PageHasTable(t: Tables, pages: map<nat, nat>, p: nat)
    requires t.Represents(pages) && p in pages
    ensures p < PAGES && t.Present()[p / PTES] && HasTable(t.Present(), p * PAGE_SIZE)
  {
    MappedHasTable(t, pages, p);
    assert p * PAGE_SIZE / 0x40_0000 == p / PTES;
  }

  lemma {:induction false} MovedHasTable(t: Tables, m: map<nat, nat>, lo: nat, sgl: seq<Entry>, i: nat, k: nat)
    requires k < i <= |sgl| && 0 < sgl[k].len && t.Represents(SgMap(m, lo, sgl[..i]))
    ensures var p := lo + Total(sgl[..k]);
      p < PAGES && t.Present()[p / PTES] && HasTable(t.Present(), Moved(sgl, lo, k).addr)
  {
    MovedMapped(m, lo, sgl, k, i);
    PageHasTable(t, SgMap(m, lo, sgl[..i]), lo + Total(sgl[..k]));
  }

  /** So have the slots that the moved entries start in. */
  lemma {:induction false} PlacedHaveTables(
    t: Tables, m: map<nat, nat>, lo: nat, sgl: seq<Entry>, now: seq<Entry>, i: nat)
    requires Placed(now, sgl, lo, i) && NonEmpty(sgl) && t.Represents(SgMap(m, lo, sgl[..i]))
    ensures forall k :: 0 <= k < i ==> HasTable(t.Present(), now[k].addr)
    ensures 0 < i ==> lo < PAGES && t.Present()[lo / PTES]
  {
    forall k | 0 <= k < i ensures HasTable(t.Present(), now[k].addr) { MovedHasTable(t, m, lo, sgl, i, k); }
    if 0 < i {
      MovedHasTable(t, m, lo, sgl, i, 0);
      assert Total(sgl[..0]) == 0;
    }
  }

  lemma {:induction false} SgMapSnoc(m: map<nat, nat>, lo: nat, sgl: seq<Entry>, i: nat)
    requires i < |sgl|
    ensures SgMap(m, lo, sgl[..i + 1])
         == Extend(SgMap(m, lo, sgl[..i]), lo + Total(sgl[..i]), sgl[i].Frame(), sgl[i].Pages())
  {
    assert sgl[..i + 1][..i] == sgl[..i];
  }

  lemma {:induction false} PlacedStep(before: seq<Entry>, after: seq<Entry>, sgl: seq<Entry>, lo: nat, i: nat)
    requires Placed(before, sgl, lo, i) && i < |sgl| && Aligned(sgl[i].addr)
    requires after == before[i := Moved(sgl, lo, i)]
    ensures Placed(after, sgl, lo, i + 1)
  {
  }

  /** Restoring the moved entries gives back the original list. */
  lemma {:induction false} RestoredAll(
    now: seq<Entry>, after: seq<Entry>, sgl: seq<Entry>, m: map<nat, nat>, i: nat, lo: nat, dummy: nat)
    requires Placed(now, sgl, lo, i) && |after| == |now|
    requires forall k :: 0 <= k < i ==> after[k] == Restored(now[k], m, dummy)
    requires forall k :: i <= k < |now| ==> after[k] == now[k]
    requires Addressable(sgl) ==> forall k :: 0 <= k < i ==> Restored(now[k], m, dummy) == sgl[k]
    ensures Addressable(sgl) ==> after == sgl
  {
  }

  /** The next entry still fits into the unmapped rest of the range. */
  lemma {:induction false} EntryRoom(m: map<nat, nat>, lo: nat, sgl: seq<Entry>, i: nat)
    requires i < |sgl| && m.Keys !! Range(lo, Total(sgl))
    ensures Total(sgl[..i]) + sgl[i].Pages() == Total(sgl[..i + 1]) <= Total(sgl)
    ensures SgMap(m, lo, sgl[..i]).Keys !! Range(lo + Total(sgl[..i]), sgl[i].Pages())
  {
    TotalSnoc(sgl, i);
    TotalMonotone(sgl, i + 1, |sgl|);
    assert sgl[..|sgl|] == sgl;
    SgMapKeys(m, lo, sgl[..i]);
    assert Range(lo + Total(sgl[..i]), sgl[i].Pages()) <= Range(lo, Total(sgl));
  }
}
