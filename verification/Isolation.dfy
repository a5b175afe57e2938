/**
 * What a delivered frame can overwrite.  The device always writes 64 KiB from the address of the pin
 * (tools/qemu-patches/hw/misc/ipu4.c:637,911-919), whatever the length of the buffer there; the driver's
 * tables send the pages that nobody mapped to the dummy page (kernel/ipu4/ipu6-mmu.c:672-725).
 */
module Isolation {
  import opened Common
  import opened PageTable
  import opened DmaLayer
  import opened ScatterList
  import opened FrameWriter
  import Runs = DmaRuns

  /** The driver's tables as the device sees them. */
  ghost predicate Programmed(io: Io, pages: map<nat, nat>) {
    io.tables.Represents(pages) && io.l1 == io.tables.l1Dma
  }

  /** The IOVA page that byte `k` of a frame at `base` goes to. */
  function PageOf(base: nat, k: nat): nat { (base + k) % U32 / PAGE_SIZE }

  /** Writing the frame changes what memory holds at `a`. */
  ghost predicate Changes(io: Io, mem: map<nat, nat>, base: nat, total: nat, seqNo: nat, a: nat) {
    var r := Bytewise(io, mem, base, total, seqNo, 0);
    (a in r) != (a in mem) || (a in r && r[a] != mem[a])
  }

  /** The address lies in the dummy page or in a page mapped at one of the IOVA pages `own`. */
  ghost predicate Inside(io: Io, pages: map<nat, nat>, own: set<nat>, a: nat) {
    a / PAGE_SIZE == io.tables.dummyPte || exists p :: p in own && p in pages && pages[p] == a / PAGE_SIZE
  }

  /** Whatever memory held before, the frame changes nothing else. */
  ghost predicate Stays(io: Io, pages: map<nat, nat>, base: nat, total: nat, seqNo: nat, own: set<nat>) {
    forall mem, a :: Changes(io, mem, base, total, seqNo, a) ==> Inside(io, pages, own, a)
  }

  /** The frame reaches no mapped page outside `own`. */
  ghost predicate KeepsTo(io: Io, pages: map<nat, nat>, base: nat, total: nat, own: set<nat>) {
    forall k :: 0 <= k < Reach(io, base, total, 0) && PageOf(base, k) in pages ==> PageOf(base, k) in own
  }

  /** No page mapped elsewhere shares a frame with the pages mapped at `own`, or with the dummy page. */
  ghost predicate Unshared(pages: map<nat, nat>, own: set<nat>, dummy: nat) {
    forall p :: p in pages && p !in own ==>
      pages[p] != dummy && forall q :: q in own && q in pages ==> pages[p] != pages[q]
  }

  /** What changes is the translation of some byte before the first that does not translate. */
  lemma {:induction false} ChangedIsReached(
    io: Io, mem: map<nat, nat>, base: nat, total: nat, seqNo: nat, k: nat, a: nat)
    returns (j: nat)
    requires k <= total
    requires var r := Bytewise(io, mem, base, total, seqNo, k); (a in r) != (a in mem) || (a in r && r[a] != mem[a])
    ensures k <= j < Reach(io, base, total, k) && Walk(io, base, j) == Some(a)
    decreases total - k
  {
    var w := Walk(io, base, k);
    if w == Some(a) {
      j := k;
    } else {
      j := ChangedIsReached(io, mem[w.value := (k + seqNo) % 256], base, total, seqNo, k + 1, a);
    }
  }

  /** And every such translation is written. */
  lemma {:induction false} ReachedIsWritten(
    io: Io, mem: map<nat, nat>, base: nat, total: nat, seqNo: nat, k: nat, a: nat)
    requires k <= total
    requires a in mem || exists j :: k <= j < Reach(io, base, total, k) && Walk(io, base, j) == Some(a)
    ensures a in Bytewise(io, mem, base, total, seqNo, k)
    decreases total - k
  {
    if k < total && Walk(io, base, k).Some? {
      ReachedIsWritten(io, mem[Walk(io, base, k).value := (k + seqNo) % 256], base, total, seqNo, k + 1, a);
    }
  }

  lemma {:induction false} ReachedChanges(io: Io, base: nat, total: nat, seqNo: nat, j: nat)
    requires j < Reach(io, base, total, 0)
    ensures Changes(io, map[], base, total, seqNo, Walk(io, base, j).value)
  {
    ReachedIsWritten(io, map[], base, total, seqNo, 0, Walk(io, base, j).value);
  }

  /** A byte that translates goes to the page the page map gives, or to the dummy page. */
  lemma {:induction false} ReachedPage(io: Io, pages: map<nat, nat>, base: nat, k: nat)
    requires Programmed(io, pages) && Walk(io, base, k).Some?
    ensures var p := PageOf(base, k);
      Walk(io, base, k).value / PAGE_SIZE == if p in pages then pages[p] else io.tables.dummyPte
  {
    ViewsAgree(io.tables, pages, (base + k) % U32);
  }

  /**
   * A frame changes only bytes of its own pages and of the dummy page, whatever memory held before, if and
   * only if it reaches no other mapped page.
   */
  lemma {:induction false} FrameStaysIff(
    io: Io, pages: map<nat, nat>, base: nat, total: nat, seqNo: nat, own: set<nat>)
    requires Programmed(io, pages) && Unshared(pages, own, io.tables.dummyPte)
    ensures Stays(io, pages, base, total, seqNo, own) <==> KeepsTo(io, pages, base, total, own)
  {
    if KeepsTo(io, pages, base, total, own) {
      forall mem, a | Changes(io, mem, base, total, seqNo, a) ensures Inside(io, pages, own, a) {
        var j := ChangedIsReached(io, mem, base, total, seqNo, 0, a);
        ReachedPage(io, pages, base, j);
      }
    } else {
      var k :| 0 <= k < Reach(io, base, total, 0) && PageOf(base, k) in pages && PageOf(base, k) !in own;
      var a := Walk(io, base, k).value;
      ReachedPage(io, pages, base, k);
      ReachedChanges(io, base, total, seqNo, k);
      assert !Inside(io, pages, own, a);
    }
  }

  // ----- the ranges of the DMA layer

  /** The IOVA pages of an allocated range: a buffer, a scatter list or the trash range. */
  function Own(b: Ledger, lo: nat): set<nat>
    requires lo in b.iovas
  {
    Range(lo, b.iovas[lo])
  }

  /** No range shares a frame with another one, and none has the dummy page's. */
  lemma {:induction false} RangesUnshared(b: Ledger, lo: nat, dummy: nat)
    requires b.Isolated() && lo in b.iovas && dummy !in b.pci
    ensures Unshared(b.pages, Own(b, lo), dummy)
  {
    assert b.Alone(lo);
  }

  /** IOVA page `j` behind page `lo`, around the end of the IOVA space. */
  function Behind(lo: nat, j: nat): nat { (lo + j) % PAGES }

  /** The only pages mapped among the `n` pages from `lo` on are in `own`. */
  ghost predicate NoOthers(pages: map<nat, nat>, lo: nat, n: nat, own: set<nat>) {
    forall j :: 0 <= j < n && Behind(lo, j) in pages ==> Behind(lo, j) in own
  }

  /** From a page boundary, the bytes of a frame go to one page after the other ... */
  lemma {:induction false} FramePage(lo: nat, k: nat, total: nat)
    requires k < total
    ensures k / PAGE_SIZE < PagesUp(total) && PageOf(lo * PAGE_SIZE, k) == Behind(lo, k / PAGE_SIZE)
  {
    var x := lo * PAGE_SIZE + k;
    assert x / PAGE_SIZE == lo + k / PAGE_SIZE;
    assert x % U32 / PAGE_SIZE == x / PAGE_SIZE % PAGES;
  }

  /** ... and reach every one of them. */
  lemma {:induction false} PageStarts(lo: nat, j: nat, total: nat)
    requires j < PagesUp(total)
    ensures j * PAGE_SIZE < total && PageOf(lo * PAGE_SIZE, j * PAGE_SIZE) == Behind(lo, j)
  {
    FramePage(lo, j * PAGE_SIZE, total);
  }

  /** The reach of the frame, on the driver's tables, in pages. */
  lemma {:induction false} KeepsToPages(io: Io, pages: map<nat, nat>, lo: nat, total: nat, own: set<nat>)
    requires Programmed(io, pages) && io.bad == {} && (forall p :: p in pages ==> pages[p] != 0)
    ensures KeepsTo(io, pages, lo * PAGE_SIZE, total, own) <==> NoOthers(pages, lo, PagesUp(total), own)
  {
    var base := lo * PAGE_SIZE;
    DriverTablesNeverStop(io, pages, base, total);
    if KeepsTo(io, pages, base, total, own) {
      forall j | 0 <= j < PagesUp(total) && Behind(lo, j) in pages ensures Behind(lo, j) in own {
        PageStarts(lo, j, total);
      }
    }
    if NoOthers(pages, lo, PagesUp(total), own) {
      forall k | 0 <= k < total && PageOf(base, k) in pages ensures PageOf(base, k) in own {
        FramePage(lo, k, total);
      }
    }
  }

  /**
   * A frame delivered to the first page of a range, as to every capture buffer, changes only the pages of
   * that range and the dummy page if and only if no other page is mapped among those the frame spans from
   * there on (16 of them for 64 KiB).
   */
  lemma {:induction false} RangeFrameIff(b: Ledger, lo: nat, io: Io, seqNo: nat)
    requires b.Isolated() && lo in b.iovas && io.tables.dummyPte !in b.pci && 0 !in b.pci
    requires Programmed(io, b.pages) && io.bad == {}
    ensures Stays(io, b.pages, lo * PAGE_SIZE, io.frame, seqNo, Own(b, lo))
       <==> NoOthers(b.pages, lo, PagesUp(io.frame), Own(b, lo))
  {
    RangesUnshared(b, lo, io.tables.dummyPte);
    FrameStaysIff(io, b.pages, lo * PAGE_SIZE, io.frame, seqNo, Own(b, lo));
    KeepsToPages(io, b.pages, lo, io.frame, Own(b, lo));
  }

  /** The byte one page into a frame goes to the next page. */
  lemma {:induction false} NextPage(io: Io, pages: map<nat, nat>, lo: nat)
    requires Programmed(io, pages) && io.bad == {} && lo + 1 in pages && pages[lo + 1] != 0
    ensures Walk(io, lo * PAGE_SIZE, PAGE_SIZE) == Some(pages[lo + 1] * PAGE_SIZE)
  {
    var iova := (lo + 1) * PAGE_SIZE;
    assert iova / PAGE_SIZE == lo + 1 && iova % PAGE_SIZE == 0;
    assert lo * PAGE_SIZE + PAGE_SIZE == iova < U32;
    ViewsAgree(io.tables, pages, iova);
  }

  /** A range of one page with a mapped page behind it: a frame longer than a page overwrites that page. */
  lemma {:induction false} OverwritesNext(b: Ledger, lo: nat, io: Io)
    requires b.Isolated() && lo in b.iovas && b.iovas[lo] == 1 && lo + 1 in b.pages
    requires io.tables.dummyPte !in b.pci && 0 !in b.pci && Programmed(io, b.pages) && io.bad == {}
    requires PAGE_SIZE < io.frame
    ensures var a := b.pages[lo + 1] * PAGE_SIZE;
      Changes(io, map[], lo * PAGE_SIZE, io.frame, 0, a) && !Inside(io, b.pages, Own(b, lo), a)
  {
    DriverTablesNeverStop(io, b.pages, lo * PAGE_SIZE, io.frame);
    NextPage(io, b.pages, lo);
    ReachedChanges(io, lo * PAGE_SIZE, io.frame, 0, PAGE_SIZE);
    RangesUnshared(b, lo, io.tables.dummyPte);
  }

  /**
   * Two capture buffers of one page each, mapped into neighbouring pages: the frame for the first one
   * overwrites the second one's page.
   */
  lemma {:induction false} NeighbourOverwritten(b: Ledger, lo: nat, e: Entry, f: Entry, io: Io)
    requires b.Balanced() && b.Isolated() && io.tables.dummyPte !in b.pci && 0 !in b.pci
    requires FreeRange(b, lo, 2) && e.Pages() == f.Pages() == 1
    requires ListNew(b, [e]) && ListNew(WithList(b, lo, [e]), [f])
    requires Programmed(io, WithList(WithList(b, lo, [e]), lo + 1, [f]).pages) && io.bad == {} && PAGE_SIZE < io.frame
    ensures var c, a := WithList(WithList(b, lo, [e]), lo + 1, [f]), BusPage(f, 0) * PAGE_SIZE;
      && lo in c.iovas && c.iovas[lo] == 1
      && Changes(io, map[], lo * PAGE_SIZE, io.frame, 0, a) && !Inside(io, c.pages, Own(c, lo), a)
  {
    TwoLists(b, lo, e, f);
    OverwritesNext(WithList(WithList(b, lo, [e]), lo + 1, [f]), lo, io);
  }

  lemma {:induction false} TwoLists(b: Ledger, lo: nat, e: Entry, f: Entry)
    requires b.Balanced() && b.Isolated() && FreeRange(b, lo, 2) && e.Pages() == f.Pages() == 1
    requires ListNew(b, [e]) && ListNew(WithList(b, lo, [e]), [f])
    ensures var c := WithList(WithList(b, lo, [e]), lo + 1, [f]);
      && c.Isolated() && c.pci == b.pci && lo in c.iovas && c.iovas[lo] == 1
      && lo + 1 in c.pages && c.pages[lo + 1] == BusPage(f, 0)
  {
    var d := WithList(b, lo, [e]);
    OnePage(e);
    OnePage(f);
    SgBalanced(b, lo, [e]);
    SgIsolated(b, lo, [e]);
    SgIsolated(d, lo + 1, [f]);
    SgMapAt(d.pages, lo + 1, [f], 0, 0);
    assert [f][..0] == [];
  }

  lemma {:induction false} OnePage(e: Entry)
    ensures Total([e]) == e.Pages()
  {
    assert [e][..0] == [];
  }

  // ----- the state of the driver

  /** The same for every state of the DMA layer whose ranges share no frame, on the tables it has set up. */
  lemma {:induction false} DriverFrameIff(dma: Dma, lo: nat, io: Io, seqNo: nat)
    requires dma.Valid() && dma.Books().Isolated() && lo in dma.iovas
    requires io.tables == dma.mmu.State() && io.l1 == dma.mmu.l1Dma && io.bad == {}
    ensures var pages, own := dma.mmu.pages, Range(lo, dma.iovas[lo]);
      Stays(io, pages, lo * PAGE_SIZE, io.frame, seqNo, own) <==> NoOthers(pages, lo, PagesUp(io.frame), own)
  {
    RangeFrameIff(dma.Books(), lo, io, seqNo);
  }

  /** So it is for every buffer and list, after any run of calls on new bus pages (`DmaRuns.RunSound`). */
  lemma {:induction false} OwnerFrameIff(dma: Dma, s: Runs.State, lo: nat, io: Io, seqNo: nat)
    requires Runs.Keeps(dma, s) && lo in s.owners
    requires io.tables == dma.mmu.State() && io.l1 == dma.mmu.l1Dma && io.bad == {}
    ensures var pages, own := dma.mmu.pages, Range(lo, s.owners[lo].Length());
      Stays(io, pages, lo * PAGE_SIZE, io.frame, seqNo, own) <==> NoOthers(pages, lo, PagesUp(io.frame), own)
  {
    DriverFrameIff(dma, lo, io, seqNo);
  }

  /** Wherever a frame goes, and whoever shares its pages, it never overwrites a page table. */
  lemma {:induction false} FrameSparesTables(
    dma: Dma, io: Io, mem: map<nat, nat>, base: nat, total: nat, seqNo: nat, a: nat)
    requires dma.Valid() && dma.Books().Held()
    requires io.tables == dma.mmu.State() && io.l1 == dma.mmu.l1Dma
    requires Changes(io, mem, base, total, seqNo, a)
    ensures a / PAGE_SIZE !in dma.mmu.bus
  {
    var k := ChangedIsReached(io, mem, base, total, seqNo, 0, a);
    ReachedPage(io, dma.mmu.pages, base, k);
  }

  /** An IOVA that is not mapped reaches no mapped page and no table. */
  lemma {:induction false} UnmappedReachesNobody(dma: Dma, iova: nat)
    requires dma.Valid() && dma.Books().Held() && iova < U32 && iova / PAGE_SIZE !in dma.mmu.pages
    ensures var w := dma.mmu.State().DeviceWalk(dma.mmu.l1Dma, iova);
      && w.Some? && w.value / PAGE_SIZE !in dma.mmu.bus
      && forall p :: p in dma.mmu.pages ==> dma.mmu.pages[p] != w.value / PAGE_SIZE
  {
    ViewsAgree(dma.mmu.State(), dma.mmu.pages, iova);
  }
}
