/**
 * Frame delivery through the IOMMU (tools/qemu-patches/hw/misc/ipu4.c:640-674): the device writes a
 * test pattern page by page, translating each chunk once.  It is shown to be the byte-by-byte
 * writer that translates every single IOVA, for every base, length, sequence number and page table.
 * Tables and frames are kept apart here (`Isolation.FrameSparesTables` shows that they are); a DMA write
 * to a page either succeeds or fails as a whole.
 */
module FrameWriter {
  import opened Common
  import opened PageTable

  /**
   * The device's view of memory: the tables, the L1 frame programmed, the page frames it cannot write,
   * and the length of the frames it delivers (64 KiB).
   */
  datatype Io = Io(tables: Tables, l1: nat, bad: set<nat>, frame: nat) {
    /** Where a byte for `iova` goes: nowhere if the walk fails or the page cannot be written. */
    function At(iova: nat): Option<nat> {
      var w := tables.DeviceWalk(l1, iova);
      if w.None? || w.value / PAGE_SIZE in bad then None else w
    }
  }

  /** Where byte `k` of a frame at `base` goes; IOVAs are 32 bits and wrap. */
  function Walk(io: Io, base: nat, k: nat): Option<nat> {
    io.At((base + k) % U32)
  }

  /** The reference: translate and write one byte at a time, stop at the first that does not translate. */
  function Bytewise(io: Io, mem: map<nat, nat>, base: nat, total: nat, seqNo: nat, k: nat): map<nat, nat>
    decreases total - k
  {
    if k >= total || Walk(io, base, k).None? then mem
    else Bytewise(io, mem[Walk(io, base, k).value := (k + seqNo) % 256], base, total, seqNo, k + 1)
  }

  /** How many bytes, from byte `k` on, translate before the first that does not. */
  function Reach(io: Io, base: nat, total: nat, k: nat): (m: nat)
    requires k <= total
    ensures k <= m <= total
    ensures forall j :: k <= j < m ==> Walk(io, base, j).Some?
    ensures m < total ==> Walk(io, base, m).None?
    decreases total - k
  {
    if k >= total || Walk(io, base, k).None? then k else Reach(io, base, total, k + 1)
  }

  /** Memory after a DMA write of `bytes` at `a`. */
  function Overlay(mem: map<nat, nat>, a: nat, bytes: seq<nat>): map<nat, nat>
    decreases |bytes|
  {
    if bytes == [] then mem else Overlay(mem[a := bytes[0]], a + 1, bytes[1..])
  }

  /** The pattern bytes of a chunk that starts at frame offset `k`. */
  function Pattern(k: nat, seqNo: nat, n: nat): (p: seq<nat>)
    ensures |p| == n && forall i :: 0 <= i < n ==> p[i] == (k + i + seqNo) % 256
  {
    seq(n, i requires 0 <= i => (k + i + seqNo) % 256)
  }

  /** Inside one page the walk only differs in the offset. */
  lemma {:induction false} WalkInPage(t: Tables, l1: nat, iova: nat, i: nat)
    requires iova % PAGE_SIZE + i < PAGE_SIZE
    ensures var w := t.DeviceWalk(l1, iova);
      t.DeviceWalk(l1, iova + i) == if w.None? then None else Some(w.value + i)
  {
    var q, r := iova / PAGE_SIZE, iova % PAGE_SIZE;
    assert iova + i == q * PAGE_SIZE + (r + i);
    assert (iova + i) / PAGE_SIZE == q && (iova + i) % PAGE_SIZE == r + i;
    assert iova / 0x40_0000 == q / PTES && (iova + i) / 0x40_0000 == q / PTES;
  }

  /** And it stays in the same physical page. */
  lemma {:induction false} AtInPage(io: Io, iova: nat, i: nat)
    requires iova % PAGE_SIZE + i < PAGE_SIZE
    ensures io.At(iova + i) == if io.At(iova).None? then None else Some(io.At(iova).value + i)
  {
    WalkInPage(io.tables, io.l1, iova, i);
    if io.tables.DeviceWalk(io.l1, iova).Some? {
      WalkOffset(io.tables, io.l1, iova);
      SamePage(io.tables.DeviceWalk(io.l1, iova).value, i);
    }
  }

  lemma {:induction false} SamePage(a: nat, i: nat)
    requires a % PAGE_SIZE + i < PAGE_SIZE
    ensures (a + i) / PAGE_SIZE == a / PAGE_SIZE
  {
    assert a + i == a / PAGE_SIZE * PAGE_SIZE + (a % PAGE_SIZE + i);
  }

  lemma {:induction false} NextByteInPage(base: nat, k: nat, i: nat)
    requires (base + k) % U32 % PAGE_SIZE + i < PAGE_SIZE
    ensures (base + (k + i)) % U32 == (base + k) % U32 + i
  {
    var x, q := (base + k) % U32, (base + k) / U32;
    assert base + (k + i) == q * U32 + (x + i);
    assert x / PAGE_SIZE < U32 / PAGE_SIZE;
    assert x + i < U32;
  }

  /** Writing a whole chunk of one page is writing its bytes one by one. */
  lemma {:induction false} ChunkIsBytes(
    io: Io, mem: map<nat, nat>, base: nat, total: nat, seqNo: nat, k: nat, phys: nat, n: nat)
    requires n == 0 || Walk(io, base, k) == Some(phys)
    requires k + n <= total && (base + k) % U32 % PAGE_SIZE + n <= PAGE_SIZE
    ensures Bytewise(io, mem, base, total, seqNo, k)
         == Bytewise(io, Overlay(mem, phys, Pattern(k, seqNo, n)), base, total, seqNo, k + n)
    decreases n
  {
    if n > 0 {
      var p := Pattern(k, seqNo, n);
      var mem' := mem[phys := p[0]];
      if n > 1 {
        NextByteInPage(base, k, 1);
        AtInPage(io, (base + k) % U32, 1);
        InPage((base + k) % U32);
        ChunkIsBytes(io, mem', base, total, seqNo, k + 1, phys + 1, n - 1);
      }
      assert p[1..] == Pattern(k + 1, seqNo, n - 1);
    }
  }

  lemma {:induction false} InPage(x: nat)
    requires x % PAGE_SIZE + 1 < PAGE_SIZE
    ensures (x + 1) % PAGE_SIZE == x % PAGE_SIZE + 1
  {
  }

  /** Guest memory, by physical byte address. */
  class Guest {
    var mem: map<nat, nat>

    /** `pci_dma_write` of the first bytes of `buf`, inside one page; a page that cannot be written stays as it is. */
    method DmaWrite(bad: set<nat>, phys: nat, buf: array<nat>, n: nat) returns (ok: bool)
      requires n <= buf.Length
      modifies this
      ensures ok <==> phys / PAGE_SIZE !in bad
      ensures mem == if ok then Overlay(old(mem), phys, buf[..n]) else old(mem)
    {
      ok := phys / PAGE_SIZE !in bad;
      if !ok { return; }
      var i: nat := 0;
      while i < n
        invariant i <= n
        invariant Overlay(mem, phys + i, buf[i..n]) == Overlay(old(mem), phys, buf[..n])
      {
        assert buf[i..n][1..] == buf[i + 1..n];
        mem := mem[phys + i := buf[i]];
        i := i + 1;
      }
    }

    /** The inner loop: the pattern bytes of the chunk at offset `off`. */
    static method FillChunk(buf: array<nat>, off: nat, chunk: nat, seqNo: nat)
      requires chunk <= buf.Length
      modifies buf
      ensures buf[..chunk] == Pattern(off, seqNo, chunk)
    {
      var i: nat := 0;
      while i < chunk
        invariant i <= chunk && buf[..i] == Pattern(off, seqNo, i)
      {
        buf[i] := (off + i + seqNo) % 256;
        i := i + 1;
      }
    }

    /** One round of the loop: translate the page, fill the chunk, write it. */
    method WriteChunk(io: Io, base: nat, total: nat, seqNo: nat, off: nat, buf: array<nat>)
      returns (ok: bool, chunk: nat)
      requires off < total && buf.Length == PAGE_SIZE
      modifies this, buf
      ensures 0 < chunk <= total - off
      ensures ok ==>
        Bytewise(io, mem, base, total, seqNo, off + chunk) == Bytewise(io, old(mem), base, total, seqNo, off)
      ensures !ok ==> mem == old(mem) == Bytewise(io, old(mem), base, total, seqNo, off)
    {
      var iova := (base + off % U32) % U32;
      assert iova == (base + off) % U32;
      var pageOff := iova % PAGE_SIZE;
      chunk := if total - off < PAGE_SIZE - pageOff then total - off else PAGE_SIZE - pageOff;
      var walk := io.tables.DeviceWalk(io.l1, iova);
      if walk.None? { return false, chunk; }
      FillChunk(buf, off, chunk, seqNo);
      ghost var before := mem;
      ok := DmaWrite(io.bad, walk.value, buf, chunk);
      if ok { ChunkIsBytes(io, before, base, total, seqNo, off, walk.value, chunk); }
    }

    /** `ipu4_dma_write_iova_pattern`, chunk by chunk: exactly the byte-by-byte writer. */
    method WritePattern(io: Io, base: nat, total: nat, seqNo: nat)
      requires seqNo < 256
      modifies this
      ensures mem == Bytewise(io, old(mem), base, total, seqNo, 0)
    {
      var buf := new nat[PAGE_SIZE];
      var off: nat := 0;
      ghost var goal := Bytewise(io, mem, base, total, seqNo, 0);
      while off < total
        invariant off <= total && Bytewise(io, mem, base, total, seqNo, off) == goal
      {
        var ok, chunk := WriteChunk(io, base, total, seqNo, off, buf);
        if !ok { return; }
        off := off + chunk;
      }
    }
  }

  // ----- what the byte-by-byte writer leaves in memory

  /** The translations of the first `m` bytes. */
  function Addrs(io: Io, base: nat, m: nat): (s: seq<nat>)
    requires forall j :: 0 <= j < m ==> Walk(io, base, j).Some?
    ensures |s| == m && forall j :: 0 <= j < m ==> Walk(io, base, j) == Some(s[j])
  {
    seq(m, j requires 0 <= j < m => Walk(io, base, j).value)
  }

  /** Pattern byte `j` stored at `addrs[j]`, for `j` from `k` on. */
  function Scatter(mem: map<nat, nat>, addrs: seq<nat>, seqNo: nat, k: nat): map<nat, nat>
    decreases |addrs| - k
  {
    if k >= |addrs| then mem else Scatter(mem[addrs[k] := (k + seqNo) % 256], addrs, seqNo, k + 1)
  }

  lemma {:induction false} BytewiseIsScatter(
    io: Io, mem: map<nat, nat>, base: nat, total: nat, seqNo: nat, k: nat, addrs: seq<nat>)
    requires k <= total && k <= |addrs| == Reach(io, base, total, k)
    requires forall j :: 0 <= j < |addrs| ==> Walk(io, base, j) == Some(addrs[j])
    ensures Bytewise(io, mem, base, total, seqNo, k) == Scatter(mem, addrs, seqNo, k)
    decreases total - k
  {
    if k < |addrs| {
      assert Walk(io, base, k) == Some(addrs[k]);
      BytewiseIsScatter(io, mem[addrs[k] := (k + seqNo) % 256], base, total, seqNo, k + 1, addrs);
    }
  }

  /** At different addresses, every byte stays where it was stored, and nothing else changes. */
  lemma {:induction false} ScatterExact(mem: map<nat, nat>, addrs: seq<nat>, seqNo: nat, k: nat)
    requires Distinct(addrs) && k <= |addrs|
    ensures var r := Scatter(mem, addrs, seqNo, k);
      && (forall j :: k <= j < |addrs| ==> addrs[j] in r && r[addrs[j]] == (j + seqNo) % 256)
      && (forall a :: a !in addrs[k..] ==> (a in r <==> a in mem) && (a in mem ==> r[a] == mem[a]))
    decreases |addrs| - k
  {
    if k < |addrs| {
      ScatterExact(mem[addrs[k] := (k + seqNo) % 256], addrs, seqNo, k + 1);
      assert addrs[k..] == [addrs[k]] + addrs[k + 1..];
      assert addrs[k] !in addrs[k + 1..];
    }
  }

  /** Distinct IOVA pages of the frame are backed by distinct physical pages. */
  ghost predicate PagesDistinct(io: Io, base: nat, m: nat) {
    forall i, j :: 0 <= i < m && 0 <= j < m && Walk(io, base, i).Some? && Walk(io, base, j).Some?
      && (base + i) % U32 / PAGE_SIZE != (base + j) % U32 / PAGE_SIZE
      ==> Walk(io, base, i).value / PAGE_SIZE != Walk(io, base, j).value / PAGE_SIZE
  }

  lemma {:induction false} WalkOffset(t: Tables, l1: nat, iova: nat)
    requires t.DeviceWalk(l1, iova).Some?
    ensures t.DeviceWalk(l1, iova).value % PAGE_SIZE == iova % PAGE_SIZE
  {
    var w := t.DeviceWalk(l1, iova).value;
    var target := t.DmaEntry(t.DmaEntry(l1, (iova / 0x40_0000) % PTES), (iova / PAGE_SIZE) % PTES);
    assert w == target * PAGE_SIZE + iova % PAGE_SIZE;
  }

  lemma {:induction false} IovasDiffer(base: nat, i: nat, j: nat)
    requires i < j < i + U32
    ensures (base + i) % U32 != (base + j) % U32
  {
    var a, b := (base + i) / U32, (base + j) / U32;
    assert j - i == (b - a) * U32 + ((base + j) % U32 - (base + i) % U32);
  }

  lemma {:induction false} AddressesDistinct(io: Io, base: nat, addrs: seq<nat>)
    requires |addrs| <= U32 && PagesDistinct(io, base, |addrs|)
    requires forall j :: 0 <= j < |addrs| ==> Walk(io, base, j) == Some(addrs[j])
    ensures Distinct(addrs)
  {
    forall i, j | 0 <= i < j < |addrs|
      ensures addrs[i] != addrs[j]
    {
      var x, y := (base + i) % U32, (base + j) % U32;
      assert Walk(io, base, i) == Some(addrs[i]) && Walk(io, base, j) == Some(addrs[j]);
      WalkOffset(io.tables, io.l1, x);
      WalkOffset(io.tables, io.l1, y);
      IovasDiffer(base, i, j);
    }
  }

  /**
   * The frame theorem: of the bytes before the first that does not translate, if the pages they lie
   * in are distinct, byte `k` is found at its own translation, for every `k`, and no other address
   * changed.
   */
  lemma {:induction false} FrameExact(io: Io, mem: map<nat, nat>, base: nat, total: nat, seqNo: nat)
    requires total <= U32 && PagesDistinct(io, base, Reach(io, base, total, 0))
    ensures var r := Bytewise(io, mem, base, total, seqNo, 0);
      var addrs := Addrs(io, base, Reach(io, base, total, 0));
      && (forall k :: 0 <= k < |addrs| ==> addrs[k] in r && r[addrs[k]] == (k + seqNo) % 256)
      && (forall a :: a !in addrs ==> (a in r <==> a in mem) && (a in mem ==> r[a] == mem[a]))
  {
    var addrs := Addrs(io, base, Reach(io, base, total, 0));
    AddressesDistinct(io, base, addrs);
    BytewiseIsScatter(io, mem, base, total, seqNo, 0, addrs);
    ScatterExact(mem, addrs, seqNo, 0);
    assert addrs[0..] == addrs;
  }

  /**
   * On the driver's own tables the write never stops early: an IOVA page that is not mapped walks to
   * the dummy page, so its bytes land there.  (The device's log message for the stop speaks of the
   * buffer's end; the dummy page means that end is never seen.)
   */
  lemma {:induction false} DriverTablesNeverStop(io: Io, pages: map<nat, nat>, base: nat, total: nat)
    requires io.tables.Represents(pages) && io.l1 == io.tables.l1Dma && io.bad == {}
    requires forall p :: p in pages ==> pages[p] != 0
    ensures Reach(io, base, total, 0) == total
    ensures forall k :: 0 <= k < total ==> Walk(io, base, k) == Some(Expected(io.tables, pages, (base + k) % U32))
  {
    forall k | 0 <= k < total ensures Walk(io, base, k) == Some(Expected(io.tables, pages, (base + k) % U32)) {
      ViewsAgree(io.tables, pages, (base + k) % U32);
    }
  }

  /** The address the page map gives an IOVA, the dummy page's where it gives none. */
  function Expected(t: Tables, pages: map<nat, nat>, iova: nat): nat {
    var p := iova / PAGE_SIZE;
    (if p in pages then pages[p] else t.dummyPte) * PAGE_SIZE + iova % PAGE_SIZE
  }

  // ----- a frame in memory

  /** What memory is after the device delivered a frame to the buffer at `base`. */
  function WithFrame(io: Io, mem: map<nat, nat>, base: nat): map<nat, nat> {
    Bytewise(io, mem, base, io.frame, 0, 0)
  }

  /** The buffer at `base` has just been filled. */
  ghost predicate FrameIn(io: Io, mem: map<nat, nat>, base: nat) {
    exists before :: mem == WithFrame(io, before, base)
  }

  /** Then every byte of the frame that translates holds the pattern. */
  lemma {:induction false} FrameInHolds(io: Io, mem: map<nat, nat>, base: nat, k: nat)
    requires FrameIn(io, mem, base) && io.frame <= U32 && PagesDistinct(io, base, Reach(io, base, io.frame, 0))
    requires k < Reach(io, base, io.frame, 0)
    ensures var a := Walk(io, base, k).value; a in mem && mem[a] == k % 256
  {
    var before :| mem == WithFrame(io, before, base);
    var addrs := Addrs(io, base, Reach(io, base, io.frame, 0));
    assert addrs[k] in mem && mem[addrs[k]] == (k + 0) % 256 by { FrameExact(io, before, base, io.frame, 0); }
    assert Walk(io, base, k) == Some(addrs[k]);
  }
}
