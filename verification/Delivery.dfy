/**
 * Commands in, interrupts out, for any number of streams: the driver fills command tokens into a
 * stream's send ring and publishes them by one write of that ring's cursor; the device answers that
 * write before it returns (so the read cursor it echoes always equals the write cursor), token by token,
 * delivering frames and posting responses (tools/qemu-patches/hw/misc/ipu4.c:752-1034,1257-1270,1505-1514),
 * all on the one receive ring; each post raises two levels of write-1-to-clear status bits while the
 * driver's handlers (kernel/ipu4/ipu6-buttress.c:339-424, kernel/ipu4/ipu6-isys.c:375-424) read and clear
 * them and take one response at a time from that ring.  Every access to a register or a slot is one step,
 * so a post may fall between any two accesses of the handlers, and so may the filling of other rings.
 *
 * The ISYS is powered, its channel is open, its queues are loaded and mapped, and the IS interrupt is
 * enabled throughout.  The device does not look for room on the receive ring; as the driver sizes it
 * never to fill up (kernel/ipu4/ipu6-isys.h:32-35), a post starts only when there is room.
 */
module Delivery {
  import opened Common
  import opened Responder
  import Frames = FrameWriter
  import Rings = SyscomRing

  const MAX_CONSECUTIVE_IRQS: nat := 100

  /** The buttress status: the ISYS bit and any other bit. */
  datatype Irq = Irq(isys: bool, other: bool) {
    predicate Any() { isys || other }
    function Bits(): nat { (if isys then 1 else 0) + (if other then 1 else 0) }
    function Clear(w: Irq): Irq { Irq(isys && !w.isys, other && !w.other) }
    predicate Within(w: Irq) { (isys ==> w.isys) && (other ==> w.other) }
  }

  /** The unispart status: the SW bit and the CSI-2 receiver bits. */
  datatype Uni = Uni(sw: bool, csi: bool) {
    predicate Any() { sw || csi }
    function Bits(): nat { (if sw then 1 else 0) + (if csi then 1 else 0) }
    function Clear(w: Uni): Uni { Uni(sw && !w.sw, csi && !w.csi) }
    predicate Within(w: Uni) { (sw ==> w.sw) && (csi ==> w.csi) }
  }

  /** The receive ring; `stamps` is history: guest memory when each response was published. */
  datatype Recv = Recv(
    size: nat, buf: seq<Response>, wr: nat, rd: nat,
    posted: seq<Response>, handled: seq<Response>, stamps: seq<map<nat, nat>>)
  {
    ghost predicate Ok() {
      Rings.Holds(size, buf, wr, rd, posted, |handled|) && handled <= posted
    }

    /** Where the next post goes. */
    function At(): nat { if wr >= size then 0 else wr }
  }

  /**
   * The send ring of one stream: the driver's cursor, the cursor the device has seen, the tokens filled in
   * but not published and, as history, all tokens published.
   */
  datatype Send = Send(
    slots: seq<Option<Token>>, wr: nat, seen: nat, filled: seq<Option<Token>>, pushed: seq<Option<Token>>)
  {
    ghost predicate Ok() {
      && wr < |slots| && seen == wr
      && |filled| < |slots| && TokensFrom(slots, wr, |filled|) == filled
    }
  }

  /**
   * The device's work on one cursor write: the stream, the slot and number of the tokens still to answer
   * and what is left of the answer to the current one.
   */
  datatype Job = Job(stream: nat, slot: nat, left: nat, todo: seq<Response>) {
    predicate Busy() { left > 0 || todo != [] }

    predicate Ok(sends: seq<Send>) {
      stream < |sends| && slot < |sends[stream].slots| && left < |sends[stream].slots|
    }

    /** The answers to the tokens still to be read. */
    function Rest(sends: seq<Send>): seq<Response>
      requires Ok(sends)
    {
      FlatMap(Protocol(stream), TokensFrom(sends[stream].slots, slot, left))
    }
  }

  /** Where the device is inside one response: the frame write of a pin, then `ipu4_post_response_full`. */
  datatype Firmware =
    | FIdle
    | FWrite(r: Response)
    | FFill(r: Response, at: nat)
    | FBump(r: Response, at: nat)
    | FFlag
    | FRaise
    | FNotify

  /**
   * Where the handlers are; `n` is the outer loop's `count`.  `seen` is history: the number of
   * responses posted when the write cursor was read.
   */
  datatype Handler =
    | Idle
    | IrqRead(n: nat)
    | IrqClear(irq: Irq, n: nat)
    | UniRead(n: nat)
    | UniClear(st: Uni, n: nat)
    | Dispatch(st: Uni, n: nat)
    | ReadWr(n: nat)
    | ReadRd(wr: nat, seen: nat, n: nat)
    | Check(wr: nat, rd: nat, seen: nat, n: nat)
    | Take(slot: nat, n: nat)
    | Put(token: Response, n: nat)
    | PutWrite(token: Response, next: nat, n: nat)
    | UniMore(keep: bool, n: nat)
    | UniTest(st: Uni, n: nat)
    | Leave(n: nat)

  datatype Sys = Sys(
    io: Frames.Io, recv: Recv, sends: seq<Send>, job: Job, mem: map<nat, nat>,
    uni: Uni, irq: Irq, msi: bool, fw: Firmware, h: Handler,
    /** The last activation left through the consecutive-interrupt limit. */
    cut: bool)
  {
    ghost predicate Init() {
      && recv.size > 0 && |recv.buf| == recv.size && recv.wr == 0 && recv.rd == 0
      && recv.posted == [] && recv.handled == [] && recv.stamps == []
      && sends != [] && job == Job(0, 0, 0, [])
      && (forall k :: 0 <= k < |sends| ==> sends[k].slots != [] && sends[k] == Send(sends[k].slots, 0, 0, [], []))
      && uni == Uni(false, false) && irq == Irq(false, false) && !msi && !cut && fw == FIdle && h == Idle
    }

    /** The response the device has begun but not published. */
    function InFlight(): seq<Response> {
      if fw.FWrite? || fw.FFill? || fw.FBump? then [fw.r] else []
    }

    /** The device has answered every cursor write, so the driver's last one has returned. */
    predicate Quiet() { fw == FIdle && !job.Busy() }
  }

  datatype Label =
    | Fill(k: nat, t: Option<Token>) | Bump(k: nat)
    | Device | Csi | Other | Start | Handle

  // ----- the steps

  /**
   * The driver fills the next free slot of ring `k`: the echoed read cursor leaves all but one of them
   * free.  Whoever does has returned from the last cursor write of that ring.
   */
  ghost predicate FillStep(s: Sys, k: nat, t: Option<Token>, s': Sys) {
    && k < |s.sends| && (s.Quiet() || s.job.stream != k)
    && var d := s.sends[k];
    && d.wr < |d.slots| && |d.filled| < Rings.FreeSlots(|d.slots|, d.wr, d.wr)
    && s' == s.(sends := s.sends[k :=
                 d.(slots := d.slots[Ahead(|d.slots|, d.wr, |d.filled|) := t], filled := d.filled + [t])])
  }

  /** The driver's write of ring `k`'s cursor, one at a time for the device, and what the device makes of it. */
  ghost predicate BumpStep(s: Sys, k: nat, s': Sys) {
    && k < |s.sends| && s.Quiet()
    && var d := s.sends[k];
    && d.wr < |d.slots| && |d.filled| < |d.slots| && d.seen < |d.slots|
    && var w := Ahead(|d.slots|, d.wr, |d.filled|);
    s' == s.(sends := s.sends[k := Send(d.slots, w, w, [], d.pushed + d.filled)],
             job := Job(k, d.seen, (w + |d.slots| - d.seen) % |d.slots|, []))
  }

  /** Begin the next response: a frame start sets the receiver's bit, a pin's frame is written first. */
  ghost predicate BeginStep(s: Sys, s': Sys) {
    && s.fw == FIdle && s.job.todo != [] && |s.recv.posted| + 1 < |s.recv.handled| + s.recv.size
    && var r := s.job.todo[0];
    s' == s.(job := s.job.(todo := s.job.todo[1..]),
             fw := if r.kind == PIN_DATA_READY then FWrite(r) else FFill(r, s.recv.At()),
             uni := if r.kind == FRAME_SOF then s.uni.(csi := true) else s.uni)
  }

  /** Read the next token. */
  ghost predicate FetchStep(s: Sys, s': Sys) {
    var j := s.job;
    && s.fw == FIdle && j.todo == [] && j.left > 0 && j.Ok(s.sends)
    && var slots := s.sends[j.stream].slots;
    s' == s.(job := j.(todo := Prescribed(j.stream, slots[j.slot]), slot := (j.slot + 1) % |slots|, left := j.left - 1))
  }

  /** The rest of a response. */
  ghost predicate PostStep(s: Sys, s': Sys) {
    match s.fw
    case FIdle => false
    case FWrite(r) => s' == s.(mem := Frames.WithFrame(s.io, s.mem, r.addr), fw := FFill(r, s.recv.At()))
    case FFill(r, at) =>
      at < |s.recv.buf| && s' == s.(recv := s.recv.(buf := s.recv.buf[at := r]), fw := FBump(r, at))
    case FBump(r, at) =>
      && s.recv.size > 0
      && s' == s.(recv := s.recv.(wr := (at + 1) % s.recv.size, posted := s.recv.posted + [r],
                                  stamps := s.recv.stamps + [s.mem]),
                  fw := FFlag)
    case FFlag => s' == s.(uni := s.uni.(sw := true), fw := FRaise)
    case FRaise => s' == s.(irq := s.irq.(isys := true), fw := FNotify)
    case FNotify => s' == s.(msi := true, fw := FIdle)
  }

  /** The handler's next access. */
  function HandlerNext(s: Sys): Sys
    requires s.h != Idle && (s.h.Take? ==> s.h.slot < |s.recv.buf|)
  {
    match s.h
    case IrqRead(n) => if s.irq.Any() then s.(h := IrqClear(s.irq, n)) else s.(h := Idle)
    case IrqClear(irq, n) => s.(irq := s.irq.Clear(irq), h := UniRead(n))
    // ipu4_isys_isr
    case UniRead(n) => s.(h := UniClear(s.uni, n))
    case UniClear(st, n) => s.(uni := s.uni.Clear(st), h := Dispatch(st, n))
    case Dispatch(st, n) => s.(h := if st.sw then ReadWr(n) else UniMore(false, n))
    // isys_isr_one
    case ReadWr(n) => s.(h := ReadRd(s.recv.wr, |s.recv.posted|, n))
    case ReadRd(wr, seen, n) => s.(h := Check(wr, s.recv.rd, seen, n))
    case Check(wr, rd, seen, n) => s.(h := if FindsNone(s.recv.size, wr, rd) then UniMore(false, n) else Take(rd, n))
    case Take(slot, n) => s.(h := Put(s.recv.buf[slot], n))
    case Put(t, n) => s.(h := PutWrite(t, Rings.Bump(s.recv.size, s.recv.rd), n))
    case PutWrite(t, next, n) =>
      s.(recv := s.recv.(rd := next, handled := s.recv.handled + [t]), h := UniMore(true, n))
    // the end of the inner loop's body, and its condition
    case UniMore(keep, n) => s.(h := UniTest(Uni(keep || s.uni.sw, s.uni.csi), n))
    case UniTest(st, n) => s.(h := if st.Any() then UniClear(st, n) else Leave(n))
    // the end of the outer loop's body
    case Leave(n) =>
      if n + 1 == MAX_CONSECUTIVE_IRQS then s.(h := Idle, cut := true) else s.(h := IrqRead(n + 1))
  }

  /** `ipu6_recv_get_token` returns NULL. */
  predicate FindsNone(size: nat, wr: nat, rd: nat) {
    wr >= size || rd >= size || Rings.Waiting(size, wr, rd) == 0
  }

  ghost predicate Step(s: Sys, l: Label, s': Sys) {
    match l
    case Fill(k, t) => FillStep(s, k, t, s')
    case Bump(k) => BumpStep(s, k, s')
    case Device => BeginStep(s, s') || FetchStep(s, s') || PostStep(s, s')
    case Csi => s' == s.(uni := s.uni.(csi := true))
    case Other => s' == s.(irq := s.irq.(other := true), msi := true)
    case Start => s.h == Idle && s.msi && s' == s.(msi := false, cut := false, h := IrqRead(0))
    case Handle => s.h != Idle && (s.h.Take? ==> s.h.slot < |s.recv.buf|) && s' == HandlerNext(s)
  }

  // ----- the invariant

  /** The handler is going to take a response, or to read the write cursor before it goes idle. */
  predicate WillLook(h: Handler, handled: nat) {
    match h
    case UniClear(st, _) => st.sw
    case Dispatch(st, _) => st.sw
    case ReadWr(_) => true
    case ReadRd(_, seen, _) => seen > handled
    case Check(_, _, seen, _) => seen > handled
    case Take(_, _) => true
    case Put(_, _) => true
    case PutWrite(_, _, _) => true
    case UniMore(keep, _) => keep
    case UniTest(st, _) => st.sw
    case _ => false
  }

  /** The handler is going to read the unispart status before it reads the buttress status. */
  predicate WillReadUni(h: Handler) {
    match h
    case Idle => false
    case IrqRead(_) => false
    case UniTest(st, _) => st.Any()
    case Leave(_) => false
    case _ => true
  }

  /** No response is forgotten: each one not yet handled is still announced at some level. */
  ghost predicate Announced(s: Sys) {
    && (|s.recv.handled| < |s.recv.posted| && s.fw != FFlag ==> s.uni.sw || WillLook(s.h, |s.recv.handled|))
    && (s.uni.sw && s.fw != FRaise ==> s.irq.isys || WillReadUni(s.h))
    && (s.irq.Any() && s.fw != FNotify ==> s.msi || s.cut || s.h != Idle)
    && (s.h != Idle ==> !s.cut)
  }

  ghost predicate HandlerInv(recv: Recv, irq: Irq, h: Handler)
    requires recv.size > 0
  {
    && (h != Idle ==> h.n < MAX_CONSECUTIVE_IRQS)
    && var handled, posted := |recv.handled|, |recv.posted|;
    match h
    case IrqClear(i, _) => i.Any() && i.Within(irq)
    case ReadRd(wr, seen, _) => handled <= seen <= posted && wr == Rings.Slot(recv.size, seen)
    case Check(wr, rd, seen, _) => handled <= seen <= posted && wr == Rings.Slot(recv.size, seen) && rd == recv.rd
    case Take(slot, _) => handled < posted && slot == recv.rd
    case Put(t, _) => handled < posted && t == recv.posted[handled]
    case PutWrite(t, next, _) => handled < posted && t == recv.posted[handled] && next == Rings.Bump(recv.size, recv.rd)
    case _ => true
  }

  /** The device posts only where there is room, and a pin only after its frame is in memory. */
  ghost predicate FirmwareInv(s: Sys) {
    var fw, recv := s.fw, s.recv;
    && (fw.FWrite? || fw.FFill? || fw.FBump? ==> |recv.posted| + 1 < |recv.handled| + recv.size)
    && (fw.FFill? || fw.FBump? ==> fw.at == recv.wr < recv.size == |recv.buf|)
    && (fw.FBump? ==> recv.buf[fw.at] == fw.r)
    && ((fw.FFill? || fw.FBump?) && fw.r.kind == PIN_DATA_READY ==> Frames.FrameIn(s.io, s.mem, fw.r.addr))
  }

  // ----- per stream

  /** The responses of one stream. */
  function OfStream(rs: seq<Response>, k: nat): seq<Response> {
    if rs == [] then []
    else OfStream(rs[..|rs| - 1], k) + if rs[|rs| - 1].stream == k then [rs[|rs| - 1]] else []
  }

  lemma {:induction false} OfStreamSnoc(rs: seq<Response>, r: Response, k: nat)
    ensures OfStream(rs + [r], k) == OfStream(rs, k) + if r.stream == k then [r] else []
  {
    assert (rs + [r])[..|rs|] == rs;
  }

  lemma {:induction false} OfStreamPrefix(a: seq<Response>, b: seq<Response>, k: nat)
    requires a <= b
    ensures OfStream(a, k) <= OfStream(b, k)
  {
    if a == b {
    } else {
      OfStreamPrefix(a, b[..|b| - 1], k);
    }
  }

  /** All of them belong to stream `k`. */
  ghost predicate AllOf(rs: seq<Response>, k: nat) {
    forall i :: 0 <= i < |rs| ==> rs[i].stream == k
  }

  lemma {:induction false} PinsOfStream(k: nat, pins: seq<Pin>, i: nat)
    ensures AllOf(PinsReady(k, pins, i), k)
    decreases |pins| - i
  {
    if i < |pins| { PinsOfStream(k, pins, i + 1); }
  }

  lemma {:induction false} PrescribedOfStream(k: nat, t: Option<Token>)
    ensures AllOf(Prescribed(k, t), k)
  {
    if t.Some? && t.value.pins.Some? { PinsOfStream(k, t.value.pins.value, 0); }
  }

  /** What the device still has to post for stream `k`. */
  function Pending(s: Sys, k: nat): seq<Response>
    requires s.job.Ok(s.sends)
  {
    if k == s.job.stream then s.InFlight() + (s.job.todo + s.job.Rest(s.sends)) else []
  }

  ghost predicate Due(s: Sys, k: nat)
    requires s.job.Ok(s.sends) && k < |s.sends|
  {
    OfStream(s.recv.posted, k) + Pending(s, k) == PrescribedAll(k, s.sends[k].pushed)
  }

  /** For every stream, what was posted and what is still to be posted is what was asked for, and no more. */
  ghost predicate Accounted(s: Sys)
    requires s.job.Ok(s.sends)
  {
    && (forall k :: 0 <= k < |s.sends| ==> Due(s, k))
    && AllOf(s.InFlight(), s.job.stream) && AllOf(s.job.todo, s.job.stream)
    && (forall i :: 0 <= i < |s.recv.posted| ==> s.recv.posted[i].stream < |s.sends|)
  }

  ghost predicate SendsOk(sends: seq<Send>) {
    forall k :: 0 <= k < |sends| ==> sends[k].Ok()
  }

  ghost predicate Inv(s: Sys) {
    && s.recv.Ok() && SendsOk(s.sends) && s.job.Ok(s.sends) && HandlerInv(s.recv, s.irq, s.h) && FirmwareInv(s)
    && Announced(s) && Accounted(s) && Stamped(s.io, s.recv.posted, s.recv.stamps)
  }

  // ----- the handler keeps it

  /** The comparison of the two cursors finds a response exactly when one was posted by then. */
  lemma {:induction false} CheckExact(recv: Recv, irq: Irq, h: Handler)
    requires recv.Ok() && HandlerInv(recv, irq, h) && h.Check?
    ensures FindsNone(recv.size, h.wr, h.rd) <==> h.seen == |recv.handled|
  {
    Rings.CountsExact(recv.size, h.seen, |recv.handled|);
  }

  /** What is taken is the oldest unhandled response. */
  lemma {:induction false} TakeExact(recv: Recv, irq: Irq, h: Handler)
    requires recv.Ok() && HandlerInv(recv, irq, h) && h.Take?
    ensures h.slot < |recv.buf| && recv.buf[h.slot] == recv.posted[|recv.handled|]
  {
    Rings.Consume(recv.size, recv.buf, recv.wr, recv.rd, recv.posted, |recv.handled|);
  }

  /** Handing the slot back is one more response handled. */
  lemma {:induction false} PutExact(recv: Recv, irq: Irq, h: Handler)
    requires recv.Ok() && HandlerInv(recv, irq, h) && h.PutWrite?
    ensures recv.(rd := h.next, handled := recv.handled + [h.token]).Ok()
  {
    Rings.Consume(recv.size, recv.buf, recv.wr, recv.rd, recv.posted, |recv.handled|);
  }

  /** The accesses of `isys_isr_one`, as opposed to those that read or clear status bits. */
  predicate OnRing(h: Handler) {
    h.ReadWr? || h.ReadRd? || h.Check? || h.Take? || h.Put? || h.PutWrite?
  }

  /** What every access of the handler leaves alone. */
  lemma {:induction false} HandlerFrame(s: Sys)
    requires s.h != Idle && (s.h.Take? ==> s.h.slot < |s.recv.buf|)
    ensures var t := HandlerNext(s);
      && t.io == s.io && t.sends == s.sends && t.job == s.job && t.mem == s.mem && t.msi == s.msi && t.fw == s.fw
      && t.recv.posted == s.recv.posted && t.recv.stamps == s.recv.stamps && t.recv.wr == s.recv.wr
      && t.recv.buf == s.recv.buf && t.recv.size == s.recv.size && |t.recv.handled| >= |s.recv.handled|
      && (!OnRing(s.h) ==> t.recv == s.recv) && (OnRing(s.h) ==> t.uni == s.uni && t.irq == s.irq && t.cut == s.cut)
  {
  }

  lemma {:induction false} StatusKeepsPc(s: Sys)
    requires s.recv.size > 0 && HandlerInv(s.recv, s.irq, s.h) && s.h != Idle && !OnRing(s.h)
    ensures var t := HandlerNext(s); HandlerInv(t.recv, t.irq, t.h)
  {
  }

  lemma {:induction false} RingKeepsPc(s: Sys)
    requires s.recv.Ok() && HandlerInv(s.recv, s.irq, s.h) && OnRing(s.h)
    ensures s.h.Take? ==> s.h.slot < |s.recv.buf|
    ensures var t := HandlerNext(s); t.recv.Ok() && HandlerInv(t.recv, t.irq, t.h)
  {
    if s.h.Check? { CheckExact(s.recv, s.irq, s.h); }
    if s.h.Take? { TakeExact(s.recv, s.irq, s.h); }
    if s.h.PutWrite? { PutExact(s.recv, s.irq, s.h); }
  }

  lemma {:induction false} StatusKeepsAnnounced(s: Sys)
    requires Announced(s) && s.h != Idle && !OnRing(s.h)
    ensures Announced(HandlerNext(s))
  {
  }

  lemma {:induction false} RingKeepsAnnounced(s: Sys)
    requires Announced(s) && OnRing(s.h) && (s.h.Take? ==> s.h.slot < |s.recv.buf|)
    requires s.h.ReadRd? || s.h.Check? ==> |s.recv.handled| <= s.h.seen <= |s.recv.posted|
    requires s.h.Check? ==> (FindsNone(s.recv.size, s.h.wr, s.h.rd) <==> s.h.seen == |s.recv.handled|)
    ensures Announced(HandlerNext(s))
  {
  }

  lemma {:induction false} HandlerKeepsRing(s: Sys)
    requires s.recv.Ok() && HandlerInv(s.recv, s.irq, s.h) && Announced(s) && s.h != Idle
    ensures s.h.Take? ==> s.h.slot < |s.recv.buf|
    ensures var t := HandlerNext(s); t.recv.Ok() && HandlerInv(t.recv, t.irq, t.h) && Announced(t)
  {
    if OnRing(s.h) {
      RingKeepsPc(s);
      if s.h.Check? { CheckExact(s.recv, s.irq, s.h); }
      RingKeepsAnnounced(s);
    } else {
      StatusKeepsPc(s);
      StatusKeepsAnnounced(s);
      HandlerFrame(s);
    }
  }

  lemma {:induction false} HandlerKeepsInv(s: Sys)
    requires Inv(s) && s.h != Idle
    ensures s.h.Take? ==> s.h.slot < |s.recv.buf|
    ensures Inv(HandlerNext(s))
  {
    HandlerKeepsRing(s);
    HandlerFrame(s);
    AccountedAgain(s, HandlerNext(s));
  }

  // ----- the device keeps it

  /** Nothing that counts was changed. */
  lemma {:induction false} AccountedAgain(s: Sys, s': Sys)
    requires s.job.Ok(s.sends) && Accounted(s)
    requires s'.job == s.job && s'.sends == s.sends && s'.recv.posted == s.recv.posted && s'.InFlight() == s.InFlight()
    ensures Accounted(s')
  {
    forall k | 0 <= k < |s'.sends| ensures Due(s', k) { assert Due(s, k); }
  }

  lemma {:induction false} AnnouncedAgain(s: Sys, s': Sys)
    requires Announced(s) && s'.recv == s.recv && s'.h == s.h && s'.irq == s.irq && s'.msi == s.msi && s'.cut == s.cut
    requires s'.uni.sw == s.uni.sw
    requires s'.fw == s.fw || (s.fw != FFlag && s.fw != FRaise && s.fw != FNotify)
    ensures Announced(s')
  {
  }

  lemma {:induction false} FetchOne(posted: seq<Response>, todo: seq<Response>, rest: seq<Response>)
    requires todo != []
    ensures posted + ([todo[0]] + (todo[1..] + rest)) == posted + ([] + (todo + rest))
  {
    assert [todo[0]] + (todo[1..] + rest) == todo + rest;
    assert [] + (todo + rest) == todo + rest;
  }

  lemma {:induction false} BeginKeepsAccounted(s: Sys, s': Sys)
    requires s.job.Ok(s.sends) && Accounted(s) && BeginStep(s, s')
    ensures Accounted(s')
  {
    forall k | 0 <= k < |s'.sends| ensures Due(s', k) {
      assert Due(s, k);
      FetchOne(OfStream(s.recv.posted, k), s.job.todo, s.job.Rest(s.sends));
    }
  }

  lemma {:induction false} BeginKeepsInv(s: Sys, s': Sys)
    requires Inv(s) && BeginStep(s, s')
    ensures Inv(s')
  {
    BeginKeepsAccounted(s, s');
    AnnouncedAgain(s, s');
  }

  /** The first of the next `k` tokens, and the others. */
  lemma {:induction false} TokensHead(slots: seq<Option<Token>>, c: nat, k: nat)
    requires c < |slots| && 0 < k <= |slots|
    ensures TokensFrom(slots, c, k) == [slots[c]] + TokensFrom(slots, Rings.Bump(|slots|, c), k - 1)
    decreases k
  {
    var c' := Rings.Bump(|slots|, c);
    if k > 1 {
      TokensHead(slots, c, k - 1);
      assert Ahead(|slots|, c', k - 2) == Ahead(|slots|, c, k - 1);
    } else {
      assert TokensFrom(slots, c, 0) == [] && TokensFrom(slots, c', 0) == [];
    }
  }

  /** Reading a token turns it into its answer. */
  lemma {:induction false} FetchExact(stream: nat, slots: seq<Option<Token>>, c: nat, k: nat)
    requires c < |slots| && 0 < k <= |slots|
    ensures var f := Protocol(stream);
      FlatMap(f, TokensFrom(slots, c, k))
        == Prescribed(stream, slots[c]) + FlatMap(f, TokensFrom(slots, Rings.Bump(|slots|, c), k - 1))
  {
    var f, t := Protocol(stream), slots[c];
    TokensHead(slots, c, k);
    FlatMapConcat(f, [t], TokensFrom(slots, Rings.Bump(|slots|, c), k - 1));
    FlatMapSnoc(f, [], t);
    assert [] + [t] == [t] && f(t) == Prescribed(stream, t);
  }

  lemma {:induction false} FetchKeepsJob(sends: seq<Send>, j: Job, todo: seq<Response>)
    requires j.Ok(sends) && j.left > 0
    ensures var size := |sends[j.stream].slots|;
      && j.(todo := todo, slot := (j.slot + 1) % size, left := j.left - 1).Ok(sends)
      && (j.slot + 1) % size == Rings.Bump(size, j.slot)
  {
    ModOnce(j.slot + 1, |sends[j.stream].slots|);
  }

  lemma {:induction false} FetchKeepsAccounted(s: Sys, s': Sys)
    requires FetchStep(s, s') && s'.job.Ok(s'.sends) && Accounted(s)
    requires s'.job.slot == Rings.Bump(|s.sends[s.job.stream].slots|, s.job.slot)
    ensures Accounted(s')
  {
    var j := s.job;
    FetchExact(j.stream, s.sends[j.stream].slots, j.slot, j.left);
    PrescribedOfStream(j.stream, s.sends[j.stream].slots[j.slot]);
    assert [] + j.Rest(s.sends) == j.Rest(s.sends);
    forall k | 0 <= k < |s'.sends| ensures Due(s', k) { assert Due(s, k); }
  }

  lemma {:induction false} FetchKeepsInv(s: Sys, s': Sys)
    requires Inv(s) && FetchStep(s, s')
    ensures Inv(s')
  {
    FetchKeepsJob(s.sends, s.job, s'.job.todo);
    FetchKeepsAccounted(s, s');
    AnnouncedAgain(s, s');
  }

  lemma {:induction false} Published(posted: seq<Response>, r: Response, more: seq<Response>)
    ensures (posted + [r]) + ([] + more) == posted + ([r] + more)
  {
  }

  lemma {:induction false} PostKeepsRing(s: Sys, s': Sys)
    requires s.recv.Ok() && FirmwareInv(s) && HandlerInv(s.recv, s.irq, s.h) && PostStep(s, s')
    requires s.fw.FFill? || s.fw.FBump?
    ensures s'.recv.Ok() && HandlerInv(s'.recv, s'.irq, s'.h)
  {
    var recv, r := s.recv, s.fw.r;
    if s.fw.FFill? {
      Rings.FillSafe(recv.size, recv.buf, recv.wr, recv.rd, recv.posted, |recv.handled|, r);
    } else {
      Rings.Publish(recv.size, recv.buf, recv.wr, recv.rd, recv.posted, |recv.handled|, r);
      ModOnce(s.fw.at + 1, recv.size);
    }
  }

  lemma {:induction false} PostKeepsAnnounced(s: Sys, s': Sys)
    requires Announced(s) && PostStep(s, s')
    ensures Announced(s')
  {
    assert s'.h == s.h && |s'.recv.handled| == |s.recv.handled|;
  }

  /** The response leaves the device's hands and is posted. */
  lemma {:induction false} PublishKeepsAccounted(s: Sys, s': Sys)
    requires s.job.Ok(s.sends) && Accounted(s) && s.fw.FBump? && PostStep(s, s')
    ensures Accounted(s')
  {
    var r := s.fw.r;
    assert s.InFlight() == [r] && r.stream == s.job.stream by { assert s.InFlight()[0] == r; }
    forall k | 0 <= k < |s'.sends| ensures Due(s', k) {
      assert Due(s, k);
      OfStreamSnoc(s.recv.posted, r, k);
      Published(OfStream(s.recv.posted, k), r, s.job.todo + s.job.Rest(s.sends));
    }
  }

  /** Writing the frame, filling the slot, publishing it. */
  lemma {:induction false} ResponseKeepsInv(s: Sys, s': Sys)
    requires Inv(s) && PostStep(s, s') && (s.fw.FWrite? || s.fw.FFill? || s.fw.FBump?)
    ensures Inv(s')
  {
    PostKeepsAnnounced(s, s');
    if s.fw.FWrite? {
      assert s'.mem == Frames.WithFrame(s.io, s.mem, s.fw.r.addr);
    } else {
      PostKeepsRing(s, s');
    }
    if s.fw.FBump? {
      PublishKeepsAccounted(s, s');
      StampMore(s.io, s.recv.posted, s.recv.stamps, s.fw.r, s.mem);
    } else {
      AccountedAgain(s, s');
    }
  }

  /** Raising the bits and the interrupt. */
  lemma {:induction false} SignalKeepsInv(s: Sys, s': Sys)
    requires Inv(s) && PostStep(s, s') && (s.fw == FFlag || s.fw == FRaise || s.fw == FNotify)
    ensures Inv(s')
  {
    PostKeepsAnnounced(s, s');
    AccountedAgain(s, s');
  }

  lemma {:induction false} DeviceKeepsInv(s: Sys, s': Sys)
    requires Inv(s) && Step(s, Device, s')
    ensures Inv(s')
  {
    if BeginStep(s, s') { BeginKeepsInv(s, s'); }
    else if FetchStep(s, s') { FetchKeepsInv(s, s'); }
    else if s.fw == FFlag || s.fw == FRaise || s.fw == FNotify { SignalKeepsInv(s, s'); }
    else { ResponseKeepsInv(s, s'); }
  }

  // ----- the driver keeps it

  /** A slot filled behind the published tokens of its ring, or in a ring the device is not working on. */
  lemma {:induction false} FillKeepsAccounted(s: Sys, k: nat, t: Option<Token>, s': Sys)
    requires s.job.Ok(s.sends) && Accounted(s) && FillStep(s, k, t, s')
    ensures s'.job.Ok(s'.sends) && Accounted(s')
  {
    var j := s.job;
    if j.stream == k {
      assert TokensFrom(s.sends[k].slots, j.slot, 0) == [] && TokensFrom(s'.sends[k].slots, j.slot, 0) == [];
    } else {
      assert s'.sends[j.stream] == s.sends[j.stream];
    }
    forall i | 0 <= i < |s'.sends| ensures Due(s', i) { assert Due(s, i); }
  }

  lemma {:induction false} FillKeepsSend(d: Send, t: Option<Token>)
    requires d.Ok() && |d.filled| < Rings.FreeSlots(|d.slots|, d.wr, d.wr)
    ensures d.(slots := d.slots[Ahead(|d.slots|, d.wr, |d.filled|) := t], filled := d.filled + [t]).Ok()
  {
    var k := |d.filled|;
    TokensFrame(d.slots, d.wr, k, k, t);
    var slots := d.slots[Ahead(|d.slots|, d.wr, k) := t];
    assert TokensFrom(slots, d.wr, k + 1) == d.filled + [t];
  }

  lemma {:induction false} FillKeepsInv(s: Sys, k: nat, t: Option<Token>, s': Sys)
    requires Inv(s) && FillStep(s, k, t, s')
    ensures Inv(s')
  {
    FillKeepsSend(s.sends[k], t);
    FillKeepsAccounted(s, k, t, s');
    AnnouncedAgain(s, s');
  }

  /** What was pending before a cursor write is nothing, what is pending after it is the answers to the batch. */
  lemma {:induction false} BumpPending(s: Sys, k: nat, s': Sys)
    requires SendsOk(s.sends) && s.job.Ok(s.sends) && BumpStep(s, k, s')
    ensures s'.job.Ok(s'.sends) && SendsOk(s'.sends)
    ensures forall i :: Pending(s, i) == []
    ensures Pending(s', k) == PrescribedAll(k, s.sends[k].filled) && forall i :: i != k ==> Pending(s', i) == []
  {
    var d, j := s.sends[k], s.job;
    assert d.Ok();
    PushedCount(|d.slots|, d.wr, |d.filled|);
    assert TokensFrom(s.sends[j.stream].slots, j.slot, 0) == [] && j.Rest(s.sends) == [];
    assert s'.job.Rest(s'.sends) == PrescribedAll(k, d.filled);
    assert [] + ([] + s'.job.Rest(s'.sends)) == s'.job.Rest(s'.sends);
    assert TokensFrom(d.slots, s'.sends[k].wr, 0) == [];
  }

  lemma {:induction false} BumpKeepsInv(s: Sys, k: nat, s': Sys)
    requires Inv(s) && BumpStep(s, k, s')
    ensures Inv(s')
  {
    BumpPending(s, k, s');
    PrescribedConcat(k, s.sends[k].pushed, s.sends[k].filled);
    forall i | 0 <= i < |s'.sends| ensures Due(s', i) {
      assert Due(s, i);
      assert OfStream(s.recv.posted, i) + [] == OfStream(s.recv.posted, i);
    }
    AnnouncedAgain(s, s');
  }

  lemma {:induction false} StepKeepsInv(s: Sys, l: Label, s': Sys)
    requires Inv(s) && Step(s, l, s')
    ensures Inv(s')
  {
    match l
    case Fill(k, t) => FillKeepsInv(s, k, t, s');
    case Bump(k) => BumpKeepsInv(s, k, s');
    case Device => DeviceKeepsInv(s, s');
    case Handle => HandlerKeepsInv(s);
    case _ => AccountedAgain(s, s');
  }

  // ----- what it means

  lemma {:induction false} IdleAnnounced(s: Sys)
    requires Inv(s) && s.h == Idle && s.fw == FIdle
    ensures s.recv.handled != s.recv.posted ==> s.uni.sw && s.irq.isys && (s.msi || s.cut)
  {
    if |s.recv.handled| == |s.recv.posted| { assert s.recv.handled == s.recv.posted; }
  }

  /** State `n + 1` follows from state `n` by one step. */
  ghost predicate Next(run: seq<Sys>, labels: seq<Label>, n: nat)
    requires n < |labels| && n + 1 < |run|
  {
    Step(run[n], labels[n], run[n + 1])
  }

  ghost predicate Run(run: seq<Sys>, labels: seq<Label>) {
    |run| == |labels| + 1 && run[0].Init() && forall n :: 0 <= n < |labels| ==> Next(run, labels, n)
  }

  lemma {:induction false} NothingPending(s: Sys)
    requires s.job.Ok(s.sends) && s.Quiet()
    ensures forall k :: Pending(s, k) == []
  {
    assert TokensFrom(s.sends[s.job.stream].slots, s.job.slot, 0) == [] && s.job.Rest(s.sends) == [];
  }

  lemma {:induction false} InitInv(s: Sys)
    requires s.Init()
    ensures Inv(s)
  {
    forall k | 0 <= k < |s.sends| ensures s.sends[k].Ok() && PrescribedAll(k, s.sends[k].pushed) == [] {
      assert TokensFrom(s.sends[k].slots, 0, 0) == [];
    }
    NothingPending(s);
    forall k | 0 <= k < |s.sends| ensures Due(s, k) { assert OfStream(s.recv.posted, k) + [] == []; }
  }

  lemma {:induction false} RunKeepsInv(run: seq<Sys>, labels: seq<Label>, n: nat)
    requires Run(run, labels) && n < |run|
    ensures Inv(run[n])
  {
    if n == 0 {
      InitInv(run[0]);
    } else {
      RunKeepsInv(run, labels, n - 1);
      assert Next(run, labels, n - 1);
      StepKeepsInv(run[n - 1], labels[n - 1], run[n]);
    }
  }

  /**
   * Whenever, in any run, the handler is idle and the device is not in the middle of a post, an
   * unhandled response has both status bits pending, also after the 100-iteration limit; and unless
   * that limit was hit, an interrupt is on its way too.
   */
  lemma {:induction false} NoResponseLost(run: seq<Sys>, labels: seq<Label>, n: nat)
    requires Run(run, labels) && n < |run| && run[n].h == Idle && run[n].fw == FIdle
    requires run[n].recv.handled != run[n].recv.posted
    ensures run[n].uni.sw && run[n].irq.isys && (run[n].msi || run[n].cut)
  {
    RunKeepsInv(run, labels, n);
    IdleAnnounced(run[n]);
  }

  /**
   * End to end, over every interleaving, for every stream: its responses among those handled are always a
   * prefix of the ones prescribed for the tokens published on its ring so far, each once and in order;
   * when nothing is left to do they are all of them; and no other response is ever handled.
   */
  lemma {:induction false} RunDeliversPrescribed(run: seq<Sys>, labels: seq<Label>, n: nat, k: nat)
    requires Run(run, labels) && n < |run| && k < |run[n].sends|
    ensures var s := run[n];
      && OfStream(s.recv.handled, k) <= PrescribedAll(k, s.sends[k].pushed)
      && (s.h == Idle && s.Quiet() && !s.msi && !s.cut ==>
            OfStream(s.recv.handled, k) == PrescribedAll(k, s.sends[k].pushed))
      && forall i :: 0 <= i < |s.recv.handled| ==> s.recv.handled[i].stream < |s.sends|
  {
    RunKeepsInv(run, labels, n);
    var s := run[n];
    assert Due(s, k);
    OfStreamPrefix(s.recv.handled, s.recv.posted, k);
    forall i | 0 <= i < |s.recv.handled| ensures s.recv.handled[i].stream < |s.sends| {
      assert s.recv.handled[i] == s.recv.posted[i];
    }
    if s.h == Idle && s.Quiet() && !s.msi && !s.cut {
      IdleAnnounced(s);
      NothingPending(s);
      assert OfStream(s.recv.posted, k) + [] == OfStream(s.recv.posted, k);
    }
  }

  /** A pin the handler has taken was reported with its frame already in the buffer. */
  lemma {:induction false} FrameBeforeNotice(run: seq<Sys>, labels: seq<Label>, n: nat, i: nat)
    requires Run(run, labels) && n < |run| && i < |run[n].recv.handled|
    requires run[n].recv.handled[i].kind == PIN_DATA_READY
    ensures i < |run[n].recv.stamps| && Frames.FrameIn(run[n].io, run[n].recv.stamps[i], run[n].recv.handled[i].addr)
  {
    RunKeepsInv(run, labels, n);
    var recv := run[n].recv;
    assert recv.handled[i] == recv.posted[i];
  }

  // ----- an activation drains the ring

  /** Position within a round, falling from access to access except where a bit or a response goes away. */
  function Phase(uni: Uni, h: Handler): nat {
    match h
    case Idle => 0
    case IrqClear(_, _) => 1
    case IrqRead(_) => 2
    case Leave(_) => 3
    case UniClear(st, _) => if st.Any() && st.Within(uni) then 4 else 15
    case UniTest(st, _) => if st.Within(uni) then 5 else 16
    case UniMore(keep, _) => if keep && !uni.sw then 17 else 6
    case PutWrite(_, _, _) => 8
    case Put(_, _) => 9
    case Take(_, _) => 10
    case Check(_, _, _, _) => 11
    case ReadRd(_, _, _) => 12
    case ReadWr(_) => 13
    case Dispatch(_, _) => 14
    case UniRead(_) => 18
  }

  /** Responses not yet handled and status bits not yet cleared. */
  function Work(s: Sys): nat {
    (if |s.recv.handled| <= |s.recv.posted| then |s.recv.posted| - |s.recv.handled| else 0) + s.uni.Bits()
  }

  /** Rounds done plus rounds that the pending buttress bits can still cause. */
  function Rounds(irq: Irq, h: Handler): nat {
    match h
    case Idle => irq.Bits()
    case IrqRead(n) => n + irq.Bits()
    case IrqClear(_, n) => n + irq.Bits()
    case _ => h.n + irq.Bits() + 1
  }

  /** `t` is nearer to the end of the handler than `s`. */
  ghost predicate Nearer(s: Sys, t: Sys)
    requires |s.recv.handled| <= |s.recv.posted| && |t.recv.handled| <= |t.recv.posted|
  {
    && t.irq.Bits() <= s.irq.Bits() && Rounds(t.irq, t.h) <= Rounds(s.irq, s.h)
    && (t.irq.Bits() == s.irq.Bits() ==> Work(t) <= Work(s))
    && (t.irq.Bits() == s.irq.Bits() && Work(t) == Work(s) ==> Phase(t.uni, t.h) < Phase(s.uni, s.h))
    && (t.cut ==> Rounds(s.irq, s.h) >= MAX_CONSECUTIVE_IRQS)
    && (t.h == Idle && !t.cut ==> !t.irq.Any())
  }

  lemma {:induction false} StatusProgress(s: Sys)
    requires s.recv.Ok() && HandlerInv(s.recv, s.irq, s.h) && s.h != Idle && !OnRing(s.h) && !s.cut
    ensures Nearer(s, HandlerNext(s))
  {
  }

  lemma {:induction false} RingProgress(s: Sys)
    requires s.recv.Ok() && HandlerInv(s.recv, s.irq, s.h) && OnRing(s.h) && !s.cut
    requires s.h.Take? ==> s.h.slot < |s.recv.buf|
    ensures Nearer(s, HandlerNext(s))
  {
  }

  /** While nobody else moves, every access of the handler is progress. */
  lemma {:induction false} HandlerProgress(s: Sys)
    requires Inv(s) && s.h != Idle
    ensures Inv(HandlerNext(s)) && Nearer(s, HandlerNext(s)) && HandlerNext(s).fw == s.fw
    ensures HandlerNext(s).recv.posted == s.recv.posted
  {
    HandlerKeepsInv(s);
    HandlerFrame(s);
    if OnRing(s.h) { RingProgress(s); } else { StatusProgress(s); }
  }

  /** The handler runs to completion while the device is silent. */
  ghost function Drain(s: Sys): (r: Sys)
    requires Inv(s) && s.fw == FIdle
    ensures Inv(r) && r.h == Idle && r.fw == FIdle && r.recv.posted == s.recv.posted
    ensures s.h != Idle ==> r.cut || !r.irq.Any()
    ensures s.h != Idle && Rounds(s.irq, s.h) < MAX_CONSECUTIVE_IRQS ==> !r.cut
    decreases s.irq.Bits(), Work(s), Phase(s.uni, s.h)
  {
    if s.h == Idle then s else HandlerProgress(s); Drain(HandlerNext(s))
  }

  /**
   * One activation is enough: from any reachable state in which an interrupt is pending, once the
   * device is silent the handler terminates, does not hit the limit, and has handled every response.
   */
  lemma {:induction false} ActivationDrains(s: Sys, started: Sys)
    requires Inv(s) && s.fw == FIdle && Step(s, Start, started)
    ensures Inv(started)
    ensures var r := Drain(started);
      r.h == Idle && !r.cut && r.recv.handled == r.recv.posted == s.recv.posted
  {
    StepKeepsInv(s, Start, started);
    IdleAnnounced(Drain(started));
  }

  // ----- the device gets on

  /** The accesses left of a post. */
  function Place(fw: Firmware): nat {
    match fw
    case FIdle => 0
    case FNotify => 1
    case FRaise => 2
    case FFlag => 3
    case FBump(_, _) => 4
    case FFill(_, _) => 5
    case FWrite(_) => 6
  }

  /** There is room on the receive ring for one more response. */
  predicate Room(s: Sys) { |s.recv.posted| + 1 < |s.recv.handled| + s.recv.size }

  /** The device has nothing to do, or waits for room to begin the next response. */
  predicate Resting(s: Sys) { s.Quiet() || (s.fw == FIdle && s.job.todo != [] && !Room(s)) }

  /** `t` is nearer to the end of the device's job than `s`: lexicographically in tokens, responses, accesses. */
  ghost predicate DeviceNearer(s: Sys, t: Sys) {
    || t.job.left < s.job.left
    || (t.job.left == s.job.left && |t.job.todo| < |s.job.todo|)
    || (t.job.left == s.job.left && |t.job.todo| == |s.job.todo| && Place(t.fw) < Place(s.fw))
  }

  /** Every step of the device is progress and leaves the driver's side alone. */
  lemma {:induction false} DeviceProgress(s: Sys, s': Sys)
    requires Step(s, Device, s')
    ensures DeviceNearer(s, s') && s'.h == s.h && s'.cut == s.cut && s'.sends == s.sends
    ensures s'.recv.size == s.recv.size && s'.recv.handled == s.recv.handled
  {
  }

  /** A frame start is announced to the receiver's status before it is posted, and by nothing else of the device. */
  lemma {:induction false} ReceiverFirst(s: Sys, s': Sys)
    requires Step(s, Device, s')
    ensures |s'.job.todo| < |s.job.todo| && s.job.todo[0].kind == FRAME_SOF ==>
      s'.uni.csi && s'.recv == s.recv && s'.InFlight() == [s.job.todo[0]]
    ensures s'.uni.csi && !s.uni.csi ==> s.job.todo != [] && s.job.todo[0].kind == FRAME_SOF
  {
  }

  /** And it can take one whenever it is not resting. */
  lemma {:induction false} DeviceMoves(s: Sys) returns (s': Sys)
    requires Inv(s) && !Resting(s)
    ensures Step(s, Device, s')
  {
    if s.fw != FIdle {
      s' := PostNext(s);
    } else if s.job.todo != [] {
      var r := s.job.todo[0];
      s' := s.(job := s.job.(todo := s.job.todo[1..]),
               fw := if r.kind == PIN_DATA_READY then FWrite(r) else FFill(r, s.recv.At()),
               uni := if r.kind == FRAME_SOF then s.uni.(csi := true) else s.uni);
      assert BeginStep(s, s');
    } else {
      var j, slots := s.job, s.sends[s.job.stream].slots;
      s' := s.(job := j.(todo := Prescribed(j.stream, slots[j.slot]),
                         slot := (j.slot + 1) % |slots|, left := j.left - 1));
      assert FetchStep(s, s');
    }
  }

  lemma {:induction false} PostNext(s: Sys) returns (s': Sys)
    requires s.recv.Ok() && FirmwareInv(s) && s.fw != FIdle
    ensures PostStep(s, s')
  {
    match s.fw
    case FWrite(r) => s' := s.(mem := Frames.WithFrame(s.io, s.mem, r.addr), fw := FFill(r, s.recv.At()));
    case FFill(r, at) => s' := s.(recv := s.recv.(buf := s.recv.buf[at := r]), fw := FBump(r, at));
    case FBump(r, at) =>
      s' := s.(recv := s.recv.(wr := (at + 1) % s.recv.size, posted := s.recv.posted + [r],
                               stamps := s.recv.stamps + [s.mem]),
               fw := FFlag);
    case FFlag => s' := s.(uni := s.uni.(sw := true), fw := FRaise);
    case FRaise => s' := s.(irq := s.irq.(isys := true), fw := FNotify);
    case FNotify => s' := s.(msi := true, fw := FIdle);
  }

  // ----- and so does the driver

  /** A slot can be filled exactly while fewer than all but one of the ring's slots are unpublished. */
  lemma {:induction false} FillMoves(s: Sys, k: nat, t: Option<Token>)
    requires Inv(s) && k < |s.sends| && (s.Quiet() || s.job.stream != k)
    ensures |s.sends[k].filled| + 1 < |s.sends[k].slots| <==> exists s' :: Step(s, Fill(k, t), s')
  {
    var d := s.sends[k];
    assert d.Ok();
    if |d.filled| + 1 < |d.slots| {
      var slots := d.slots[Ahead(|d.slots|, d.wr, |d.filled|) := t];
      assert Step(s, Fill(k, t), s.(sends := s.sends[k := d.(slots := slots, filled := d.filled + [t])]));
    }
  }

  /** The cursor can be written whenever the device has answered the last write. */
  lemma {:induction false} BumpMoves(s: Sys, k: nat) returns (s': Sys)
    requires Inv(s) && k < |s.sends| && s.Quiet()
    ensures Step(s, Bump(k), s')
    ensures s'.sends[k].pushed == s.sends[k].pushed + s.sends[k].filled && s'.sends[k].filled == []
  {
    var d := s.sends[k];
    assert d.Ok();
    var w := Ahead(|d.slots|, d.wr, |d.filled|);
    s' := s.(sends := s.sends[k := Send(d.slots, w, w, [], d.pushed + d.filled)],
             job := Job(k, d.seen, (w + |d.slots| - d.seen) % |d.slots|, []));
  }

  // ----- both together finish the work

  /** Every command published is answered, and every answer handled. */
  ghost predicate Settled(s: Sys) {
    s.Quiet() && s.h == Idle && s.recv.handled == s.recv.posted
  }

  /** The handler, if it runs, will not hit the limit. */
  ghost predicate Calm(s: Sys) {
    !s.cut && (s.h != Idle ==> Rounds(s.irq, s.h) < MAX_CONSECUTIVE_IRQS)
  }

  /** One step towards it: the handler if it is active, otherwise the device, otherwise the interrupt. */
  lemma {:induction false} NextStep(s: Sys) returns (l: Label, s': Sys)
    requires Inv(s) && Calm(s) && s.recv.size > 1 && !Settled(s)
    ensures l == Device || l == Start || l == Handle
    ensures Step(s, l, s') && Inv(s') && Calm(s') && s'.recv.size == s.recv.size && s'.sends == s.sends
    ensures l == Handle ==> s'.job == s.job && s'.fw == s.fw && s'.msi == s.msi && Nearer(s, s') && s.h != Idle
    ensures l == Start ==> s'.job == s.job && s'.fw == s.fw && s.msi && !s'.msi
    ensures l == Device ==> DeviceNearer(s, s')
  {
    if s.h != Idle {
      l, s' := Handle, HandlerNext(s);
      HandlerProgress(s);
      HandlerKeepsInv(s);
      HandlerFrame(s);
    } else if !Resting(s) {
      l := Device;
      s' := DeviceMoves(s);
      DeviceProgress(s, s');
    } else {
      IdleAnnounced(s);
      l, s' := Start, s.(msi := false, cut := false, h := IrqRead(0));
    }
    StepKeepsInv(s, l, s');
  }

  lemma {:induction false} RunMore(run: seq<Sys>, labels: seq<Label>, l: Label, s': Sys)
    requires Run(run, labels) && Step(run[|labels|], l, s')
    ensures Run(run + [s'], labels + [l])
  {
    var run', labels' := run + [s'], labels + [l];
    forall n | 0 <= n < |labels'| ensures Next(run', labels', n) {
      if n < |labels| { assert Next(run, labels, n); }
    }
  }

  /**
   * From every reachable state in which the handler is idle and was not cut off, as after any cursor write
   * while no interrupt is being handled, device and handler can finish their work, whatever it is: there is
   * a continuation without any further step of the driver's in which everything ends up settled.
   */
  lemma {:induction false} Settle(run: seq<Sys>, labels: seq<Label>) returns (run': seq<Sys>, labels': seq<Label>)
    requires Run(run, labels)
    requires var s := run[|labels|]; Calm(s) && s.recv.size > 1
    ensures Run(run', labels') && run <= run' && labels <= labels'
    ensures Settled(run'[|labels'|]) && run'[|labels'|].sends == run[|labels|].sends
    ensures forall n :: |labels| <= n < |labels'| ==> labels'[n] in [Device, Start, Handle]
    decreases run[|labels|].job.left, |run[|labels|].job.todo|, Place(run[|labels|].fw),
      if run[|labels|].msi then 1 else 0, run[|labels|].irq.Bits(), Work(run[|labels|]),
      Phase(run[|labels|].uni, run[|labels|].h)
  {
    var s := run[|labels|];
    RunKeepsInv(run, labels, |labels|);
    if Settled(s) {
      run', labels' := run, labels;
    } else {
      var l, s' := NextStep(s);
      RunMore(run, labels, l, s');
      run', labels' := Settle(run + [s'], labels + [l]);
    }
  }

  /** And then, on every stream, the responses handled are all those prescribed for the commands published. */
  lemma {:induction false} SettledIsAll(run: seq<Sys>, labels: seq<Label>, n: nat, k: nat)
    requires Run(run, labels) && n < |run| && Settled(run[n]) && k < |run[n].sends|
    ensures OfStream(run[n].recv.handled, k) == PrescribedAll(k, run[n].sends[k].pushed)
  {
    RunKeepsInv(run, labels, n);
    assert Due(run[n], k);
    NothingPending(run[n]);
    assert OfStream(run[n].recv.posted, k) + [] == OfStream(run[n].recv.posted, k);
  }
}
