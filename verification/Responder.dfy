/**
 * The device's firmware stand-in (tools/qemu-patches/hw/misc/ipu4.c:752-1034): a write of a
 * send cursor makes it read the tokens pushed since the last one and post the responses the
 * protocol prescribes for each of them on the receive ring.
 */
module Responder {
  import opened Common
  import opened SyscomRing
  import Frames = FrameWriter

  const STREAM_OPEN: nat := 0
  const STREAM_START: nat := 1
  const STREAM_START_AND_CAPTURE: nat := 2
  const STREAM_CAPTURE: nat := 3
  const STREAM_FLUSH: nat := 5
  const STREAM_CLOSE: nat := 6

  const OPEN_DONE: nat := 0
  const START_ACK: nat := 1
  const START_AND_CAPTURE_ACK: nat := 2
  const FLUSH_ACK: nat := 5
  const CLOSE_ACK: nat := 6
  const PIN_DATA_READY: nat := 7
  const FRAME_SOF: nat := 9

  datatype Pin = Pin(addr: nat, bufId: nat)

  /** A command token.  `pins` is what a DMA read of its payload finds, None if the read fails. */
  datatype Token = Token(sendType: nat, pins: Option<seq<Pin>>)

  datatype Response = Response(kind: nat, stream: nat, pinId: nat, addr: nat, bufId: nat)

  function Ack(kind: nat, stream: nat): Response {
    Response(kind, stream, 0, 0, 0)
  }

  // ----- what the protocol prescribes

  /** One PIN_DATA_READY for every pin, from pin `i` on, that has an address. */
  function PinsReady(stream: nat, pins: seq<Pin>, i: nat): seq<Response>
    decreases |pins| - i
  {
    if i >= |pins| then []
    else if pins[i].addr == 0 then PinsReady(stream, pins, i + 1)
    else [Response(PIN_DATA_READY, stream, i, pins[i].addr, pins[i].bufId)] + PinsReady(stream, pins, i + 1)
  }

  function FrameResponses(stream: nat, pins: Option<seq<Pin>>): seq<Response> {
    match pins
    case None => []
    case Some(ps) => [Ack(FRAME_SOF, stream)] + PinsReady(stream, ps, 0)
  }

  /** The responses to one token; None is a slot the device cannot read. */
  function Prescribed(stream: nat, t: Option<Token>): seq<Response> {
    if t.None? then []
    else if t.value.sendType == STREAM_OPEN then [Ack(OPEN_DONE, stream)]
    else if t.value.sendType == STREAM_START then [Ack(START_ACK, stream)]
    else if t.value.sendType == STREAM_START_AND_CAPTURE then
      [Ack(START_AND_CAPTURE_ACK, stream)] + FrameResponses(stream, t.value.pins)
    else if t.value.sendType == STREAM_CAPTURE then FrameResponses(stream, t.value.pins)
    else if t.value.sendType == STREAM_FLUSH then [Ack(FLUSH_ACK, stream)]
    else if t.value.sendType == STREAM_CLOSE then [Ack(CLOSE_ACK, stream)]
    else []
  }

  /** What the protocol asks of the device on one stream, as a function of the token. */
  function Protocol(stream: nat): Option<Token> -> seq<Response> {
    t => Prescribed(stream, t)
  }

  function FlatMap<A(!new), B>(f: A -> seq<B>, xs: seq<A>): seq<B> {
    if xs == [] then [] else FlatMap(f, xs[..|xs| - 1]) + f(xs[|xs| - 1])
  }

  lemma {:induction false} FlatMapSnoc<A(!new), B>(f: A -> seq<B>, xs: seq<A>, x: A)
    ensures FlatMap(f, xs + [x]) == FlatMap(f, xs) + f(x)
  {
    assert (xs + [x])[..|xs|] == xs;
  }

  lemma {:induction false} FlatMapConcat<A(!new), B>(f: A -> seq<B>, a: seq<A>, b: seq<A>)
    ensures FlatMap(f, a + b) == FlatMap(f, a) + FlatMap(f, b)
  {
    if b == [] {
      assert a + b == a && FlatMap(f, b) == [];
    } else {
      var b', x := b[..|b| - 1], b[|b| - 1];
      FlatMapConcat(f, a, b');
      FlatMapSnoc(f, a + b', x);
      assert b == b' + [x] && a + b == (a + b') + [x];
      assert (FlatMap(f, a) + FlatMap(f, b')) + f(x) == FlatMap(f, a) + (FlatMap(f, b') + f(x));
    }
  }

  /** The responses to a sequence of tokens, one token after the other. */
  function PrescribedAll(stream: nat, ts: seq<Option<Token>>): seq<Response> {
    FlatMap(Protocol(stream), ts)
  }

  lemma {:induction false} PrescribedConcat(stream: nat, a: seq<Option<Token>>, b: seq<Option<Token>>)
    ensures PrescribedAll(stream, a + b) == PrescribedAll(stream, a) + PrescribedAll(stream, b)
  {
    FlatMapConcat(Protocol(stream), a, b);
  }

  lemma {:induction false} Assoc(a: seq<Response>, b: seq<Response>, c: seq<Response>)
    ensures (a + b) + c == a + (b + c)
  {
  }

  // ----- positions on the send ring

  /** `k` slots ahead of `c`, at most one turn. */
  function Ahead(size: nat, c: nat, k: nat): nat
    requires c < size && k <= size
  {
    if c + k < size then c + k else c + k - size
  }

  /** The next `k` tokens from slot `c` on, in ring order. */
  function TokensFrom(slots: seq<Option<Token>>, c: nat, k: nat): seq<Option<Token>>
    requires c < |slots| && k <= |slots|
  {
    if k == 0 then [] else TokensFrom(slots, c, k - 1) + [slots[Ahead(|slots|, c, k - 1)]]
  }

  /** The device's distance from its cursor to the new one is the number of tokens pushed. */
  lemma {:induction false} PushedCount(size: nat, prev: nat, k: nat)
    requires prev < size && k < size
    ensures (Ahead(size, prev, k) + size - prev) % size == k
  {
    ModOnce((Ahead(size, prev, k) + size - prev) as nat, size);
  }

  /** Writing slots ahead of the window does not change the tokens inside it. */
  lemma {:induction false} TokensFrame(slots: seq<Option<Token>>, c: nat, k: nat, n: nat, t: Option<Token>)
    requires c < |slots| && k <= n < |slots|
    ensures TokensFrom(slots[Ahead(|slots|, c, n) := t], c, k) == TokensFrom(slots, c, k)
    decreases k
  {
    if k > 0 { TokensFrame(slots, c, k - 1, n, t); }
  }

  // ----- a ring that is read late

  /** The slots hold the latest of all the tokens ever filled in, from slot 0 on and around. */
  ghost predicate Latest(slots: seq<Option<Token>>, history: seq<Option<Token>>) {
    && |slots| > 0
    && forall n {:trigger Slot(|slots|, n)} ::
      0 <= n < |history| && |history| <= n + |slots| ==> slots[Slot(|slots|, n)] == history[n]
  }

  lemma {:induction false} LatestMore(slots: seq<Option<Token>>, history: seq<Option<Token>>, t: Option<Token>)
    requires Latest(slots, history)
    ensures Latest(slots[Slot(|slots|, |history|) := t], history + [t])
  {
    forall n | 0 <= n < |history| && |history| < n + |slots| ensures Slot(|slots|, n) != Slot(|slots|, |history|) {
      SlotsDiffer(|slots|, n, |history|);
    }
  }

  /** The cursor is the number of tokens since slot 0 was last passed, all of them if there was no wrap. */
  lemma {:induction false} SlotSinceWrap(size: nat, n: nat)
    requires size > 0
    ensures Slot(size, n) <= n && Slot(size, n - Slot(size, n)) == 0
    ensures Slot(size, n) == n <==> n < size
  {
    if n > 0 {
      SlotSinceWrap(size, n - 1);
      if Slot(size, n) != 0 { assert n - Slot(size, n) == n - 1 - Slot(size, n - 1); }
    }
  }

  /** The tokens filled in since the cursor last passed slot 0. */
  ghost function SinceWrap(size: nat, history: seq<Option<Token>>): seq<Option<Token>>
    requires size > 0
  {
    SlotSinceWrap(size, |history|);
    history[|history| - Slot(size, |history|)..]
  }

  /** A window of the ring is the tokens filled into it. */
  lemma {:induction false} LatestTokens(slots: seq<Option<Token>>, history: seq<Option<Token>>, a: nat, k: nat)
    requires Latest(slots, history) && a + k <= |history| <= a + |slots| && k <= |slots|
    ensures TokensFrom(slots, Slot(|slots|, a), k) == history[a..a + k]
    decreases k
  {
    if k > 0 {
      LatestTokens(slots, history, a, k - 1);
      SlotAhead(|slots|, a, k - 1);
      assert slots[Slot(|slots|, a + (k - 1))] == history[a + (k - 1)];
    }
  }

  lemma {:induction false} LateTokens(slots: seq<Option<Token>>, history: seq<Option<Token>>)
    requires Latest(slots, history)
    ensures TokensFrom(slots, 0, Slot(|slots|, |history|)) == SinceWrap(|slots|, history)
  {
    SlotSinceWrap(|slots|, |history|);
    LatestTokens(slots, history, |history| - Slot(|slots|, |history|), Slot(|slots|, |history|));
  }

  /** On any ring, what is below the cursor can count as what was filled in so far. */
  lemma {:induction false} BelowCursor(slots: seq<Option<Token>>, c: nat)
    requires c < |slots|
    ensures Latest(slots, slots[..c]) && Slot(|slots|, c) == c
  {
    forall n | 0 <= n <= c ensures Slot(|slots|, n) == n { SlotSinceWrap(|slots|, n); }
  }

  /** Those are all the tokens exactly when fewer than a ringful were filled in. */
  lemma {:induction false} LateIsAllIff(size: nat, history: seq<Option<Token>>)
    requires size > 0
    ensures SinceWrap(size, history) == history <==> |history| < size
  {
    SlotSinceWrap(size, |history|);
    if |history| < size {
      assert history[0..] == history;
    } else {
      assert |SinceWrap(size, history)| < |history|;
    }
  }

  /** Tokens the device can read. */
  function Readable(ts: seq<Token>): (r: seq<Option<Token>>)
    ensures |r| == |ts| && forall i :: 0 <= i < |ts| ==> r[i] == Some(ts[i])
  {
    seq(|ts|, i requires 0 <= i < |ts| => Some(ts[i]))
  }

  function Flatten(batches: seq<seq<Token>>): seq<Token> {
    if batches == [] then [] else Flatten(batches[..|batches| - 1]) + batches[|batches| - 1]
  }

  lemma {:induction false} ReadableConcat(a: seq<Token>, b: seq<Token>)
    ensures Readable(a + b) == Readable(a) + Readable(b)
  {
  }

  lemma {:induction false} ReadableMore(history: seq<Option<Token>>, batch: seq<Token>, i: nat)
    requires i < |batch|
    ensures history + Readable(batch[..i + 1]) == (history + Readable(batch[..i])) + [Some(batch[i])]
  {
    assert batch[..i + 1] == batch[..i] + [batch[i]];
  }

  /** The responses to the next `k` tokens from slot `c` on, in ring order. */
  function Script(f: Option<Token> -> seq<Response>, slots: seq<Option<Token>>, c: nat, k: nat): seq<Response>
    requires c < |slots| && k <= |slots|
  {
    if k == 0 then [] else Script(f, slots, c, k - 1) + f(slots[Ahead(|slots|, c, k - 1)])
  }

  lemma {:induction false} ScriptIsFlatMap(f: Option<Token> -> seq<Response>, slots: seq<Option<Token>>, c: nat, k: nat)
    requires c < |slots| && k <= |slots|
    ensures Script(f, slots, c, k) == FlatMap(f, TokensFrom(slots, c, k))
  {
    if k > 0 {
      ScriptIsFlatMap(f, slots, c, k - 1);
      FlatMapSnoc(f, TokensFrom(slots, c, k - 1), slots[Ahead(|slots|, c, k - 1)]);
    }
  }

  /** One more cursor write extends the concatenation by its batch's responses. */
  lemma {:induction false} SessionStep(stream: nat, p0: seq<Response>, p: seq<Response>, p': seq<Response>,
                                       batches: seq<seq<Token>>, i: nat)
    requires i < |batches|
    requires p == p0 + PrescribedAll(stream, Readable(Flatten(batches[..i])))
    requires p' == p + PrescribedAll(stream, Readable(batches[i]))
    ensures p' == p0 + PrescribedAll(stream, Readable(Flatten(batches[..i + 1])))
  {
    var done, batch := Flatten(batches[..i]), batches[i];
    assert batches[..i + 1][..i] == batches[..i];
    ReadableConcat(done, batch);
    PrescribedConcat(stream, Readable(done), Readable(batch));
    Assoc(p0, PrescribedAll(stream, Readable(done)), PrescribedAll(stream, Readable(batch)));
  }

  /** Guest memory after the frames of the pins, from pin `i` on, were delivered. */
  function PinsWritten(io: Frames.Io, mem: map<nat, nat>, pins: seq<Pin>, i: nat): map<nat, nat>
    decreases |pins| - i
  {
    if i >= |pins| then mem
    else PinsWritten(io, if pins[i].addr == 0 then mem else Frames.WithFrame(io, mem, pins[i].addr), pins, i + 1)
  }

  /** `stamps[i]` is guest memory when response `i` was posted: a finished pin's frame was in it. */
  ghost predicate Stamped(io: Frames.Io, posted: seq<Response>, stamps: seq<map<nat, nat>>) {
    && |posted| == |stamps|
    && forall i :: 0 <= i < |posted| && posted[i].kind == PIN_DATA_READY ==>
      Frames.FrameIn(io, stamps[i], posted[i].addr)
  }

  lemma {:induction false} StampMore(io: Frames.Io, posted: seq<Response>, stamps: seq<map<nat, nat>>,
                                     r: Response, mem: map<nat, nat>)
    requires Stamped(io, posted, stamps) && (r.kind == PIN_DATA_READY ==> Frames.FrameIn(io, mem, r.addr))
    ensures Stamped(io, posted + [r], stamps + [mem])
  {
  }

  /** One more pin done, on the responses still to come. */
  lemma {:induction false} PinsStep(
    usable: bool, stream: nat, pins: seq<Pin>, i: nat, before: seq<Response>, after: seq<Response>)
    requires i < |pins|
    requires after == before + if pins[i].addr == 0 || !usable then []
                               else [Response(PIN_DATA_READY, stream, i, pins[i].addr, pins[i].bufId)]
    ensures usable ==> after + PinsReady(stream, pins, i + 1) == before + PinsReady(stream, pins, i)
    ensures !usable ==> after == before
  {
    var rest := PinsReady(stream, pins, i + 1);
    if pins[i].addr == 0 || !usable {
      assert before + [] == before;
    } else {
      Assoc(before, [Response(PIN_DATA_READY, stream, i, pins[i].addr, pins[i].bufId)], rest);
    }
  }

  /** The device model's state for one stream, with the guest memory it shares with the driver. */
  class Device {
    const stream: nat
    /** The send ring in guest memory. */
    const slots: array<Option<Token>>
    /** SEND_WR_POS register. */
    var sendWr: nat
    /** `is_send_wr_seen`. */
    var wrSeen: nat
    /** The receive ring: slots in guest memory, the two cursors, and how many were taken so far. */
    const recvSlots: array<Response>
    var recvWr: nat
    var recvRd: nat
    ghost var taken: nat
    /** Everything posted in this session. */
    ghost var posted: seq<Response>
    /** Guest memory when each of them was posted. */
    ghost var stamps: seq<map<nat, nat>>
    /** SW and CSI-2 port 0 bits of the unispart status, and the IS bit of the buttress status. */
    var swPending: bool
    var csiPending: bool
    var isPending: bool
    /** The receive queue's descriptor is loaded and sound, and its buffer is mapped. */
    const recvUsable: bool
    /** `is_send_q_loaded`. */
    var sendLoaded: bool
    /** How the device reaches frame buffers, and what is in them. */
    const io: Frames.Io
    const guest: Frames.Guest

    /** As long as the driver keeps up, the receive ring holds what was posted and not yet taken. */
    ghost predicate Valid()
      reads this, recvSlots
    {
      && slots.Length > 0 && wrSeen < slots.Length && recvSlots.Length > 0 && slots as object != recvSlots as object
      && (Fits() ==> RecvHolds()) && Stamped(io, posted, stamps)
    }

    /** There is room on the receive ring for everything posted and not yet taken. */
    ghost predicate Fits()
      reads this
    {
      |posted| < taken + recvSlots.Length
    }

    /** The receive ring holds exactly the responses posted and not yet taken. */
    ghost predicate RecvHolds()
      reads this, recvSlots
    {
      Holds(recvSlots.Length, recvSlots[..], recvWr, recvRd, posted, taken)
    }

    /** What becomes of responses: without a usable receive queue they are dropped. */
    ghost function Sent(rs: seq<Response>): seq<Response> {
      if recvUsable then rs else []
    }

    constructor (stream: nat, slots: array<Option<Token>>, recvSlots: array<Response>,
                 io: Frames.Io, guest: Frames.Guest, sendLoaded: bool, recvUsable: bool)
      requires slots.Length > 0 && recvSlots.Length > 0 && slots as object != recvSlots as object
      ensures Valid() && posted == [] && sendWr == wrSeen
      ensures this.stream == stream && this.slots == slots && this.recvSlots == recvSlots
      ensures this.io == io && this.guest == guest && this.sendLoaded == sendLoaded && this.recvUsable == recvUsable
    {
      this.stream, this.slots, this.recvSlots, this.io, this.guest := stream, slots, recvSlots, io, guest;
      this.sendLoaded, this.recvUsable := sendLoaded, recvUsable;
      sendWr, wrSeen, recvWr, recvRd, taken, posted, stamps := 0, 0, 0, 0, 0, [], [];
      swPending, csiPending, isPending := false, false, false;
    }

    /**
     * `ipu4_post_response_full`: the response goes into the slot at the receive cursor, the cursor
     * moves on, and both interrupt bits are set.  The device does not look for room: the ring's
     * content is what was posted as long as the driver keeps up.  If the receive queue cannot be
     * used nothing happens.  A pin is reported only when its frame is in memory.
     */
    method Post(r: Response)
      requires Valid() && (r.kind == PIN_DATA_READY ==> Frames.FrameIn(io, guest.mem, r.addr))
      modifies this`recvWr, this`posted, this`stamps, this`swPending, this`isPending, recvSlots
      ensures Valid() && posted == old(posted) + Sent([r])
      ensures recvUsable ==> swPending && isPending && stamps == old(stamps) + [guest.mem]
      ensures !recvUsable ==> swPending == old(swPending) && isPending == old(isPending) && recvWr == old(recvWr)
    {
      if !recvUsable { return; }
      ghost var before := recvSlots[..];
      var wr := recvWr;
      if wr >= recvSlots.Length { wr := 0; }
      recvSlots[wr] := r;
      ModOnce(wr + 1, recvSlots.Length);
      if |posted| + 1 < taken + recvSlots.Length {
        FillSafe(recvSlots.Length, before, wr, recvRd, posted, taken, r);
        assert recvSlots[..] == before[wr := r];
        Publish(recvSlots.Length, recvSlots[..], wr, recvRd, posted, taken, r);
      }
      recvWr := (wr + 1) % recvSlots.Length;
      StampMore(io, posted, stamps, r, guest.mem);
      posted, stamps := posted + [r], stamps + [guest.mem];
      swPending, isPending := true, true;
    }

    /** One pin of a frame: write the pattern into its buffer, then say so; a pin without an address is skipped. */
    method DeliverPin(pin: Pin, i: nat)
      requires Valid()
      modifies this`recvWr, this`posted, this`stamps, this`swPending, this`isPending, recvSlots, guest
      ensures Valid()
      ensures pin.addr == 0 ==>
        && posted == old(posted) && guest.mem == old(guest.mem)
        && swPending == old(swPending) && isPending == old(isPending)
      ensures pin.addr != 0 ==>
        && guest.mem == Frames.WithFrame(io, old(guest.mem), pin.addr)
        && posted == old(posted) + Sent([Response(PIN_DATA_READY, stream, i, pin.addr, pin.bufId)])
      ensures pin.addr != 0 && recvUsable ==> swPending && isPending
      ensures !recvUsable ==> swPending == old(swPending) && isPending == old(isPending)
    {
      if pin.addr == 0 { return; }
      ghost var before := guest.mem;
      guest.WritePattern(io, pin.addr, io.frame, 0);
      assert guest.mem == Frames.WithFrame(io, before, pin.addr);
      Post(Response(PIN_DATA_READY, stream, i, pin.addr, pin.bufId));
    }

    /**
     * `ipu4_deliver_frame`: the CSI-2 receiver's frame-start bit, SOF, and then for each pin with an
     * address the frame in its buffer and one PIN_DATA_READY.
     */
    method DeliverFrame(pins: Option<seq<Pin>>)
      requires Valid()
      modifies this`recvWr, this`posted, this`stamps, this`swPending, this`csiPending, this`isPending, recvSlots, guest
      ensures Valid() && posted == old(posted) + Sent(FrameResponses(stream, pins))
      ensures csiPending == (old(csiPending) || pins.Some?)
      ensures guest.mem == if pins.None? then old(guest.mem) else PinsWritten(io, old(guest.mem), pins.value, 0)
      ensures old(swPending && isPending) || posted != old(posted) ==> swPending && isPending
    {
      if pins.None? { return; }
      csiPending := true;
      Post(Ack(FRAME_SOF, stream));
      var i := 0;
      ghost var all, p0 := pins.value, old(posted);
      while i < |pins.value|
        invariant Valid() && i <= |pins.value| && csiPending
        invariant posted + Sent(PinsReady(stream, all, i)) == p0 + Sent(FrameResponses(stream, pins))
        invariant PinsWritten(io, guest.mem, all, i) == PinsWritten(io, old(guest.mem), all, 0)
        invariant if recvUsable then swPending && isPending
                  else swPending == old(swPending) && isPending == old(isPending)
      {
        ghost var before := posted;
        DeliverPin(pins.value[i], i);
        PinsStep(recvUsable, stream, all, i, before, posted);
        i := i + 1;
      }
    }

    /** STREAM_START_AND_CAPTURE: the acknowledgement, then the frame. */
    method StartAndCapture(pins: Option<seq<Pin>>)
      requires Valid()
      modifies this`recvWr, this`posted, this`stamps, this`swPending, this`csiPending, this`isPending, recvSlots, guest
      ensures Valid()
      ensures posted == old(posted) + Sent([Ack(START_AND_CAPTURE_ACK, stream)] + FrameResponses(stream, pins))
      ensures old(swPending && isPending) || posted != old(posted) ==> swPending && isPending
    {
      ghost var p0 := posted;
      Post(Ack(START_AND_CAPTURE_ACK, stream));
      DeliverFrame(pins);
      Assoc(p0, [Ack(START_AND_CAPTURE_ACK, stream)], FrameResponses(stream, pins));
    }

    /** The dispatch on `token.send_type`. */
    method Respond(t: Option<Token>)
      requires Valid()
      modifies this`recvWr, this`posted, this`stamps, this`swPending, this`csiPending, this`isPending, recvSlots, guest
      ensures Valid() && posted == old(posted) + Sent(Prescribed(stream, t))
      ensures old(swPending && isPending) || posted != old(posted) ==> swPending && isPending
    {
      if t.None? { return; }
      var kind := t.value.sendType;
      if kind == STREAM_OPEN { Post(Ack(OPEN_DONE, stream)); }
      else if kind == STREAM_START { Post(Ack(START_ACK, stream)); }
      else if kind == STREAM_START_AND_CAPTURE { StartAndCapture(t.value.pins); }
      else if kind == STREAM_CAPTURE { DeliverFrame(t.value.pins); }
      else if kind == STREAM_FLUSH { Post(Ack(FLUSH_ACK, stream)); }
      else if kind == STREAM_CLOSE { Post(Ack(CLOSE_ACK, stream)); }
    }

    /** `slot = (slot + 1) % q->size`. */
    method NextSlot(slot: nat) returns (next: nat)
      requires slot < slots.Length
      ensures next == Bump(slots.Length, slot)
    {
      ModOnce(slot + 1, slots.Length);
      next := (slot + 1) % slots.Length;
    }

    /** The responses sent after the first `i` tokens from slot `prev` on, when `p0` were sent before. */
    ghost function SentUpTo(p0: seq<Response>, ring: seq<Option<Token>>, prev: nat, i: nat): seq<Response>
      requires prev < |ring| && i <= |ring|
    {
      p0 + Sent(Script(Protocol(stream), ring, prev, i))
    }

    /** One round of the loop of `ipu4_handle_send_bump`: token `i` from slot `prev` on. */
    method RespondSlot(
      slot: nat, ghost prev: nat, ghost i: nat, ghost p0: seq<Response>, ghost ring: seq<Option<Token>>)
      returns (next: nat)
      requires Valid() && ring == slots[..] && prev < |ring| && i < |ring| && slot == Ahead(|ring|, prev, i)
      requires posted == SentUpTo(p0, ring, prev, i)
      modifies this`recvWr, this`posted, this`stamps, this`swPending, this`csiPending, this`isPending, recvSlots, guest
      ensures Valid() && ring == slots[..] && posted == SentUpTo(p0, ring, prev, i + 1)
      ensures next == Ahead(|ring|, prev, i + 1)
    {
      var t := slots[slot];
      Respond(t);
      Assoc(p0, Script(Protocol(stream), ring, prev, i), Prescribed(stream, t));
      next := NextSlot(slot);
    }

    /** The loop of `ipu4_handle_send_bump` over the `pushed` tokens from slot `prev` on. */
    method RespondTo(prev: nat, pushed: nat)
      requires Valid() && prev < slots.Length && pushed < slots.Length
      modifies this`recvWr, this`posted, this`stamps, this`swPending, this`csiPending, this`isPending, recvSlots, guest
      ensures Valid() && posted == SentUpTo(old(posted), slots[..], prev, pushed)
    {
      ghost var p0, ring := posted, slots[..];
      var slot: nat, i: nat := prev, 0;
      assert p0 + Sent([]) == p0;
      while i < pushed
        invariant Valid() && ring == slots[..] && i <= pushed && slot == Ahead(|ring|, prev, i)
        invariant posted == SentUpTo(p0, ring, prev, i)
      {
        slot := RespondSlot(slot, prev, i, p0, ring);
        i := i + 1;
      }
    }

    /** The slot the next cursor write is answered from: loading the descriptor resets the cursor seen. */
    ghost function From(): nat
      reads this
    {
      if sendLoaded then wrSeen else 0
    }

    /** `ipu4_get_send_queue`; `loadable` says whether the descriptor can be read by now. */
    method GetSendQueue(loadable: bool) returns (ok: bool)
      requires slots.Length > 0 && wrSeen < slots.Length
      modifies this`sendLoaded, this`wrSeen
      ensures ok == sendLoaded == (old(sendLoaded) || loadable) && wrSeen < slots.Length
      ensures wrSeen == if ok then old(From()) else old(wrSeen)
    {
      if !sendLoaded && loadable { sendLoaded, wrSeen := true, 0; }
      ok := sendLoaded;
    }

    /**
     * `ipu4_handle_send_bump`: responds, in ring order, to exactly the tokens between the slot it
     * answers from and the new cursor, across the wrap and however many they are.  Before the descriptor
     * is loaded it only records the cursor.
     */
    method HandleSendBump(newWr: nat, loadable: bool, ghost k: nat)
      requires Valid() && newWr < slots.Length
      requires k < slots.Length && Ahead(slots.Length, From(), k) == newWr
      modifies this`sendLoaded, this`wrSeen, this`recvWr, this`posted, this`stamps,
               this`swPending, this`csiPending, this`isPending, recvSlots, guest
      ensures Valid() && wrSeen == newWr && sendLoaded == (old(sendLoaded) || loadable)
      ensures posted == old(posted) +
        if sendLoaded then Sent(PrescribedAll(stream, TokensFrom(slots[..], old(From()), k))) else []
    {
      var loaded := GetSendQueue(loadable);
      var prev, size := wrSeen, slots.Length;
      if !loaded {
        wrSeen := newWr;
        return;
      }
      PushedCount(size, prev, k);
      if newWr == prev { return; }
      var pushed := (newWr + size - prev) % size;
      wrSeen := newWr;
      RespondTo(prev, pushed);
      ScriptIsFlatMap(Protocol(stream), slots[..], prev, k);
    }

    /** The driver fills `batch` into the slots from its cursor on; `w` is the cursor after it, `history` what was
        on the ring so far. */
    method FillBatch(batch: seq<Token>, ghost history: seq<Option<Token>>) returns (w: nat)
      requires Latest(slots[..], history) && sendWr == Slot(slots.Length, |history|)
      modifies slots
      ensures Latest(slots[..], history + Readable(batch)) && w == Slot(slots.Length, |history| + |batch|)
    {
      w := sendWr;
      var i: nat := 0;
      assert history + Readable([]) == history;
      while i < |batch|
        invariant i <= |batch| && w == Slot(slots.Length, |history| + i)
        invariant Latest(slots[..], history + Readable(batch[..i]))
      {
        ghost var before := slots[..];
        slots[w] := Some(batch[i]);
        LatestMore(before, history + Readable(batch[..i]), Some(batch[i]));
        assert slots[..] == before[w := Some(batch[i])];
        ReadableMore(history, batch, i);
        w, i := Bump(slots.Length, w), i + 1;
      }
      assert batch[..i] == batch;
    }

    /** The same on a ring with any past: the window from the cursor on holds the batch. */
    method FillWindow(batch: seq<Token>) returns (w: nat)
      requires sendWr < slots.Length && |batch| < slots.Length
      modifies slots
      ensures w == Ahead(slots.Length, sendWr, |batch|)
      ensures TokensFrom(slots[..], sendWr, |batch|) == Readable(batch)
    {
      ghost var before := slots[..][..sendWr];
      BelowCursor(slots[..], sendWr);
      w := FillBatch(batch, before);
      SlotAhead(slots.Length, sendWr, |batch|);
      LatestTokens(slots[..], before + Readable(batch), sendWr, |batch|);
      assert (before + Readable(batch))[sendWr..sendWr + |batch|] == Readable(batch);
    }

    /** One cursor write of the driver: fill the slots, then publish them all at once. */
    method PushBatch(batch: seq<Token>)
      requires Valid() && sendWr == wrSeen && |batch| < slots.Length && sendLoaded && recvUsable
      modifies this`sendWr, this`sendLoaded, this`wrSeen, this`recvWr, this`posted, this`stamps,
               this`swPending, this`csiPending, this`isPending, slots, recvSlots, guest
      ensures Valid() && sendWr == wrSeen && sendLoaded
      ensures posted == old(posted) + PrescribedAll(stream, Readable(batch))
    {
      var w := FillWindow(batch);
      sendWr := w;
      HandleSendBump(w, true, |batch|);
    }

    /**
     * A whole session of cursor writes, each covering any number of tokens the ring can hold: the
     * responses posted are the concatenation, over all tokens in the order they were pushed, of each
     * token's prescribed responses.
     */
    method Session(batches: seq<seq<Token>>)
      requires Valid() && sendWr == wrSeen && sendLoaded && recvUsable
      requires forall b :: b in batches ==> |b| < slots.Length
      modifies this`sendWr, this`sendLoaded, this`wrSeen, this`recvWr, this`posted, this`stamps,
               this`swPending, this`csiPending, this`isPending, slots, recvSlots, guest
      ensures Valid() && sendWr == wrSeen && sendLoaded
      ensures posted == old(posted) + PrescribedAll(stream, Readable(Flatten(batches)))
    {
      var i := 0;
      while i < |batches|
        invariant i <= |batches| && Valid() && sendWr == wrSeen && sendLoaded
        invariant posted == old(posted) + PrescribedAll(stream, Readable(Flatten(batches[..i])))
      {
        ghost var before := posted;
        PushBatch(batches[i]);
        SessionStep(stream, old(posted), before, posted, batches, i);
        i := i + 1;
      }
      assert batches[..i] == batches;
    }

    /**
     * Cursor writes before the descriptor can be read, and the first one after: the device then answers
     * the tokens since the cursor last passed slot 0, which are all of them if there were fewer than a
     * ringful (`LateIsAllIff`); the others are never answered.
     */
    method LateLoad(batches: seq<seq<Token>>, last: seq<Token>)
      requires Valid() && sendWr == wrSeen == 0 && !sendLoaded && recvUsable
      modifies this`sendWr, this`sendLoaded, this`wrSeen, this`recvWr, this`posted, this`stamps,
               this`swPending, this`csiPending, this`isPending, slots, recvSlots, guest
      ensures Valid() && sendWr == wrSeen && sendLoaded
      ensures var all := Readable(Flatten(batches) + last);
        && posted == old(posted) + PrescribedAll(stream, SinceWrap(slots.Length, all))
        && (|all| < slots.Length ==> posted == old(posted) + PrescribedAll(stream, all))
    {
      EarlyWrites(batches);
      ghost var done := Readable(Flatten(batches));
      var w := FillBatch(last, done);
      ReadableConcat(Flatten(batches), last);
      FirstAnswer(w, done + Readable(last));
      LateIsAllIff(slots.Length, done + Readable(last));
    }

    /** The cursor writes that are only recorded. */
    method EarlyWrites(batches: seq<seq<Token>>)
      requires Valid() && sendWr == wrSeen == 0 && !sendLoaded
      modifies this`sendWr, this`sendLoaded, this`wrSeen, this`recvWr, this`posted, this`stamps,
               this`swPending, this`csiPending, this`isPending, slots, recvSlots, guest
      ensures Valid() && !sendLoaded && posted == old(posted)
      ensures Latest(slots[..], Readable(Flatten(batches)))
      ensures sendWr == wrSeen == Slot(slots.Length, |Flatten(batches)|)
    {
      var i := 0;
      while i < |batches|
        invariant i <= |batches| && Valid() && !sendLoaded && posted == old(posted)
        invariant Latest(slots[..], Readable(Flatten(batches[..i])))
        invariant sendWr == wrSeen == Slot(slots.Length, |Flatten(batches[..i])|)
      {
        ghost var done := Flatten(batches[..i]);
        var w := FillBatch(batches[i], Readable(done));
        sendWr := w;
        HandleSendBump(w, false, w);
        assert batches[..i + 1][..i] == batches[..i];
        ReadableConcat(done, batches[i]);
        i := i + 1;
      }
      assert batches[..i] == batches;
    }

    /** The first cursor write that finds the descriptor. */
    method FirstAnswer(w: nat, ghost all: seq<Option<Token>>)
      requires Valid() && !sendLoaded && recvUsable && Latest(slots[..], all) && w == Slot(slots.Length, |all|)
      modifies this`sendWr, this`sendLoaded, this`wrSeen, this`recvWr, this`posted, this`stamps,
               this`swPending, this`csiPending, this`isPending, recvSlots, guest
      ensures Valid() && sendWr == wrSeen && sendLoaded
      ensures posted == old(posted) + PrescribedAll(stream, SinceWrap(slots.Length, all))
    {
      LateTokens(slots[..], all);
      sendWr := w;
      HandleSendBump(w, true, w);
    }
  }
}
