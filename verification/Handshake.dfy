/**
 * What the driver makes of the device's answers.  Every command but a capture has a thread of the driver
 * waiting for it (kernel/ipu4/ipu6-isys-video.c:650-664,693-713,730-740,761-771,787-796); the interrupt
 * handler completes a wait by the kind of each response, counts frame starts and gives finished buffers
 * their frame number (kernel/ipu4/ipu6-isys.c:1433-1485, kernel/ipu4/ipu6-isys-queue.c:849-861).  The numbers
 * below are the driver's own (kernel/ipu4/ipu6-fw-isys.h:109-140).
 */
module Handshake {
  import opened Common
  import opened Responder
  import Sof = SofRing
  import Del = Delivery

  const SEND_OPEN: nat := 0
  const SEND_START: nat := 1
  const SEND_START_AND_CAPTURE: nat := 2
  const SEND_CAPTURE: nat := 3
  const SEND_STOP: nat := 4
  const SEND_FLUSH: nat := 5
  const SEND_CLOSE: nat := 6

  const RESP_OPEN_DONE: nat := 0
  const RESP_START_ACK: nat := 1
  const RESP_START_AND_CAPTURE_ACK: nat := 2
  const RESP_STOP_ACK: nat := 4
  const RESP_FLUSH_ACK: nat := 5
  const RESP_CLOSE_ACK: nat := 6
  const RESP_PIN_DATA_READY: nat := 7
  const RESP_FRAME_SOF: nat := 9

  /** The four completions of a stream. */
  datatype Wait = OpenWait | StartWait | StopWait | CloseWait

  /** Which of them the sender of a command waits for; a capture is not waited for, a stop never sent. */
  function Awaits(sendType: nat): seq<Wait> {
    if sendType == SEND_OPEN then [OpenWait]
    else if sendType == SEND_START || sendType == SEND_START_AND_CAPTURE then [StartWait]
    else if sendType == SEND_FLUSH then [StopWait]
    else if sendType == SEND_CLOSE then [CloseWait]
    else []
  }

  /** Which of them the handler completes on a response. */
  function Completes(kind: nat): seq<Wait> {
    if kind == RESP_OPEN_DONE then [OpenWait]
    else if kind == RESP_CLOSE_ACK then [CloseWait]
    else if kind == RESP_START_ACK || kind == RESP_START_AND_CAPTURE_ACK then [StartWait]
    else if kind == RESP_STOP_ACK || kind == RESP_FLUSH_ACK then [StopWait]
    else []
  }

  function OnResponse(): Response -> seq<Wait> { (r: Response) => Completes(r.kind) }

  /** The waits completed by a sequence of responses, in order. */
  function Completed(rs: seq<Response>): seq<Wait> {
    FlatMap(OnResponse(), rs)
  }

  lemma {:induction false} CompletedConcat(a: seq<Response>, b: seq<Response>)
    ensures Completed(a + b) == Completed(a) + Completed(b)
  {
    FlatMapConcat(OnResponse(), a, b);
  }

  lemma {:induction false} CompletedOne(r: Response)
    ensures Completed([r]) == Completes(r.kind)
  {
    FlatMapSnoc(OnResponse(), [], r);
    assert [] + [r] == [r] && OnResponse()(r) == Completes(r.kind);
  }

  // ----- the shape of a frame

  ghost predicate OnlyPins(rs: seq<Response>) {
    forall i :: 0 <= i < |rs| ==> rs[i].kind == RESP_PIN_DATA_READY
  }

  /** Response `r` is about pin `r.pinId`: its address, which is not 0, and its buffer. */
  ghost predicate AboutPin(r: Response, pins: seq<Pin>) {
    && r.kind == RESP_PIN_DATA_READY && r.pinId < |pins|
    && pins[r.pinId].addr != 0 && r.addr == pins[r.pinId].addr && r.bufId == pins[r.pinId].bufId
  }

  ghost predicate Mentions(rs: seq<Response>, p: nat) {
    exists k :: 0 <= k < |rs| && rs[k].pinId == p
  }

  /** The responses are about the pins with an address, from pin `i` on, each once and in pin order. */
  ghost predicate PinsInOrder(rs: seq<Response>, pins: seq<Pin>, i: nat) {
    && (forall k :: 0 <= k < |rs| ==> AboutPin(rs[k], pins) && i <= rs[k].pinId)
    && (forall j, k :: 0 <= j < k < |rs| ==> rs[j].pinId < rs[k].pinId)
    && (forall p :: i <= p < |pins| && pins[p].addr != 0 ==> Mentions(rs, p))
  }

  lemma {:induction false} OnePinMore(r: Response, rest: seq<Response>, pins: seq<Pin>, i: nat)
    requires PinsInOrder(rest, pins, i + 1) && AboutPin(r, pins) && r.pinId == i
    ensures PinsInOrder([r] + rest, pins, i)
  {
    var rs := [r] + rest;
    forall j, k | 0 <= j < k < |rs| ensures rs[j].pinId < rs[k].pinId {
      assert rs[k] == rest[k - 1];
      if j > 0 { assert rs[j] == rest[j - 1]; }
    }
    forall p | i <= p < |pins| && pins[p].addr != 0 ensures Mentions(rs, p) {
      if p == i {
        assert rs[0].pinId == i;
      } else {
        assert Mentions(rest, p);
        var k :| 0 <= k < |rest| && rest[k].pinId == p;
        assert rs[k + 1].pinId == p;
      }
    }
  }

  lemma {:induction false} PinsExact(stream: nat, pins: seq<Pin>, i: nat)
    ensures PinsInOrder(PinsReady(stream, pins, i), pins, i)
    decreases |pins| - i
  {
    if i < |pins| {
      PinsExact(stream, pins, i + 1);
      if pins[i].addr != 0 {
        var r := Response(PIN_DATA_READY, stream, i, pins[i].addr, pins[i].bufId);
        OnePinMore(r, PinsReady(stream, pins, i + 1), pins, i);
      }
    }
  }

  /** A frame is one start and then, each once and in pin order, its pins. */
  lemma {:induction false} FrameExact(stream: nat, pins: seq<Pin>)
    ensures var rs := FrameResponses(stream, Some(pins));
      rs != [] && rs[0].kind == RESP_FRAME_SOF && PinsInOrder(rs[1..], pins, 0)
  {
    PinsExact(stream, pins, 0);
    assert FrameResponses(stream, Some(pins))[1..] == PinsReady(stream, pins, 0);
  }

  /** Frames complete no wait. */
  lemma {:induction false} FrameCompletesNothing(rs: seq<Response>)
    requires forall i :: 0 <= i < |rs| ==> rs[i].kind == RESP_FRAME_SOF || rs[i].kind == RESP_PIN_DATA_READY
    ensures Completed(rs) == []
  {
    if rs != [] {
      FrameCompletesNothing(rs[..|rs| - 1]);
      assert OnResponse()(rs[|rs| - 1]) == [];
    }
  }

  lemma {:induction false} FrameKinds(stream: nat, pins: Option<seq<Pin>>)
    ensures forall i :: 0 <= i < |FrameResponses(stream, pins)| ==>
      var r := FrameResponses(stream, pins)[i]; r.kind == RESP_FRAME_SOF || r.kind == RESP_PIN_DATA_READY
  {
    if pins.Some? { PinsExact(stream, pins.value, 0); }
  }

  // ----- commands and their answers

  /** The commands that carry a frame's pins. */
  predicate Captures(sendType: nat) { sendType == SEND_CAPTURE || sendType == SEND_START_AND_CAPTURE }

  /** The commands that are acknowledged. */
  predicate Acked(sendType: nat) { Awaits(sendType) != [] }

  /**
   * The answer to a command: if it is one of those waited for, first its acknowledgement, whose kind is the
   * command's own number; then, if it captures, its frame; and nothing else.
   */
  lemma {:induction false} AnswerShape(stream: nat, t: Token)
    ensures var rs := Prescribed(stream, Some(t));
      var ack := if Acked(t.sendType) then 1 else 0;
      && ack <= |rs| && (Acked(t.sendType) ==> rs[0] == Response(t.sendType, stream, 0, 0, 0))
      && rs[ack..] == if Captures(t.sendType) then FrameResponses(stream, t.pins) else []
  {
    if t.sendType == SEND_START_AND_CAPTURE {
      assert Prescribed(stream, Some(t))[1..] == FrameResponses(stream, t.pins);
    }
  }

  /**
   * Driver and device agree: the answer to every command completes exactly the wait its sender is in, once,
   * and the answer to a capture none.
   */
  lemma {:induction false} AnswerCompletes(stream: nat, t: Token)
    ensures Completed(Prescribed(stream, Some(t))) == Awaits(t.sendType)
  {
    var rs := Prescribed(stream, Some(t));
    var ack := if Acked(t.sendType) then 1 else 0;
    AnswerShape(stream, t);
    FrameKinds(stream, t.pins);
    FrameCompletesNothing(rs[ack..]);
    CompletedConcat(rs[..ack], rs[ack..]);
    assert rs == rs[..ack] + rs[ack..];
    if ack == 1 {
      assert rs[..1] == [rs[0]];
      CompletedOne(rs[0]);
    }
  }

  /** The device's dispatch on one readable token completes exactly the awaited wait. */
  method RespondCompletes(d: Device, t: Token)
    requires d.Valid() && d.recvUsable
    modifies d, d.recvSlots, d.guest
    ensures d.Valid() && old(d.posted) <= d.posted
    ensures Completed(d.posted[|old(d.posted)|..]) == Awaits(t.sendType)
  {
    ghost var before := d.posted;
    d.Respond(Some(t));
    assert d.posted[|before|..] == Prescribed(d.stream, Some(t));
    AnswerCompletes(d.stream, t);
  }

  /** The waits of a sequence of commands; a slot the device cannot read is not answered. */
  function WaitsOf(ts: seq<Option<Token>>): seq<Wait> {
    if ts == [] then []
    else WaitsOf(ts[..|ts| - 1]) + if ts[|ts| - 1].Some? then Awaits(ts[|ts| - 1].value.sendType) else []
  }

  lemma {:induction false} AllComplete(stream: nat, ts: seq<Option<Token>>)
    ensures Completed(PrescribedAll(stream, ts)) == WaitsOf(ts)
  {
    if ts != [] {
      var n := |ts| - 1;
      AllComplete(stream, ts[..n]);
      PrescribedSnoc(stream, ts);
      CompletedConcat(PrescribedAll(stream, ts[..n]), Prescribed(stream, ts[n]));
      if ts[n].Some? { AnswerCompletes(stream, ts[n].value); }
    }
  }

  lemma {:induction false} CompletedPrefix(a: seq<Response>, b: seq<Response>)
    requires a <= b
    ensures Completed(a) <= Completed(b)
  {
    CompletedConcat(a, b[|a|..]);
    assert a + b[|a|..] == b;
  }

  /**
   * In every run, on every stream, the waits completed are those of the commands published so far, each once
   * and in order, as far as the handler has come; all of them once nothing is left to do, a state that
   * device and handler can always reach (`Delivery.Settle`).
   */
  lemma {:induction false} RunCompletes(run: seq<Del.Sys>, labels: seq<Del.Label>, n: nat, k: nat)
    requires Del.Run(run, labels) && n < |run| && k < |run[n].sends|
    ensures var s := run[n]; var done := Completed(Del.OfStream(s.recv.handled, k));
      && done <= WaitsOf(s.sends[k].pushed)
      && (s.h == Del.Idle && s.Quiet() && !s.msi && !s.cut ==> done == WaitsOf(s.sends[k].pushed))
      && (Del.Settled(s) ==> done == WaitsOf(s.sends[k].pushed))
  {
    Del.RunDeliversPrescribed(run, labels, n, k);
    var s := run[n];
    CompletedPrefix(Del.OfStream(s.recv.handled, k), PrescribedAll(k, s.sends[k].pushed));
    AllComplete(k, s.sends[k].pushed);
    if Del.Settled(s) { Del.SettledIsAll(run, labels, n, k); }
  }

  // ----- frame numbers

  /** The commands that deliver a frame: a capture whose pins can be read. */
  predicate Delivers(t: Option<Token>) {
    t.Some? && Captures(t.value.sendType) && t.value.pins.Some?
  }

  /** Pins with an address, from pin `i` on. */
  function PinCount(pins: seq<Pin>, i: nat): nat
    decreases |pins| - i
  {
    if i >= |pins| then 0 else (if pins[i].addr == 0 then 0 else 1) + PinCount(pins, i + 1)
  }

  /** Frames delivered by a sequence of commands. */
  function Frames(ts: seq<Option<Token>>): nat {
    if ts == [] then 0 else Frames(ts[..|ts| - 1]) + if Delivers(ts[|ts| - 1]) then 1 else 0
  }

  function Times(x: nat, n: nat): (s: seq<nat>)
    ensures |s| == n && forall i :: 0 <= i < n ==> s[i] == x
  {
    seq(n, _ => x)
  }

  /** The frame number every finished buffer should get: the k-th frame's, counted from 0, get k. */
  function Numbers(ts: seq<Option<Token>>): seq<nat> {
    if ts == [] then []
    else
      var init, t := ts[..|ts| - 1], ts[|ts| - 1];
      Numbers(init) + if Delivers(t) then Times(Frames(init) % U32, PinCount(t.value.pins.value, 0)) else []
  }

  /** Frame starts among the responses. */
  function Starts(rs: seq<Response>): nat {
    if rs == [] then 0 else Starts(rs[..|rs| - 1]) + if rs[|rs| - 1].kind == RESP_FRAME_SOF then 1 else 0
  }

  /** The number of the latest frame start, if `n` came before these responses, for every pin among them. */
  function LatestStarts(rs: seq<Response>, n: nat): seq<nat> {
    if rs == [] then []
    else
      var init, r := rs[..|rs| - 1], rs[|rs| - 1];
      LatestStarts(init, n) + if r.kind == RESP_PIN_DATA_READY then [(n + Starts(init) + U32 - 1) % U32] else []
  }

  lemma {:induction false} StartsConcat(a: seq<Response>, b: seq<Response>)
    ensures Starts(a + b) == Starts(a) + Starts(b)
  {
    if b == [] {
      assert a + b == a;
    } else {
      var m := |b| - 1;
      StartsConcat(a, b[..m]);
      assert (a + b)[..|a| + m] == a + b[..m];
    }
  }

  lemma {:induction false} LatestConcat(a: seq<Response>, b: seq<Response>, n: nat)
    ensures LatestStarts(a + b, n) == LatestStarts(a, n) + LatestStarts(b, n + Starts(a))
  {
    if b == [] {
      assert a + b == a;
    } else {
      var m := |b| - 1;
      LatestConcat(a, b[..m], n);
      StartsConcat(a, b[..m]);
      assert (a + b)[..|a| + m] == a + b[..m];
    }
  }

  /** Pins without a frame start between them all get the latest number. */
  lemma {:induction false} PinsNumbered(rs: seq<Response>, n: nat)
    requires OnlyPins(rs)
    ensures Starts(rs) == 0 && LatestStarts(rs, n) == Times((n + U32 - 1) % U32, |rs|)
  {
    if rs != [] {
      PinsNumbered(rs[..|rs| - 1], n);
    }
  }

  lemma {:induction false} PinsCounted(stream: nat, pins: seq<Pin>, i: nat)
    ensures |PinsReady(stream, pins, i)| == PinCount(pins, i) && OnlyPins(PinsReady(stream, pins, i))
    decreases |pins| - i
  {
    if i < |pins| { PinsCounted(stream, pins, i + 1); }
  }

  /** Responses that neither start a frame nor finish a pin. */
  lemma {:induction false} AckNumbers(r: Response, n: nat)
    requires r.kind != RESP_FRAME_SOF && r.kind != RESP_PIN_DATA_READY
    ensures Starts([r]) == 0 && LatestStarts([r], n) == []
  {
    assert [r][..0] == [];
  }

  lemma {:induction false} SofNumbers(r: Response, n: nat)
    requires r.kind == RESP_FRAME_SOF
    ensures Starts([r]) == 1 && LatestStarts([r], n) == []
  {
    assert [r][..0] == [];
  }

  /** A frame: one start, and its number for each of its pins. */
  lemma {:induction false} FrameNumbered(stream: nat, pins: seq<Pin>, n: nat)
    ensures var rs := FrameResponses(stream, Some(pins));
      Starts(rs) == 1 && LatestStarts(rs, n) == Times(n % U32, PinCount(pins, 0))
  {
    var sof, rest := Ack(FRAME_SOF, stream), PinsReady(stream, pins, 0);
    SofNumbers(sof, n);
    PinsCounted(stream, pins, 0);
    PinsNumbered(rest, n + 1);
    StartsConcat([sof], rest);
    LatestConcat([sof], rest, n);
    LatestNumber(n + 1);
    assert [] + Times(n % U32, PinCount(pins, 0)) == Times(n % U32, PinCount(pins, 0));
  }

  lemma {:induction false} AnswerNumbered(stream: nat, t: Option<Token>, n: nat)
    ensures var rs := Prescribed(stream, t);
      && Starts(rs) == (if Delivers(t) then 1 else 0)
      && LatestStarts(rs, n) == if Delivers(t) then Times(n % U32, PinCount(t.value.pins.value, 0)) else []
  {
    if t.Some? {
      AnswerShape(stream, t.value);
      var rs := Prescribed(stream, t);
      var ack := if Acked(t.value.sendType) then 1 else 0;
      assert rs == rs[..ack] + rs[ack..];
      if ack == 1 {
        assert rs[..1] == [rs[0]];
        AckNumbers(rs[0], n);
      }
      StartsConcat(rs[..ack], rs[ack..]);
      LatestConcat(rs[..ack], rs[ack..], n);
      if Delivers(t) { FrameNumbered(stream, t.value.pins.value, n); }
    }
  }

  /** One more command: one more frame with its number, if it delivers one. */
  lemma {:induction false} NumbersSnoc(stream: nat, before: seq<Response>, t: Option<Token>)
    ensures var rs, n := before + Prescribed(stream, t), Starts(before);
      && Starts(rs) == n + (if Delivers(t) then 1 else 0)
      && LatestStarts(rs, 0) == LatestStarts(before, 0)
           + if Delivers(t) then Times(n % U32, PinCount(t.value.pins.value, 0)) else []
  {
    StartsConcat(before, Prescribed(stream, t));
    LatestConcat(before, Prescribed(stream, t), 0);
    AnswerNumbered(stream, t, Starts(before));
  }

  lemma {:induction false} PrescribedSnoc(stream: nat, ts: seq<Option<Token>>)
    requires ts != []
    ensures var m := |ts| - 1;
      PrescribedAll(stream, ts) == PrescribedAll(stream, ts[..m]) + Prescribed(stream, ts[m])
  {
    assert Protocol(stream)(ts[|ts| - 1]) == Prescribed(stream, ts[|ts| - 1]);
  }

  /** On any sequence of commands, the pins of the k-th frame come right after k + 1 frame starts. */
  lemma {:induction false} NumbersExact(stream: nat, ts: seq<Option<Token>>)
    ensures Starts(PrescribedAll(stream, ts)) == Frames(ts)
    ensures LatestStarts(PrescribedAll(stream, ts), 0) == Numbers(ts)
  {
    if ts != [] {
      var m := |ts| - 1;
      NumbersExact(stream, ts[..m]);
      PrescribedSnoc(stream, ts);
      NumbersSnoc(stream, PrescribedAll(stream, ts[..m]), ts[m]);
    }
  }

  /** One response, as far as frame numbers go; the device leaves its time stamps 0. */
  method HandleOne(st: Sof.Stream, r: Response) returns (number: seq<nat>)
    requires st.Valid()
    modifies st, st.seqs
    ensures st.Valid() && |st.history| == |old(st.history)| + if r.kind == RESP_FRAME_SOF then 1 else 0
    ensures number == if r.kind == RESP_PIN_DATA_READY then [(|old(st.history)| + U32 - 1) % U32] else []
  {
    number := [];
    if r.kind == RESP_PIN_DATA_READY {
      var n := st.SequenceByTimestamp(0);
      number := [n];
      LatestNumber(|st.history|);
    } else if r.kind == RESP_FRAME_SOF {
      st.FrameSof(0);
    }
  }

  lemma {:induction false} LatestNumber(n: nat)
    ensures n > 0 ==> (n + U32 - 1) % U32 == (n - 1) % U32
    ensures n == 0 ==> (n + U32 - 1) % U32 == U32 - 1
  {
  }

  /**
   * The driver's handling of all the answers to a sequence of commands on a stream that was just prepared:
   * every buffer of the k-th frame, counted from 0, gets frame number k.
   */
  method HandleAnswers(st: Sof.Stream, stream: nat, ts: seq<Option<Token>>, rs: seq<Response>)
    returns (numbers: seq<nat>)
    requires st.Valid() && st.history == [] && rs == PrescribedAll(stream, ts)
    modifies st, st.seqs
    ensures numbers == Numbers(ts)
  {
    numbers := [];
    var i: nat := 0;
    while i < |rs|
      invariant i <= |rs| && st.Valid() && |st.history| == Starts(rs[..i]) && numbers == LatestStarts(rs[..i], 0)
    {
      var number := HandleOne(st, rs[i]);
      assert rs[..i + 1][..i] == rs[..i];
      numbers, i := numbers + number, i + 1;
    }
    assert rs[..i] == rs;
    NumbersExact(stream, ts);
  }
}
