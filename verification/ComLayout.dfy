/**
 * The shared-memory layout of the firmware channel (kernel/ipu4/ipu6-fw-com.c:137-263): one DMA
 * allocation holds the configuration block, the queue descriptors, the firmware-specific data and
 * every token buffer; the cursors live in numbered registers that the device decodes by number
 * (tools/qemu-patches/hw/misc/ipu4.c:1505-1514).
 */
module ComLayout {
  import opened Common

  /** `struct ipu6_fw_syscom_config` is 28 bytes, rounded up to 8. */
  const CONF_SIZE: nat := 32
  /** `struct ipu6_fw_sys_queue`, packed. */
  const DESC_SIZE: nat := 32
  const QPR_BASE_REG: nat := 6

  datatype QueueConfig = QueueConfig(queueSize: nat, tokenSize: nat)

  /** A queue descriptor as both sides see it. */
  datatype SysQueue = SysQueue(host: nat, vied: nat, size: nat, tokenSize: nat, wrReg: nat, rdReg: nat)

  datatype Config = Config(input: seq<QueueConfig>, output: seq<QueueConfig>, specificSize: nat)

  datatype Context = Context(
    host: nat, dma: nat, dmaSize: nat,
    inputHost: nat, inputVied: nat, outputHost: nat, outputVied: nat, specificHost: nat, specificVied: nat,
    input: seq<SysQueue>, output: seq<SysQueue>)

  function RoundUp8(x: nat): (r: nat)
    ensures x <= r < x + 8 && r % 8 == 0
  {
    (x + 7) / 8 * 8
  }

  /** Bytes of one token buffer: one slot more than the queue is to hold. */
  function Bytes(q: QueueConfig): nat { (q.queueSize + 1) * q.tokenSize }

  function Total(qs: seq<QueueConfig>): nat {
    if qs == [] then 0 else Total(qs[..|qs| - 1]) + Bytes(qs[|qs| - 1])
  }

  function SpecificOffset(cfg: Config): nat {
    CONF_SIZE + |cfg.input| * DESC_SIZE + |cfg.output| * DESC_SIZE
  }

  function BuffersOffset(cfg: Config): nat { SpecificOffset(cfg) + RoundUp8(cfg.specificSize) }

  function SizeAll(cfg: Config): nat { BuffersOffset(cfg) + Total(cfg.input) + Total(cfg.output) }

  /** No 32-bit size or device address and no 64-bit host address wraps. */
  ghost predicate NoOverflow(cfg: Config, host: nat, dma: nat) {
    && dma + SizeAll(cfg) < U32 && host + SizeAll(cfg) < U64
    && (forall q :: q in cfg.input ==> q.queueSize + 1 < U32)
    && (forall q :: q in cfg.output ==> q.queueSize + 1 < U32)
  }

  lemma {:induction false} TotalStep(qs: seq<QueueConfig>, i: nat)
    requires i < |qs|
    ensures Total(qs[..i + 1]) == Total(qs[..i]) + Bytes(qs[i])
  {
    assert qs[..i + 1][..i] == qs[..i];
  }

  lemma {:induction false} TotalPrefix(qs: seq<QueueConfig>, i: nat)
    requires i <= |qs|
    ensures Total(qs[..i]) <= Total(qs)
    ensures i < |qs| ==> Total(qs[..i]) + Bytes(qs[i]) <= Total(qs)
    decreases |qs| - i
  {
    if i == |qs| {
      assert qs[..i] == qs;
    } else {
      TotalStep(qs, i);
      TotalPrefix(qs, i + 1);
    }
  }

  // ----- the layout, every address in closed form

  /** Descriptor `i` of a group whose buffers start at the given addresses and registers. */
  function Placed(qs: seq<QueueConfig>, host: nat, vied: nat, reg: nat, i: nat): SysQueue
    requires i < |qs|
  {
    var at := Total(qs[..i]);
    SysQueue(host + at, vied + at, qs[i].queueSize + 1, qs[i].tokenSize, reg + 2 * i, reg + 2 * i + 1)
  }

  function PlacedAll(qs: seq<QueueConfig>, host: nat, vied: nat, reg: nat): (r: seq<SysQueue>)
    ensures |r| == |qs| && forall i :: 0 <= i < |qs| ==> r[i] == Placed(qs, host, vied, reg, i)
  {
    seq(|qs|, i requires 0 <= i < |qs| => Placed(qs, host, vied, reg, i))
  }

  /** The context that `Prepare` builds, every address in closed form. */
  function Layout(cfg: Config, host: nat, dma: nat): Context {
    var outOff := CONF_SIZE + |cfg.input| * DESC_SIZE;
    var specOff := SpecificOffset(cfg);
    var inOff := BuffersOffset(cfg);
    var outBufOff := inOff + Total(cfg.input);
    Context(host, dma, SizeAll(cfg),
            host + CONF_SIZE, dma + CONF_SIZE, host + outOff, dma + outOff, host + specOff, dma + specOff,
            PlacedAll(cfg.input, host + inOff, dma + inOff, QPR_BASE_REG),
            PlacedAll(cfg.output, host + outBufOff, dma + outBufOff, QPR_BASE_REG + 2 * |cfg.input|))
  }

  // ----- the same in the source's integer widths

  /** What is left of `x` in an unsigned integer with `n` values, by taking off one turn after the other. */
  function Wrap(x: nat, n: nat): (r: nat)
    requires n > 0
    ensures r == x % n
  {
    if x < n then x else
      TurnOff(x, n);
      Wrap(x - n, n)
  }

  /** One turn less leaves the same remainder. */
  lemma {:induction false} TurnOff(x: nat, n: nat)
    requires 0 < n <= x
    ensures (x - n) % n == x % n
  {
    var q, m := x / n, x % n;
    assert x == q * n + m && q > 0;
    assert x - n == (q - 1) * n + m;
    Quotient(x - n, n, q - 1, m);
  }

  /** Quotient and remainder are unique. */
  lemma {:induction false} Quotient(x: nat, n: nat, q: nat, m: nat)
    requires n > 0 && m < n && x == q * n + m
    ensures x % n == m
  {
    var p := x / n;
    assert x == p * n + x % n;
    assert p < q ==> (p + 1) * n <= q * n;
    assert p > q ==> (q + 1) * n <= p * n;
  }

  lemma {:induction false} WrapBelow(x: nat, n: nat)
    requires n > 0
    ensures Wrap(x, n) == x <==> x < n
  {
  }

  lemma {:induction false} WrapAdd(a: nat, b: nat, n: nat)
    requires n > 0
    ensures Wrap(Wrap(a, n) + b, n) == Wrap(a + b, n)
  {
    if a >= n { WrapAdd(a - n, b, n); }
  }

  lemma {:induction false} WrapTurns(a: nat, k: nat, n: nat)
    requires n > 0
    ensures Wrap(a + k * n, n) == Wrap(a, n)
  {
    assert a + k * n == (a / n + k) * n + a % n;
    Quotient(a + k * n, n, a / n + k, a % n);
  }

  lemma {:induction false} SumWraps(a: nat, b: nat)
    ensures Wrap(Wrap(a, U32) + Wrap(b, U32), U32) == Wrap(a + b, U32)
  {
    WrapAdd(a, Wrap(b, U32), U32);
    WrapAdd(b, a, U32);
  }

  /** What `unsigned int` arithmetic makes of the number of slots and of the bytes of a buffer. */
  function Slots32(q: QueueConfig): nat { Wrap(q.queueSize + 1, U32) }
  function Bytes32(q: QueueConfig): nat { Wrap(Slots32(q) * q.tokenSize, U32) }

  function Total32(qs: seq<QueueConfig>): nat {
    if qs == [] then 0 else Total32(qs[..|qs| - 1]) + Bytes32(qs[|qs| - 1])
  }

  function Placed32(qs: seq<QueueConfig>, host: nat, vied: nat, reg: nat, i: nat): SysQueue
    requires i < |qs|
  {
    var at := Total32(qs[..i]);
    SysQueue(Wrap(host + at, U64), Wrap(vied + at, U32), Slots32(qs[i]), qs[i].tokenSize,
             Wrap(reg + 2 * i, U32), Wrap(reg + 2 * i + 1, U32))
  }

  function PlacedAll32(qs: seq<QueueConfig>, host: nat, vied: nat, reg: nat): (r: seq<SysQueue>)
    ensures |r| == |qs| && forall i :: 0 <= i < |qs| ==> r[i] == Placed32(qs, host, vied, reg, i)
  {
    seq(|qs|, i requires 0 <= i < |qs| => Placed32(qs, host, vied, reg, i))
  }

  /** The number of bytes asked for: sizes of `size_t`, but the token buffers summed up in 32 bits. */
  function Request(cfg: Config): nat { BuffersOffset(cfg) + Wrap(Total(cfg.input) + Total(cfg.output), U32) }

  function Layout32(cfg: Config, host: nat, dma: nat): Context {
    var outOff := CONF_SIZE + |cfg.input| * DESC_SIZE;
    var specOff := SpecificOffset(cfg);
    var inOff := BuffersOffset(cfg);
    var outBufOff := inOff + Wrap(Total(cfg.input), U32);
    Context(host, dma, Wrap(Request(cfg), U32),
            Wrap(host + CONF_SIZE, U64), Wrap(dma + CONF_SIZE, U32), Wrap(host + outOff, U64), Wrap(dma + outOff, U32),
            Wrap(host + specOff, U64), Wrap(dma + specOff, U32),
            PlacedAll32(cfg.input, host + inOff, dma + inOff, QPR_BASE_REG),
            PlacedAll32(cfg.output, host + outBufOff, dma + outBufOff, QPR_BASE_REG + 2 * |cfg.input|))
  }

  /** A product may be reduced before or after multiplying. */
  lemma {:induction false} ProductWraps(x: nat, t: nat)
    ensures Wrap(Wrap(x, U32) * t, U32) == Wrap(x * t, U32)
  {
    if x >= U32 {
      ProductWraps(x - U32, t);
      assert x * t == (x - U32) * t + t * U32;
      WrapTurns((x - U32) * t, t, U32);
    }
  }

  lemma {:induction false} BytesWrap(q: QueueConfig)
    ensures Bytes32(q) == Wrap(Bytes(q), U32)
  {
    ProductWraps(q.queueSize + 1, q.tokenSize);
  }

  lemma {:induction false} Total32Step(qs: seq<QueueConfig>, i: nat)
    requires i < |qs|
    ensures Total32(qs[..i + 1]) == Total32(qs[..i]) + Bytes32(qs[i])
  {
    assert qs[..i + 1][..i] == qs[..i];
  }

  /** Where a group stands after one more queue. */
  lemma {:induction false} NextPlaced(qs: seq<QueueConfig>, host: nat, vied: nat, reg: nat, i: nat)
    requires i < |qs|
    ensures var at, more, next := Total32(qs[..i]), Bytes32(qs[i]), Total32(qs[..i + 1]);
      && Wrap(Wrap(host + at, U64) + more, U64) == Wrap(host + next, U64)
      && Wrap(Wrap(vied + at, U32) + more, U32) == Wrap(vied + next, U32)
      && Wrap(Wrap(reg + 2 * i, U32) + 1, U32) == Wrap(reg + 2 * i + 1, U32)
      && Wrap(Wrap(reg + 2 * i, U32) + 2, U32) == Wrap(reg + 2 * (i + 1), U32)
  {
    Total32Step(qs, i);
    WrapAdd(host + Total32(qs[..i]), Bytes32(qs[i]), U64);
    WrapAdd(vied + Total32(qs[..i]), Bytes32(qs[i]), U32);
    WrapAdd(reg + 2 * i, 1, U32);
    WrapAdd(reg + 2 * i, 2, U32);
  }

  /** Nothing wraps where the sum is small. */
  lemma {:induction false} SmallTotal(qs: seq<QueueConfig>, i: nat)
    requires i <= |qs| && Total(qs) < U32
    ensures Total32(qs[..i]) == Total(qs[..i]) < U32
  {
    TotalPrefix(qs, i);
    if i > 0 {
      SmallTotal(qs, i - 1);
      Total32Step(qs, i - 1);
      TotalStep(qs, i - 1);
      BytesWrap(qs[i - 1]);
    }
  }

  lemma {:induction false} SmallPlaced(qs: seq<QueueConfig>, host: nat, vied: nat, reg: nat)
    requires vied + Total(qs) < U32 && host + Total(qs) < U64 && reg + 2 * |qs| < U32
    requires forall q :: q in qs ==> q.queueSize + 1 < U32
    ensures PlacedAll32(qs, host, vied, reg) == PlacedAll(qs, host, vied, reg)
  {
    forall i | 0 <= i < |qs| ensures Placed32(qs, host, vied, reg, i) == Placed(qs, host, vied, reg, i) {
      SmallTotal(qs, i);
      TotalPrefix(qs, i);
      assert qs[i] in qs;
    }
  }

  /** What the code computes is the layout wherever no size and no address leaves its width. */
  lemma {:induction false} LayoutFits(cfg: Config, host: nat, dma: nat)
    requires NoOverflow(cfg, host, dma)
    ensures Layout32(cfg, host, dma) == Layout(cfg, host, dma) && Request(cfg) == SizeAll(cfg)
  {
    SmallPlaced(cfg.input, host + BuffersOffset(cfg), dma + BuffersOffset(cfg), QPR_BASE_REG);
    var at := BuffersOffset(cfg) + Total(cfg.input);
    SmallPlaced(cfg.output, host + at, dma + at, QPR_BASE_REG + 2 * |cfg.input|);
  }

  /** The allocation is as large as the regions iff the token buffers take less than 4 GiB. */
  lemma {:induction false} RequestExactIff(cfg: Config)
    ensures Request(cfg) == SizeAll(cfg) <==> Total(cfg.input) + Total(cfg.output) < U32
  {
    WrapBelow(Total(cfg.input) + Total(cfg.output), U32);
  }

  /** Otherwise it is too small: here 2^31 slots of two bytes get no byte at all. */
  lemma {:induction false} RequestTooSmall()
    ensures var cfg := Config([QueueConfig(0x7FFF_FFFF, 2)], [], 0);
      && SizeAll(cfg) == 64 + U32 && Request(cfg) == 64
      && Layout32(cfg, 0, 0).input[0].size == 0x8000_0000
  {
    var qs := [QueueConfig(0x7FFF_FFFF, 2)];
    assert Total(qs) == U32 by { assert qs[..0] == []; }
    assert Total([]) == 0;
  }

  // ----- the driver's code

  /** `(queue_size + 1) * token_size`. */
  method BufferSize(c: QueueConfig) returns (n: nat)
    ensures n == Bytes32(c)
  {
    var slots := Wrap(c.queueSize + 1, U32);
    n := Wrap(slots * c.tokenSize, U32);
  }

  /** `struct ipu6_fw_sys_queue_res`: what is left to hand out. */
  class Resources {
    var host: nat
    var vied: nat
    var reg: nat

    constructor (host: nat, vied: nat, reg: nat)
      ensures this.host == host && this.vied == vied && this.reg == reg
    {
      this.host, this.vied, this.reg := host, vied, reg;
    }

    /** `ipu6_sys_queue_init`. */
    method QueueInit(c: QueueConfig) returns (q: SysQueue)
      modifies this
      ensures q == SysQueue(old(host), old(vied), Slots32(c), c.tokenSize, old(reg), Wrap(old(reg) + 1, U32))
      ensures host == Wrap(old(host) + Bytes32(c), U64) && vied == Wrap(old(vied) + Bytes32(c), U32)
      ensures reg == Wrap(old(reg) + 2, U32)
    {
      var bufSize := BufferSize(c);
      q := SysQueue(host, vied, Wrap(c.queueSize + 1, U32), c.tokenSize, reg, Wrap(reg + 1, U32));
      host := Wrap(host + bufSize, U64);
      vied := Wrap(vied + bufSize, U32);
      WrapAdd(reg + 1, 1, U32);
      reg := Wrap(reg + 1, U32);
      reg := Wrap(reg + 1, U32);
    }

    /** The resources after the first `i` queues of a group that began at the given ones. */
    ghost predicate After(qs: seq<QueueConfig>, host0: nat, vied0: nat, reg0: nat, i: nat)
      requires i <= |qs|
      reads this
    {
      && host == Wrap(host0 + Total32(qs[..i]), U64) && vied == Wrap(vied0 + Total32(qs[..i]), U32)
      && reg == Wrap(reg0 + 2 * i, U32)
    }

    method NextQueue(qs: seq<QueueConfig>, ghost host0: nat, ghost vied0: nat, ghost reg0: nat, i: nat)
      returns (q: SysQueue)
      requires i < |qs| && After(qs, host0, vied0, reg0, i)
      modifies this
      ensures After(qs, host0, vied0, reg0, i + 1) && q == Placed32(qs, host0, vied0, reg0, i)
    {
      NextPlaced(qs, host0, vied0, reg0, i);
      q := QueueInit(qs[i]);
    }

    /** One of the two loops that initialise a group of queues. */
    method InitQueues(qs: seq<QueueConfig>, ghost host0: nat, ghost vied0: nat, ghost reg0: nat)
      returns (r: seq<SysQueue>)
      requires host == Wrap(host0, U64) && vied == Wrap(vied0, U32) && reg == Wrap(reg0, U32)
      modifies this
      ensures r == PlacedAll32(qs, host0, vied0, reg0)
      ensures reg == Wrap(reg0 + 2 * |qs|, U32)
    {
      r := [];
      var i: nat := 0;
      assert Total32(qs[..0]) == 0;
      while i < |qs|
        invariant |r| == i <= |qs| && After(qs, host0, vied0, reg0, i)
        invariant forall k :: 0 <= k < i ==> r[k] == Placed32(qs, host0, vied0, reg0, k)
      {
        var q := NextQueue(qs, host0, vied0, reg0, i);
        r := r + [q];
        i := i + 1;
      }
    }
  }

  /** One pass of a size loop: the product is exact, the sum is not. */
  method AddSize(n: nat, c: QueueConfig, ghost total: nat) returns (sum: nat)
    requires n == Wrap(total, U32)
    ensures sum == Wrap(total + Bytes(c), U32)
  {
    var product := Wrap(c.queueSize + 1, U32) * c.tokenSize;
    sum := Wrap(n + product, U32);
    ProductWraps(c.queueSize + 1, c.tokenSize);
    WrapAdd(total, product, U32);
    WrapAdd(product, total, U32);
    WrapAdd(Bytes(c), total, U32);
  }

  /** One of the two size loops. */
  method SumSizes(qs: seq<QueueConfig>) returns (n: nat)
    ensures n == Wrap(Total(qs), U32)
  {
    n := 0;
    var i: nat := 0;
    while i < |qs|
      invariant i <= |qs| && n == Wrap(Total(qs[..i]), U32)
    {
      TotalStep(qs, i);
      n := AddSize(n, qs[i], Total(qs[..i]));
      i := i + 1;
    }
    assert qs[..i] == qs;
  }

  /** The end of `ipu6_fw_com_prepare`: both groups of queues, with one count of registers. */
  method PlaceQueues(cfg: Config, host: nat, dma: nat, sizeInput: nat)
    returns (input: seq<SysQueue>, output: seq<SysQueue>)
    ensures input == PlacedAll32(cfg.input, host, dma, QPR_BASE_REG)
    ensures output == PlacedAll32(cfg.output, host + sizeInput, dma + sizeInput, QPR_BASE_REG + 2 * |cfg.input|)
  {
    var res := new Resources(Wrap(host, U64), Wrap(dma, U32), QPR_BASE_REG);
    input := res.InitQueues(cfg.input, host, dma, QPR_BASE_REG);
    res.host, res.vied := Wrap(host + sizeInput, U64), Wrap(dma + sizeInput, U32);
    output := res.InitQueues(cfg.output, host + sizeInput, dma + sizeInput, QPR_BASE_REG + 2 * |cfg.input|);
  }

  /** The second half of `ipu6_fw_com_prepare`: addresses of everything in the buffer. */
  method Place(cfg: Config, host: nat, dma: nat, sizeInput: nat, dmaSize: nat) returns (ctx: Context)
    requires sizeInput == Wrap(Total(cfg.input), U32) && dmaSize == Wrap(Request(cfg), U32)
    ensures ctx == Layout32(cfg, host, dma)
  {
    var offset := CONF_SIZE;
    var inputHost, inputVied := Wrap(host + offset, U64), Wrap(dma + offset, U32);
    offset := offset + |cfg.input| * DESC_SIZE;
    var outputHost, outputVied := Wrap(host + offset, U64), Wrap(dma + offset, U32);
    offset := offset + |cfg.output| * DESC_SIZE;
    var specificHost, specificVied := Wrap(host + offset, U64), Wrap(dma + offset, U32);
    offset := offset + RoundUp8(cfg.specificSize);
    var input, output := PlaceQueues(cfg, host + offset, dma + offset, sizeInput);
    ctx := Context(host, dma, dmaSize, inputHost, inputVied, outputHost, outputVied,
                   specificHost, specificVied, input, output);
  }

  /**
   * `ipu6_fw_com_prepare`; `buffer` is what the DMA allocation of `size` bytes returned.  As long as
   * nothing overflows, the context is the layout.
   */
  method Prepare(cfg: Config, buffer: Option<(nat, nat)>) returns (size: nat, ctx: Option<Context>)
    ensures size == Request(cfg)
    ensures ctx.Some? <==> buffer.Some?
    ensures buffer.Some? ==> ctx == Some(Layout32(cfg, buffer.value.0, buffer.value.1))
    ensures buffer.Some? && NoOverflow(cfg, buffer.value.0, buffer.value.1) ==>
      size == SizeAll(cfg) && ctx == Some(Layout(cfg, buffer.value.0, buffer.value.1))
  {
    size := CONF_SIZE + |cfg.input| * DESC_SIZE + |cfg.output| * DESC_SIZE + RoundUp8(cfg.specificSize);
    var sizeInput := SumSizes(cfg.input);
    var sizeOutput := SumSizes(cfg.output);
    size := size + Wrap(sizeInput + sizeOutput, U32);
    SumWraps(Total(cfg.input), Total(cfg.output));
    if buffer.None? { return size, None; }
    var (host, dma) := buffer.value;
    var placed := Place(cfg, host, dma, sizeInput, Wrap(size, U32));
    ctx := Some(placed);
    if NoOverflow(cfg, host, dma) { LayoutFits(cfg, host, dma); }
  }

  // ----- the regions of the allocation

  function RegionCount(cfg: Config): nat { 4 + |cfg.input| + |cfg.output| }

  /** Region 0 is the configuration, 1 and 2 the descriptors, 3 the specific data, then the token buffers. */
  function Length(cfg: Config, r: nat): nat
    requires r < RegionCount(cfg)
  {
    if r == 0 then CONF_SIZE
    else if r == 1 then |cfg.input| * DESC_SIZE
    else if r == 2 then |cfg.output| * DESC_SIZE
    else if r == 3 then RoundUp8(cfg.specificSize)
    else if r < 4 + |cfg.input| then Bytes(cfg.input[r - 4])
    else Bytes(cfg.output[r - 4 - |cfg.input|])
  }

  /** Where the built context says region `r` is, for the host. */
  function HostStart(ctx: Context, r: nat): nat
    requires r < 4 + |ctx.input| + |ctx.output|
  {
    if r == 0 then ctx.host
    else if r == 1 then ctx.inputHost
    else if r == 2 then ctx.outputHost
    else if r == 3 then ctx.specificHost
    else if r < 4 + |ctx.input| then ctx.input[r - 4].host
    else ctx.output[r - 4 - |ctx.input|].host
  }

  /** And where the descriptors tell the device it is. */
  function DeviceStart(ctx: Context, r: nat): nat
    requires r < 4 + |ctx.input| + |ctx.output|
  {
    if r == 0 then ctx.dma
    else if r == 1 then ctx.inputVied
    else if r == 2 then ctx.outputVied
    else if r == 3 then ctx.specificVied
    else if r < 4 + |ctx.input| then ctx.input[r - 4].vied
    else ctx.output[r - 4 - |ctx.input|].vied
  }

  /** The sum of the lengths of the regions before `r`. */
  function Offset(cfg: Config, r: nat): nat
    requires r <= RegionCount(cfg)
  {
    if r == 0 then 0 else Offset(cfg, r - 1) + Length(cfg, r - 1)
  }

  lemma {:induction false} InputOffset(cfg: Config, k: nat)
    requires k <= |cfg.input|
    ensures Offset(cfg, 4 + k) == BuffersOffset(cfg) + Total(cfg.input[..k])
  {
    if k == 0 {
      assert Offset(cfg, 4) == Offset(cfg, 3) + Length(cfg, 3);
      assert Offset(cfg, 3) == Offset(cfg, 2) + Length(cfg, 2);
      assert Offset(cfg, 2) == Offset(cfg, 1) + Length(cfg, 1);
    } else {
      InputOffset(cfg, k - 1);
      TotalStep(cfg.input, k - 1);
    }
  }

  lemma {:induction false} OutputOffset(cfg: Config, k: nat)
    requires k <= |cfg.output|
    ensures Offset(cfg, 4 + |cfg.input| + k) == BuffersOffset(cfg) + Total(cfg.input) + Total(cfg.output[..k])
  {
    if k == 0 {
      InputOffset(cfg, |cfg.input|);
      assert cfg.input[..|cfg.input|] == cfg.input;
    } else {
      OutputOffset(cfg, k - 1);
      TotalStep(cfg.output, k - 1);
    }
  }

  /** The lengths add up to the size that was allocated. */
  lemma {:induction false} OffsetsEnd(cfg: Config)
    ensures Offset(cfg, RegionCount(cfg)) == SizeAll(cfg)
  {
    OutputOffset(cfg, |cfg.output|);
    assert cfg.output[..|cfg.output|] == cfg.output;
  }

  lemma {:induction false} OffsetsGrow(cfg: Config, r: nat, s: nat)
    requires r <= s <= RegionCount(cfg)
    ensures Offset(cfg, r) <= Offset(cfg, s)
    ensures r < s ==> Offset(cfg, r) + Length(cfg, r) <= Offset(cfg, s)
  {
    if r < s { OffsetsGrow(cfg, r, s - 1); }
  }

  /** Host and device see region `r` at the same offset: behind the regions before it. */
  lemma {:induction false} SameOffsets(cfg: Config, host: nat, dma: nat, r: nat)
    requires r < RegionCount(cfg)
    ensures var ctx := Layout(cfg, host, dma);
      HostStart(ctx, r) == host + Offset(cfg, r) && DeviceStart(ctx, r) == dma + Offset(cfg, r)
  {
    if r >= 4 + |cfg.input| {
      OutputOffset(cfg, r - 4 - |cfg.input|);
    } else if r >= 4 {
      InputOffset(cfg, r - 4);
    } else {
      assert Offset(cfg, 3) == Offset(cfg, 2) + Length(cfg, 2);
      assert Offset(cfg, 2) == Offset(cfg, 1) + Length(cfg, 1);
    }
  }

  /** No two regions overlap. */
  lemma {:induction false} RegionsDisjoint(cfg: Config, host: nat, dma: nat, r: nat, s: nat)
    requires r < s < RegionCount(cfg)
    ensures var ctx := Layout(cfg, host, dma);
      && HostStart(ctx, r) + Length(cfg, r) <= HostStart(ctx, s)
      && DeviceStart(ctx, r) + Length(cfg, r) <= DeviceStart(ctx, s)
  {
    OffsetsGrow(cfg, r, s);
    SameOffsets(cfg, host, dma, r);
    SameOffsets(cfg, host, dma, s);
  }

  ghost predicate InRegion(cfg: Config, x: nat, r: nat)
    requires r < RegionCount(cfg)
  {
    Offset(cfg, r) <= x < Offset(cfg, r) + Length(cfg, r)
  }

  lemma {:induction false} FindRegion(cfg: Config, x: nat, upTo: nat) returns (r: nat)
    requires upTo <= RegionCount(cfg) && x < Offset(cfg, upTo)
    ensures r < upTo && InRegion(cfg, x, r)
  {
    if Offset(cfg, upTo - 1) <= x { r := upTo - 1; } else { r := FindRegion(cfg, x, upTo - 1); }
  }

  /** The allocation is exactly filled: a byte offset lies in some region iff it lies in the allocation. */
  lemma {:induction false} ExactFill(cfg: Config, host: nat, dma: nat, x: nat)
    ensures x < Layout(cfg, host, dma).dmaSize <==> exists r :: 0 <= r < RegionCount(cfg) && InRegion(cfg, x, r)
  {
    OffsetsEnd(cfg);
    if x < SizeAll(cfg) {
      var r := FindRegion(cfg, x, RegionCount(cfg));
    }
    forall r | 0 <= r < RegionCount(cfg) && InRegion(cfg, x, r) ensures x < SizeAll(cfg) {
      OffsetsGrow(cfg, r, RegionCount(cfg));
    }
  }

  function QueueOf(ctx: Context, k: nat): SysQueue
    requires k < |ctx.input| + |ctx.output|
  {
    if k < |ctx.input| then ctx.input[k] else ctx.output[k - |ctx.input|]
  }

  /** Byte address of slot `i` of a queue, as the device computes it. */
  function SlotAt(q: SysQueue, i: nat): nat { q.vied + i * q.tokenSize }

  /** A token slot lies inside its queue's buffer. */
  lemma {:induction false} SlotInside(q: SysQueue, i: nat)
    requires i < q.size
    ensures q.vied <= SlotAt(q, i) && SlotAt(q, i) + q.tokenSize <= q.vied + q.size * q.tokenSize
  {
    assert (i + 1) * q.tokenSize <= q.size * q.tokenSize;
    assert (i + 1) * q.tokenSize == i * q.tokenSize + q.tokenSize;
  }

  lemma {:induction false} SlotsInOrder(q: SysQueue, i: nat, j: nat)
    requires i < j
    ensures SlotAt(q, i) + q.tokenSize <= SlotAt(q, j)
  {
    assert (i + 1) * q.tokenSize <= j * q.tokenSize;
    assert (i + 1) * q.tokenSize == i * q.tokenSize + q.tokenSize;
  }

  lemma {:induction false} QueueBytes(cfg: Config, host: nat, dma: nat, k: nat)
    requires k < |cfg.input| + |cfg.output|
    ensures var q := QueueOf(Layout(cfg, host, dma), k); Length(cfg, 4 + k) == q.size * q.tokenSize
  {
  }

  /** The token buffers of two queues, as the device sees them, do not overlap. */
  lemma {:induction false} BuffersDisjoint(cfg: Config, host: nat, dma: nat, k: nat, l: nat)
    requires k < l < |cfg.input| + |cfg.output|
    ensures var ctx := Layout(cfg, host, dma); var q := QueueOf(ctx, k);
      q.vied + q.size * q.tokenSize <= QueueOf(ctx, l).vied
  {
    RegionsDisjoint(cfg, host, dma, 4 + k, 4 + l);
    var ctx := Layout(cfg, host, dma);
    assert Length(cfg, 4 + k) == QueueOf(ctx, k).size * QueueOf(ctx, k).tokenSize by { QueueBytes(cfg, host, dma, k); }
    assert DeviceStart(ctx, 4 + k) == QueueOf(ctx, k).vied && DeviceStart(ctx, 4 + l) == QueueOf(ctx, l).vied;
  }

  /** Different slots, of one queue or of two, never share a byte. */
  lemma {:induction false} SlotsDisjoint(cfg: Config, host: nat, dma: nat, k: nat, i: nat, l: nat, j: nat)
    requires k <= l < |cfg.input| + |cfg.output| && (k == l ==> i < j)
    requires var ctx := Layout(cfg, host, dma); i < QueueOf(ctx, k).size && j < QueueOf(ctx, l).size
    ensures var ctx := Layout(cfg, host, dma);
      SlotAt(QueueOf(ctx, k), i) + QueueOf(ctx, k).tokenSize <= SlotAt(QueueOf(ctx, l), j)
  {
    var ctx := Layout(cfg, host, dma);
    if k == l {
      SlotsInOrder(QueueOf(ctx, k), i, j);
    } else {
      BuffersDisjoint(cfg, host, dma, k, l);
      SlotInside(QueueOf(ctx, k), i);
      SlotInside(QueueOf(ctx, l), j);
    }
  }

  /** Cursor registers: a pair per queue, above the management registers, no two alike. */
  lemma {:induction false} RegistersDistinct(cfg: Config, host: nat, dma: nat, k: nat, l: nat)
    requires k < |cfg.input| + |cfg.output| && l < |cfg.input| + |cfg.output|
    ensures var ctx := Layout(cfg, host, dma); var q, p := QueueOf(ctx, k), QueueOf(ctx, l);
      && QPR_BASE_REG <= q.wrReg && QPR_BASE_REG <= q.rdReg && q.wrReg != p.rdReg
      && (q.wrReg == p.wrReg <==> k == l) && (q.rdReg == p.rdReg <==> k == l)
  {
    var ctx := Layout(cfg, host, dma);
    assert QueueOf(ctx, k).wrReg == QPR_BASE_REG + 2 * k && QueueOf(ctx, l).wrReg == QPR_BASE_REG + 2 * l;
  }

  // ----- the ISYS channel and the device's decoder

  const MAX_STREAMS: nat := 8
  const MAX_SEND_QUEUES: nat := 10
  const MAX_RECV_QUEUES: nat := 2
  const BASE_DEV_SEND: nat := 1
  const BASE_MSG_SEND: nat := 2
  const BASE_MSG_RECV: nat := 1
  const SIZE_PROXY_QUEUE: nat := 5
  const SIZE_MSG_QUEUE: nat := 40

  /** Sizes of the four token structures, fixed by the compiler. */
  datatype TokenSizes = TokenSizes(proxySend: nat, send: nat, proxyResp: nat, resp: nat)

  function Clamp(x: nat, lo: nat, hi: nat): nat {
    if x < lo then lo else if x > hi then hi else x
  }

  /** One proxy, one device and `m` message queues; one proxy and one message return queue. */
  function IsysConfig(m: nat, sz: TokenSizes): Config {
    Config([QueueConfig(SIZE_PROXY_QUEUE, sz.proxySend), QueueConfig(MAX_STREAMS, sz.send)]
             + seq(m, _ => QueueConfig(SIZE_MSG_QUEUE, sz.send)),
           [QueueConfig(SIZE_PROXY_QUEUE, sz.proxyResp), QueueConfig(SIZE_MSG_QUEUE, sz.resp)],
           56)
  }

  /** The send queues: loops over a zeroed configuration array. */
  method FillInput(msgs: nat, sz: TokenSizes) returns (qs: seq<QueueConfig>)
    requires 1 <= msgs <= MAX_STREAMS
    ensures qs == IsysConfig(msgs, sz).input
  {
    var input := new QueueConfig[MAX_SEND_QUEUES](_ => QueueConfig(0, 0));
    for i := 0 to 1
      invariant i == 1 ==> input[0] == QueueConfig(SIZE_PROXY_QUEUE, sz.proxySend)
    {
      input[i] := QueueConfig(SIZE_PROXY_QUEUE, sz.proxySend);
    }
    for i := 0 to 1
      invariant input[0] == QueueConfig(SIZE_PROXY_QUEUE, sz.proxySend)
      invariant i == 1 ==> input[1] == QueueConfig(MAX_STREAMS, sz.send)
    {
      input[BASE_DEV_SEND + i] := QueueConfig(MAX_STREAMS, sz.send);
    }
    for i := 0 to msgs
      invariant input[0] == QueueConfig(SIZE_PROXY_QUEUE, sz.proxySend) && input[1] == QueueConfig(MAX_STREAMS, sz.send)
      invariant forall k :: 2 <= k < 2 + i ==> input[k] == QueueConfig(SIZE_MSG_QUEUE, sz.send)
    {
      input[BASE_MSG_SEND + i] := QueueConfig(SIZE_MSG_QUEUE, sz.send);
    }
    qs := input[..1 + 1 + msgs];
  }

  /** The return queues; there is none for the device queue. */
  method FillOutput(sz: TokenSizes) returns (qs: seq<QueueConfig>)
    ensures forall msgs :: qs == IsysConfig(msgs, sz).output
  {
    var output := new QueueConfig[MAX_RECV_QUEUES](_ => QueueConfig(0, 0));
    for i := 0 to 1
      invariant i == 1 ==> output[0] == QueueConfig(SIZE_PROXY_QUEUE, sz.proxyResp)
    {
      output[i] := QueueConfig(SIZE_PROXY_QUEUE, sz.proxyResp);
    }
    for i := 0 to 1
      invariant output[0] == QueueConfig(SIZE_PROXY_QUEUE, sz.proxyResp)
      invariant i == 1 ==> output[1] == QueueConfig(SIZE_MSG_QUEUE, sz.resp)
    {
      output[BASE_MSG_RECV + i] := QueueConfig(SIZE_MSG_QUEUE, sz.resp);
    }
    qs := output[..1 + 0 + 1];
  }

  const GDA_PAGES: nat := 128 * 32

  /** The SRAM pages the configuration gives to each stream. */
  function Partition(m: nat): seq<nat>
    requires m > 0
  {
    seq(MAX_STREAMS, i requires 0 <= i < MAX_STREAMS => if i < m then GDA_PAGES / m else 0)
  }

  function Sum(s: seq<nat>): nat { if s == [] then 0 else Sum(s[..|s| - 1]) + s[|s| - 1] }

  lemma {:induction false} SumPartition(m: nat, k: nat)
    requires 0 < m <= MAX_STREAMS && k <= MAX_STREAMS
    ensures Sum(Partition(m)[..k]) == (if k < m then k else m) * (GDA_PAGES / m)
  {
    if k > 0 {
      SumPartition(m, k - 1);
      assert Partition(m)[..k][..k - 1] == Partition(m)[..k - 1];
      var each := GDA_PAGES / m;
      assert k * each == (k - 1) * each + each;
    }
  }

  /** The shares never exceed the pages there are, and leave less than one page per stream. */
  lemma {:induction false} PartitionFits(m: nat)
    requires 0 < m <= MAX_STREAMS
    ensures GDA_PAGES - m < Sum(Partition(m)) <= GDA_PAGES
  {
    SumPartition(m, MAX_STREAMS);
    assert Partition(m)[..MAX_STREAMS] == Partition(m);
    assert GDA_PAGES == m * (GDA_PAGES / m) + GDA_PAGES % m;
  }

  /** All streams get the same share, and blocks without a stream none. */
  lemma {:induction false} PartitionEqual(m: nat, i: nat, j: nat)
    requires 0 < m <= MAX_STREAMS && i < MAX_STREAMS && j < MAX_STREAMS
    ensures |Partition(m)| == MAX_STREAMS && (i >= m ==> Partition(m)[i] == 0)
    ensures i < m && j < m ==> Partition(m)[i] == Partition(m)[j]
  {
  }

  /**
   * `ipu6_isys_fwcom_cfg_init`, for any requested number of streams; `granted` says which of its three
   * allocations succeed.  Its caller passes a zeroed configuration and ignores the result.
   */
  method CfgInit(numStreams: nat, sz: TokenSizes, granted: (bool, bool, bool))
    returns (ok: bool, cfg: Config, pages: seq<nat>)
    ensures ok <==> granted == (true, true, true)
    ensures ok ==> var m := Clamp(numStreams, 1, MAX_STREAMS);
      cfg == IsysConfig(m, sz) && pages == Partition(m) && Sum(pages) <= GDA_PAGES
    ensures !ok ==> cfg == Config([], [], 0) && pages == []
  {
    ok, cfg, pages := false, Config([], [], 0), [];
    var msgs := Clamp(numStreams, 1, MAX_STREAMS);
    if !granted.0 || !granted.1 || !granted.2 { return; }
    PartitionFits(msgs);
    pages := SramPages(msgs);
    var input := FillInput(msgs, sz);
    var output := FillOutput(sz);
    ok, cfg := true, Config(input, output, 8 * 4 + 3 * 4 + 3 * 4);
    assert cfg.output == IsysConfig(msgs, sz).output;
  }

  /** The partitioning loop. */
  method SramPages(msgs: nat) returns (pages: seq<nat>)
    requires 1 <= msgs <= MAX_STREAMS
    ensures pages == Partition(msgs)
  {
    var gda := new nat[MAX_STREAMS](_ => 0);
    for i := 0 to MAX_STREAMS
      invariant gda[..i] == Partition(msgs)[..i]
    {
      if i < msgs { gda[i] := GDA_PAGES / msgs; } else { gda[i] := 0; }
    }
    pages := gda[..];
  }

  /** A channel prepared from the configuration of a failed `CfgInit` has no queue. */
  lemma {:induction false} FailedConfigHasNoQueue(host: nat, dma: nat)
    ensures var ctx := Layout32(Config([], [], 0), host, dma);
      ctx.input == [] && ctx.output == [] && ctx.dmaSize == CONF_SIZE
  {
  }

  /** Sizes of the device's own structures (tools/qemu-patches/hw/misc/ipu4.c:394,433). */
  const DEVICE_RESPONSE: nat := 64
  const DEVICE_TOKEN: nat := 16

  /**
   * What the device asks of the queues it uses: every message queue takes its token, the return queue its
   * response, if the driver's structures are no smaller; and what each queue can hold.
   */
  lemma {:induction false} DeviceAdmits(m: nat, sz: TokenSizes, host: nat, dma: nat)
    requires 1 <= m <= MAX_STREAMS && DEVICE_TOKEN <= sz.send && DEVICE_RESPONSE <= sz.resp
    ensures var ctx := Layout(IsysConfig(m, sz), host, dma);
      && |ctx.input| == 2 + m && |ctx.output| == 2 && IsysConfig(m, sz).specificSize == 4 * (8 + 3 + 3)
      && ctx.input[0].size == 6 && ctx.input[0].tokenSize == sz.proxySend
      && ctx.input[1].size == 9 && ctx.input[1].tokenSize == sz.send
      && ctx.output[0].size == 6 && ctx.output[0].tokenSize == sz.proxyResp
      && ctx.output[BASE_MSG_RECV].size == 41 && DEVICE_RESPONSE <= ctx.output[BASE_MSG_RECV].tokenSize == sz.resp
      && forall k :: BASE_MSG_SEND <= k < BASE_MSG_SEND + m ==>
        ctx.input[k].size == 41 && DEVICE_TOKEN <= ctx.input[k].tokenSize == sz.send
  {
    var cfg := IsysConfig(m, sz);
    forall k | 2 <= k < 2 + m ensures cfg.input[k] == QueueConfig(SIZE_MSG_QUEUE, sz.send) {
      assert cfg.input[k] == seq(m, _ => QueueConfig(SIZE_MSG_QUEUE, sz.send))[k - 2];
    }
  }

  /** The device's decoding of a register write: the stream whose send cursor it moves. */
  function DecodeStream(reg: nat): Option<nat> {
    if reg >= 10 && reg < 10 + MAX_STREAMS * 2 && (reg - 10) % 2 == 0 then Some((reg - 10) / 2) else None
  }

  /** With all eight message queues, the decoder recognises exactly their write cursors. */
  lemma {:induction false} DeviceDecodes(sz: TokenSizes, host: nat, dma: nat, reg: nat, n: nat)
    ensures var ctx := Layout(IsysConfig(MAX_STREAMS, sz), host, dma);
      && |ctx.input| == 10 && |ctx.output| == 2
      && (DecodeStream(reg) == Some(n) <==> n < MAX_STREAMS && reg == ctx.input[BASE_MSG_SEND + n].wrReg)
      && ctx.output[BASE_MSG_RECV].wrReg == 28 && ctx.output[BASE_MSG_RECV].rdReg == 29
  {
  }

  /**
   * For any number of message queues, no register the driver writes is taken for another queue's
   * cursor: a send cursor decodes to its own stream, proxy and device cursors to none ...
   */
  lemma {:induction false} SendCursorDecodes(m: nat, sz: TokenSizes, host: nat, dma: nat, k: nat)
    requires 1 <= m <= MAX_STREAMS && k < 2 + m
    ensures var ctx := Layout(IsysConfig(m, sz), host, dma);
      DecodeStream(ctx.input[k].wrReg) == if k < BASE_MSG_SEND then None else Some(k - BASE_MSG_SEND)
  {
    assert Layout(IsysConfig(m, sz), host, dma).input[k].wrReg == QPR_BASE_REG + 2 * k;
  }

  /** ... and the read cursors of the return queues decode to none. */
  lemma {:induction false} ReceiveCursorIgnored(m: nat, sz: TokenSizes, host: nat, dma: nat, k: nat)
    requires 1 <= m <= MAX_STREAMS && k < 2
    ensures DecodeStream(Layout(IsysConfig(m, sz), host, dma).output[k].rdReg) == None
  {
    assert Layout(IsysConfig(m, sz), host, dma).output[k].rdReg == QPR_BASE_REG + 2 * (2 + m) + 2 * k + 1;
  }
}
