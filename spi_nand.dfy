/**
 * Bring-up of a Micron SPI-NAND chip (spi_nand.c): reset, read the ID, unlock all
 * blocks, enable on-die ECC, each step a chip-select-framed SPI transaction.
 *
 * The SPI transport and the chip are an oracle: `Env.spi(n)` is the answer to
 * the n-th transport call (its status, and the bytes clocked in on MISO for a
 * write-read) and `Env.clock(n)` is the millisecond counter as read after n
 * transport calls. Every contract below holds for every `Env`, so nothing is
 * assumed about the chip. The `Bus` records what the driver does, in order, as
 * a trace of `Event`s.
 *
 * Two defects of this revision are modelled as written:
 *  - get_feature sends CMD_SET_FEATURE (0x1F) as its opcode, where the chip's
 *    get-feature opcode is 0x0F;
 *  - OIP_BIT is 0 but is used as a mask, so `status & OIP_BIT` is always 0 and
 *    the reset poll ends with Ok after the first status read that succeeds.
 */
module SpiNand {
  import opened SysTime

  type byte = bv8

  /** The driver's return codes, SPI_NAND_RET_* in spi_nand.h. */
  datatype Ret = Ok | BadSpi | Timeout | DeviceId {
    function Value(): (v: int)
      ensures v == 0 <==> this == Ok
      ensures -3 <= v <= 0
    {
      match this
      case Ok => 0
      case BadSpi => -1
      case Timeout => -2
      case DeviceId => -3
    }
  }

  const RESET_DELAY: u32 := 2    // ms
  const OP_TIMEOUT: u32 := 3000  // ms

  const CMD_RESET: byte := 0xFF
  const CMD_READ_ID: byte := 0x9F
  const CMD_SET_FEATURE: byte := 0x1F

  const READ_ID_TRANS_LEN: nat := 4
  const READ_ID_MFR_INDEX: nat := 2
  const READ_ID_DEVICE_INDEX: nat := 3
  const MFR_ID_MICRON: byte := 0x2C
  const DEVICE_ID_1G_3V3: byte := 0x14

  const FEATURE_TRANS_LEN: nat := 3
  const FEATURE_REG_INDEX: nat := 1
  const FEATURE_DATA_INDEX: nat := 2

  const REG_STATUS: byte := 0xC0
  /** Defect kept as written: a bit NUMBER used where a MASK is needed. */
  const OIP_BIT: byte := 0

  const REG_BLOCK_LOCK: byte := 0xA0
  const UNLOCK_ALL_BLOCKS: byte := 0x00

  const REG_ECC_EN: byte := 0xB0
  const ECC_ENABLE: byte := 1 << 4

  /** One answer of the transport: whether it returned SPI_RET_OK, and the MISO bytes. */
  datatype Reply = Reply(ok: bool, miso: seq<byte>)

  /** The environment the driver runs in: transport answers and counter snapshots. */
  datatype Env = Env(spi: nat -> Reply, clock: nat -> u32)

  /** What the driver does to the outside world, in order. */
  datatype Event =
    | Select                                                         // csel_select: CS low
    | Deselect                                                       // csel_deselect: CS high
    | Write(tx: seq<byte>, timeout: u32, ok: bool)                   // spi_write
    | WriteRead(tx: seq<byte>, timeout: u32, ok: bool, rx: seq<byte>) // spi_write_read
    | Wait(ms: u32)                                                  // sys_time_delay

  /** The receive buffer of an n-byte write-read: zero-initialised, then filled from MISO. */
  function Received(miso: seq<byte>, n: nat): (rx: seq<byte>)
    ensures |rx| == n
    ensures n <= |miso| ==> rx == miso[..n]
    ensures |miso| < n ==> rx[..|miso|] == miso && forall k :: |miso| <= k < n ==> rx[k] == 0
  {
    seq(n, k requires 0 <= k => if k < |miso| then miso[k] else 0)
  }

  // ---------------------------------------------------------------------------
  // Specification: what each routine does, as a function of the environment and
  // the number `c` of transport calls made before it starts.
  // ---------------------------------------------------------------------------

  /** The effect of one routine: its return code, its events, the next call number. */
  datatype Run = Run(ret: Ret, events: seq<Event>, next: nat)

  /** A write transaction framed by select and deselect. */
  function WriteXfer(env: Env, c: nat, tx: seq<byte>): (r: Run)
  {
    var ok := env.spi(c).ok;
    Run(if ok then Ok else BadSpi, [Select, Write(tx, OP_TIMEOUT, ok), Deselect], c + 1)
  }

  /** The bytes a write-read transaction of `tx` receives. */
  function ReceivedAt(env: Env, c: nat, tx: seq<byte>): (rx: seq<byte>)
    ensures |rx| == |tx|
  {
    Received(env.spi(c).miso, |tx|)
  }

  /** A write-read transaction framed by select and deselect. */
  function WriteReadXfer(env: Env, c: nat, tx: seq<byte>): (r: Run)
  {
    var ok := env.spi(c).ok;
    Run(if ok then Ok else BadSpi,
        [Select, WriteRead(tx, OP_TIMEOUT, ok, ReceivedAt(env, c, tx)), Deselect], c + 1)
  }

  /** The frame set_feature transmits. */
  function SetFeatureFrame(reg: byte, data: byte): seq<byte>
  {
    [CMD_SET_FEATURE, reg, data]
  }

  /**
   * The frame get_feature transmits: opcode, register, one dummy byte during
   * which the chip answers. Defect kept as written: the opcode is CMD_SET_FEATURE.
   */
  function GetFeatureFrame(reg: byte): seq<byte>
  {
    [CMD_SET_FEATURE, reg, 0]
  }

  /** set_feature(reg, data). */
  function SetFeatureRun(env: Env, c: nat, reg: byte, data: byte): (r: Run)
    ensures r.events == [Select, Write([0x1F, reg, data], OP_TIMEOUT, env.spi(c).ok), Deselect]
    ensures r.ret == Ok <==> env.spi(c).ok
    ensures r.ret == Ok || r.ret == BadSpi
    ensures r.next == c + 1
  {
    WriteXfer(env, c, SetFeatureFrame(reg, data))
  }

  /** get_feature(reg, &data): the run and the value `data` holds afterwards. */
  function GetFeatureRun(env: Env, c: nat, reg: byte, data: byte): (result: (Run, byte))
    ensures var (r, out) := result;
      && r.events == [Select, WriteRead([0x1F, reg, 0], OP_TIMEOUT, env.spi(c).ok, ReceivedAt(env, c, [0x1F, reg, 0])), Deselect]
      && (r.ret == Ok <==> env.spi(c).ok)
      && (r.ret == Ok || r.ret == BadSpi)
      && r.next == c + 1
      && out == (if r.ret == Ok then ReceivedAt(env, c, [0x1F, reg, 0])[2] else data)
  {
    var tx := GetFeatureFrame(reg);
    var r := WriteReadXfer(env, c, tx);
    (r, if r.ret == Ok then ReceivedAt(env, c, tx)[FEATURE_DATA_INDEX] else data)
  }

  /** Whether the bytes received during read-ID name the expected chip. */
  predicate IdMatches(rx: seq<byte>)
    requires |rx| == READ_ID_TRANS_LEN
  {
    rx[READ_ID_MFR_INDEX] == MFR_ID_MICRON && rx[READ_ID_DEVICE_INDEX] == DEVICE_ID_1G_3V3
  }

  /** The frame read_id transmits: the opcode followed by three dummy bytes. */
  const READ_ID_FRAME: seq<byte> := [CMD_READ_ID, 0, 0, 0]

  /** read_id. */
  function ReadIdRun(env: Env, c: nat): (r: Run)
    ensures r.ret == Ok <==> env.spi(c).ok && ReceivedAt(env, c, READ_ID_FRAME)[2] == 0x2C && ReceivedAt(env, c, READ_ID_FRAME)[3] == 0x14
    ensures r.ret == DeviceId <==> env.spi(c).ok && !IdMatches(ReceivedAt(env, c, READ_ID_FRAME))
    ensures r.ret == BadSpi <==> !env.spi(c).ok
    ensures r.events == [Select, WriteRead([0x9F, 0, 0, 0], OP_TIMEOUT, env.spi(c).ok, ReceivedAt(env, c, READ_ID_FRAME)), Deselect]
    ensures r.next == c + 1
  {
    var x := WriteReadXfer(env, c, READ_ID_FRAME);
    var rx := ReceivedAt(env, c, READ_ID_FRAME);
    Run(if x.ret != Ok then BadSpi else if IdMatches(rx) then Ok else DeviceId, x.events, x.next)
  }

  /** How one pass of reset's poll loop ends. */
  datatype Poll = Stop(ret: Ret) | Again

  /**
   * One pass of the OIP poll in reset, after get_feature returned `readRet` and
   * `status`, with `now` the counter snapshot that sys_time_is_elapsed takes:
   * a read error is passed up unchanged, a clear OIP mask is Ok, an elapsed
   * OP_TIMEOUT is Timeout, and otherwise the loop goes round again. With
   * OIP_BIT = 0 the mask is always clear, so the loop never goes round again.
   */
  function PollVerdict(readRet: Ret, status: byte, now: u32, start: u32): (p: Poll)
    ensures p.Stop?
    ensures p.ret == (if readRet == Ok then Ok else readRet)
  {
    if readRet != Ok then Stop(readRet)
    else if status & OIP_BIT == 0 then Stop(Ok)
    else if IsElapsed(now, start, OP_TIMEOUT) then Stop(Timeout)
    else Again
  }

  /** The frame reset transmits. */
  const RESET_FRAME: seq<byte> := [CMD_RESET]

  /**
   * reset: the one-byte reset command, then the status poll. The start time is
   * the counter after the reset write; the status byte is uninitialised in the
   * source and only read when get_feature succeeds, so its model starts at 0.
   */
  function ResetRun(env: Env, c: nat): (r: Run)
    ensures !env.spi(c).ok ==> r == Run(BadSpi, [Select, Write([0xFF], OP_TIMEOUT, false), Deselect], c + 1)
    ensures env.spi(c).ok ==> r.next == c + 2 && (r.ret == Ok <==> env.spi(c + 1).ok)
    ensures env.spi(c).ok ==>
      r.events == [Select, Write([0xFF], OP_TIMEOUT, true), Deselect] + GetFeatureRun(env, c + 1, 0xC0, 0).0.events
    ensures r.ret == Ok || r.ret == BadSpi
  {
    var w := WriteXfer(env, c, RESET_FRAME);
    if w.ret != Ok then Run(BadSpi, w.events, w.next)
    else
      var start := env.clock(w.next);
      var (g, status) := GetFeatureRun(env, w.next, REG_STATUS, 0);
      var verdict := PollVerdict(g.ret, status, env.clock(g.next), start);
      Run(verdict.ret, w.events + g.events, g.next)
  }

  /** spi_nand_init: reset, read ID, unlock, enable ECC, leaving at the first failure. */
  function InitRun(env: Env, c: nat): (r: Run)
    ensures |r.events| >= 5 && r.events[..2] == [Deselect, Wait(RESET_DELAY)]
    ensures c + 1 <= r.next <= c + 5
  {
    var head := InitHead();
    var reset := ResetRun(env, c);
    if reset.ret != Ok then Run(reset.ret, head + reset.events, reset.next)
    else
      var ev1 := head + reset.events + [Wait(RESET_DELAY)];
      var id := ReadIdRun(env, reset.next);
      if id.ret != Ok then Run(id.ret, ev1 + id.events, id.next)
      else
        var ev2 := ev1 + id.events;
        var unlock := SetFeatureRun(env, id.next, REG_BLOCK_LOCK, UNLOCK_ALL_BLOCKS);
        if unlock.ret != Ok then Run(unlock.ret, ev2 + unlock.events, unlock.next)
        else
          var ecc := SetFeatureRun(env, unlock.next, REG_ECC_EN, ECC_ENABLE);
          Run(ecc.ret, ev2 + unlock.events + ecc.events, ecc.next)
  }

  // ---------------------------------------------------------------------------
  // Properties of the specification.
  // ---------------------------------------------------------------------------

  /** The frames transmitted, in order, by the transfers of a trace. */
  function Frames(t: seq<Event>): seq<seq<byte>>
  {
    if t == [] then []
    else
      (match t[0]
       case Write(tx, _, _) => [tx]
       case WriteRead(tx, _, _, _) => [tx]
       case _ => [])
      + Frames(t[1..])
  }

  /** A framed transfer contributes its one frame. */
  lemma TransactionFrames(x: Event)
    requires x.Write? || x.WriteRead?
    ensures Frames([Select, x, Deselect]) == [x.tx]
    ensures Framed([Select, x, Deselect])
  {
    var t := [Select, x, Deselect];
    assert t[1..] == [x, Deselect] && t[1..][1..] == [Deselect] && t[1..][1..][1..] == [];
    assert Frames([Deselect]) == [] + Frames([]);
    assert Frames([x, Deselect]) == [x.tx] + Frames([Deselect]);
    assert Frames(t) == [] + Frames([x, Deselect]);
    assert t[3..] == [];
  }

  /** Appending a framed piece keeps the trace framed and appends its frames. */
  lemma Extend(a: seq<Event>, b: seq<Event>)
    requires Framed(a) && Framed(b)
    ensures Framed(a + b) && Frames(a + b) == Frames(a) + Frames(b)
  {
    FramedAppend(a, b);
    FramesAppend(a, b);
  }

  lemma {:induction false} FramesAppend(a: seq<Event>, b: seq<Event>)
    ensures Frames(a + b) == Frames(a) + Frames(b)
  {
    if a == [] {
      assert a + b == b;
    } else {
      assert (a + b)[1..] == a[1..] + b;
      FramesAppend(a[1..], b);
    }
  }

  /**
   * A trace in which every transfer sits alone between one select and one
   * deselect, and nothing else happens while the chip is selected; outside a
   * transaction only deselects and delays occur.
   */
  predicate Framed(t: seq<Event>)
    decreases |t|
  {
    if t == [] then true
    else if t[0].Deselect? || t[0].Wait? then Framed(t[1..])
    else
      |t| >= 3 && t[0].Select? && (t[1].Write? || t[1].WriteRead?) && t[2].Deselect?
      && Framed(t[3..])
  }

  lemma {:induction false} FramedAppend(a: seq<Event>, b: seq<Event>)
    requires Framed(a) && Framed(b)
    ensures Framed(a + b)
    decreases |a|
  {
    if a == [] {
      assert a + b == b;
    } else if a[0].Deselect? || a[0].Wait? {
      assert (a + b)[1..] == a[1..] + b;
      FramedAppend(a[1..], b);
    } else {
      assert (a + b)[3..] == a[3..] + b;
      FramedAppend(a[3..], b);
    }
  }

  /** The five frames a complete bring-up transmits, in order. */
  const INIT_FRAMES: seq<seq<byte>> :=
    [[0xFF], [0x1F, 0xC0, 0x00], [0x9F, 0x00, 0x00, 0x00], [0x1F, 0xA0, 0x00], [0x1F, 0xB0, 0x10]]

  /**
   * How many of the five transfers spi_nand_init attempts in environment `env`
   * starting at transport call `c`: each transfer is attempted only when every
   * earlier one succeeded (and the ID matched).
   */
  function InitAttempts(env: Env, c: nat): (n: nat)
    ensures 1 <= n <= 5
  {
    if !env.spi(c).ok then 1
    else if !env.spi(c + 1).ok then 2
    else if !env.spi(c + 2).ok || !IdMatches(ReceivedAt(env, c + 2, READ_ID_FRAME)) then 3
    else if !env.spi(c + 3).ok then 4
    else 5
  }

  /**
   * spi_nand_init transmits reset, status read, read-ID, unlock and enable-ECC
   * in that order, each framed by select/deselect, and stops after the first
   * that fails: exactly the first InitAttempts frames go out.
   */
  lemma InitOrder(env: Env, c: nat)
    ensures Frames(InitRun(env, c).events) == INIT_FRAMES[..InitAttempts(env, c)]
    ensures Framed(InitRun(env, c).events)
    ensures InitRun(env, c).next == c + InitAttempts(env, c)
  {
    var n := InitAttempts(env, c);
    InitPieces(env, c);
    var ev := InitHead() + WriteXfer(env, c, RESET_FRAME).events;
    Extend(InitHead(), WriteXfer(env, c, RESET_FRAME).events);
    assert INIT_FRAMES[..1] == [INIT_FRAMES[0]];
    if n == 1 {
      assert InitRun(env, c).events == ev;
    } else {
      InitAfterReset(env, c, ev);
    }
  }

  /** The events spi_nand_init emits before the reset command. */
  function InitHead(): seq<Event>
  {
    [Deselect, Wait(RESET_DELAY)]
  }

  /** Each piece of the bring-up trace is framed and carries the expected frame. */
  lemma InitPieces(env: Env, c: nat)
    ensures Framed(InitHead()) && Frames(InitHead()) == []
    ensures Framed([Wait(RESET_DELAY)]) && Frames([Wait(RESET_DELAY)]) == []
    ensures var t := WriteXfer(env, c, RESET_FRAME).events; Framed(t) && Frames(t) == [INIT_FRAMES[0]]
    ensures var t := GetFeatureRun(env, c + 1, REG_STATUS, 0).0.events; Framed(t) && Frames(t) == [INIT_FRAMES[1]]
    ensures var t := ReadIdRun(env, c + 2).events; Framed(t) && Frames(t) == [INIT_FRAMES[2]]
    ensures var t := SetFeatureRun(env, c + 3, REG_BLOCK_LOCK, UNLOCK_ALL_BLOCKS).events;
      Framed(t) && Frames(t) == [INIT_FRAMES[3]]
    ensures var t := SetFeatureRun(env, c + 4, REG_ECC_EN, ECC_ENABLE).events;
      Framed(t) && Frames(t) == [INIT_FRAMES[4]]
  {
    var wait := [Wait(RESET_DELAY)];
    assert InitHead()[1..] == wait && wait[1..] == [];
    TransactionFrames(WriteXfer(env, c, RESET_FRAME).events[1]);
    TransactionFrames(GetFeatureRun(env, c + 1, REG_STATUS, 0).0.events[1]);
    TransactionFrames(ReadIdRun(env, c + 2).events[1]);
    TransactionFrames(SetFeatureRun(env, c + 3, REG_BLOCK_LOCK, UNLOCK_ALL_BLOCKS).events[1]);
    TransactionFrames(SetFeatureRun(env, c + 4, REG_ECC_EN, ECC_ENABLE).events[1]);
  }

  /** InitOrder once the reset command went out (`ev`) and succeeded. */
  lemma InitAfterReset(env: Env, c: nat, ev: seq<Event>)
    requires env.spi(c).ok
    requires ev == InitHead() + WriteXfer(env, c, RESET_FRAME).events
    requires Framed(ev) && Frames(ev) == INIT_FRAMES[..1]
    ensures Frames(InitRun(env, c).events) == INIT_FRAMES[..InitAttempts(env, c)]
    ensures Framed(InitRun(env, c).events)
  {
    InitPieces(env, c);
    var g := GetFeatureRun(env, c + 1, REG_STATUS, 0).0.events;
    Extend(ev, g);
    var ev2 := ev + g;
    assert INIT_FRAMES[..2] == INIT_FRAMES[..1] + [INIT_FRAMES[1]];
    assert InitHead() + (WriteXfer(env, c, RESET_FRAME).events + g) == ev2;
    if !env.spi(c + 1).ok {
      assert InitRun(env, c).events == ev2;
    } else {
      Extend(ev2, [Wait(RESET_DELAY)]);
      InitAfterStatus(env, c, ev2 + [Wait(RESET_DELAY)]);
    }
  }

  /** The events of spi_nand_init once reset has completed, by how far it gets. */
  lemma InitEventsAfterStatus(env: Env, c: nat)
    requires env.spi(c).ok && env.spi(c + 1).ok
    ensures var ev := InitHead() + WriteXfer(env, c, RESET_FRAME).events
                      + GetFeatureRun(env, c + 1, REG_STATUS, 0).0.events + [Wait(RESET_DELAY)]
                      + ReadIdRun(env, c + 2).events;
      var u := SetFeatureRun(env, c + 3, REG_BLOCK_LOCK, UNLOCK_ALL_BLOCKS).events;
      var e := SetFeatureRun(env, c + 4, REG_ECC_EN, ECC_ENABLE).events;
      InitRun(env, c).events
        == if ReadIdRun(env, c + 2).ret != Ok then ev
           else if !env.spi(c + 3).ok then ev + u
           else ev + u + e
  {
  }

  /** InitOrder once reset completed and the second delay is in `ev`. */
  lemma InitAfterStatus(env: Env, c: nat, ev: seq<Event>)
    requires env.spi(c).ok && env.spi(c + 1).ok
    requires ev == InitHead() + WriteXfer(env, c, RESET_FRAME).events
                  + GetFeatureRun(env, c + 1, REG_STATUS, 0).0.events + [Wait(RESET_DELAY)]
    requires Framed(ev) && Frames(ev) == INIT_FRAMES[..2]
    ensures Frames(InitRun(env, c).events) == INIT_FRAMES[..InitAttempts(env, c)]
    ensures Framed(InitRun(env, c).events)
  {
    InitPieces(env, c);
    InitEventsAfterStatus(env, c);
    var id := ReadIdRun(env, c + 2).events;
    var u := SetFeatureRun(env, c + 3, REG_BLOCK_LOCK, UNLOCK_ALL_BLOCKS).events;
    var e := SetFeatureRun(env, c + 4, REG_ECC_EN, ECC_ENABLE).events;
    Extend(ev, id);
    var ev3 := ev + id;
    assert INIT_FRAMES[..3] == INIT_FRAMES[..2] + [INIT_FRAMES[2]];
    if ReadIdRun(env, c + 2).ret != Ok {
      assert InitRun(env, c).events == ev3;
      return;
    }
    Extend(ev3, u);
    var ev4 := ev3 + u;
    assert INIT_FRAMES[..4] == INIT_FRAMES[..3] + [INIT_FRAMES[3]];
    if !env.spi(c + 3).ok {
      assert InitRun(env, c).events == ev4;
      return;
    }
    Extend(ev4, e);
    assert INIT_FRAMES[..5] == INIT_FRAMES[..4] + [INIT_FRAMES[4]];
    assert InitRun(env, c).events == ev4 + e;
  }

  /**
   * spi_nand_init returns Ok exactly when all four steps succeed, and otherwise
   * the code of the first step that failed.
   */
  lemma InitResult(env: Env, c: nat)
    ensures var r := InitRun(env, c);
      && (r.ret == Ok <==>
            ResetRun(env, c).ret == Ok && ReadIdRun(env, c + 2).ret == Ok
            && SetFeatureRun(env, c + 3, REG_BLOCK_LOCK, UNLOCK_ALL_BLOCKS).ret == Ok
            && SetFeatureRun(env, c + 4, REG_ECC_EN, ECC_ENABLE).ret == Ok)
      && (ResetRun(env, c).ret != Ok ==> r.ret == ResetRun(env, c).ret)
      && (ResetRun(env, c).ret == Ok && ReadIdRun(env, c + 2).ret != Ok ==> r.ret == ReadIdRun(env, c + 2).ret)
      && (ResetRun(env, c).ret == Ok && ReadIdRun(env, c + 2).ret == Ok
          ==> var u := SetFeatureRun(env, c + 3, REG_BLOCK_LOCK, UNLOCK_ALL_BLOCKS).ret;
              r.ret == if u != Ok then u else SetFeatureRun(env, c + 4, REG_ECC_EN, ECC_ENABLE).ret)
      && (r.ret == Ok <==> InitAttempts(env, c) == 5 && env.spi(c + 4).ok)
      && r.ret != Timeout
  {
  }

  // ---------------------------------------------------------------------------
  // The implementation: the transport oracle and the driver routines.
  // ---------------------------------------------------------------------------

  /** Chip select, the SPI transport and the millisecond counter, seen from the driver. */
  class Bus {
    const env: Env
    /** Transport calls made so far. */
    var calls: nat
    /** Everything done so far, in order. */
    var trace: seq<Event>

    constructor (env: Env)
      ensures this.env == env && calls == 0 && trace == []
    {
      this.env := env;
      calls := 0;
      trace := [];
    }

    method CselSelect()
      modifies this
      ensures trace == old(trace) + [Select] && calls == old(calls)
    {
      trace := trace + [Select];
    }

    method CselDeselect()
      modifies this
      ensures trace == old(trace) + [Deselect] && calls == old(calls)
    {
      trace := trace + [Deselect];
    }

    /** spi_write(tx, len, timeout): true when it returned SPI_RET_OK. */
    method SpiWrite(tx: seq<byte>, timeout: u32) returns (ok: bool)
      modifies this
      ensures ok == env.spi(old(calls)).ok
      ensures trace == old(trace) + [Write(tx, timeout, ok)] && calls == old(calls) + 1
    {
      ok := env.spi(calls).ok;
      trace := trace + [Write(tx, timeout, ok)];
      calls := calls + 1;
    }

    /** spi_write_read(tx, rx, len, timeout): the status and the received bytes. */
    method SpiWriteRead(tx: seq<byte>, timeout: u32) returns (ok: bool, rx: seq<byte>)
      modifies this
      ensures ok == env.spi(old(calls)).ok && rx == Received(env.spi(old(calls)).miso, |tx|)
      ensures trace == old(trace) + [WriteRead(tx, timeout, ok, rx)] && calls == old(calls) + 1
    {
      ok := env.spi(calls).ok;
      rx := Received(env.spi(calls).miso, |tx|);
      trace := trace + [WriteRead(tx, timeout, ok, rx)];
      calls := calls + 1;
    }

    /** sys_time_get_ms, and the snapshot sys_time_is_elapsed takes. */
    method Now() returns (t: u32)
      ensures t == env.clock(calls)
    {
      t := env.clock(calls);
    }

    /** sys_time_delay(ms), recorded as an event (its timing is SysTime's). */
    method Delay(ms: u32)
      modifies this
      ensures trace == old(trace) + [Wait(ms)] && calls == old(calls)
    {
      trace := trace + [Wait(ms)];
    }
  }

  /** set_feature(reg, data). */
  method SetFeature(bus: Bus, reg: byte, data: byte) returns (ret: Ret)
    modifies bus
    ensures var r := SetFeatureRun(bus.env, old(bus.calls), reg, data);
      ret == r.ret && bus.trace == old(bus.trace) + r.events && bus.calls == r.next
  {
    var tx := new byte[FEATURE_TRANS_LEN](_ => 0);
    tx[0] := CMD_SET_FEATURE;
    tx[FEATURE_REG_INDEX] := reg;
    tx[FEATURE_DATA_INDEX] := data;
    assert tx[..] == SetFeatureFrame(reg, data);
    bus.CselSelect();
    var ok := bus.SpiWrite(tx[..], OP_TIMEOUT);
    bus.CselDeselect();
    ret := if ok then Ok else BadSpi;
  }

  /** get_feature(reg, data_out): `data` is the value of `*data_out` before and after. */
  method GetFeature(bus: Bus, reg: byte, dataIn: byte) returns (ret: Ret, data: byte)
    modifies bus
    ensures var (r, out) := GetFeatureRun(bus.env, old(bus.calls), reg, dataIn);
      ret == r.ret && data == out && bus.trace == old(bus.trace) + r.events && bus.calls == r.next
  {
    var tx := new byte[FEATURE_TRANS_LEN](_ => 0);
    tx[0] := CMD_SET_FEATURE;  // defect kept as written: the get-feature opcode is 0x0F
    tx[FEATURE_REG_INDEX] := reg;
    assert tx[..] == GetFeatureFrame(reg);
    bus.CselSelect();
    var ok, rx := bus.SpiWriteRead(tx[..], OP_TIMEOUT);
    bus.CselDeselect();
    if ok {
      data := rx[FEATURE_DATA_INDEX];
      ret := Ok;
    } else {
      data := dataIn;
      ret := BadSpi;
    }
  }

  /** read_id. */
  method ReadId(bus: Bus) returns (ret: Ret)
    modifies bus
    ensures var r := ReadIdRun(bus.env, old(bus.calls));
      ret == r.ret && bus.trace == old(bus.trace) + r.events && bus.calls == r.next
  {
    var tx := new byte[READ_ID_TRANS_LEN](_ => 0);
    tx[0] := CMD_READ_ID;
    assert tx[..] == READ_ID_FRAME;
    bus.CselSelect();
    var ok, rx := bus.SpiWriteRead(tx[..], OP_TIMEOUT);
    bus.CselDeselect();
    if ok {
      if rx[READ_ID_MFR_INDEX] == MFR_ID_MICRON && rx[READ_ID_DEVICE_INDEX] == DEVICE_ID_1G_3V3 {
        ret := Ok;
      } else {
        ret := DeviceId;
      }
    } else {
      ret := BadSpi;
    }
  }

  /** unlock_all_blocks. */
  method UnlockAllBlocks(bus: Bus) returns (ret: Ret)
    modifies bus
    ensures var r := SetFeatureRun(bus.env, old(bus.calls), REG_BLOCK_LOCK, UNLOCK_ALL_BLOCKS);
      ret == r.ret && bus.trace == old(bus.trace) + r.events && bus.calls == r.next
  {
    ret := SetFeature(bus, REG_BLOCK_LOCK, UNLOCK_ALL_BLOCKS);
  }

  /** enable_ecc: only bit 4 of the configuration register is set. */
  method EnableEcc(bus: Bus) returns (ret: Ret)
    modifies bus
    ensures var r := SetFeatureRun(bus.env, old(bus.calls), REG_ECC_EN, ECC_ENABLE);
      ret == r.ret && bus.trace == old(bus.trace) + r.events && bus.calls == r.next
  {
    ret := SetFeature(bus, REG_ECC_EN, ECC_ENABLE);
  }

  /**
   * reset: the reset command, then `for (;;)` polling the status register. The
   * loop runs once: PollVerdict always stops, because OIP_BIT is 0.
   */
  method Reset(bus: Bus) returns (ret: Ret)
    modifies bus
    ensures var r := ResetRun(bus.env, old(bus.calls));
      ret == r.ret && bus.trace == old(bus.trace) + r.events && bus.calls == r.next
  {
    var c0 := bus.calls;
    bus.CselSelect();
    var ok := bus.SpiWrite(RESET_FRAME, OP_TIMEOUT);
    bus.CselDeselect();
    if !ok {
      return BadSpi;
    }
    var start := bus.Now();
    ghost var t1 := bus.trace;
    ret := Ok;  // spi_write's SPI_RET_OK, overwritten by the first pass
    var done := false;
    while !done
      invariant !done ==> bus.trace == t1 && bus.calls == c0 + 1
      invariant done ==> var r := ResetRun(bus.env, c0);
        ret == r.ret && bus.trace == old(bus.trace) + r.events && bus.calls == r.next
      decreases if done then 0 else 1
    {
      var status: byte := 0;
      ret, status := GetFeature(bus, REG_STATUS, status);
      var now := bus.Now();
      var verdict := PollVerdict(ret, status, now, start);
      if verdict.Stop? {
        ret := verdict.ret;
        done := true;
      }
    }
  }

  /** spi_nand_init (the GPIO set-up of the chip-select pin is not modelled). */
  method Init(bus: Bus) returns (ret: Ret)
    modifies bus
    ensures var r := InitRun(bus.env, old(bus.calls));
      ret == r.ret && bus.trace == old(bus.trace) + r.events && bus.calls == r.next
  {
    bus.CselDeselect();
    bus.Delay(RESET_DELAY);
    ret := Reset(bus);
    if ret != Ok {
      return;
    }
    bus.Delay(RESET_DELAY);
    ret := ReadId(bus);
    if ret != Ok {
      return;
    }
    ret := UnlockAllBlocks(bus);
    if ret != Ok {
      return;
    }
    ret := EnableEcc(bus);
    if ret != Ok {
      return;
    }
  }
}
