/** The direct access routines of uniwill_wmi.c as the driver writes them, alone with a firmware that may
    answer before any poll, and the proof that this is a run of the system in UniwillDirectEc.dfy. */
module UniwillDirectDriver {
  import opened Common
  import opened Linearization
  import opened UniwillRam
  import opened UniwillDirectEc

  const EIO := 5
  const ERROR_BYTE: Byte := 0xfe

  lemma AddressParts(addr: Address)
    ensures addr / 0x100 % 0x100 * 0x100 + addr % 0x100 == addr
  {
  }

  /** `turns[i]` says whether the firmware gets to look at the request before poll `i`. */
  type Turns = t: seq<bool> | |t| == BUSY_WAIT_CYCLES witness seq(BUSY_WAIT_CYCLES, i => false)

  predicate ServedBefore(turns: Turns, n: nat)
    requires n <= BUSY_WAIT_CYCLES
  {
    exists i :: 0 <= i < n && turns[i]
  }

  lemma ServedBeforeNext(turns: Turns, n: nat)
    requires n < BUSY_WAIT_CYCLES
    ensures ServedBefore(turns, n + 1) <==> ServedBefore(turns, n) || turns[n]
  {
  }

  // ---------------------------------------------------------------------------------------------
  // A routine that nobody interrupts but the firmware, access by access
  // ---------------------------------------------------------------------------------------------

  /** Register accesses still to come, at most. */
  function Remaining(stage: Stage): nat {
    match stage
    case ReadFlags => 106
    case SetBusy(_) => 105
    case PutLow(_) => 104
    case PutHigh(_) => 103
    case PutData(_) => 102
    case PutDataHigh(_) => 101
    case Go(_) => 100
    case Poll(count) => 3 + count
    case FetchLow(_) => 3
    case FetchHigh(_, _) => 2
    case Clear(_, _, _) => 1
    case Leave(_, _, _) => 0
  }

  /** What the firmware does right before an access, if it takes its turns only before polls. */
  function Turned(d: Device, stage: Stage, turns: Turns, high: Byte, keep: Byte): Device
    requires stage.Poll? ==> 1 <= stage.count <= BUSY_WAIT_CYCLES
  {
    if stage.Poll? && turns[BUSY_WAIT_CYCLES - stage.count] && d.Requested() then d.Serve(high, keep) else d
  }

  /** Where a routine that nobody interrupts but the firmware ends, access by access. */
  function Solo(d: Device, op: Op<Byte>, stage: Stage, turns: Turns, high: Byte, keep: Byte): (Device, Stage)
    requires InRange(op) && (stage.Poll? ==> 1 <= stage.count <= BUSY_WAIT_CYCLES)
    decreases Remaining(stage)
  {
    if stage.Leave? then (d, stage)
    else
      var (next, after) := AccessRegister(Turned(d, stage, turns, high, keep), op, stage);
      Solo(next, op, after, turns, high, keep)
  }

  /** The run of the whole routine ends in `after` with this result. */
  predicate IsSoloRun(
    d: Device, op: Op<Byte>, turns: Turns, high: Byte, keep: Byte, after: Device, result: Option<Byte>)
    requires InRange(op)
  {
    var (end, stage) := Solo(d, op, ReadFlags, turns, high, keep);
    end == after && stage.Leave? && stage.result == result
  }

  /** The flags with which a request is posted over whatever was in the register. */
  function PostedFlags(flags: Byte, op: Op<Byte>): Byte {
    Asking(flags | BFLG, op)
  }

  function Asking(busy: Byte, op: Op<Byte>): Byte {
    (busy & !DRDY) | (if op.Load? then RFLG else WFLG)
  }

  /** The firmware sees the request; it takes a write for a read if the register still asked for one. */
  lemma PostedFlagsRequest(flags: Byte, op: Op<Byte>)
    ensures var f := PostedFlags(flags, op);
            && f & DRDY == 0 && f & (RFLG | WFLG) != 0
            && (f & RFLG != 0 <==> op.Load? || flags & RFLG != 0)
  {
    if op.Load? {
      PostedLoadFlags(flags);
    } else {
      PostedStoreFlags(flags);
    }
  }

  lemma PostedLoadFlags(flags: Byte)
    ensures var f := ((flags | BFLG) & !DRDY) | RFLG; f & DRDY == 0 && f & (RFLG | WFLG) != 0 && f & RFLG != 0
  {
  }

  lemma PostedStoreFlags(flags: Byte)
    ensures var f := ((flags | BFLG) & !DRDY) | WFLG;
            f & DRDY == 0 && f & (RFLG | WFLG) != 0 && (f & RFLG != 0 <==> flags & RFLG != 0)
  {
  }

  /** The registers once the address is in them ... */
  function WithAddress(d: Device, op: Op<Byte>): Device
    requires InRange(op)
  {
    d.(flags := d.flags | BFLG, ldat := op.addr % 0x100, hdat := op.addr / 0x100)
  }

  /** ... and after posting what is left of the request. */
  function WithRest(d: Device, op: Op<Byte>): Device {
    match op
    case Load(_) => d.(flags := Asking(d.flags, op))
    case Store(_, b) => d.(cmdl := b, cmdh := 0x00, flags := Asking(d.flags, op))
  }

  function WithRequest(d: Device, op: Op<Byte>): Device
    requires InRange(op)
  {
    WithRest(WithAddress(d, op), op)
  }

  lemma SoloAccess(d: Device, op: Op<Byte>, stage: Stage, turns: Turns, high: Byte, keep: Byte)
    requires InRange(op) && !stage.Leave? && !stage.Poll?
    ensures var (next, after) := AccessRegister(d, op, stage);
            Solo(d, op, stage, turns, high, keep) == Solo(next, op, after, turns, high, keep)
  {
  }

  function AfterAddress(d: Device, op: Op<Byte>): Stage {
    if op.Load? then Go(d.flags) else PutData(d.flags)
  }

  lemma SoloPostsAddress(d: Device, op: Op<Byte>, turns: Turns, high: Byte, keep: Byte)
    requires InRange(op)
    ensures var e := WithAddress(d, op);
            Solo(d, op, ReadFlags, turns, high, keep) == Solo(e, op, AfterAddress(e, op), turns, high, keep)
  {
    var f := d.flags | BFLG;
    var d1 := d.(flags := f);
    SoloAccess(d, op, ReadFlags, turns, high, keep);
    SoloAccess(d, op, SetBusy(d.flags), turns, high, keep);
    SoloAccess(d1, op, PutLow(f), turns, high, keep);
    SoloAccess(d1.(ldat := op.addr % 0x100), op, PutHigh(f), turns, high, keep);
  }

  lemma SoloPostsRest(d: Device, op: Op<Byte>, turns: Turns, high: Byte, keep: Byte)
    requires InRange(op)
    ensures Solo(d, op, AfterAddress(d, op), turns, high, keep) ==
            Solo(WithRest(d, op), op, Poll(BUSY_WAIT_CYCLES), turns, high, keep)
  {
    if op.Load? {
      SoloAccess(d, op, Go(d.flags), turns, high, keep);
    } else {
      var d1 := d.(cmdl := op.byte);
      SoloAccess(d, op, PutData(d.flags), turns, high, keep);
      SoloAccess(d1, op, PutDataHigh(d.flags), turns, high, keep);
      SoloAccess(d1.(cmdh := 0x00), op, Go(d.flags), turns, high, keep);
    }
  }

  lemma SoloPosts(d: Device, op: Op<Byte>, turns: Turns, high: Byte, keep: Byte)
    requires InRange(op)
    ensures Solo(d, op, ReadFlags, turns, high, keep) ==
            Solo(WithRequest(d, op), op, Poll(BUSY_WAIT_CYCLES), turns, high, keep)
  {
    SoloPostsAddress(d, op, turns, high, keep);
    SoloPostsRest(WithAddress(d, op), op, turns, high, keep);
  }

  /** A run that polled from `d` to `e`, with `count` polls left and `ready` seen last. */
  predicate PolledTo(
    d: Device, op: Op<Byte>, e: Device, count: nat, ready: bool, turns: Turns, high: Byte, keep: Byte)
  {
    && InRange(op) && count < BUSY_WAIT_CYCLES
    && Solo(d, op, Poll(BUSY_WAIT_CYCLES), turns, high, keep) ==
       Solo(e, op, AfterPoll(op, count + 1, ready), turns, high, keep)
  }

  predicate PollsFrom(
    d: Device, op: Op<Byte>, e: Device, count: nat, ready: bool, turns: Turns, high: Byte, keep: Byte)
  {
    PolledTo(d, op, e, count, ready, turns, high, keep) && (count != 0 ==> ready)
  }

  lemma PollOnce(d: Device, op: Op<Byte>, e: Device, count: nat, turns: Turns, high: Byte, keep: Byte)
    requires InRange(op) && 1 <= count <= BUSY_WAIT_CYCLES
    requires if count == BUSY_WAIT_CYCLES then d == e else PolledTo(d, op, e, count, false, turns, high, keep)
    ensures var f := Turned(e, Poll(count), turns, high, keep);
            PolledTo(d, op, f, count - 1, f.flags & DRDY != 0, turns, high, keep)
  {
  }

  /** Where the poll loop is with `count` cycles left: the request is served in the first turn there was,
      and DRDY is seen by the next poll. */
  predicate Polled(d: Device, e: Device, count: nat, ready: bool, turns: Turns, high: Byte, keep: Byte) {
    && count <= BUSY_WAIT_CYCLES && d.Requested()
    && (ready <==> ServedBefore(turns, BUSY_WAIT_CYCLES - count))
    && e == (if ready then d.Serve(high, keep) else d)
    && (ready ==> count < BUSY_WAIT_CYCLES && !ServedBefore(turns, BUSY_WAIT_CYCLES - count - 1))
  }

  lemma PolledNext(d: Device, e: Device, count: nat, turns: Turns, high: Byte, keep: Byte)
    requires count > 0 && Polled(d, e, count, false, turns, high, keep)
    ensures var f := Turned(e, Poll(count), turns, high, keep);
            Polled(d, f, count - 1, f.flags & DRDY != 0, turns, high, keep)
  {
    ServedBeforeNext(turns, BUSY_WAIT_CYCLES - count);
    AnswerRaisesDrdy(d, d.Request(), high, keep);
  }

  lemma SoloClears(
    d: Device, op: Op<Byte>, result: Option<Byte>, polls: nat, ready: bool, turns: Turns, high: Byte, keep: Byte)
    requires InRange(op)
    ensures Solo(d, op, Clear(result, polls, ready), turns, high, keep) ==
            (d.(flags := 0x00), Leave(result, polls, ready))
  {
    var e, stage := d.(flags := 0x00), Leave(result, polls, ready);
    assert Solo(e, op, stage, turns, high, keep) == (e, stage);
  }

  lemma SoloFetches(d: Device, op: Op<Byte>, polls: nat, turns: Turns, high: Byte, keep: Byte)
    requires InRange(op)
    ensures Solo(d, op, FetchLow(polls), turns, high, keep) == (d.(flags := 0x00), Leave(Some(d.cmdl), polls, true))
  {
    assert Solo(d, op, FetchLow(polls), turns, high, keep) == Solo(d, op, FetchHigh(d.cmdl, polls), turns, high, keep);
    SoloClears(d, op, Some(d.cmdl), polls, true, turns, high, keep);
  }

  lemma SoloEnds(e: Device, op: Op<Byte>, count: nat, ready: bool, turns: Turns, high: Byte, keep: Byte)
    requires InRange(op) && count < BUSY_WAIT_CYCLES && (count != 0 ==> ready)
    ensures var (end, stage) := Solo(e, op, AfterPoll(op, count + 1, ready), turns, high, keep);
            && end == e.(flags := 0x00) && stage.Leave?
            && stage.result == if count == 0 then None else Some(if op.Load? then e.cmdl else op.byte)
  {
    var polls := BUSY_WAIT_CYCLES - count;
    if count == 0 {
      SoloClears(e, op, None, BUSY_WAIT_CYCLES, ready, turns, high, keep);
    } else if op.Load? {
      SoloFetches(e, op, polls, turns, high, keep);
    } else {
      SoloClears(e, op, Some(op.byte), polls, true, turns, high, keep);
    }
  }

  /** Posting, polling and leaving make up the solo run of a routine. */
  lemma SoloWhole(
    d: Device, op: Op<Byte>, posted: Device, e: Device, count: nat, ready: bool, turns: Turns, high: Byte, keep: Byte)
    requires InRange(op) && posted == WithRequest(d, op)
    requires PollsFrom(posted, op, e, count, ready, turns, high, keep)
    ensures IsSoloRun(d, op, turns, high, keep, e.(flags := 0x00),
                      if count == 0 then None else Some(if op.Load? then e.cmdl else op.byte))
  {
    SoloPosts(d, op, turns, high, keep);
    SoloEnds(e, op, count, ready, turns, high, keep);
  }

  // ---------------------------------------------------------------------------------------------
  // The driver
  // ---------------------------------------------------------------------------------------------

  class DirectEc {
    var dev: Device

    /** Give the firmware its turn; a request already answered is not served again. */
    method FirmwareTurn(turn: bool, high: Byte, keep: Byte)
      modifies this
      ensures dev == if turn && old(dev).Requested() then old(dev).Serve(high, keep) else old(dev)
    {
      if turn && dev.Requested() {
        dev := dev.Serve(high, keep);
      }
    }

    /** The busy-wait loop shared by both routines; `count` is what is left of the cycles. */
    method WaitForReady(ghost op: Op<Byte>, turns: Turns, high: Byte, keep: Byte) returns (count: nat, ready: bool)
      requires dev.Requested() && InRange(op)
      modifies this
      ensures PollsFrom(old(dev), op, dev, count, ready, turns, high, keep)
      ensures count != 0 <==> ServedBefore(turns, BUSY_WAIT_CYCLES - 1)
      ensures ServedBefore(turns, BUSY_WAIT_CYCLES) ==> dev == old(dev).Serve(high, keep)
      ensures !ServedBefore(turns, BUSY_WAIT_CYCLES) ==> dev == old(dev)
    {
      count := BUSY_WAIT_CYCLES;
      ready := false;
      while !ready && count != 0
        invariant count <= BUSY_WAIT_CYCLES
        invariant Polled(old(dev), dev, count, ready, turns, high, keep)
        invariant if count == BUSY_WAIT_CYCLES then dev == old(dev) && !ready
                  else PolledTo(old(dev), op, dev, count, ready, turns, high, keep)
        decreases count
      {
        PollOnce(old(dev), op, dev, count, turns, high, keep);
        PolledNext(old(dev), dev, count, turns, high, keep);
        FirmwareTurn(turns[BUSY_WAIT_CYCLES - count], high, keep);
        ready := dev.flags & DRDY != 0;
        count := count - 1;
      }
    }

    /** The register writes before the poll loop of a read, after which the firmware can see the request. */
    method PostRead(addrLow: u8, addrHigh: u8)
      modifies this
      ensures var op: Op<Byte> := Load(addrHigh * 0x100 + addrLow);
              dev == WithRequest(old(dev), op) && dev.Requested() && dev.Request() == op
    {
      PostedFlagsRequest(dev.flags, Load(0));
      var flags := dev.flags | BFLG;
      dev := dev.(flags := flags);
      dev := dev.(ldat := addrLow);
      dev := dev.(hdat := addrHigh);
      flags := (flags & !DRDY) | RFLG;
      dev := dev.(flags := flags);
    }

    /** The same for a write; `dataHigh` goes to CMDH. */
    method PostWrite(addrLow: u8, addrHigh: u8, dataLow: Byte, dataHigh: Byte)
      modifies this
      ensures var op: Op<Byte> := Store(addrHigh * 0x100 + addrLow, dataLow);
              && (dataHigh == 0 ==> dev == WithRequest(old(dev), op)) && dev.ram == old(dev.ram) && dev.Requested()
              && dev.Request() == if old(dev.flags) & RFLG == 0 then op else Load(op.addr)
    {
      PostedFlagsRequest(dev.flags, Store(0, dataLow));
      var flags := dev.flags | BFLG;
      dev := dev.(flags := flags);
      dev := dev.(ldat := addrLow);
      dev := dev.(hdat := addrHigh);
      dev := dev.(cmdl := dataLow);
      dev := dev.(cmdh := dataHigh);
      flags := (flags & !DRDY) | WFLG;
      dev := dev.(flags := flags);
    }

    method ReadAddrDirect(addrLow: u8, addrHigh: u8, turns: Turns, high: Byte, keep: Byte)
      returns (result: int, dataLow: Byte, dataHigh: Byte)
      modifies this
      ensures dev.flags == 0 && dev.ram == old(dev.ram)
      ensures result == if ServedBefore(turns, 29) then 0 else -EIO
      ensures dataLow == if result == 0 then old(dev.ram)[addrHigh * 0x100 + addrLow] else ERROR_BYTE
      ensures dataHigh == if result == 0 then high else ERROR_BYTE
      ensures IsSoloRun(old(dev), Load(addrHigh * 0x100 + addrLow), turns, high, keep, dev,
                        if result == 0 then Some(dataLow) else None)
    {
      ghost var op: Op<Byte> := Load(addrHigh * 0x100 + addrLow);
      PostRead(addrLow, addrHigh);
      ghost var posted := dev;
      var count, ready := WaitForReady(op, turns, high, keep);
      SoloWhole(old(dev), op, posted, dev, count, ready, turns, high, keep);
      if count != 0 {
        result, dataLow, dataHigh := 0, dev.cmdl, dev.cmdh;
      } else {
        result, dataLow, dataHigh := -EIO, ERROR_BYTE, ERROR_BYTE;
      }
      dev := dev.(flags := 0x00);
    }

    method WriteAddrDirect(
      addrLow: u8, addrHigh: u8, dataLow: Byte, dataHigh: Byte, turns: Turns, high: Byte, keep: Byte)
      returns (result: int)
      modifies this
      ensures dev.flags == 0
      ensures result == if ServedBefore(turns, 29) then 0 else -EIO
      ensures dataHigh == 0 ==>
        IsSoloRun(old(dev), Store(addrHigh * 0x100 + addrLow, dataLow), turns, high, keep, dev,
                  if result == 0 then Some(dataLow) else None)
      ensures var written := old(dev.ram)[addrHigh * 0x100 + addrLow := dataLow];
              dev.ram == if ServedBefore(turns, 30) && old(dev.flags) & RFLG == 0 then written
                         else old(dev.ram)
    {
      ghost var op: Op<Byte> := Store(addrHigh * 0x100 + addrLow, dataLow);
      PostWrite(addrLow, addrHigh, dataLow, dataHigh);
      ghost var posted := dev;
      var count, ready := WaitForReady(op, turns, high, keep);
      if dataHigh == 0 {
        SoloWhole(old(dev), op, posted, dev, count, ready, turns, high, keep);
      }
      result := if count != 0 then 0 else -EIO;
      dev := dev.(flags := 0x00);
    }

    method ReadEcRam(addr: Address, turns: Turns, high: Byte, keep: Byte) returns (result: int, data: Byte)
      modifies this
      ensures dev.flags == 0 && dev.ram == old(dev.ram)
      ensures result == if ServedBefore(turns, 29) then 0 else -EIO
      ensures data == if result == 0 then old(dev.ram)[addr] else ERROR_BYTE
      ensures IsSoloRun(old(dev), Load(addr), turns, high, keep, dev, if result == 0 then Some(data) else None)
    {
      var addrLow, addrHigh := addr % 0x100, addr / 0x100 % 0x100;
      assert addrHigh * 0x100 + addrLow == addr by { AddressParts(addr); }
      var dataHigh;
      result, data, dataHigh := ReadAddrDirect(addrLow, addrHigh, turns, high, keep);
    }

    method WriteEcRam(addr: Address, data: Byte, turns: Turns, high: Byte, keep: Byte) returns (result: int)
      modifies this
      ensures dev.flags == 0
      ensures result == if ServedBefore(turns, 29) then 0 else -EIO
      ensures dev.ram ==
              if ServedBefore(turns, 30) && old(dev.flags) & RFLG == 0 then old(dev.ram)[addr := data]
              else old(dev.ram)
      ensures IsSoloRun(old(dev), Store(addr, data), turns, high, keep, dev, if result == 0 then Some(data) else None)
    {
      var addrLow, addrHigh := addr % 0x100, addr / 0x100 % 0x100;
      assert addrHigh * 0x100 + addrLow == addr by { AddressParts(addr); }
      result := WriteAddrDirect(addrLow, addrHigh, data, 0x00, turns, high, keep);
    }
  }

  // ---------------------------------------------------------------------------------------------
  // The same, as a run of the system
  // ---------------------------------------------------------------------------------------------

  /** Thread `t` is inside a routine, at an access that can be made. */
  predicate InRoutine(s: System, t: nat) {
    var th := s.At(t);
    && s.lock.Some? && s.latch.None? && th.Holding? && InRange(th.op)
    && (th.stage.Poll? ==> 1 <= th.stage.count <= BUSY_WAIT_CYCLES)
  }

  function StepsLeft(s: System, t: nat): nat
    requires InRoutine(s, t)
  {
    Remaining(s.At(t).stage)
  }

  /** `next` is one access of a solo run after `now`, with the firmware's turn before it. */
  predicate Follows(now: System, next: System, t: nat, turns: Turns, high: Byte, keep: Byte)
    requires InRoutine(now, t) && !now.At(t).stage.Leave?
  {
    var th := now.At(t);
    var (d, stage) := AccessRegister(Turned(now.dev, th.stage, turns, high, keep), th.op, th.stage);
    next.lock.Some? && next.latch.None? && next.dev == d && next.At(t) == Holding(th.op, stage)
  }

  /** What `later` has of thread `t` is where a solo run takes `now`. */
  predicate Reaches(now: System, later: System, t: nat, turns: Turns, high: Byte, keep: Byte)
    requires InRoutine(now, t)
  {
    var th := now.At(t);
    var (d, stage) := Solo(now.dev, th.op, th.stage, turns, high, keep);
    later.dev == d && later.At(t) == Holding(th.op, stage)
  }

  lemma FollowsAdvances(now: System, next: System, t: nat, turns: Turns, high: Byte, keep: Byte)
    requires InRoutine(now, t) && !now.At(t).stage.Leave? && Follows(now, next, t, turns, high, keep)
    ensures InRoutine(next, t) && StepsLeft(next, t) < StepsLeft(now, t)
  {
  }

  lemma ReachesAtOnce(now: System, t: nat, turns: Turns, high: Byte, keep: Byte)
    requires InRoutine(now, t) && now.At(t).stage.Leave?
    ensures Reaches(now, now, t, turns, high, keep)
  {
  }

  lemma ReachesInSteps(now: System, next: System, later: System, t: nat, turns: Turns, high: Byte, keep: Byte)
    requires InRoutine(now, t) && !now.At(t).stage.Leave? && Follows(now, next, t, turns, high, keep)
    requires InRoutine(next, t) && Reaches(next, later, t, turns, high, keep)
    ensures Reaches(now, later, t, turns, high, keep)
  {
  }

  /** The firmware's turn before an access, as actions of the system. */
  lemma SoloTurn(s: System, actions: seq<Action>, t: nat, turns: Turns, high: Byte, keep: Byte)
    returns (turn: seq<Action>)
    requires Runs(s, actions) && InRoutine(After(s, actions), t)
    ensures Runs(s, actions + turn)
    ensures var now, next := After(s, actions), After(s, actions + turn);
            && next.dev == Turned(now.dev, now.At(t).stage, turns, high, keep)
            && next.latch.None? && next.lock == now.lock && next.threads == now.threads
  {
    var now := After(s, actions);
    turn := [];
    if Turned(now.dev, now.At(t).stage, turns, high, keep) == now.dev {
      assert actions + turn == actions;
    } else {
      turn := [FirmwareLatches, FirmwareAnswers(high, keep)];
      OneMoreAction(s, actions, FirmwareLatches);
      OneMoreAction(s, actions + [FirmwareLatches], FirmwareAnswers(high, keep));
      assert actions + turn == actions + [FirmwareLatches] + [FirmwareAnswers(high, keep)];
    }
  }

  /** One access of a solo run, as actions of the system. */
  lemma SoloStep(s: System, actions: seq<Action>, t: nat, turns: Turns, high: Byte, keep: Byte)
    returns (more: seq<Action>)
    requires Runs(s, actions) && InRoutine(After(s, actions), t) && !After(s, actions).At(t).stage.Leave?
    ensures Runs(s, actions + more) && Follows(After(s, actions), After(s, actions + more), t, turns, high, keep)
  {
    var turn := SoloTurn(s, actions, t, turns, high, keep);
    OneMoreAction(s, actions + turn, Access(t));
    more := turn + [Access(t)];
    assert actions + more == actions + turn + [Access(t)];
  }

  /** A solo run is a run of the system: the routine as a method and the same routine access by access
      are one and the same. */
  lemma {:induction false} SoloIsARun(s: System, actions: seq<Action>, t: nat, turns: Turns, high: Byte, keep: Byte)
    returns (more: seq<Action>)
    requires Runs(s, actions) && InRoutine(After(s, actions), t)
    ensures Runs(s, actions + more) && Reaches(After(s, actions), After(s, actions + more), t, turns, high, keep)
    decreases StepsLeft(After(s, actions), t)
  {
    if After(s, actions).At(t).stage.Leave? {
      more := [];
      assert actions + more == actions;
      ReachesAtOnce(After(s, actions), t, turns, high, keep);
    } else {
      var step := SoloStep(s, actions, t, turns, high, keep);
      FollowsAdvances(After(s, actions), After(s, actions + step), t, turns, high, keep);
      var rest := SoloIsARun(s, actions + step, t, turns, high, keep);
      more := step + rest;
      assert actions + more == actions + step + rest;
      ReachesInSteps(After(s, actions), After(s, actions + step), After(s, actions + more), t, turns, high, keep);
    }
  }
}
