/** Direct access to the Uniwill embedded controller: the driver posts a request in five registers,
    the firmware serves it whenever it likes and raises DRDY, and the driver polls a bounded number
    of times.

    The routines run here one register access at a time, in any number of threads, against a firmware that
    first takes note of a request and answers it later. UniwillDirectDriver.dfy has them as the driver
    writes them. */
module UniwillDirectEc {
  import opened Common
  import opened Linearization
  import opened UniwillRam

  const RFLG: Byte := 0x01
  const WFLG: Byte := 0x02
  const BFLG: Byte := 0x04
  const DRDY: Byte := 0x80

  const BUSY_WAIT_CYCLES := 30

  datatype Device = Device(ldat: u8, hdat: u8, flags: Byte, cmdl: Byte, cmdh: Byte, ram: Ram) {
    function Target(): Address {
      hdat * 0x100 + ldat
    }

    /** The firmware has a request that it has not answered yet. */
    predicate Requested() {
      flags & DRDY == 0 && flags & (RFLG | WFLG) != 0
    }

    /** The access that the posted request asks for. */
    function Request(): Op<Byte> {
      if flags & RFLG != 0 then Load(Target()) else Store(Target(), cmdl)
    }

    /** The firmware answers a request: `high` is what it leaves in CMDH, `keep` the flag bits it does not
        clear. */
    function Answer(op: Op<Byte>, high: Byte, keep: Byte): Device
      requires InRange(op)
    {
      var raised := (flags & keep) | DRDY;
      match op
      case Load(a) => this.(cmdl := ram[a], cmdh := high, flags := raised)
      case Store(a, b) => this.(ram := ram[a := b], flags := raised)
    }

    /** It takes note and answers at once. */
    function Serve(high: Byte, keep: Byte): Device {
      Answer(Request(), high, keep)
    }
  }

  function RequestFlags(op: Op<Byte>): Byte {
    BFLG | (if op.Load? then RFLG else WFLG)
  }

  /** The registers say exactly `op`, and the firmware has not answered. */
  predicate Posted(d: Device, op: Op<Byte>) {
    d.flags == RequestFlags(op) && d.Target() == op.addr && (op.Store? ==> d.cmdl == op.byte)
  }

  lemma PostedRequest(d: Device, op: Op<Byte>)
    requires Posted(d, op)
    ensures d.Requested() && d.Request() == op
  {
    assert op.Load? ==> d.flags == 0x05;
    assert op.Store? ==> d.flags == 0x06;
  }

  /** An answer raises DRDY, so that a request is not answered twice. */
  lemma AnswerRaisesDrdy(d: Device, op: Op<Byte>, high: Byte, keep: Byte)
    requires InRange(op)
    ensures d.Answer(op, high, keep).flags & 0x80 != 0 && d.Answer(op, high, keep).flags & DRDY != 0
    ensures !d.Answer(op, high, keep).Requested()
  {
    var f, k := d.flags, keep;
    assert ((f & k) | DRDY) & DRDY != 0;
  }

  // ---------------------------------------------------------------------------------------------
  // The system
  // ---------------------------------------------------------------------------------------------

  /** The next register access of a routine. `flags` is its local copy of the flag register; `polls`
      counts the polls it made and `ready` says whether the last of them saw DRDY. */
  datatype Stage =
    | ReadFlags
    | SetBusy(flags: Byte)
    | PutLow(flags: Byte)
    | PutHigh(flags: Byte)
    | PutData(flags: Byte)
    | PutDataHigh(flags: Byte)
    | Go(flags: Byte)
    | Poll(count: nat)
    | FetchLow(polls: nat)
    | FetchHigh(low: Byte, polls: nat)
    | Clear(result: Option<Byte>, polls: nat, ready: bool)
    | Leave(result: Option<Byte>, polls: nat, ready: bool)

  datatype Thread = Resting | Waiting(op: Op<Byte>) | Holding(op: Op<Byte>, stage: Stage)

  /** A request that the firmware has taken note of, and the thread that had the mutex then. */
  datatype Latch = Latch(tid: nat, op: Op<Byte>)

  datatype System = System(
    dev: Device, latch: Option<Latch>, lock: Option<nat>, threads: map<nat, Thread>, history: seq<Event<Byte>>)
  {
    function At(t: nat): Thread {
      if t in threads then threads[t] else Resting
    }
  }

  datatype Action =
    | Call(tid: nat, op: Op<Byte>)
    | Acquire(tid: nat)
    | Access(tid: nat)
    | Release(tid: nat)
    | FirmwareLatches
    | FirmwareAnswers(high: Byte, keep: Byte)
    | FirmwareWrites(addr: Address, byte: Byte)

  /** The firmware finds a request only while a thread has the mutex (ExitConditions). */
  predicate Enabled(s: System, a: Action) {
    match a
    case Call(t, op) => s.At(t).Resting? && InRange(op)
    case Acquire(t) => s.At(t).Waiting? && s.lock.None?
    case Access(t) =>
      && s.At(t).Holding? && !s.At(t).stage.Leave? && InRange(s.At(t).op)
      && (s.At(t).stage.Poll? ==> 1 <= s.At(t).stage.count <= BUSY_WAIT_CYCLES)
    case Release(t) => s.At(t).Holding? && s.At(t).stage.Leave?
    case FirmwareLatches => s.dev.Requested() && s.latch.None? && s.lock.Some?
    case FirmwareAnswers(_, _) => s.latch.Some? && InRange(s.latch.value.op)
    case FirmwareWrites(_, _) => true
  }

  /** One register access: the new device and the stage that follows. */
  function AccessRegister(d: Device, op: Op<Byte>, stage: Stage): (Device, Stage)
    requires InRange(op) && !stage.Leave?
    requires stage.Poll? ==> 1 <= stage.count <= BUSY_WAIT_CYCLES
  {
    match stage
    case ReadFlags => (d, SetBusy(d.flags))
    case SetBusy(f) => (d.(flags := f | BFLG), PutLow(f | BFLG))
    case PutLow(f) => (d.(ldat := op.addr % 0x100), PutHigh(f))
    case PutHigh(f) => (d.(hdat := op.addr / 0x100), if op.Load? then Go(f) else PutData(f))
    case PutData(f) => (d.(cmdl := if op.Store? then op.byte else d.cmdl), PutDataHigh(f))
    case PutDataHigh(f) => (d.(cmdh := 0x00), Go(f))
    case Go(f) => (d.(flags := (f & !DRDY) | (if op.Load? then RFLG else WFLG)), Poll(BUSY_WAIT_CYCLES))
    case Poll(count) => (d, AfterPoll(op, count, d.flags & DRDY != 0))
    case FetchLow(polls) => (d, FetchHigh(d.cmdl, polls))
    case FetchHigh(low, polls) => (d, Clear(Some(low), polls, true))
    case Clear(result, polls, ready) => (d.(flags := 0x00), Leave(result, polls, ready))
  }

  function AfterPoll(op: Op<Byte>, count: nat, ready: bool): Stage
    requires 1 <= count <= BUSY_WAIT_CYCLES
  {
    var left := count - 1;
    if !ready && left != 0 then Poll(left)
    else if left == 0 then Clear(None, BUSY_WAIT_CYCLES, ready)
    else match op
         case Load(_) => FetchLow(BUSY_WAIT_CYCLES - left)
         case Store(_, b) => Clear(Some(b), BUSY_WAIT_CYCLES - left, true)
  }

  function Perform(s: System, a: Action): System
    requires Enabled(s, a)
  {
    match a
    case Call(t, op) =>
      s.(threads := s.threads[t := Waiting(op)], history := s.history + [Invoke(t, op)])
    case Acquire(t) =>
      s.(threads := s.threads[t := Holding(s.At(t).op, ReadFlags)], lock := Some(t))
    case Access(t) =>
      var (dev, stage) := AccessRegister(s.dev, s.At(t).op, s.At(t).stage);
      s.(dev := dev, threads := s.threads[t := Holding(s.At(t).op, stage)])
    case Release(t) =>
      var th := s.At(t);
      s.(threads := s.threads[t := Resting], lock := None,
         history := s.history + [Return(t, th.op, th.stage.result)])
    case FirmwareLatches =>
      s.(latch := Some(Latch(s.lock.value, s.dev.Request())))
    case FirmwareAnswers(high, keep) =>
      s.(dev := s.dev.Answer(s.latch.value.op, high, keep), latch := None, history := s.history + [AnswerEvent(s)])
    case FirmwareWrites(addr, byte) =>
      s.(dev := s.dev.(ram := s.dev.ram[addr := byte]), history := s.history + [Firmware(addr, byte)])
  }

  /** The instant at which the firmware answers is the point of the operation whose request it latched. */
  function AnswerEvent(s: System): Event<Byte>
    requires s.latch.Some? && InRange(s.latch.value.op)
  {
    var latch := s.latch.value;
    Point(latch.tid, latch.op, match latch.op case Load(a) => s.dev.ram[a] case Store(_, b) => b)
  }

  /** The environment assumption: the firmware is not at work on a request when the driver clears FLAGS. It
      can only be if the driver gives up. */
  predicate Timely(s: System, a: Action) {
    a.Access? && s.At(a.tid).Holding? && s.At(a.tid).stage.Clear? ==> s.latch.None?
  }

  predicate Step(s: System, a: Action) {
    Enabled(s, a) && Timely(s, a)
  }

  predicate Runs(s: System, actions: seq<Action>)
    decreases |actions|, 0
  {
    actions == [] ||
    (Runs(s, actions[..|actions| - 1]) && Step(After(s, actions[..|actions| - 1]), actions[|actions| - 1]))
  }

  function After(s: System, actions: seq<Action>): System
    requires Runs(s, actions)
    decreases |actions|, 1
  {
    if actions == [] then s else Perform(After(s, actions[..|actions| - 1]), actions[|actions| - 1])
  }

  lemma OneMoreAction(s: System, actions: seq<Action>, a: Action)
    requires Runs(s, actions) && Step(After(s, actions), a)
    ensures Runs(s, actions + [a]) && After(s, actions + [a]) == Perform(After(s, actions), a)
  {
    assert (actions + [a])[..|actions|] == actions;
  }

  /** No thread is inside a routine, and no request is posted or being worked on. */
  ghost predicate Initial(s: System) {
    s.lock.None? && s.latch.None? && s.threads == map[] && s.history == [] && s.dev.flags == 0
  }

  // ---------------------------------------------------------------------------------------------
  // The invariant
  // ---------------------------------------------------------------------------------------------

  /** The firmware has answered: it will not touch the request again, and a load's byte is in CMDL. */
  predicate Answered(d: Device, op: Op<Byte>, seen: Byte) {
    d.flags & DRDY != 0 && (op.Load? ==> d.cmdl == seen)
  }

  predicate PostedOrAnswered(d: Device, op: Op<Byte>, p: Phase<Byte>) {
    || (p == Called(op) && Posted(d, op))
    || (p.Acted? && p.op == op && Answered(d, op, p.seen) && (op.Store? ==> p.seen == op.byte))
  }

  predicate HolderOk(d: Device, op: Op<Byte>, stage: Stage, p: Phase<Byte>) {
    match stage
    case ReadFlags => p == Called(op) && d.flags == 0
    case SetBusy(f) => p == Called(op) && d.flags == 0 && f == 0
    case PutLow(f) => p == Called(op) && d.flags == BFLG && f == BFLG
    case PutHigh(f) => p == Called(op) && d.flags == BFLG && f == BFLG && d.ldat == op.addr % 0x100
    case PutData(f) => p == Called(op) && d.flags == BFLG && f == BFLG && d.Target() == op.addr && op.Store?
    case PutDataHigh(f) =>
      p == Called(op) && d.flags == BFLG && f == BFLG && d.Target() == op.addr && op.Store? && d.cmdl == op.byte
    case Go(f) =>
      p == Called(op) && d.flags == BFLG && f == BFLG && d.Target() == op.addr && (op.Store? ==> d.cmdl == op.byte)
    case Poll(count) => 1 <= count <= BUSY_WAIT_CYCLES && PostedOrAnswered(d, op, p)
    case FetchLow(polls) => op.Load? && p.Acted? && PostedOrAnswered(d, op, p) && polls < BUSY_WAIT_CYCLES
    case FetchHigh(low, polls) =>
      op.Load? && p == Acted(op, low) && PostedOrAnswered(d, op, p) && polls < BUSY_WAIT_CYCLES
    case Clear(result, polls, ready) =>
      && PostedOrAnswered(d, op, p) && (result.Some? ==> p == Acted(op, result.value))
      && (result.Some? <==> ready && polls < BUSY_WAIT_CYCLES)
    case Leave(result, polls, ready) =>
      && d.flags == 0 && (p == Called(op) || (p.Acted? && p.op == op))
      && (result.Some? ==> p == Acted(op, result.value))
      && (result.Some? <==> ready && polls < BUSY_WAIT_CYCLES)
  }

  /** What is latched is the request that the holder has posted, and it has not acted yet. */
  predicate LatchOk(d: Device, latch: Option<Latch>, t: nat, op: Op<Byte>, p: Phase<Byte>) {
    latch.Some? ==> latch.value == Latch(t, op) && Posted(d, op) && p == Called(op)
  }

  predicate ThreadOk(s: System, t: nat) {
    match s.At(t)
    case Resting => PhaseOf(s.history, t) == Quiet
    case Waiting(op) => InRange(op) && PhaseOf(s.history, t) == Called(op)
    case Holding(op, stage) =>
      && s.lock == Some(t) && InRange(op) && HolderOk(s.dev, op, stage, PhaseOf(s.history, t))
      && LatchOk(s.dev, s.latch, t, op, PhaseOf(s.history, t))
  }

  ghost predicate Inv(ram: Ram, s: System) {
    && Faithful(ram, s.history)
    && s.dev.ram == Replay(ram, s.history)
    && (s.lock.None? ==> s.dev.flags == 0 && s.latch.None?)
    && (s.lock.Some? ==> s.At(s.lock.value).Holding?)
    && forall t: nat :: ThreadOk(s, t)
  }

  predicate Posting(stage: Stage) {
    !stage.Poll? && !stage.FetchLow? && !stage.FetchHigh? && !stage.Clear? && !stage.Leave?
  }

  lemma AddressingKeepsHolderOk(d: Device, op: Op<Byte>, stage: Stage, p: Phase<Byte>)
    requires InRange(op) && (stage.ReadFlags? || stage.SetBusy? || stage.PutLow? || stage.PutHigh?)
    requires HolderOk(d, op, stage, p)
    ensures var (d', stage') := AccessRegister(d, op, stage);
            d'.ram == d.ram && HolderOk(d', op, stage', p)
  {
  }

  lemma PostingKeepsHolderOk(d: Device, op: Op<Byte>, stage: Stage, p: Phase<Byte>)
    requires InRange(op) && Posting(stage) && HolderOk(d, op, stage, p)
    ensures var (d', stage') := AccessRegister(d, op, stage);
            d'.ram == d.ram && HolderOk(d', op, stage', p)
  {
    if stage.ReadFlags? || stage.SetBusy? || stage.PutLow? || stage.PutHigh? {
      AddressingKeepsHolderOk(d, op, stage, p);
    }
  }

  lemma PostingIsNotPosted(d: Device, op: Op<Byte>, stage: Stage, p: Phase<Byte>)
    requires Posting(stage) && HolderOk(d, op, stage, p)
    ensures !Posted(d, op)
  {
    assert d.flags == 0 || d.flags == BFLG;
  }

  /** An access keeps the holder's part; before polling and at the end no request is posted. */
  lemma AccessKeepsHolderOk(d: Device, op: Op<Byte>, stage: Stage, p: Phase<Byte>)
    requires InRange(op) && !stage.Leave? && HolderOk(d, op, stage, p)
    requires stage.Poll? ==> 1 <= stage.count <= BUSY_WAIT_CYCLES
    ensures var (d', stage') := AccessRegister(d, op, stage);
            d'.ram == d.ram && HolderOk(d', op, stage', p) && (d' == d || stage.Clear? || !Posted(d, op))
  {
    if Posting(stage) {
      PostingKeepsHolderOk(d, op, stage, p);
      PostingIsNotPosted(d, op, stage, p);
    } else if p == Called(op) && Posted(d, op) {
      PostedRequest(d, op);
    }
  }

  /** A request that the firmware finds is the holder's own, and not answered yet. */
  lemma RequestIsHolders(d: Device, op: Op<Byte>, stage: Stage, p: Phase<Byte>)
    requires InRange(op) && d.Requested() && HolderOk(d, op, stage, p)
    ensures Posted(d, op) && d.Request() == op && p == Called(op)
  {
    assert d.flags != 0 && d.flags != BFLG;
    assert Posted(d, op);
    PostedRequest(d, op);
  }

  lemma AnswerKeepsHolderOk(d: Device, op: Op<Byte>, stage: Stage, p: Phase<Byte>, high: Byte, keep: Byte)
    requires InRange(op) && Posted(d, op) && p == Called(op) && HolderOk(d, op, stage, p)
    ensures var seen := if op.Load? then d.ram[op.addr] else op.byte;
            HolderOk(d.Answer(op, high, keep), op, stage, Acted(op, seen))
  {
    PostedRequest(d, op);
    assert d.flags != 0 && d.flags != BFLG;
    AnswerRaisesDrdy(d, op, high, keep);
  }

  lemma AccessKeepsInv(ram: Ram, s: System, t: nat)
    requires Inv(ram, s) && Step(s, Access(t))
    ensures Inv(ram, Perform(s, Access(t)))
  {
    assert ThreadOk(s, t);
    AccessKeepsHolderOk(s.dev, s.At(t).op, s.At(t).stage, PhaseOf(s.history, t));
    var s' := Perform(s, Access(t));
    forall u: nat ensures ThreadOk(s', u) {
      assert ThreadOk(s, u);
    }
  }

  lemma LatchKeepsInv(ram: Ram, s: System)
    requires Inv(ram, s) && Enabled(s, FirmwareLatches)
    ensures Inv(ram, Perform(s, FirmwareLatches))
  {
    var t := s.lock.value;
    assert ThreadOk(s, t);
    RequestIsHolders(s.dev, s.At(t).op, s.At(t).stage, PhaseOf(s.history, t));
    forall u: nat ensures ThreadOk(Perform(s, FirmwareLatches), u) {
      assert ThreadOk(s, u);
    }
  }

  /** The answer is the instant at which the lock holder's operation acts. */
  lemma AnswerActs(ram: Ram, s: System, high: Byte, keep: Byte)
    requires Inv(ram, s) && Enabled(s, FirmwareAnswers(high, keep))
    ensures s.lock.Some?
    ensures var t, s' := s.lock.value, Perform(s, FirmwareAnswers(high, keep));
            && s.At(t).Holding? && InRange(s.At(t).op)
            && var op := s.At(t).op;
               var seen := if op.Load? then s.dev.ram[op.addr] else op.byte;
               && s'.history == s.history + [Point(t, op, seen)] && PhaseOf(s.history, t) == Called(op)
               && s'.dev.ram == (if op.Store? then s.dev.ram[op.addr := op.byte] else s.dev.ram)
               && HolderOk(s'.dev, op, s.At(t).stage, Acted(op, seen))
  {
    var t := s.lock.value;
    assert ThreadOk(s, t);
    AnswerKeepsHolderOk(s.dev, s.At(t).op, s.At(t).stage, PhaseOf(s.history, t), high, keep);
  }

  lemma AnswerKeepsInv(ram: Ram, s: System, high: Byte, keep: Byte)
    requires Inv(ram, s) && Enabled(s, FirmwareAnswers(high, keep))
    ensures Inv(ram, Perform(s, FirmwareAnswers(high, keep)))
  {
    var s' := Perform(s, FirmwareAnswers(high, keep));
    AnswerActs(ram, s, high, keep);
    Snoc(ram, s.history, s'.history[|s.history|]);
    forall u: nat ensures ThreadOk(s', u) {
      assert ThreadOk(s, u);
    }
  }

  lemma CallKeepsInv(ram: Ram, s: System, t: nat, op: Op<Byte>)
    requires Inv(ram, s) && Enabled(s, Call(t, op))
    ensures Inv(ram, Perform(s, Call(t, op)))
  {
    assert ThreadOk(s, t);
    Snoc(ram, s.history, Invoke(t, op));
    forall u: nat ensures ThreadOk(Perform(s, Call(t, op)), u) {
      assert ThreadOk(s, u);
    }
  }

  lemma AcquireKeepsInv(ram: Ram, s: System, t: nat)
    requires Inv(ram, s) && Enabled(s, Acquire(t))
    ensures Inv(ram, Perform(s, Acquire(t)))
  {
    assert ThreadOk(s, t);
    forall u: nat ensures ThreadOk(Perform(s, Acquire(t)), u) {
      assert ThreadOk(s, u);
    }
  }

  lemma ReleaseKeepsInv(ram: Ram, s: System, t: nat)
    requires Inv(ram, s) && Enabled(s, Release(t))
    ensures Inv(ram, Perform(s, Release(t)))
  {
    assert ThreadOk(s, t);
    var th := s.At(t);
    Snoc(ram, s.history, Return(t, th.op, th.stage.result));
    forall u: nat ensures ThreadOk(Perform(s, Release(t)), u) {
      assert ThreadOk(s, u);
    }
  }

  lemma FirmwareKeepsInv(ram: Ram, s: System, addr: Address, byte: Byte)
    requires Inv(ram, s)
    ensures Inv(ram, Perform(s, FirmwareWrites(addr, byte)))
  {
    Snoc(ram, s.history, Firmware(addr, byte));
    forall u: nat ensures ThreadOk(Perform(s, FirmwareWrites(addr, byte)), u) {
      assert ThreadOk(s, u);
    }
  }

  lemma StepKeepsInv(ram: Ram, s: System, a: Action)
    requires Inv(ram, s) && Step(s, a)
    ensures Inv(ram, Perform(s, a))
  {
    match a {
      case Call(t, op) => CallKeepsInv(ram, s, t, op);
      case Acquire(t) => AcquireKeepsInv(ram, s, t);
      case Access(t) => AccessKeepsInv(ram, s, t);
      case Release(t) => ReleaseKeepsInv(ram, s, t);
      case FirmwareLatches => LatchKeepsInv(ram, s);
      case FirmwareAnswers(high, keep) => AnswerKeepsInv(ram, s, high, keep);
      case FirmwareWrites(addr, byte) => FirmwareKeepsInv(ram, s, addr, byte);
    }
  }

  lemma {:induction false} InvHolds(ram: Ram, s: System, actions: seq<Action>)
    requires Inv(ram, s) && Runs(s, actions)
    ensures Inv(ram, After(s, actions))
  {
    if actions != [] {
      InvHolds(ram, s, actions[..|actions| - 1]);
      StepKeepsInv(ram, After(s, actions[..|actions| - 1]), actions[|actions| - 1]);
    }
  }

  // ---------------------------------------------------------------------------------------------
  // Results
  // ---------------------------------------------------------------------------------------------

  /** However register accesses, the firmware's work on requests and its own writes interleave, a call acts
      at most once (never after it returned), a successful call acted and returned what it saw, and the
      memory is the flat memory that those instants describe. FLAGS is idle again whenever the lock is
      free. */
  lemma DirectAccessIsAtomicMemory(s: System, actions: seq<Action>)
    requires Initial(s) && Runs(s, actions)
    ensures Linearizable(s.dev.ram, After(s, actions).history)
    ensures After(s, actions).dev.ram == Replay(s.dev.ram, After(s, actions).history)
    ensures After(s, actions).lock.None? ==> After(s, actions).dev.flags == 0 && After(s, actions).latch.None?
  {
    InvHolds(s.dev.ram, s, actions);
    InvIsLinearizable(s.dev.ram, After(s, actions));
  }

  lemma InvIsLinearizable(ram: Ram, s: System)
    requires Inv(ram, s)
    ensures Linearizable(ram, s.history)
  {
    forall t: nat ensures !PhaseOf(s.history, t).Broken? {
      assert ThreadOk(s, t);
    }
  }

  /** All timely continuations from here behave as one flat memory. */
  ghost predicate StaysAtomic(ram: Ram, s: System) {
    forall more: seq<Action> :: Runs(s, more) ==> Linearizable(ram, After(s, more).history)
  }

  /** The assumption is exactly what is needed: after a timely run, a step keeps all further behaviour
      atomic if and only if it does not clear FLAGS under a request that the firmware is working on. */
  lemma AtomicExactly(s: System, actions: seq<Action>, a: Action)
    requires Initial(s) && Runs(s, actions) && Enabled(After(s, actions), a)
    ensures StaysAtomic(s.dev.ram, Perform(After(s, actions), a)) <==> Timely(After(s, actions), a)
  {
    var ram, now := s.dev.ram, After(s, actions);
    InvHolds(ram, s, actions);
    if Timely(now, a) {
      StepKeepsInv(ram, now, a);
      forall more: seq<Action> | Runs(Perform(now, a), more)
        ensures Linearizable(ram, After(Perform(now, a), more).history)
      {
        InvHolds(ram, Perform(now, a), more);
        InvIsLinearizable(ram, After(Perform(now, a), more));
      }
    } else {
      LateAnswerBreaks(ram, now, a.tid);
    }
  }

  /** If the driver gives up while the firmware is at work, the answer can come after the return: then a write
      takes effect although its call is over. */
  lemma LateAnswerBreaks(ram: Ram, s: System, t: nat)
    requires Inv(ram, s) && Enabled(s, Access(t)) && !Timely(s, Access(t))
    ensures !StaysAtomic(ram, Perform(s, Access(t)))
  {
    assert ThreadOk(s, t);
    var op := s.At(t).op;
    var s1 := Perform(s, Access(t));
    var s2 := Perform(s1, Release(t));
    var s3 := Perform(s2, FirmwareAnswers(0, 0));
    OneMoreAction(s1, [], Release(t));
    OneMoreAction(s1, [Release(t)], FirmwareAnswers(0, 0));
    Snoc(ram, s1.history, Return(t, op, s1.At(t).stage.result));
    Snoc(ram, s2.history, AnswerEvent(s2));
    assert PhaseOf(s2.history, t) == Quiet;
    assert PhaseOf(s3.history, t).Broken?;
    assert After(s1, [Release(t)] + [FirmwareAnswers(0, 0)]) == s3;
  }

  // ---------------------------------------------------------------------------------------------
  // Exits of a call
  // ---------------------------------------------------------------------------------------------

  /** What the poll accesses of thread `t` in its present call have found in bit DRDY, in order. */
  function PollsOf(s: System, actions: seq<Action>, t: nat): seq<bool>
    requires Runs(s, actions)
  {
    if actions == [] then []
    else
      var front, a := actions[..|actions| - 1], actions[|actions| - 1];
      var now := After(s, front);
      if a == Acquire(t) then []
      else if a == Access(t) && now.At(t).stage.Poll? then PollsOf(s, front, t) + [now.dev.flags & DRDY != 0]
      else PollsOf(s, front, t)
  }

  /** Polling ends with the first poll that finds DRDY, or with the 30th. */
  predicate PollsFit(stage: Stage, polls: seq<bool>) {
    && (forall i :: 0 <= i < |polls| - 1 ==> !polls[i])
    && match stage
       case Poll(count) => |polls| == BUSY_WAIT_CYCLES - count && (polls != [] ==> !polls[|polls| - 1])
       case FetchLow(n) => |polls| == n && 0 < n < BUSY_WAIT_CYCLES && polls[n - 1]
       case FetchHigh(_, n) => |polls| == n && 0 < n < BUSY_WAIT_CYCLES && polls[n - 1]
       case Clear(result, n, ready) =>
         |polls| == n && 0 < n && polls[n - 1] == ready && (result.Some? <==> ready && n < BUSY_WAIT_CYCLES)
       case Leave(result, n, ready) =>
         |polls| == n && 0 < n && polls[n - 1] == ready && (result.Some? <==> ready && n < BUSY_WAIT_CYCLES)
       case _ => polls == []
  }

  lemma AccessKeepsPollsFit(d: Device, op: Op<Byte>, stage: Stage, polls: seq<bool>)
    requires InRange(op) && !stage.Leave? && PollsFit(stage, polls)
    requires stage.Poll? ==> 1 <= stage.count <= BUSY_WAIT_CYCLES
    ensures var next := if stage.Poll? then polls + [d.flags & DRDY != 0] else polls;
            PollsFit(AccessRegister(d, op, stage).1, next)
  {
  }

  lemma {:induction false} PollsFitHolds(s: System, actions: seq<Action>, t: nat)
    requires Initial(s) && Runs(s, actions)
    ensures var th := After(s, actions).At(t); th.Holding? ==> PollsFit(th.stage, PollsOf(s, actions, t))
  {
    if actions != [] {
      var front, a := actions[..|actions| - 1], actions[|actions| - 1];
      PollsFitHolds(s, front, t);
      var now := After(s, front);
      if a == Access(t) {
        AccessKeepsPollsFit(now.dev, now.At(t).op, now.At(t).stage, PollsOf(s, front, t));
      }
    }
  }

  /** One of the first 29 polls found DRDY. */
  predicate ReadyInTime(polls: seq<bool>) {
    exists i :: 0 <= i < |polls| && i < 29 && polls[i]
  }

  lemma LeavesInTime(stage: Stage, polls: seq<bool>)
    requires stage.Leave? && PollsFit(stage, polls)
    ensures stage.result.Some? <==> ReadyInTime(polls)
  {
    assert stage.result.Some? ==> polls[|polls| - 1];
  }

  /** A call succeeds exactly when one of the first 29 polls that it made found DRDY in FLAGS; DRDY on the
      30th is too late. And it leaves no request behind: FLAGS is 0 when it returns, and the firmware has
      nothing to serve while the lock is free. */
  lemma ExitConditions(s: System, actions: seq<Action>, t: nat)
    requires Initial(s) && Runs(s, actions)
    ensures var s' := After(s, actions);
            && (Enabled(s', Release(t)) ==>
                  && (s'.At(t).stage.result.Some? <==> ReadyInTime(PollsOf(s, actions, t)))
                  && s'.dev.flags == 0)
            && (s'.lock.None? ==> !s'.dev.Requested())
  {
    InvHolds(s.dev.ram, s, actions);
    assert ThreadOk(After(s, actions), t);
    PollsFitHolds(s, actions, t);
    if Enabled(After(s, actions), Release(t)) {
      LeavesInTime(After(s, actions).At(t).stage, PollsOf(s, actions, t));
    }
  }

  // ---------------------------------------------------------------------------------------------
  // Both ways of giving up do happen
  // ---------------------------------------------------------------------------------------------

  /** Thread `t` has `count` polls left for a request that the firmware is working on. */
  predicate Waits(s: System, t: nat, op: Op<Byte>, count: nat) {
    && s.lock == Some(t) && s.latch == Some(Latch(t, op)) && s.dev.flags == RequestFlags(op)
    && s.At(t) == Holding(op, Poll(count)) && InRange(op)
  }

  lemma Posts(s: System, t: nat, a: Address, b: Byte) returns (actions: seq<Action>)
    requires Initial(s)
    ensures Runs(s, actions) && After(s, actions).At(t) == Holding(Store(a, b), PutHigh(BFLG))
    ensures var s' := After(s, actions);
            && s'.lock == Some(t) && s'.latch.None? && s'.dev.flags == BFLG && s'.dev.ldat == a % 0x100
            && s'.dev.ram == s.dev.ram
  {
    var op: Op<Byte> := Store(a, b);
    actions := [Call(t, op)];
    OneMoreAction(s, [], Call(t, op));
    OneMoreAction(s, actions, Acquire(t));
    actions := actions + [Acquire(t)];
    OneMoreAction(s, actions, Access(t));
    actions := actions + [Access(t)];
    OneMoreAction(s, actions, Access(t));
    actions := actions + [Access(t)];
    OneMoreAction(s, actions, Access(t));
    actions := actions + [Access(t)];
  }

  /** The four accesses that complete a write request. */
  function Completed(s: System, t: nat): System
    requires s.At(t).Holding? && s.At(t).stage.PutHigh? && s.At(t).op.Store? && InRange(s.At(t).op)
  {
    Perform(Perform(Perform(Perform(s, Access(t)), Access(t)), Access(t)), Access(t))
  }

  lemma CompletedRuns(s: System, actions: seq<Action>, t: nat) returns (longer: seq<Action>)
    requires Runs(s, actions)
    requires var th := After(s, actions).At(t); th.Holding? && th.stage.PutHigh? && th.op.Store? && InRange(th.op)
    ensures Runs(s, longer) && After(s, longer) == Completed(After(s, actions), t)
  {
    OneMoreAction(s, actions, Access(t));
    longer := actions + [Access(t)];
    OneMoreAction(s, longer, Access(t));
    longer := longer + [Access(t)];
    OneMoreAction(s, longer, Access(t));
    longer := longer + [Access(t)];
    OneMoreAction(s, longer, Access(t));
    longer := longer + [Access(t)];
  }

  lemma CompletedIsPosted(s: System, t: nat, op: Op<Byte>)
    requires op.Store? && InRange(op) && s.At(t) == Holding(op, PutHigh(BFLG)) && s.dev.flags == BFLG
    requires s.dev.ldat == op.addr % 0x100 && s.lock == Some(t) && s.latch.None?
    ensures var c := Completed(s, t);
            && Posted(c.dev, op) && c.At(t) == Holding(op, Poll(BUSY_WAIT_CYCLES)) && c.dev.ram == s.dev.ram
            && c.lock == Some(t) && c.latch.None?
  {
  }

  lemma LatchesPosted(s: System, t: nat, op: Op<Byte>)
    requires Posted(s.dev, op) && InRange(op) && s.lock == Some(t) && s.latch.None?
    requires s.At(t) == Holding(op, Poll(BUSY_WAIT_CYCLES))
    ensures Step(s, FirmwareLatches) && Waits(Perform(s, FirmwareLatches), t, op, BUSY_WAIT_CYCLES)
  {
    PostedRequest(s.dev, op);
  }

  lemma PostsAndIsLatched(s: System, t: nat, a: Address, b: Byte) returns (actions: seq<Action>)
    requires Initial(s)
    ensures Runs(s, actions) && Waits(After(s, actions), t, Store(a, b), BUSY_WAIT_CYCLES)
    ensures After(s, actions).dev.ram == s.dev.ram
  {
    actions := Posts(s, t, a, b);
    CompletedIsPosted(After(s, actions), t, Store(a, b));
    actions := CompletedRuns(s, actions, t);
    LatchesPosted(After(s, actions), t, Store(a, b));
    OneMoreAction(s, actions, FirmwareLatches);
    actions := actions + [FirmwareLatches];
  }

  lemma NotReadyYet(op: Op<Byte>)
    ensures RequestFlags(op) & DRDY == 0
  {
    assert op.Load? ==> RequestFlags(op) == 0x05;
    assert op.Store? ==> RequestFlags(op) == 0x06;
  }

  lemma OnePollInVain(s: System, t: nat, op: Op<Byte>, count: nat)
    requires Waits(s, t, op, count) && 1 < count <= BUSY_WAIT_CYCLES
    ensures Step(s, Access(t)) && Waits(Perform(s, Access(t)), t, op, count - 1)
    ensures Perform(s, Access(t)).dev == s.dev
  {
    NotReadyYet(op);
  }

  lemma {:induction false} PollsInVain(s: System, actions: seq<Action>, t: nat, op: Op<Byte>, n: nat)
    returns (longer: seq<Action>)
    requires Runs(s, actions) && Waits(After(s, actions), t, op, BUSY_WAIT_CYCLES) && n < BUSY_WAIT_CYCLES
    ensures Runs(s, longer) && Waits(After(s, longer), t, op, BUSY_WAIT_CYCLES - n)
    ensures After(s, longer).dev == After(s, actions).dev
  {
    if n == 0 {
      longer := actions;
    } else {
      var front := PollsInVain(s, actions, t, op, n - 1);
      OnePollInVain(After(s, front), t, op, BUSY_WAIT_CYCLES - n + 1);
      OneMoreAction(s, front, Access(t));
      longer := front + [Access(t)];
    }
  }

  /** From every initial state: any thread can get to the point of giving up on a write that the firmware is
      working on. */
  lemma GivingUpIsReachable(s: System, t: nat, a: Address, b: Byte) returns (actions: seq<Action>)
    requires Initial(s)
    ensures Runs(s, actions) && Enabled(After(s, actions), Access(t)) && !Timely(After(s, actions), Access(t))
    ensures !StaysAtomic(s.dev.ram, Perform(After(s, actions), Access(t)))
  {
    var posted := PostsAndIsLatched(s, t, a, b);
    actions := PollsInVain(s, posted, t, Store(a, b), BUSY_WAIT_CYCLES - 1);
    OneMoreAction(s, actions, Access(t));
    actions := actions + [Access(t)];
    AtomicExactly(s, actions, Access(t));
  }

  /** The last poll finds the answer, and the driver gives up all the same. */
  lemma LastPollGivesUp(s: System, t: nat, op: Op<Byte>)
    requires Waits(s, t, op, 1) && op.Store?
    ensures var answered := Perform(s, FirmwareAnswers(0, 0));
            && Step(answered, Access(t))
            && var polled := Perform(answered, Access(t));
               && polled.latch.None? && polled.dev.ram == s.dev.ram[op.addr := op.byte]
               && polled.At(t) == Holding(op, Clear(None, BUSY_WAIT_CYCLES, true))
  {
    AnswerRaisesDrdy(s.dev, op, 0, 0);
  }

  lemma ClearsAndReturns(s: System, t: nat, op: Op<Byte>, ready: bool)
    requires s.latch.None? && InRange(op) && s.At(t) == Holding(op, Clear(None, BUSY_WAIT_CYCLES, ready))
    ensures Step(s, Access(t)) && Step(Perform(s, Access(t)), Release(t))
    ensures var returned := Perform(Perform(s, Access(t)), Release(t));
            returned.dev.ram == s.dev.ram && returned.history == s.history + [Return(t, op, None)]
  {
  }

  /** From every initial state: a write that the firmware answers just before the 30th poll takes effect,
      and returns an error. */
  lemma LatePollMissesTheAnswer(s: System, t: nat, a: Address, b: Byte) returns (actions: seq<Action>)
    requires Initial(s)
    ensures Runs(s, actions) && After(s, actions).dev.ram == s.dev.ram[a := b]
    ensures var h := After(s, actions).history; h != [] && h[|h| - 1] == Return(t, Store(a, b), None)
  {
    var posted := PostsAndIsLatched(s, t, a, b);
    actions := PollsInVain(s, posted, t, Store(a, b), BUSY_WAIT_CYCLES - 1);
    LastPollGivesUp(After(s, actions), t, Store(a, b));
    OneMoreAction(s, actions, FirmwareAnswers(0, 0));
    actions := actions + [FirmwareAnswers(0, 0)];
    OneMoreAction(s, actions, Access(t));
    actions := actions + [Access(t)];
    ClearsAndReturns(After(s, actions), t, Store(a, b), true);
    OneMoreAction(s, actions, Access(t));
    actions := actions + [Access(t)];
    OneMoreAction(s, actions, Release(t));
    actions := actions + [Release(t)];
  }
}
