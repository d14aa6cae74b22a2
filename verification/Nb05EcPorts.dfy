/** The NB05 embedded controller reached through an index port and a data port.

    One byte of EC RAM costs twelve port accesses under a mutex. The module models the device at the
    granularity of a single port access, gives the driver's routines as methods of a class, and proves
    that any number of threads running them see one flat, atomic memory. */
module Nb05EcPorts {
  import opened Common
  import opened Linearization

  type Ram = r: seq<u8> | |r| == RAM_SIZE witness seq(RAM_SIZE, i => 0)

  const EC_PORT_ADDR := 0x4e
  const EC_PORT_DATA := 0x4f
  const I2EC_REG_ADDR: u8 := 0x2e
  const I2EC_REG_DATA: u8 := 0x2f
  const I2EC_ADDR_LOW: u8 := 0x10
  const I2EC_ADDR_HIGH: u8 := 0x11
  const I2EC_ADDR_DATA: u8 := 0x12

  /** `sel` is the register chosen at the index port; `index` is the content of register 0x2e, which
      says what register 0x2f stands for: the low or high half of an address, or the addressed byte. */
  datatype Device = Device(sel: u8, index: u8, low: u8, high: u8, ram: Ram) {
    function Target(): Address {
      high * 0x100 + low
    }

    function Outb(byte: u8, port: int): Device {
      if port == EC_PORT_ADDR then this.(sel := byte)
      else if port != EC_PORT_DATA then this
      else if sel == I2EC_REG_ADDR then this.(index := byte)
      else if sel != I2EC_REG_DATA then this
      else if index == I2EC_ADDR_LOW then this.(low := byte)
      else if index == I2EC_ADDR_HIGH then this.(high := byte)
      else if index == I2EC_ADDR_DATA then this.(ram := ram[Target() := byte])
      else this
    }

    /** Only the addressed byte is ever read by the driver; any other register reads as 0 here. */
    function Inb(port: int): u8 {
      if port == EC_PORT_DATA && sel == I2EC_REG_DATA && index == I2EC_ADDR_DATA then ram[Target()] else 0
    }
  }

  datatype PortAccess = Out(byte: u8, port: int) | In(port: int)

  const SCRIPT_LENGTH := 12

  /** The port accesses of one read or write, in program order. */
  function Script(op: Op<u8>): (s: seq<PortAccess>)
    requires InRange(op)
    ensures |s| == SCRIPT_LENGTH
  {
    [ Out(I2EC_REG_ADDR, EC_PORT_ADDR), Out(I2EC_ADDR_HIGH, EC_PORT_DATA),
      Out(I2EC_REG_DATA, EC_PORT_ADDR), Out(op.addr / 0x100, EC_PORT_DATA),
      Out(I2EC_REG_ADDR, EC_PORT_ADDR), Out(I2EC_ADDR_LOW, EC_PORT_DATA),
      Out(I2EC_REG_DATA, EC_PORT_ADDR), Out(op.addr % 0x100, EC_PORT_DATA),
      Out(I2EC_REG_ADDR, EC_PORT_ADDR), Out(I2EC_ADDR_DATA, EC_PORT_DATA),
      Out(I2EC_REG_DATA, EC_PORT_ADDR),
      if op.Load? then In(EC_PORT_DATA) else Out(op.byte, EC_PORT_DATA) ]
  }

  /** The device after the first `n` accesses of a routine that nobody interrupts. */
  function Uninterrupted(d: Device, op: Op<u8>, n: nat): Device
    requires InRange(op) && n <= SCRIPT_LENGTH
  {
    if n == 0 then d else
      var before := Uninterrupted(d, op, n - 1);
      match Script(op)[n - 1]
      case Out(byte, port) => before.Outb(byte, port)
      case In(_) => before
  }

  // ---------------------------------------------------------------------------------------------
  // The driver's routines, run without interference
  // ---------------------------------------------------------------------------------------------

  class EcPorts {
    var dev: Device

    method Outb(byte: u8, port: int)
      modifies this
      ensures dev == old(dev).Outb(byte, port)
    {
      dev := dev.Outb(byte, port);
    }

    method IoWrite(reg: u8, data: u8)
      modifies this
      ensures dev == old(dev).Outb(reg, EC_PORT_ADDR).Outb(data, EC_PORT_DATA)
    {
      Outb(reg, EC_PORT_ADDR);
      Outb(data, EC_PORT_DATA);
    }

    method IoRead(reg: u8) returns (data: u8)
      modifies this
      ensures dev == old(dev).Outb(reg, EC_PORT_ADDR)
      ensures data == dev.Inb(EC_PORT_DATA)
    {
      Outb(reg, EC_PORT_ADDR);
      data := dev.Inb(EC_PORT_DATA);
    }

    method ReadEcRam(addr: Address) returns (data: u8)
      modifies this
      ensures data == old(dev.ram)[addr]
      ensures dev.ram == old(dev.ram)
      ensures dev == Uninterrupted(old(dev), Load(addr), SCRIPT_LENGTH)
    {
      ghost var op: Op<u8> := Load(addr);
      Prologue(addr, op);
      data := IoRead(I2EC_REG_DATA);
      assert dev == Uninterrupted(old(dev), op, 11) == Uninterrupted(old(dev), op, 12);
    }

    method WriteEcRam(addr: Address, data: u8)
      modifies this
      ensures dev.ram == old(dev.ram)[addr := data]
      ensures dev == Uninterrupted(old(dev), Store(addr, data), SCRIPT_LENGTH)
    {
      ghost var op: Op<u8> := Store(addr, data);
      Prologue(addr, op);
      IoWrite(I2EC_REG_DATA, data);
      assert Script(op)[10] == Out(I2EC_REG_DATA, EC_PORT_ADDR);
      assert dev == Uninterrupted(old(dev), op, 11).Outb(data, EC_PORT_DATA);
    }

    /** The five register writes that both routines begin with. */
    method Prologue(addr: Address, ghost op: Op<u8>)
      requires op.addr == addr
      modifies this
      ensures dev == Uninterrupted(old(dev), op, 10)
      ensures dev == Device(I2EC_REG_ADDR, I2EC_ADDR_DATA, addr % 0x100, addr / 0x100, old(dev.ram))
    {
      var addrHigh, addrLow := addr / 0x100 % 0x100, addr % 0x100;
      IoWrite(I2EC_REG_ADDR, I2EC_ADDR_HIGH);
      assert dev == Uninterrupted(old(dev), op, 1).Outb(I2EC_ADDR_HIGH, EC_PORT_DATA);
      assert dev == Uninterrupted(old(dev), op, 2);
      IoWrite(I2EC_REG_DATA, addrHigh);
      assert dev == Uninterrupted(old(dev), op, 4);
      IoWrite(I2EC_REG_ADDR, I2EC_ADDR_LOW);
      assert dev == Uninterrupted(old(dev), op, 6);
      IoWrite(I2EC_REG_DATA, addrLow);
      assert dev == Uninterrupted(old(dev), op, 8);
      IoWrite(I2EC_REG_ADDR, I2EC_ADDR_DATA);
    }
  }

  // ---------------------------------------------------------------------------------------------
  // The same routines, one port access at a time, in any number of threads
  // ---------------------------------------------------------------------------------------------

  /** `Holding(op, pc, got)`: the thread owns the mutex and has made `pc` of its accesses. */
  datatype Thread = Resting | Waiting(op: Op<u8>) | Holding(op: Op<u8>, pc: nat, got: u8)

  datatype System = System(dev: Device, lock: Option<nat>, threads: map<nat, Thread>, history: seq<Event<u8>>) {
    function At(t: nat): Thread {
      if t in threads then threads[t] else Resting
    }
  }

  datatype Action =
    | Call(tid: nat, op: Op<u8>)
    | Acquire(tid: nat)
    | Access(tid: nat)
    | Release(tid: nat)
    | FirmwareWrites(addr: Address, byte: u8)

  predicate Enabled(s: System, a: Action) {
    match a
    case Call(t, op) => s.At(t).Resting? && InRange(op)
    case Acquire(t) => s.At(t).Waiting? && s.lock.None?
    case Access(t) => s.At(t).Holding? && s.At(t).pc < SCRIPT_LENGTH && InRange(s.At(t).op)
    case Release(t) => s.At(t).Holding? && s.At(t).pc == SCRIPT_LENGTH
    case FirmwareWrites(_, _) => true
  }

  function Perform(s: System, a: Action): System
    requires Enabled(s, a)
  {
    match a
    case Call(t, op) =>
      s.(threads := s.threads[t := Waiting(op)], history := s.history + [Invoke(t, op)])
    case Acquire(t) =>
      s.(threads := s.threads[t := Holding(s.At(t).op, 0, 0)], lock := Some(t))
    case Access(t) =>
      PerformAccess(s, t)
    case Release(t) =>
      var th := s.At(t);
      s.(threads := s.threads[t := Resting], lock := None,
         history := s.history + [Return(t, th.op, Some(th.got))])
    case FirmwareWrites(addr, byte) =>
      s.(dev := s.dev.(ram := s.dev.ram[addr := byte]), history := s.history + [Firmware(addr, byte)])
  }

  /** One port access of the lock holder; the last access of a script is the operation's point. */
  function PerformAccess(s: System, t: nat): System
    requires Enabled(s, Access(t))
  {
    var th := s.At(t);
    var access := Script(th.op)[th.pc];
    var dev := if access.Out? then s.dev.Outb(access.byte, access.port) else s.dev;
    var got := if access.In? then s.dev.Inb(access.port) else access.byte;
    s.(dev := dev,
       threads := s.threads[t := Holding(th.op, th.pc + 1, got)],
       history := if th.pc + 1 == SCRIPT_LENGTH then s.history + [Point(t, th.op, got)] else s.history)
  }

  /** A run: every action is enabled where it is taken. */
  predicate Runs(s: System, actions: seq<Action>)
    decreases |actions|, 0
  {
    actions == [] ||
    (Runs(s, actions[..|actions| - 1]) && Enabled(After(s, actions[..|actions| - 1]), actions[|actions| - 1]))
  }

  function After(s: System, actions: seq<Action>): System
    requires Runs(s, actions)
    decreases |actions|, 1
  {
    if actions == [] then s else Perform(After(s, actions[..|actions| - 1]), actions[|actions| - 1])
  }

  lemma OneMoreAction(s: System, actions: seq<Action>, a: Action)
    requires Runs(s, actions) && Enabled(After(s, actions), a)
    ensures Runs(s, actions + [a]) && After(s, actions + [a]) == Perform(After(s, actions), a)
  {
    assert (actions + [a])[..|actions|] == actions;
  }

  predicate IsAt(s: System, t: nat, op: Op<u8>, pc: nat) {
    s.At(t).Holding? && s.At(t).op == op && s.At(t).pc == pc
  }

  /** The uninterrupted routine, as the methods run it, is a run of the system. */
  lemma {:induction false} UninterruptedIsARun(s: System, actions: seq<Action>, t: nat, op: Op<u8>, n: nat)
    returns (more: seq<Action>)
    requires Runs(s, actions) && InRange(op) && IsAt(After(s, actions), t, op, 0) && n <= SCRIPT_LENGTH
    ensures Runs(s, actions + more) && IsAt(After(s, actions + more), t, op, n)
    ensures After(s, actions + more).dev == Uninterrupted(After(s, actions).dev, op, n)
  {
    if n == 0 {
      more := [];
      assert actions + more == actions;
    } else {
      var before := UninterruptedIsARun(s, actions, t, op, n - 1);
      OneMoreAction(s, actions + before, Access(t));
      more := before + [Access(t)];
      assert actions + more == actions + before + [Access(t)];
    }
  }

  /** No thread is inside a routine and the mutex is free; the index registers may hold anything. */
  ghost predicate Initial(s: System) {
    s.lock.None? && s.threads == map[] && s.history == []
  }

  // ---------------------------------------------------------------------------------------------
  // The invariant
  // ---------------------------------------------------------------------------------------------

  /** What `pc` accesses of `op`'s script have put into the index registers. */
  predicate Prepared(d: Device, op: Op<u8>, pc: nat)
    requires InRange(op)
  {
    && (pc in {1, 2, 5, 6, 9, 10} ==> d.sel == I2EC_REG_ADDR)
    && (pc in {3, 4, 7, 8, 11, 12} ==> d.sel == I2EC_REG_DATA)
    && (2 <= pc <= 5 ==> d.index == I2EC_ADDR_HIGH)
    && (6 <= pc <= 9 ==> d.index == I2EC_ADDR_LOW)
    && (10 <= pc <= 12 ==> d.index == I2EC_ADDR_DATA)
    && (4 <= pc ==> d.high == op.addr / 0x100)
    && (8 <= pc ==> d.low == op.addr % 0x100)
  }

  predicate ThreadOk(s: System, t: nat) {
    match s.At(t)
    case Resting => PhaseOf(s.history, t) == Quiet
    case Waiting(op) => InRange(op) && PhaseOf(s.history, t) == Called(op)
    case Holding(op, pc, got) =>
      && s.lock == Some(t) && InRange(op) && pc <= SCRIPT_LENGTH && Prepared(s.dev, op, pc)
      && PhaseOf(s.history, t) == (if pc < SCRIPT_LENGTH then Called(op) else Acted(op, got))
  }

  ghost predicate Inv(ram: Ram, s: System) {
    && Faithful(ram, s.history)
    && s.dev.ram == Replay(ram, s.history)
    && (s.lock.Some? ==> s.At(s.lock.value).Holding?)
    && forall t: nat :: ThreadOk(s, t)
  }

  /** Before the last access of a script the memory is untouched and the registers advance as told. */
  lemma AccessPrepares(d: Device, op: Op<u8>, pc: nat)
    requires InRange(op) && pc < SCRIPT_LENGTH && Prepared(d, op, pc)
    ensures var access := Script(op)[pc];
            var d' := if access.Out? then d.Outb(access.byte, access.port) else d;
            && Prepared(d', op, pc + 1)
            && d'.ram == (if pc == SCRIPT_LENGTH - 1 && op.Store? then d.ram[op.addr := op.byte] else d.ram)
            && (access.In? ==> pc == SCRIPT_LENGTH - 1 && op.Load? && d.Inb(access.port) == d.ram[op.addr])
  {
    assert pc in {0, 1, 2, 3, 4, 5, 6, 7, 8, 9, 10, 11};
    assert pc == 11 ==> d.Target() == op.addr;
  }

  lemma AccessKeepsInv(ram: Ram, s: System, t: nat)
    requires Inv(ram, s) && Enabled(s, Access(t))
    ensures Inv(ram, PerformAccess(s, t))
  {
    assert ThreadOk(s, t);
    var th := s.At(t);
    AccessPrepares(s.dev, th.op, th.pc);
    var s' := PerformAccess(s, t);
    var got := s'.threads[t].got;
    Snoc(ram, s.history, Point(t, th.op, got));
    forall u: nat ensures ThreadOk(s', u) {
      assert ThreadOk(s, u);
    }
  }

  lemma CallKeepsInv(ram: Ram, s: System, t: nat, op: Op<u8>)
    requires Inv(ram, s) && Enabled(s, Call(t, op))
    ensures Inv(ram, Perform(s, Call(t, op)))
  {
    assert ThreadOk(s, t);
    Snoc(ram, s.history, Invoke(t, op));
    forall u: nat ensures ThreadOk(Perform(s, Call(t, op)), u) {
      assert ThreadOk(s, u);
    }
  }

  lemma AcquireKeepsInv(ram: Ram, s: System, t: nat)
    requires Inv(ram, s) && Enabled(s, Acquire(t))
    ensures Inv(ram, Perform(s, Acquire(t)))
  {
    assert ThreadOk(s, t);
    forall u: nat ensures ThreadOk(Perform(s, Acquire(t)), u) {
      assert ThreadOk(s, u);
    }
  }

  lemma ReleaseKeepsInv(ram: Ram, s: System, t: nat)
    requires Inv(ram, s) && Enabled(s, Release(t))
    ensures Inv(ram, Perform(s, Release(t)))
  {
    assert ThreadOk(s, t);
    var th := s.At(t);
    Snoc(ram, s.history, Return(t, th.op, Some(th.got)));
    forall u: nat ensures ThreadOk(Perform(s, Release(t)), u) {
      assert ThreadOk(s, u);
    }
  }

  lemma FirmwareKeepsInv(ram: Ram, s: System, addr: Address, byte: u8)
    requires Inv(ram, s)
    ensures Inv(ram, Perform(s, FirmwareWrites(addr, byte)))
  {
    Snoc(ram, s.history, Firmware(addr, byte));
    forall u: nat ensures ThreadOk(Perform(s, FirmwareWrites(addr, byte)), u) {
      assert ThreadOk(s, u);
    }
  }

  lemma StepKeepsInv(ram: Ram, s: System, a: Action)
    requires Inv(ram, s) && Enabled(s, a)
    ensures Inv(ram, Perform(s, a))
  {
    match a {
      case Call(t, op) => CallKeepsInv(ram, s, t, op);
      case Acquire(t) => AcquireKeepsInv(ram, s, t);
      case Access(t) => AccessKeepsInv(ram, s, t);
      case Release(t) => ReleaseKeepsInv(ram, s, t);
      case FirmwareWrites(addr, byte) => FirmwareKeepsInv(ram, s, addr, byte);
    }
  }

  lemma {:induction false} InvHolds(s: System, actions: seq<Action>)
    requires Initial(s) && Runs(s, actions)
    ensures Inv(s.dev.ram, After(s, actions))
  {
    if actions != [] {
      InvHolds(s, actions[..|actions| - 1]);
      StepKeepsInv(s.dev.ram, After(s, actions[..|actions| - 1]), actions[|actions| - 1]);
    }
  }

  // ---------------------------------------------------------------------------------------------
  // Results
  // ---------------------------------------------------------------------------------------------

  /** Whatever the index registers held, and however the port accesses of any number of threads and the
      firmware's own writes interleave, the reads and writes behave as on one flat atomic memory. */
  lemma PortsAreAtomicMemory(s: System, actions: seq<Action>)
    requires Initial(s) && Runs(s, actions)
    ensures Linearizable(s.dev.ram, After(s, actions).history)
    ensures After(s, actions).dev.ram == Replay(s.dev.ram, After(s, actions).history)
  {
    InvHolds(s, actions);
    forall t: nat ensures !PhaseOf(After(s, actions).history, t).Broken? {
      assert ThreadOk(After(s, actions), t);
    }
  }

  /** The mutex names the one thread that is at the ports. */
  lemma HolderIsLockOwner(ram: Ram, s: System, t: nat)
    requires Inv(ram, s)
    ensures s.At(t).Holding? <==> s.lock == Some(t)
  {
    assert ThreadOk(s, t);
  }

  /** At no time do two threads use the ports, and the mutex is free exactly when none does. */
  lemma OneThreadAtThePorts(s: System, actions: seq<Action>)
    requires Initial(s) && Runs(s, actions)
    ensures var s' := After(s, actions);
            && (forall t: nat, u: nat :: s'.At(t).Holding? && s'.At(u).Holding? ==> t == u)
            && (s'.lock.None? <==> forall t: nat :: !s'.At(t).Holding?)
  {
    InvHolds(s, actions);
    var s' := After(s, actions);
    forall t: nat ensures s'.At(t).Holding? <==> s'.lock == Some(t) {
      HolderIsLockOwner(s.dev.ram, s', t);
    }
  }
}
