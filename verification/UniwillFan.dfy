/** Uniwill fan control, call by call: the two-table control of newer devices (called universal), and the
    full-fan-mode control of older ones with its delayed work and its save and restore across suspend.

    Each call is a function on the driver's globals and the EC memory; UniwillFanDriver.dfy proves the
    driver's own statements against these functions. */
module UniwillFan {
  import opened Common
  import opened UniwillRam
  import Io = TuxedoIo
  import H = Histories

  const EINVAL := 22

  /** Bit 7 of the first enables separate tables per fan, bit 2 of the second enables the tables. */
  const SEPARATE: Address := 0x07c5
  const CUSTOM_TABLE: Address := 0x07c6
  const SEPARATE_BIT: Byte := 0x80
  const CUSTOM_TABLE_BIT: Byte := 0x04

  const FAN0: Address := 0x1804
  const FAN1: Address := 0x1809

  const FAN_SPEED_MAX: Byte := 0xc8
  /** 25 percent of the maximum, the slowest speed at which a fan runs. */
  const FAN_ON_MIN: Byte := 50
  const FAN_OFF_BELOW: Byte := 25

  // ---------------------------------------------------------------------------------------------
  // The custom tables: per fan 16 zones of end temperature, start temperature and speed
  // ---------------------------------------------------------------------------------------------

  const TABLE_START: Address := 0x0f00
  const TABLE_END: Address := 0x0f60
  const CPU_SPEED: Address := 0x0f20
  const GPU_SPEED: Address := 0x0f50

  predicate InTable(a: int) {
    TABLE_START <= a < TABLE_END
  }

  function Zone(a: int): nat {
    (a - TABLE_START) % 0x10
  }

  /** 0 to 2: end, start and speed of the CPU fan; 3 to 5: of the GPU fan. */
  function Column(a: int): int {
    (a - TABLE_START) / 0x10
  }

  /** Zone 0 covers all reachable temperatures with the fan off; zones 1 to 15 are one degree each,
      above them, at full speed. */
  function ZoneByte(column: int, zone: nat): Byte
    requires zone < 0x10
  {
    if zone == 0 then
      match column case 0 => 115 case 3 => 120 case 2 => 1 case 5 => 1 case _ => 0
    else if column == 0 || column == 3 then Truncated(116 + zone)
    else if column == 1 || column == 4 then Truncated(115 + zone)
    else FAN_SPEED_MAX
  }

  function TableByte(a: int): Byte
    requires InTable(a)
  {
    ZoneByte(Column(a), Zone(a))
  }

  predicate AllowedSpeed(speed: Byte) {
    speed == 1 || FAN_ON_MIN <= speed <= FAN_SPEED_MAX
  }

  /** All 96 cells are filled in; only the two zone-0 speeds vary. */
  ghost predicate TableComplete(ram: Ram) {
    forall a: int :: InTable(a) ==>
      if a == CPU_SPEED || a == GPU_SPEED then AllowedSpeed(ram[a]) else ram[a] == TableByte(a)
  }

  predicate TableEnabled(ram: Ram) {
    ram[CUSTOM_TABLE] & CUSTOM_TABLE_BIT != 0
  }

  ghost predicate Safe(ram: Ram) {
    TableEnabled(ram) ==> TableComplete(ram)
  }

  /** The memory after uw_init_fan has staged and enabled the tables. */
  function StagedCell(ram: Ram, a: Address): Byte {
    if InTable(a) then TableByte(a)
    else if a == MODE then ram[a] & !FULL_FAN
    else if a == SEPARATE then ram[a] | SEPARATE_BIT
    else if a == CUSTOM_TABLE then ram[a] | CUSTOM_TABLE_BIT
    else ram[a]
  }

  function Staged(ram: Ram): Ram {
    seq(RAM_SIZE, a requires 0 <= a < RAM_SIZE => StagedCell(ram, a))
  }

  /** A speed between off and the slowest running speed goes to the nearer of the two; off is stored as 1. */
  function Quantised(speed: Byte): (q: Byte)
    ensures speed <= FAN_SPEED_MAX ==> AllowedSpeed(q)
    ensures AllowedSpeed(speed) ==> q == speed
  {
    if speed < FAN_OFF_BELOW then 1 else if speed < FAN_ON_MIN then FAN_ON_MIN else speed
  }

  // ---------------------------------------------------------------------------------------------
  // The driver's calls
  // ---------------------------------------------------------------------------------------------

  function WithFullFan(ram: Ram, enable: bool): Ram {
    if enable && ram[MODE] & FULL_FAN == 0 then ram[MODE := ram[MODE] | FULL_FAN]
    else if ram[MODE] & FULL_FAN != 0 then ram[MODE := ram[MODE] & !FULL_FAN]
    else ram
  }

  /** The restart work: not queued, due at once, or due in 50 minutes. */
  datatype Work = Unscheduled | Immediate | Later

  datatype Speeds = Speeds(fan0: Byte, fan1: Byte)

  /** The speeds kept over a suspend, if the driver suspended with its fan control started. */
  datatype Saved = NotSuspended | Kept(speeds: Speeds)

  datatype Fan = Fan(
    universal: bool, ram: Ram, initialized: bool, started: bool, work: Work, cur: Speeds, saved: Saved)

  function InitFan(f: Fan): Fan {
    f.(initialized := true, ram := if !f.initialized && f.universal then Staged(f.ram) else f.ram)
  }

  function DirectFan(f: Fan, index: nat, speed: Byte, preventRampup: bool): Fan {
    if index > 1 then f else
      var g := f.(cur := if index == 0 then f.cur.(fan0 := speed) else f.cur.(fan1 := speed));
      if preventRampup && !g.started then g.(started := true, work := Immediate)
      else g.(ram := g.ram[(if index == 0 then FAN0 else FAN1) := speed])
  }

  function SetFan(f: Fan, index: nat, speed: Byte): Fan {
    if !f.universal then DirectFan(f, index, speed, true)
    else if f.ram[MODE] & FULL_FAN != 0 then f
    else
      var g := InitFan(f);
      if index > 1 || speed > FAN_SPEED_MAX then g else
        var q := Quantised(speed);
        DirectFan(g.(ram := g.ram[(if index == 0 then CPU_SPEED else GPU_SPEED) := q]), index, q, false)
  }

  function SetAuto(f: Fan): Fan {
    var g :=
      if f.universal then
        f.(initialized := false,
           ram := f.ram[CUSTOM_TABLE := f.ram[CUSTOM_TABLE] & !CUSTOM_TABLE_BIT]
                       [SEPARATE := f.ram[SEPARATE] & !SEPARATE_BIT])
      else
        f.(work := Unscheduled, started := false, ram := f.ram[MODE := f.ram[MODE] & !FULL_FAN]);
    g.(cur := Speeds(0, 0))
  }

  function RestartWork(f: Fan): Fan {
    f.(ram := WithFullFan(WithFullFan(f.ram, false), true)[FAN0 := f.cur.fan0][FAN1 := f.cur.fan1], work := Later)
  }

  function SuspendFan(f: Fan): Fan {
    if f.started then SetAuto(f.(saved := Kept(f.cur))) else f
  }

  /** Full-fan mode is on and the fan registers hold these speeds. */
  predicate FansRun(ram: Ram, speeds: Speeds) {
    ram[MODE] & FULL_FAN != 0 && ram[FAN0] == speeds.fan0 && ram[FAN1] == speeds.fan1
  }

  // ---------------------------------------------------------------------------------------------
  // The mode byte
  // ---------------------------------------------------------------------------------------------

  /** set_full_fan_mode leaves the mode as asked exactly when it was not asked to set a bit that is set
      already (it then clears it), and touches no other bit. */
  lemma FullFanAsRequested(ram: Ram, enable: bool)
    ensures var after := WithFullFan(ram, enable);
            && ((after[MODE] & FULL_FAN != 0) == enable <==> !(enable && ram[MODE] & FULL_FAN != 0))
            && after[MODE] & !FULL_FAN == ram[MODE] & !FULL_FAN
            && after == ram[MODE := after[MODE]]
  {
  }

  lemma ClearThenSet(mode: Byte)
    ensures (mode & !FULL_FAN) & FULL_FAN == 0
    ensures (mode & !FULL_FAN) | FULL_FAN == mode | FULL_FAN
    ensures mode & FULL_FAN == 0 ==> mode & !FULL_FAN == mode
  {
  }

  /** Clearing first is what makes the restart work end in full-fan mode from every starting byte. */
  lemma RestartEndsInFullFan(f: Fan)
    ensures RestartWork(f).ram == f.ram[MODE := f.ram[MODE] | FULL_FAN][FAN0 := f.cur.fan0][FAN1 := f.cur.fan1]
    ensures FansRun(RestartWork(f).ram, f.cur)
  {
    ClearThenSet(f.ram[MODE]);
    assert WithFullFan(f.ram, false) == f.ram[MODE := f.ram[MODE] & !FULL_FAN];
    assert WithFullFan(WithFullFan(f.ram, false), true) == f.ram[MODE := f.ram[MODE] | FULL_FAN];
    SetBitIsSet(f.ram[MODE]);
  }

  lemma SetBitIsSet(mode: Byte)
    ensures (mode | FULL_FAN) & FULL_FAN != 0
  {
  }

  // ---------------------------------------------------------------------------------------------
  // Histories
  // ---------------------------------------------------------------------------------------------

  datatype Call =
    | CallSetFan(index: nat, speed: Byte)
    | CallSetAuto
    | WorkFires
    | CallSetProfile(profile: nat)
    | CallSetTdp(device: Io.Device, limit: nat, value: int)
    | Suspend
    | Clobber(ram: Ram)
    | ResumeFan0
    | ResumeFan1

  /** Between suspend and resume the EC may change its memory at will; resume makes two calls, and the
      delayed work may fire before, between and after them. */
  datatype Phase = Awake | Asleep | Resuming(fan1: Byte)

  datatype Machine = Machine(fan: Fan, phase: Phase)

  predicate Enabled(m: Machine, c: Call) {
    match c
    case WorkFires => !m.fan.work.Unscheduled?
    case Clobber(_) => m.phase.Asleep?
    case ResumeFan0 => m.phase.Asleep?
    case ResumeFan1 => m.phase.Resuming?
    case _ => m.phase.Awake?
  }

  function Perform(m: Machine, c: Call): Machine
    requires Enabled(m, c)
  {
    var f := m.fan;
    match c
    case CallSetFan(i, v) => m.(fan := SetFan(f, i, v))
    case CallSetAuto => m.(fan := SetAuto(f))
    case WorkFires => m.(fan := RestartWork(f))
    case CallSetProfile(p) => m.(fan := f.(ram := Io.WithProfile(f.ram, p)))
    case CallSetTdp(d, l, v) => m.(fan := f.(ram := Io.WithTdp(d, f.ram, l, v)))
    case Suspend => Machine(SuspendFan(f), Asleep)
    case Clobber(r) => m.(fan := f.(ram := r))
    case ResumeFan0 =>
      if f.saved.Kept?
      then Machine(SetFan(f.(saved := NotSuspended), 0, f.saved.speeds.fan0), Resuming(f.saved.speeds.fan1))
      else m.(phase := Awake)
    case ResumeFan1 => Machine(SetFan(f, 1, m.phase.fan1), Awake)
  }

  predicate Runs(m: Machine, calls: seq<Call>)
    decreases |calls|, 0
  {
    calls == [] || (Runs(m, calls[..|calls| - 1]) && Enabled(After(m, calls[..|calls| - 1]), calls[|calls| - 1]))
  }

  function After(m: Machine, calls: seq<Call>): Machine
    requires Runs(m, calls)
    decreases |calls|, 1
  {
    if calls == [] then m else Perform(After(m, calls[..|calls| - 1]), calls[|calls| - 1])
  }

  /** The driver just loaded, over any EC memory. */
  predicate Initial(m: Machine) {
    && m.phase.Awake? && !m.fan.initialized && !m.fan.started && m.fan.work.Unscheduled?
    && m.fan.saved.NotSuspended? && m.fan.cur == Speeds(0, 0)
  }

  // ---------------------------------------------------------------------------------------------
  // Suspend and resume in full-fan mode
  // ---------------------------------------------------------------------------------------------

  /** What user space last asked for, read off the calls alone. */
  datatype Request = Automatic | Manual(speeds: Speeds)

  function NextRequest(r: Request, c: Call): Request {
    match c
    case CallSetFan(i, v) =>
      var speeds := if r.Manual? then r.speeds else Speeds(0, 0);
      if i == 0 then Manual(speeds.(fan0 := v))
      else if i == 1 then Manual(speeds.(fan1 := v))
      else r
    case CallSetAuto => Automatic
    case _ => r
  }

  function Requested(calls: seq<Call>): Request {
    if calls == [] then Automatic else NextRequest(Requested(calls[..|calls| - 1]), calls[|calls| - 1])
  }

  predicate FullFanInv(m: Machine, r: Request) {
    var f := m.fan;
    && !f.universal
    && (f.started <==> !f.work.Unscheduled?)
    && (f.work.Later? ==> FansRun(f.ram, f.cur))
    && (match m.phase
        case Awake =>
          && f.saved.NotSuspended? && (f.started <==> r.Manual?)
          && f.cur == (if r.Manual? then r.speeds else Speeds(0, 0))
        case Asleep =>
          && !f.started && f.cur == Speeds(0, 0)
          && f.saved == (if r.Manual? then Kept(r.speeds) else NotSuspended)
        case Resuming(fan1) =>
          && f.saved.NotSuspended? && f.started
          && r.Manual? && r.speeds == Speeds(f.cur.fan0, fan1))
  }

  lemma ProfileKeepsFanBit(mode: Byte, bits: Byte)
    requires bits & FULL_FAN == 0
    ensures ((mode & !PROFILE_BITS) | bits) & FULL_FAN == mode & FULL_FAN
  {
  }

  lemma DirectFanKeepsFullFanInv(m: Machine, r: Request, i: nat, v: Byte)
    requires FullFanInv(m, r) && m.phase.Awake?
    ensures FullFanInv(m.(fan := DirectFan(m.fan, i, v, true)), NextRequest(r, CallSetFan(i, v)))
  {
  }

  lemma SleepKeepsFullFanInv(m: Machine, r: Request, c: Call)
    requires FullFanInv(m, r) && Enabled(m, c)
    requires c.CallSetAuto? || c.Suspend? || c.Clobber? || c.ResumeFan0? || c.ResumeFan1?
    ensures FullFanInv(Perform(m, c), NextRequest(r, c))
  {
  }

  lemma ModeWriteKeepsFullFanInv(m: Machine, r: Request, mode: Byte)
    requires FullFanInv(m, r) && mode & FULL_FAN == m.fan.ram[MODE] & FULL_FAN
    ensures FullFanInv(m.(fan := m.fan.(ram := m.fan.ram[MODE := mode])), r)
  {
  }

  lemma IoKeepsFullFanInv(m: Machine, r: Request, c: Call)
    requires FullFanInv(m, r) && Enabled(m, c) && (c.CallSetProfile? || c.CallSetTdp?)
    ensures FullFanInv(Perform(m, c), r)
  {
    var profile := if c.CallSetProfile? then c.profile else 3;
    var ram := m.fan.ram;
    var profiled := Io.WithProfile(ram, profile);
    if 1 <= profile <= 3 {
      ProfileKeepsFanBit(ram[MODE], ProfileBits(profile));
      ModeWriteKeepsFullFanInv(m, r, profiled[MODE]);
    }
    assert FullFanInv(m.(fan := m.fan.(ram := profiled)), r);
  }

  lemma CallKeepsFullFanInv(m: Machine, r: Request, c: Call)
    requires FullFanInv(m, r) && Enabled(m, c)
    ensures FullFanInv(Perform(m, c), NextRequest(r, c))
  {
    match c {
      case CallSetFan(i, v) => DirectFanKeepsFullFanInv(m, r, i, v);
      case WorkFires => RestartEndsInFullFan(m.fan);
      case CallSetProfile(_) => IoKeepsFullFanInv(m, r, c);
      case CallSetTdp(_, _, _) => IoKeepsFullFanInv(m, r, c);
      case CallSetAuto => SleepKeepsFullFanInv(m, r, c);
      case Suspend => SleepKeepsFullFanInv(m, r, c);
      case Clobber(_) => SleepKeepsFullFanInv(m, r, c);
      case ResumeFan0 => SleepKeepsFullFanInv(m, r, c);
      case ResumeFan1 => SleepKeepsFullFanInv(m, r, c);
    }
  }

  lemma {:induction false} FullFanInvHolds(m: Machine, calls: seq<Call>)
    requires Initial(m) && !m.fan.universal && Runs(m, calls)
    ensures FullFanInv(After(m, calls), Requested(calls))
  {
    if calls != [] {
      var front := calls[..|calls| - 1];
      FullFanInvHolds(m, front);
      CallKeepsFullFanInv(After(m, front), Requested(front), calls[|calls| - 1]);
    }
  }

  /** After every history of an older device: if user space asked for speeds, the restart work is queued
      and, as soon as it has run since, both fan registers hold those speeds in full-fan mode; if it asked
      for automatic control, nothing is queued. */
  lemma RequestIsInForce(m: Machine, calls: seq<Call>)
    requires Initial(m) && !m.fan.universal && Runs(m, calls)
    ensures var n, r := After(m, calls), Requested(calls);
            n.phase.Awake? ==>
              && (r.Automatic? <==> n.fan.work.Unscheduled?)
              && (r.Manual? && n.fan.work.Later? ==> FansRun(n.fan.ram, r.speeds))
  {
    FullFanInvHolds(m, calls);
  }

  /** What happens between a suspend and the end of the next resume. */
  predicate Nightly(c: Call) {
    c.Clobber? || c.ResumeFan0? || c.ResumeFan1? || c.WorkFires?
  }

  ghost predicate AllNightly(calls: seq<Call>) {
    forall i :: 0 <= i < |calls| ==> Nightly(calls[i])
  }

  ghost predicate HasFired(calls: seq<Call>) {
    exists i :: 0 <= i < |calls| && calls[i].WorkFires?
  }

  lemma {:induction false} NightKeepsRequest(m: Machine, before: seq<Call>, night: seq<Call>)
    requires Initial(m) && !m.fan.universal && Runs(m, before + [Suspend] + night) && AllNightly(night)
    ensures Requested(before + [Suspend] + night) == Requested(before)
    ensures HasFired(night) ==> After(m, before + [Suspend] + night).fan.work.Later?
  {
    var calls := before + [Suspend] + night;
    if night == [] {
      assert calls[..|calls| - 1] == before && calls[|calls| - 1] == Suspend;
    } else {
      var shorter := night[..|night| - 1];
      var front := calls[..|calls| - 1];
      assert front == before + [Suspend] + shorter && calls[|calls| - 1] == night[|night| - 1];
      NightKeepsRequest(m, before, shorter);
      FullFanInvHolds(m, front);
      assert HasFired(night) && !night[|night| - 1].WorkFires? ==> HasFired(shorter);
    }
  }

  /** Suspend in full-fan mode, let the EC do anything to its memory, resume: once the restart work has
      run, wherever it ran relative to the two calls of resume, both fan registers hold the speeds
      requested before the suspend, in full-fan mode. */
  lemma SuspendResumeRestores(m: Machine, before: seq<Call>, night: seq<Call>)
    requires Initial(m) && !m.fan.universal && Runs(m, before + [Suspend] + night) && AllNightly(night)
    requires After(m, before + [Suspend] + night).phase.Awake? && HasFired(night)
    ensures Requested(before).Manual? ==>
              FansRun(After(m, before + [Suspend] + night).fan.ram, Requested(before).speeds)
  {
    NightKeepsRequest(m, before, night);
    RequestIsInForce(m, before + [Suspend] + night);
  }

  /** The memory that the EC leaves behind. */
  function Clobbered(ram: Ram, night: seq<Call>): Ram {
    if night == [] then ram
    else match night[|night| - 1] case Clobber(r) => r case _ => Clobbered(ram, night[..|night| - 1])
  }

  /** If automatic control was in force, suspend and resume write nothing and change no driver state. */
  lemma {:induction false} NothingToRestore(m: Machine, before: seq<Call>, night: seq<Call>)
    requires Initial(m) && !m.fan.universal && Runs(m, before + [Suspend] + night) && AllNightly(night)
    requires Requested(before).Automatic?
    ensures Runs(m, before)
    ensures After(m, before + [Suspend] + night).fan ==
            After(m, before).fan.(ram := Clobbered(After(m, before).fan.ram, night))
  {
    var calls := before + [Suspend] + night;
    var front := calls[..|calls| - 1];
    if night == [] {
      assert front == before;
      FullFanInvHolds(m, before);
    } else {
      var shorter := night[..|night| - 1];
      assert front == before + [Suspend] + shorter && calls[|calls| - 1] == night[|night| - 1];
      NothingToRestore(m, before, shorter);
      NightKeepsRequest(m, before, shorter);
      FullFanInvHolds(m, front);
    }
  }

  // ---------------------------------------------------------------------------------------------
  // Sharing the mode byte
  // ---------------------------------------------------------------------------------------------

  /** Calls that user space makes and the firing of the delayed work. */
  predicate Daytime(c: Call) {
    c.CallSetFan? || c.CallSetAuto? || c.WorkFires? || c.CallSetProfile? || c.CallSetTdp?
  }

  ghost predicate AllDaytime(calls: seq<Call>) {
    forall i :: 0 <= i < |calls| ==> Daytime(calls[i])
  }

  /** Profile bits of the last valid selection, or `initially` if there was none. */
  function LastProfileBits(calls: seq<Call>, initially: Byte): Byte {
    if calls == [] then initially
    else ProfileBitsAfter(LastProfileBits(calls[..|calls| - 1], initially), calls[|calls| - 1])
  }

  function ProfileBitsAfter(bits: Byte, c: Call): Byte {
    match c
    case CallSetProfile(p) => if 1 <= p <= 3 then ProfileBits(p) else bits
    case CallSetTdp(d, _, _) => if d.customMode then ProfileBits(3) else bits
    case _ => bits
  }

  /** Full-fan bit of the last action that concerns it. On universal devices none does. */
  function LastFanBit(universal: bool, calls: seq<Call>, initially: Byte): Byte {
    if calls == [] then initially
    else FanBitAfter(universal, LastFanBit(universal, calls[..|calls| - 1], initially), calls[|calls| - 1])
  }

  function FanBitAfter(universal: bool, bit: Byte, c: Call): Byte {
    if c.WorkFires? && !universal then FULL_FAN else if c.CallSetAuto? && !universal then 0 else bit
  }

  /** A mode byte from the firmware's bits of `before`, profile bits and the full-fan bit. */
  function Composed(before: Byte, profileBits: Byte, fanBit: Byte): Byte {
    (before & 0x0f) | profileBits | fanBit
  }

  predicate InTheirFields(profileBits: Byte, fanBit: Byte) {
    profileBits & !PROFILE_BITS == 0 && fanBit & !FULL_FAN == 0
  }

  lemma ComposedParts(before: Byte, p: Byte, f: Byte, q: Byte)
    requires InTheirFields(p, f) && q & !PROFILE_BITS == 0
    ensures Composed(before, p, f) | FULL_FAN == Composed(before, p, FULL_FAN)
    ensures Composed(before, p, f) & !FULL_FAN == Composed(before, p, 0)
    ensures (Composed(before, p, f) & !PROFILE_BITS) | q == Composed(before, q, f)
  {
  }

  /** The mode byte after a call, told by what the call is about. */
  function ModeAfter(universal: bool, mode: Byte, c: Call): Byte {
    match c
    case WorkFires => mode | FULL_FAN
    case CallSetAuto => if universal then mode else mode & !FULL_FAN
    case CallSetProfile(p) => if 1 <= p <= 3 then (mode & !PROFILE_BITS) | ProfileBits(p) else mode
    case CallSetTdp(d, _, _) => if d.customMode then (mode & !PROFILE_BITS) | ProfileBits(3) else mode
    case _ => mode
  }

  lemma ModeAfterIsComposed(universal: bool, before: Byte, p: Byte, f: Byte, c: Call)
    requires InTheirFields(p, f) && Daytime(c) && (universal ==> !c.WorkFires?)
    ensures ModeAfter(universal, Composed(before, p, f), c) ==
            Composed(before, ProfileBitsAfter(p, c), FanBitAfter(universal, f, c))
    ensures InTheirFields(ProfileBitsAfter(p, c), FanBitAfter(universal, f, c))
  {
    var q := if c.CallSetProfile? && 1 <= c.profile <= 3 then ProfileBits(c.profile) else ProfileBits(3);
    ComposedParts(before, p, f, q);
  }

  lemma SetFanKeepsMode(f: Fan, i: nat, v: Byte)
    ensures SetFan(f, i, v).ram[MODE] == f.ram[MODE]
  {
    ClearThenSet(f.ram[MODE]);
  }

  lemma CallChangesMode(m: Machine, c: Call)
    requires m.phase.Awake? && Daytime(c) && Enabled(m, c)
    ensures Perform(m, c).fan.ram[MODE] == ModeAfter(m.fan.universal, m.fan.ram[MODE], c)
    ensures Perform(m, c).phase.Awake? && Perform(m, c).fan.universal == m.fan.universal
    ensures m.fan.universal && m.fan.work.Unscheduled? ==> Perform(m, c).fan.work.Unscheduled?
  {
    match c {
      case WorkFires => RestartEndsInFullFan(m.fan);
      case CallSetFan(i, v) => SetFanKeepsMode(m.fan, i, v);
      case CallSetAuto =>
      case CallSetProfile(_) =>
      case CallSetTdp(_, _, _) =>
    }
  }

  /** Awake, and the mode byte is composed of `before`, `p` and `f`. */
  predicate ModeIs(m: Machine, universal: bool, before: Byte, p: Byte, f: Byte) {
    && m.phase.Awake? && m.fan.universal == universal && (universal ==> m.fan.work.Unscheduled?)
    && InTheirFields(p, f) && m.fan.ram[MODE] == Composed(before, p, f)
  }

  lemma WholeByte(before: Byte)
    ensures before == Composed(before, before & PROFILE_BITS, before & FULL_FAN)
    ensures InTheirFields(before & PROFILE_BITS, before & FULL_FAN)
  {
  }

  lemma CallKeepsModeIs(m: Machine, universal: bool, before: Byte, p: Byte, f: Byte, c: Call)
    requires ModeIs(m, universal, before, p, f) && Daytime(c) && Enabled(m, c)
    ensures ModeIs(Perform(m, c), universal, before, ProfileBitsAfter(p, c), FanBitAfter(universal, f, c))
  {
    CallChangesMode(m, c);
    ModeAfterIsComposed(universal, before, p, f, c);
  }

  /** However profile selections, TDP requests, fan calls and the delayed work alternate, the mode byte
      is put together from the last profile selected, the last full-fan action, and the four firmware
      bits it started with. */
  lemma {:induction false} ModeByteIsShared(m: Machine, calls: seq<Call>)
    requires Initial(m) && Runs(m, calls) && AllDaytime(calls)
    ensures var before := m.fan.ram[MODE];
            ModeIs(After(m, calls), m.fan.universal, before,
                   LastProfileBits(calls, before & PROFILE_BITS),
                   LastFanBit(m.fan.universal, calls, before & FULL_FAN))
  {
    var before := m.fan.ram[MODE];
    if calls == [] {
      WholeByte(before);
    } else {
      var front := calls[..|calls| - 1];
      ModeByteIsShared(m, front);
      CallKeepsModeIs(After(m, front), m.fan.universal, before, LastProfileBits(front, before & PROFILE_BITS),
                      LastFanBit(m.fan.universal, front, before & FULL_FAN), calls[|calls| - 1]);
    }
  }

  // ---------------------------------------------------------------------------------------------
  // The custom tables over histories
  // ---------------------------------------------------------------------------------------------

  /** A newer device: nothing is ever queued or saved on it. */
  predicate Quiet(m: Machine) {
    var f := m.fan;
    f.universal && f.work.Unscheduled? && !f.started && f.saved.NotSuspended? && !m.phase.Resuming?
  }

  /** The table may be enabled only if it is complete, and only if the driver knows. */
  ghost predicate Sound(f: Fan) {
    Safe(f.ram) && (!f.initialized ==> !TableEnabled(f.ram))
  }

  ghost predicate TableInv(m: Machine) {
    Quiet(m) && m.phase.Awake? && Sound(m.fan)
  }

  lemma StagedIsComplete(ram: Ram)
    ensures TableComplete(Staged(ram)) && TableEnabled(Staged(ram))
  {
    forall a: int | InTable(a) ensures Staged(ram)[a] == TableByte(a) {
      assert Staged(ram)[a] == StagedCell(ram, a);
    }
    assert TableByte(CPU_SPEED) == 1 && TableByte(GPU_SPEED) == 1;
    var b := ram[CUSTOM_TABLE];
    assert (b | CUSTOM_TABLE_BIT) & CUSTOM_TABLE_BIT != 0;
    assert Staged(ram)[CUSTOM_TABLE] == StagedCell(ram, CUSTOM_TABLE);
  }

  /** Suspend and resume do nothing about the tables: whatever the EC leaves behind stays, and the driver
      goes on believing them staged if it did before. */
  lemma {:induction false} NightKeepsNoTables(m: Machine, night: seq<Call>)
    requires Quiet(m) && m.phase.Awake? && Runs(m, [Suspend] + night) && AllNightly(night)
    ensures After(m, [Suspend] + night).fan == m.fan.(ram := Clobbered(m.fan.ram, night))
    ensures !After(m, [Suspend] + night).phase.Resuming?
  {
    var calls := [Suspend] + night;
    var front := calls[..|calls| - 1];
    if night == [] {
      assert front == [];
    } else {
      var shorter := night[..|night| - 1];
      assert front == [Suspend] + shorter && calls[|calls| - 1] == night[|night| - 1];
      NightKeepsNoTables(m, shorter);
    }
  }

  // ---------------------------------------------------------------------------------------------
  // The custom tables over histories with nights
  // ---------------------------------------------------------------------------------------------

  function SpeedCell(index: nat): Address
    requires index <= 1
  {
    if index == 0 then CPU_SPEED else GPU_SPEED
  }

  /** No cell but this one is wrong. */
  ghost predicate CompleteExcept(ram: Ram, cell: Address) {
    forall a: int :: InTable(a) && a != cell ==>
      if a == CPU_SPEED || a == GPU_SPEED then AllowedSpeed(ram[a]) else ram[a] == TableByte(a)
  }

  /** The EC leaves behind a memory that is not sound for what the driver believes. */
  ghost predicate Spoils(f: Fan, c: Call) {
    c.Clobber? && !(if f.initialized then Safe(c.ram) else !TableEnabled(c.ram))
  }

  /** What makes an unsound memory sound: automatic control; a fan call, out of full-fan mode, if the driver
      does not think the tables staged, or if it happens to mend the one wrong cell; or the EC itself. */
  ghost predicate Restores(f: Fan, c: Call) {
    || c.CallSetAuto?
    || (c.CallSetFan? && f.ram[MODE] & FULL_FAN == 0
        && (!f.initialized || (c.index <= 1 && c.speed <= FAN_SPEED_MAX && CompleteExcept(f.ram, SpeedCell(c.index)))))
    || (c.Clobber? && !Spoils(f, c))
  }

  lemma SpeedWriteMends(ram: Ram, cell: Address, q: Byte)
    requires (cell == CPU_SPEED || cell == GPU_SPEED) && AllowedSpeed(q)
    ensures TableComplete(ram[cell := q]) <==> CompleteExcept(ram, cell)
  {
    forall a: int | InTable(a) && a != cell ensures ram[cell := q][a] == ram[a] {
    }
  }

  /** On an initialised driver out of full-fan mode a fan call writes one speed cell of the table. */
  lemma InitializedSetFan(f: Fan, i: nat, v: Byte)
    requires f.universal && f.initialized && f.ram[MODE] & FULL_FAN == 0
    ensures var g := SetFan(f, i, v);
            && g.initialized && TableEnabled(g.ram) == TableEnabled(f.ram)
            && (TableComplete(g.ram) <==>
                if i <= 1 && v <= FAN_SPEED_MAX then CompleteExcept(f.ram, SpeedCell(i)) else TableComplete(f.ram))
  {
    if i <= 1 && v <= FAN_SPEED_MAX {
      var q := Quantised(v);
      SpeedWriteMends(f.ram, SpeedCell(i), q);
      var h := f.ram[SpeedCell(i) := q];
      var g := SetFan(f, i, v);
      assert g.ram == h[(if i == 0 then FAN0 else FAN1) := q];
      assert forall a: int :: InTable(a) ==> g.ram[a] == h[a];
    }
  }

  lemma FirstSetFan(f: Fan, i: nat, v: Byte)
    requires f.universal && !f.initialized && f.ram[MODE] & FULL_FAN == 0
    ensures Sound(SetFan(f, i, v))
  {
    var g := InitFan(f);
    StagedIsComplete(f.ram);
    assert g.ram[MODE] & FULL_FAN == 0 by {
      ClearThenSet(f.ram[MODE]);
    }
    assert SetFan(f, i, v) == SetFan(g, i, v);
    InitializedSetFan(g, i, v);
    assert i <= 1 ==> CompleteExcept(g.ram, SpeedCell(i));
  }

  lemma SetFanRestoresExactly(f: Fan, i: nat, v: Byte)
    requires f.universal
    ensures Sound(SetFan(f, i, v)) <==> Sound(f) || Restores(f, CallSetFan(i, v))
  {
    if f.ram[MODE] & FULL_FAN == 0 {
      if f.initialized {
        InitializedSetFan(f, i, v);
      } else {
        FirstSetFan(f, i, v);
      }
    }
  }

  lemma OtherCallsKeepTable(m: Machine, c: Call)
    requires Quiet(m) && Enabled(m, c) && !c.CallSetFan? && !c.CallSetAuto? && !c.Clobber?
    ensures Quiet(Perform(m, c)) && (Sound(Perform(m, c).fan) <==> Sound(m.fan))
  {
    var ram, after := m.fan.ram, Perform(m, c).fan.ram;
    assert forall a: int :: InTable(a) || a == CUSTOM_TABLE ==> after[a] == ram[a];
  }

  /** One call: what is sound stays so unless the EC spoils it; what is not becomes so only as said. */
  lemma CallRestoresExactly(m: Machine, c: Call)
    requires Quiet(m) && Enabled(m, c)
    ensures Quiet(Perform(m, c))
    ensures Sound(Perform(m, c).fan) <==> Restores(m.fan, c) || (Sound(m.fan) && !Spoils(m.fan, c))
  {
    match c {
      case CallSetFan(i, v) => SetFanRestoresExactly(m.fan, i, v);
      case CallSetAuto => AutoDisables(m.fan);
      case Clobber(_) =>
      case WorkFires => OtherCallsKeepTable(m, c);
      case CallSetProfile(_) => OtherCallsKeepTable(m, c);
      case CallSetTdp(_, _, _) => OtherCallsKeepTable(m, c);
      case Suspend => OtherCallsKeepTable(m, c);
      case ResumeFan0 => OtherCallsKeepTable(m, c);
      case ResumeFan1 => OtherCallsKeepTable(m, c);
    }
  }

  lemma AutoDisables(f: Fan)
    requires f.universal
    ensures !TableEnabled(SetAuto(f).ram)
  {
    AutoControlBytes(f);
    var b := f.ram[CUSTOM_TABLE];
    assert (b & !CUSTOM_TABLE_BIT) & CUSTOM_TABLE_BIT == 0;
  }

  lemma {:induction false} PrefixRuns(m: Machine, calls: seq<Call>, n: nat)
    requires n <= |calls| && Runs(m, calls)
    ensures Runs(m, calls[..n])
  {
    if n < |calls| {
      PrefixRuns(m, calls[..|calls| - 1], n);
      assert calls[..|calls| - 1][..n] == calls[..n];
    } else {
      assert calls[..n] == calls;
    }
  }

  // Facts about a history by the number of its calls, each with what establishes and what ends it. They are
  // taken at the state between two calls, which every history that runs has.

  function Before(m: Machine, calls: seq<Call>, n: nat): (s: Machine)
    requires n <= |calls| && Runs(m, calls)
  {
    PrefixRuns(m, calls, n);
    After(m, calls[..n])
  }

  lemma BeforeNext(m: Machine, calls: seq<Call>, n: nat)
    requires n < |calls| && Runs(m, calls)
    ensures Enabled(Before(m, calls, n), calls[n]) && Before(m, calls, n + 1) == Perform(Before(m, calls, n), calls[n])
  {
    PrefixRuns(m, calls, n + 1);
    assert calls[..n + 1][..n] == calls[..n];
  }

  lemma {:induction false} StaysQuiet(m: Machine, calls: seq<Call>, n: nat)
    requires n <= |calls| && Quiet(m) && Runs(m, calls)
    ensures Quiet(Before(m, calls, n))
  {
    if n > 0 {
      StaysQuiet(m, calls, n - 1);
      BeforeNext(m, calls, n - 1);
      CallRestoresExactly(Before(m, calls, n - 1), calls[n - 1]);
    }
  }

  ghost function SoundAt(m: Machine, calls: seq<Call>): nat -> bool
    requires Runs(m, calls)
  {
    (n: nat) => n <= |calls| && Sound(Before(m, calls, n).fan)
  }

  ghost function RestoresAt(m: Machine, calls: seq<Call>): nat -> bool
    requires Runs(m, calls)
  {
    (n: nat) => n < |calls| && Restores(Before(m, calls, n).fan, calls[n])
  }

  ghost function SpoilsAt(m: Machine, calls: seq<Call>): nat -> bool
    requires Runs(m, calls)
  {
    (n: nat) => n < |calls| && Spoils(Before(m, calls, n).fan, calls[n])
  }

  /** The table was sound and the EC has spoilt nothing, or some call restored it and the EC has spoilt nothing
      since. */
  ghost predicate SoundByHistory(m: Machine, calls: seq<Call>)
    requires Runs(m, calls)
  {
    H.HoldsByHistory(Sound(m.fan), RestoresAt(m, calls), SpoilsAt(m, calls), |calls|)
  }

  /** After every history with any number of nights, on a newer device in any state: the table is sound
      exactly if it was and the EC has spoilt nothing, or some call restored it and the EC has spoilt
      nothing since. In particular neither resume nor any profile or TDP request restores it. */
  lemma SoundExactly(m: Machine, calls: seq<Call>)
    requires Quiet(m) && Runs(m, calls)
    ensures Quiet(After(m, calls))
    ensures Sound(After(m, calls).fan) <==> SoundByHistory(m, calls)
  {
    var sound, restores, spoils := SoundAt(m, calls), RestoresAt(m, calls), SpoilsAt(m, calls);
    forall i: nat | i < |calls| ensures H.Changes(sound, restores, spoils, i) {
      StaysQuiet(m, calls, i);
      BeforeNext(m, calls, i);
      CallRestoresExactly(Before(m, calls, i), calls[i]);
    }
    H.HoldsExactly(sound, restores, spoils, |calls|);
    StaysQuiet(m, calls, |calls|);
    assert calls[..|calls|] == calls && calls[..0] == [];
  }

  // ---------------------------------------------------------------------------------------------
  // When a requested speed is in force on newer devices
  // ---------------------------------------------------------------------------------------------

  /** The table is enabled, and zone 0 of this fan has the speed that a request for `v` asks for. */
  predicate SpeedInForce(f: Fan, i: nat, v: Byte)
    requires i <= 1
  {
    TableEnabled(f.ram) && f.ram[SpeedCell(i)] == Quantised(v)
  }

  /** A fan call, out of full-fan mode, finds the tables not staged as far as the driver knows. */
  predicate Stages(f: Fan, c: Call) {
    c.CallSetFan? && f.ram[MODE] & FULL_FAN == 0 && !f.initialized
  }

  /** A fan call, out of full-fan mode, with a valid speed for this fan. */
  predicate SetsSpeed(f: Fan, c: Call, i: nat) {
    c.CallSetFan? && f.ram[MODE] & FULL_FAN == 0 && c.index == i && c.speed <= FAN_SPEED_MAX
  }

  /** What puts a speed into force: such a call with that speed, if the tables are enabled or get staged;
      staging alone, if the fan is to be off; or the EC itself. */
  predicate EnforcesSpeed(f: Fan, c: Call, i: nat, v: Byte)
    requires i <= 1
  {
    || (SetsSpeed(f, c, i) && Quantised(c.speed) == Quantised(v) && (Stages(f, c) || TableEnabled(f.ram)))
    || (Stages(f, c) && !SetsSpeed(f, c, i) && Quantised(v) == 1)
    || (c.Clobber? && SpeedInForce(f.(ram := c.ram), i, v))
  }

  /** What takes it out of force: automatic control, another speed for this fan, staging for the other fan,
      or the EC. */
  predicate DropsSpeed(f: Fan, c: Call, i: nat, v: Byte)
    requires i <= 1
  {
    || c.CallSetAuto?
    || (SetsSpeed(f, c, i) && Quantised(c.speed) != Quantised(v))
    || (Stages(f, c) && !SetsSpeed(f, c, i) && Quantised(v) != 1)
    || (c.Clobber? && !SpeedInForce(f.(ram := c.ram), i, v))
  }

  lemma StagedSpeeds(f: Fan, i: nat)
    requires f.universal && !f.initialized && i <= 1
    ensures var g := InitFan(f);
            && TableEnabled(g.ram) && g.ram[SpeedCell(i)] == 1 && g.initialized && g.universal
            && (f.ram[MODE] & FULL_FAN == 0 ==> g.ram[MODE] & FULL_FAN == 0)
  {
    StagedIsComplete(f.ram);
    ClearThenSet(f.ram[MODE]);
    assert TableByte(CPU_SPEED) == 1 && TableByte(GPU_SPEED) == 1;
    assert InitFan(f).ram[SpeedCell(i)] == StagedCell(f.ram, SpeedCell(i));
    assert InitFan(f).ram[MODE] == StagedCell(f.ram, MODE);
  }

  lemma KnownTablesSpeed(f: Fan, j: nat, w: Byte, i: nat)
    requires f.universal && f.initialized && i <= 1 && f.ram[MODE] & FULL_FAN == 0
    ensures var g := SetFan(f, j, w);
            && TableEnabled(g.ram) == TableEnabled(f.ram)
            && g.ram[SpeedCell(i)] == if j == i && w <= FAN_SPEED_MAX then Quantised(w) else f.ram[SpeedCell(i)]
  {
    InitializedSetFan(f, j, w);
  }

  lemma SetFanSpeedExactly(f: Fan, c: Call, i: nat, v: Byte)
    requires f.universal && c.CallSetFan? && i <= 1
    ensures SpeedInForce(SetFan(f, c.index, c.speed), i, v) <==>
            EnforcesSpeed(f, c, i, v) || (SpeedInForce(f, i, v) && !DropsSpeed(f, c, i, v))
  {
    if f.ram[MODE] & FULL_FAN == 0 {
      if f.initialized {
        KnownTablesSpeed(f, c.index, c.speed, i);
      } else {
        StagedSpeeds(f, i);
        assert SetFan(f, c.index, c.speed) == SetFan(InitFan(f), c.index, c.speed);
        KnownTablesSpeed(InitFan(f), c.index, c.speed, i);
      }
    }
  }

  lemma CallSpeedExactly(m: Machine, c: Call, i: nat, v: Byte)
    requires Quiet(m) && Enabled(m, c) && i <= 1
    ensures SpeedInForce(Perform(m, c).fan, i, v) <==>
            EnforcesSpeed(m.fan, c, i, v) || (SpeedInForce(m.fan, i, v) && !DropsSpeed(m.fan, c, i, v))
  {
    match c {
      case CallSetFan(_, _) => SetFanSpeedExactly(m.fan, c, i, v);
      case CallSetAuto => AutoDisables(m.fan);
      case Clobber(_) =>
      case WorkFires =>
      case CallSetProfile(_) =>
      case CallSetTdp(_, _, _) =>
      case Suspend =>
      case ResumeFan0 =>
      case ResumeFan1 =>
    }
  }

  ghost function SpeedInForceAt(m: Machine, calls: seq<Call>, i: nat, v: Byte): nat -> bool
    requires Runs(m, calls) && i <= 1
  {
    (n: nat) => n <= |calls| && SpeedInForce(Before(m, calls, n).fan, i, v)
  }

  ghost function EnforcesSpeedAt(m: Machine, calls: seq<Call>, i: nat, v: Byte): nat -> bool
    requires Runs(m, calls) && i <= 1
  {
    (n: nat) => n < |calls| && EnforcesSpeed(Before(m, calls, n).fan, calls[n], i, v)
  }

  ghost function DropsSpeedAt(m: Machine, calls: seq<Call>, i: nat, v: Byte): nat -> bool
    requires Runs(m, calls) && i <= 1
  {
    (n: nat) => n < |calls| && DropsSpeed(Before(m, calls, n).fan, calls[n], i, v)
  }

  /** The speed was in force and nothing dropped it, or something enforced it and nothing has dropped it since. */
  ghost predicate SpeedByHistory(m: Machine, calls: seq<Call>, i: nat, v: Byte)
    requires Runs(m, calls) && i <= 1
  {
    H.HoldsByHistory(
      SpeedInForce(m.fan, i, v), EnforcesSpeedAt(m, calls, i, v), DropsSpeedAt(m, calls, i, v), |calls|)
  }

  /** After every history of a newer device, nights included: a speed is in force for a fan exactly if it was
      and nothing dropped it, or something enforced it and nothing has dropped it since. */
  lemma SpeedInForceExactly(m: Machine, calls: seq<Call>, i: nat, v: Byte)
    requires Quiet(m) && Runs(m, calls) && i <= 1
    ensures SpeedInForce(After(m, calls).fan, i, v) <==> SpeedByHistory(m, calls, i, v)
  {
    var holds := SpeedInForceAt(m, calls, i, v);
    var enforces, drops := EnforcesSpeedAt(m, calls, i, v), DropsSpeedAt(m, calls, i, v);
    forall n: nat | n < |calls| ensures H.Changes(holds, enforces, drops, n) {
      StaysQuiet(m, calls, n);
      BeforeNext(m, calls, n);
      CallSpeedExactly(Before(m, calls, n), calls[n], i, v);
    }
    H.HoldsExactly(holds, enforces, drops, |calls|);
    assert calls[..|calls|] == calls && calls[..0] == [];
  }

  /** A night in which the EC switches the tables off, on a driver that has staged them: afterwards no fan call
      puts any speed into force until automatic control has been asked for. */
  lemma {:induction false} FanCallsAreLost(m: Machine, calls: seq<Call>, i: nat, v: Byte)
    requires Quiet(m) && Runs(m, calls) && i <= 1 && m.fan.initialized && !TableEnabled(m.fan.ram)
    requires forall n :: 0 <= n < |calls| ==> !calls[n].CallSetAuto? && !calls[n].Clobber?
    ensures !SpeedInForce(After(m, calls).fan, i, v)
    ensures Quiet(After(m, calls)) && After(m, calls).fan.initialized && !TableEnabled(After(m, calls).fan.ram)
  {
    if calls != [] {
      var front, c := calls[..|calls| - 1], calls[|calls| - 1];
      FanCallsAreLost(m, front, i, v);
      CallRestoresExactly(After(m, front), c);
      CallLeavesTablesOff(After(m, front), c);
    }
  }

  lemma CallLeavesTablesOff(m: Machine, c: Call)
    requires Quiet(m) && Enabled(m, c) && m.fan.initialized && !TableEnabled(m.fan.ram)
    requires !c.CallSetAuto? && !c.Clobber?
    ensures Perform(m, c).fan.initialized && !TableEnabled(Perform(m, c).fan.ram)
  {
    if c.CallSetFan? && m.fan.ram[MODE] & FULL_FAN == 0 {
      InitializedSetFan(m.fan, c.index, c.speed);
    }
  }

  /** Starting with the custom table disabled, after every history of calls the table is enabled only with
      all 96 cells in place and an allowed speed in both controllable zones. */
  lemma {:induction false} TableIsSafe(m: Machine, calls: seq<Call>)
    requires Initial(m) && m.fan.universal && !TableEnabled(m.fan.ram) && Runs(m, calls) && AllDaytime(calls)
    ensures TableInv(After(m, calls))
  {
    if calls != [] {
      TableIsSafe(m, calls[..|calls| - 1]);
      CallRestoresExactly(After(m, calls[..|calls| - 1]), calls[|calls| - 1]);
    }
  }

  /** The two control bytes, apart from the enable bits. */
  predicate SameControlBits(ram: Ram, other: Ram) {
    && ram[SEPARATE] & !SEPARATE_BIT == other[SEPARATE] & !SEPARATE_BIT
    && ram[CUSTOM_TABLE] & !CUSTOM_TABLE_BIT == other[CUSTOM_TABLE] & !CUSTOM_TABLE_BIT
  }

  lemma EnableBits(b: Byte, bit: Byte)
    ensures (b | bit) & !bit == b & !bit && (b & !bit) & !bit == b & !bit
  {
  }

  lemma ClearBit(b: Byte, bit: Byte)
    requires b & bit == 0
    ensures b & !bit == b
  {
  }

  function EnableBit(a: Address): Byte {
    if a == SEPARATE then SEPARATE_BIT else CUSTOM_TABLE_BIT
  }

  lemma SetFanControlByte(f: Fan, i: nat, v: Byte, a: Address)
    requires a == SEPARATE || a == CUSTOM_TABLE
    ensures SetFan(f, i, v).ram[a] == f.ram[a] || SetFan(f, i, v).ram[a] == f.ram[a] | EnableBit(a)
  {
    var g := InitFan(f);
    assert g.ram[a] == f.ram[a] || g.ram[a] == StagedCell(f.ram, a);
  }

  lemma AutoControlBytes(f: Fan)
    requires f.universal
    ensures SetAuto(f).ram[SEPARATE] == f.ram[SEPARATE] & !SEPARATE_BIT
    ensures SetAuto(f).ram[CUSTOM_TABLE] == f.ram[CUSTOM_TABLE] & !CUSTOM_TABLE_BIT
  {
  }

  /** A control byte is left alone or has its enable bit set or cleared. */
  predicate ByteChange(after: Byte, before: Byte, bit: Byte) {
    after == before || after == before | bit || after == before & !bit
  }

  lemma CallChangesControlByte(m: Machine, c: Call, a: Address)
    requires Daytime(c) && Enabled(m, c) && (a == SEPARATE || a == CUSTOM_TABLE)
    ensures ByteChange(Perform(m, c).fan.ram[a], m.fan.ram[a], EnableBit(a))
  {
    match c {
      case CallSetFan(i, v) => SetFanControlByte(m.fan, i, v, a);
      case CallSetAuto =>
        if m.fan.universal {
          AutoControlBytes(m.fan);
        } else {
          assert SetAuto(m.fan).ram[a] == m.fan.ram[a];
        }
      case WorkFires => RestartEndsInFullFan(m.fan);
      case CallSetProfile(p) => assert Io.WithProfile(m.fan.ram, p)[a] == m.fan.ram[a];
      case CallSetTdp(d, l, v) => Io.SetTdpFrame(d, m.fan.ram, l, v, a);
    }
  }

  lemma {:induction false} HistoryKeepsControlBits(m: Machine, calls: seq<Call>)
    requires Runs(m, calls) && AllDaytime(calls)
    ensures SameControlBits(After(m, calls).fan.ram, m.fan.ram)
  {
    if calls != [] {
      HistoryKeepsControlBits(m, calls[..|calls| - 1]);
      var n := After(m, calls[..|calls| - 1]);
      CallChangesControlByte(n, calls[|calls| - 1], SEPARATE);
      CallChangesControlByte(n, calls[|calls| - 1], CUSTOM_TABLE);
      EnableBits(n.fan.ram[SEPARATE], SEPARATE_BIT);
      EnableBits(n.fan.ram[CUSTOM_TABLE], CUSTOM_TABLE_BIT);
    }
  }

  /** If both enable bits started clear, going back to automatic control restores both control bytes
      exactly, whatever was called in between. */
  lemma AutoRestoresControlBytes(m: Machine, calls: seq<Call>)
    requires Initial(m) && m.fan.universal && Runs(m, calls) && AllDaytime(calls)
    requires m.fan.ram[SEPARATE] & SEPARATE_BIT == 0 && m.fan.ram[CUSTOM_TABLE] & CUSTOM_TABLE_BIT == 0
    requires calls != [] && calls[|calls| - 1].CallSetAuto?
    ensures After(m, calls).fan.ram[SEPARATE] == m.fan.ram[SEPARATE]
    ensures After(m, calls).fan.ram[CUSTOM_TABLE] == m.fan.ram[CUSTOM_TABLE]
  {
    HistoryKeepsControlBits(m, calls[..|calls| - 1]);
    ModeByteIsShared(m, calls[..|calls| - 1]);
    AutoControlBytes(After(m, calls[..|calls| - 1]).fan);
    ClearBit(m.fan.ram[SEPARATE], SEPARATE_BIT);
    ClearBit(m.fan.ram[CUSTOM_TABLE], CUSTOM_TABLE_BIT);
  }

  // ---------------------------------------------------------------------------------------------
  // In the controller's terms
  // ---------------------------------------------------------------------------------------------

  /** Below 25 a fan is off, which is stored as 1; 25 to 49 make it run as slowly as it can; the rest is
      stored as it is. A greater request never makes it slower. */
  lemma QuantisedMeans(speed: Byte, greater: Byte)
    ensures Quantised(speed) == 1 <==> speed < 25
    ensures 25 <= speed < 50 ==> Quantised(speed) == 50
    ensures speed >= 50 ==> Quantised(speed) == speed
    ensures speed <= greater ==> Quantised(speed) <= Quantised(greater)
  {
  }

  /** A cell of either table. */
  lemma StagedTableCell(ram: Ram, column: nat, i: nat)
    requires column < 6 && i <= 15
    ensures Staged(ram)[0x0f00 + 0x10 * column + i] == ZoneByte(column, i)
  {
    var a := 0x0f00 + 0x10 * column + i;
    assert Staged(ram)[a] == StagedCell(ram, a);
    assert Zone(a) == i && Column(a) == column;
  }

  /** The staged zone 0 of either table: from 0 to 115 degrees, 120 for the GPU, with the fan off. */
  lemma StagedZoneZero(ram: Ram)
    ensures var t := Staged(ram);
            && t[0x0f00] == 115 && t[0x0f10] == 0 && t[0x0f20] == 1
            && t[0x0f30] == 120 && t[0x0f40] == 0 && t[0x0f50] == 1
  {
    StagedTableCell(ram, 0, 0);
    StagedTableCell(ram, 1, 0);
    StagedTableCell(ram, 2, 0);
    StagedTableCell(ram, 3, 0);
    StagedTableCell(ram, 4, 0);
    StagedTableCell(ram, 5, 0);
  }

  /** Above zone 0 there are fifteen zones of one degree each at full speed. Here a zone's end ... */
  lemma StagedEnds(ram: Ram, gpu: bool, i: nat)
    requires 1 <= i <= 15
    ensures Value(Staged(ram)[(if gpu then 0x0f30 else 0x0f00) + i]) == 116 + i
  {
    StagedTableCell(ram, if gpu then 3 else 0, i);
    ByteValue(116 + i, Staged(ram)[(if gpu then 0x0f30 else 0x0f00) + i]);
  }

  /** ... its start ... */
  lemma StagedStarts(ram: Ram, gpu: bool, i: nat)
    requires 1 <= i <= 15
    ensures Value(Staged(ram)[(if gpu then 0x0f40 else 0x0f10) + i]) == 115 + i
  {
    StagedTableCell(ram, if gpu then 4 else 1, i);
    ByteValue(115 + i, Staged(ram)[(if gpu then 0x0f40 else 0x0f10) + i]);
  }

  /** ... and its speed. They follow each other without gap. */
  lemma StagedZonesFollow(ram: Ram, gpu: bool, i: nat)
    requires 1 <= i <= 15
    ensures Staged(ram)[(if gpu then 0x0f50 else 0x0f20) + i] == 200
    ensures i < 15 ==>
              Staged(ram)[(if gpu then 0x0f40 else 0x0f10) + i + 1] == Staged(ram)[(if gpu then 0x0f30 else 0x0f00) + i]
  {
    StagedTableCell(ram, if gpu then 5 else 2, i);
    if i < 15 {
      StagedTableCell(ram, if gpu then 4 else 1, i + 1);
      StagedTableCell(ram, if gpu then 3 else 0, i);
      assert 115 + (i + 1) == 116 + i;
    }
  }

  /** What initialisation does besides, the first time on a newer device: full-fan mode off, separate tables,
      tables enabled ... */
  lemma InitFanBytes(f: Fan)
    requires !f.initialized && f.universal
    ensures var ram := InitFan(f).ram;
            && ram[0x0751] & 0x40 == 0 && ram[0x0751] & 0xbf == f.ram[0x0751] & 0xbf
            && ram[0x07c5] & 0x80 != 0 && ram[0x07c5] & 0x7f == f.ram[0x07c5] & 0x7f
            && ram[0x07c6] & 0x04 != 0 && ram[0x07c6] & 0xfb == f.ram[0x07c6] & 0xfb
  {
    assert Staged(f.ram)[0x0751] == StagedCell(f.ram, 0x0751);
    assert Staged(f.ram)[0x07c5] == StagedCell(f.ram, 0x07c5);
    assert Staged(f.ram)[0x07c6] == StagedCell(f.ram, 0x07c6);
    InitBits(f.ram[0x0751], f.ram[0x07c5], f.ram[0x07c6]);
  }

  /** ... and nothing else; and otherwise nothing at all. */
  lemma InitFanFrame(f: Fan, a: Address)
    ensures var g := InitFan(f);
            && g.initialized && g.(ram := f.ram, initialized := f.initialized) == f
            && (f.initialized || !f.universal ==> g.ram == f.ram)
            && (!(0x0f00 <= a < 0x0f60) && a != 0x0751 && a != 0x07c5 && a != 0x07c6 ==> g.ram[a] == f.ram[a])
  {
    assert Staged(f.ram)[a] == StagedCell(f.ram, a);
  }

  lemma InitBits(mode: Byte, separate: Byte, enable: Byte)
    ensures (mode & !FULL_FAN) & 0x40 == 0 && (mode & !FULL_FAN) & 0xbf == mode & 0xbf
    ensures (separate | SEPARATE_BIT) & 0x80 != 0 && (separate | SEPARATE_BIT) & 0x7f == separate & 0x7f
    ensures (enable | CUSTOM_TABLE_BIT) & 0x04 != 0 && (enable | CUSTOM_TABLE_BIT) & 0xfb == enable & 0xfb
  {
  }

  /** What automatic control does on newer devices: both tables are given up and will be staged again; nothing
      else in memory changes. */
  lemma SetAutoOnUniversal(f: Fan, a: Address)
    requires f.universal
    ensures var g := SetAuto(f);
            && !g.initialized && g.cur == Speeds(0, 0)
            && g.ram[0x07c5] & 0x80 == 0 && g.ram[0x07c5] & 0x7f == f.ram[0x07c5] & 0x7f
            && g.ram[0x07c6] & 0x04 == 0 && g.ram[0x07c6] & 0xfb == f.ram[0x07c6] & 0xfb
            && (a != 0x07c5 && a != 0x07c6 ==> g.ram[a] == f.ram[a])
            && g.(ram := f.ram, initialized := f.initialized, cur := f.cur) == f
  {
    AutoControlBytes(f);
    TableAutoBits(f.ram[0x07c5], f.ram[0x07c6]);
  }

  lemma TableAutoBits(separate: Byte, enable: Byte)
    ensures (separate & !SEPARATE_BIT) & 0x80 == 0 && (separate & !SEPARATE_BIT) & 0x7f == separate & 0x7f
    ensures (enable & !CUSTOM_TABLE_BIT) & 0x04 == 0 && (enable & !CUSTOM_TABLE_BIT) & 0xfb == enable & 0xfb
  {
  }

  /** And on older ones: the work is cancelled and full-fan mode left. */
  lemma SetAutoOnOlder(f: Fan, a: Address)
    requires !f.universal
    ensures var g := SetAuto(f);
            && !g.started && g.work.Unscheduled? && g.cur == Speeds(0, 0)
            && g.ram[0x0751] & 0x40 == 0 && g.ram[0x0751] & 0xbf == f.ram[0x0751] & 0xbf
            && (a != 0x0751 ==> g.ram[a] == f.ram[a])
            && g.(ram := f.ram, started := f.started, work := f.work, cur := f.cur) == f
  {
    ModeAutoBits(f.ram[0x0751]);
  }

  lemma ModeAutoBits(mode: Byte)
    ensures (mode & !FULL_FAN) & 0x40 == 0 && (mode & !FULL_FAN) & 0xbf == mode & 0xbf
  {
  }

  /** Fan `i` of a newer device is under manual control at this speed: separate, enabled tables, the speed in its
      zone 0, and in its fan register. */
  predicate RunsAt(ram: Ram, i: nat, speed: Byte) {
    && ram[0x07c5] & 0x80 != 0 && ram[0x07c6] & 0x04 != 0
    && (if i == 0 then ram[0x0f20] == speed && ram[0x1804] == speed else ram[0x0f50] == speed && ram[0x1809] == speed)
  }

  /** Between calls a newer device has its tables enabled, and separate, exactly if the driver has staged
      them. */
  predicate TablesKnown(m: Machine) {
    && Quiet(m) && m.phase.Awake?
    && (TableEnabled(m.fan.ram) <==> m.fan.initialized)
    && (m.fan.initialized ==> m.fan.ram[SEPARATE] & SEPARATE_BIT != 0)
  }

  lemma SetFanKeepsTablesKnown(m: Machine, i: nat, v: Byte)
    requires TablesKnown(m)
    ensures TablesKnown(m.(fan := SetFan(m.fan, i, v)))
  {
    var f := m.fan;
    var g := InitFan(f);
    if !f.initialized {
      InitFanBytes(f);
      EnableBitsAreSet(g.ram[SEPARATE], g.ram[CUSTOM_TABLE]);
    }
    if f.ram[MODE] & FULL_FAN == 0 {
      var after := SetFan(f, i, v).ram;
      assert after[SEPARATE] == g.ram[SEPARATE] && after[CUSTOM_TABLE] == g.ram[CUSTOM_TABLE];
    }
  }

  lemma AutoLeavesTablesKnown(m: Machine)
    requires TablesKnown(m)
    ensures TablesKnown(m.(fan := SetAuto(m.fan)))
  {
    AutoDisables(m.fan);
    SetAutoOnUniversal(m.fan, 0);
  }

  lemma CallKeepsTablesKnown(m: Machine, c: Call)
    requires TablesKnown(m) && Daytime(c) && Enabled(m, c)
    ensures TablesKnown(Perform(m, c))
  {
    CallRestoresExactly(m, c);
    match c {
      case CallSetFan(i, v) => SetFanKeepsTablesKnown(m, i, v);
      case CallSetAuto => AutoLeavesTablesKnown(m);
      case CallSetProfile(_) =>
      case CallSetTdp(_, _, _) =>
    }
  }

  lemma {:induction false} TablesAreKnown(m: Machine, calls: seq<Call>)
    requires Initial(m) && m.fan.universal && !TableEnabled(m.fan.ram) && Runs(m, calls) && AllDaytime(calls)
    ensures TablesKnown(After(m, calls))
  {
    if calls != [] {
      TablesAreKnown(m, calls[..|calls| - 1]);
      CallKeepsTablesKnown(After(m, calls[..|calls| - 1]), calls[|calls| - 1]);
    }
  }

  lemma ValidCall(m: Machine, i: nat, v: Byte)
    requires TablesKnown(m) && m.fan.ram[MODE] & FULL_FAN == 0 && i <= 1 && v <= FAN_SPEED_MAX
    ensures RunsAt(SetFan(m.fan, i, v).ram, i, Quantised(v))
  {
    var g, q := InitFan(m.fan), Quantised(v);
    if !m.fan.initialized {
      InitFanBytes(m.fan);
      EnableBitsAreSet(g.ram[SEPARATE], g.ram[CUSTOM_TABLE]);
    }
    var after := SetFan(m.fan, i, v).ram;
    assert after == g.ram[SpeedCell(i) := q][(if i == 0 then FAN0 else FAN1) := q];
    assert after[SEPARATE] == g.ram[SEPARATE] && after[CUSTOM_TABLE] == g.ram[CUSTOM_TABLE];
    EnableBitsAreSet(g.ram[SEPARATE], g.ram[CUSTOM_TABLE]);
  }

  lemma EnableBitsAreSet(separate: Byte, enable: Byte)
    ensures separate & SEPARATE_BIT != 0 <==> separate & 0x80 != 0
    ensures enable & CUSTOM_TABLE_BIT != 0 <==> enable & 0x04 != 0
  {
  }

  /** On a newer device that starts with the table disabled, after every history of calls, automatic control
      included: a fan call with a valid speed, out of full-fan mode, makes that fan run at that speed. */
  lemma ValidCallTakesEffect(m: Machine, calls: seq<Call>, i: nat, v: Byte)
    requires Initial(m) && m.fan.universal && m.fan.ram[0x07c6] & 0x04 == 0
    requires Runs(m, calls + [CallSetFan(i, v)]) && AllDaytime(calls)
    requires i <= 1 && v <= 200
    ensures Runs(m, calls)
    ensures After(m, calls).fan.ram[0x0751] & 0x40 == 0 ==>
              RunsAt(After(m, calls + [CallSetFan(i, v)]).fan.ram, i, Quantised(v))
  {
    var all := calls + [CallSetFan(i, v)];
    assert all[..|all| - 1] == calls;
    TablesAreKnown(m, calls);
    if After(m, calls).fan.ram[0x0751] & 0x40 == 0 {
      ValidCall(After(m, calls), i, v);
    }
  }

  /** A fan call with an invalid fan or speed stages the tables if need be and changes no speed; in full-fan
      mode no fan call of a newer device changes anything. */
  lemma InvalidCall(f: Fan, i: nat, v: Byte)
    requires f.universal
    ensures f.ram[0x0751] & 0x40 != 0 ==> SetFan(f, i, v) == f
    ensures f.ram[0x0751] & 0x40 == 0 && (i > 1 || v > 200) ==> SetFan(f, i, v) == InitFan(f)
  {
  }

  /** What a request in force means on older devices, in registers. */
  lemma RequestInRegisters(m: Machine, calls: seq<Call>)
    requires Initial(m) && !m.fan.universal && Runs(m, calls)
    ensures var n, r := After(m, calls), Requested(calls);
            n.phase.Awake? && r.Manual? && n.fan.work.Later? ==>
              n.fan.ram[0x1804] == r.speeds.fan0 && n.fan.ram[0x1809] == r.speeds.fan1 && n.fan.ram[0x0751] & 0x40 != 0
  {
    RequestIsInForce(m, calls);
  }
}
