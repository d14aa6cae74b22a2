/** NB05 fan control: pwm requests scaled to the EC's duty and rpm units, kept out of the band in which a
    fan does not start, and written to every cell of a fan's temperature table. */
module Nb05Fan {
  import opened Common
  import opened Nb05EcPorts

  const EINVAL := 22

  const FAN_SET_RPM_MAX: u8 := 54
  const FAN_SET_DUTY_MAX: u8 := 0xb8
  const FAN_ON_MIN_SPEED_PERCENT := 25
  const FAN_SET_RPM_HIGHTEMP: u8 := 15
  const FAN_SET_DUTY_HIGHTEMP: u8 := 51

  /** A pwm value in units of `max`, and back; each is cut to a byte. */
  function FromPwm(pwm: u8, max: u8): (v: u8)
    ensures v <= max
  {
    QuotientBound(pwm * max, max, 0xff, pwm);
    pwm * max / 0xff
  }

  function ToPwm(v: u8, max: u8): u8
    requires max > 0
  {
    v * 0xff / max % 0x100
  }

  lemma CancelFactor(a: nat, b: nat, factor: nat)
    requires factor > 0 && a * factor <= b * factor
    ensures a <= b
  {
  }

  /** A quotient by `divisor` of a value that is at most `bound` times it. */
  lemma QuotientBound(n: nat, bound: nat, divisor: nat, part: nat)
    requires divisor > 0 && part <= divisor && n == part * bound
    ensures n / divisor <= bound
  {
    assert part * bound <= divisor * bound;
    assert n / divisor * divisor <= n;
    CancelFactor(n / divisor, bound, divisor);
  }

  /** No speeds between off and a quarter of the maximum: the lower half of the band becomes off. */
  function Clamped(v: u8, max: u8): u8 {
    if v <= FAN_ON_MIN_SPEED_PERCENT * max / 2 / 100 then 0
    else if v < FAN_ON_MIN_SPEED_PERCENT * max / 100 then FAN_ON_MIN_SPEED_PERCENT * max / 100
    else v
  }

  function Max(v: u8, w: u8): u8 {
    if v < w then w else v
  }

  // ---------------------------------------------------------------------------------------------
  // Registers
  // ---------------------------------------------------------------------------------------------

  /** A fan's table is seven cells for ordinary temperatures and two for high ones. */
  type TableBase = a: Address | a + 9 <= RAM_SIZE

  const FAN1_DUTY: TableBase := 0x02c1
  const FAN1_RPM: TableBase := 0x02d0
  const FAN2_DUTY: TableBase := 0x0241
  const FAN2_RPM: TableBase := 0x0250
  const FAN1_DUTY_ONEREG: Address := 0x1809
  const FAN1_ENABLE: Address := 0x02c0
  const FAN1_ENABLE_ONEREG: Address := 0x02f1
  const FAN2_ENABLE: Address := 0x0240

  predicate InTable(base: TableBase, a: Address) {
    base <= a < base + 9
  }

  function TableCell(base: TableBase, a: Address, v: u8, highTemp: u8): u8 {
    if a < base + 7 then v else Max(v, highTemp)
  }

  function WithTable(ram: Ram, base: TableBase, v: u8, highTemp: u8): Ram {
    seq(RAM_SIZE, a requires 0 <= a < RAM_SIZE => if InTable(base, a) then TableCell(base, a, v, highTemp) else ram[a])
  }

  /** Whether fan 1 is set through a single register, and whether rpm tables are written too. */
  datatype Model = Model(onereg: bool, writeRpm: bool)

  function ModelOf(onereg: bool, verMajor: u8, verMinor: u8): Model {
    Model(onereg, !onereg && !(verMajor >= 9 && verMinor >= 10))
  }

  datatype Fan = Fan1 | Fan2

  datatype Request = SetPwm(fan: Fan, pwm: u8) | SetEnable(fan: Fan, mode: u8)

  // ---------------------------------------------------------------------------------------------
  // What a request leaves in each cell
  // ---------------------------------------------------------------------------------------------

  /** The last pwm value and the last enable mode asked of each fan. */
  datatype Wanted = Wanted(pwm1: Option<u8>, pwm2: Option<u8>, enable1: Option<u8>, enable2: Option<u8>)

  function NextWanted(w: Wanted, r: Request): Wanted {
    match r
    case SetPwm(f, p) => if f.Fan1? then w.(pwm1 := Some(p)) else w.(pwm2 := Some(p))
    case SetEnable(f, e) => if f.Fan1? then w.(enable1 := Some(e)) else w.(enable2 := Some(e))
  }

  function LastWanted(requests: seq<Request>): Wanted {
    if requests == [] then Wanted(None, None, None, None)
    else NextWanted(LastWanted(requests[..|requests| - 1]), requests[|requests| - 1])
  }

  function Duty(pwm: u8): u8 {
    Clamped(FromPwm(pwm, FAN_SET_DUTY_MAX), FAN_SET_DUTY_MAX)
  }

  function Rpm(pwm: u8): u8 {
    Clamped(FromPwm(pwm, FAN_SET_RPM_MAX), FAN_SET_RPM_MAX)
  }

  /** Mode 2 is automatic, every other value is manual. */
  function EnableByte(mode: u8, manual: u8): u8 {
    if mode == 2 then 0 else manual
  }

  /** What cell `a` holds when `w` is wanted and `was` was there at first. */
  function CellFor(m: Model, w: Wanted, a: Address, was: u8): u8 {
    if InTable(FAN2_DUTY, a) && w.pwm2.Some? then
      TableCell(FAN2_DUTY, a, Duty(w.pwm2.value), FAN_SET_DUTY_HIGHTEMP)
    else if InTable(FAN2_RPM, a) && m.writeRpm && w.pwm2.Some? then
      TableCell(FAN2_RPM, a, Rpm(w.pwm2.value), FAN_SET_RPM_HIGHTEMP)
    else if InTable(FAN1_DUTY, a) && !m.onereg && w.pwm1.Some? then
      TableCell(FAN1_DUTY, a, Duty(w.pwm1.value), FAN_SET_DUTY_HIGHTEMP)
    else if InTable(FAN1_RPM, a) && m.writeRpm && w.pwm1.Some? then
      TableCell(FAN1_RPM, a, Rpm(w.pwm1.value), FAN_SET_RPM_HIGHTEMP)
    else if a == FAN1_DUTY_ONEREG && m.onereg && w.pwm1.Some? then Duty(w.pwm1.value)
    else if a == FAN1_ENABLE && !m.onereg && w.enable1.Some? then EnableByte(w.enable1.value, 1)
    else if a == FAN1_ENABLE_ONEREG && m.onereg && w.enable1.Some? then EnableByte(w.enable1.value, 0xaa)
    else if a == FAN2_ENABLE && w.enable2.Some? then EnableByte(w.enable2.value, 1)
    else was
  }

  function Only(r: Request): Wanted {
    NextWanted(Wanted(None, None, None, None), r)
  }

  function AfterPwm(m: Model, fan: Fan, pwm: u8, a: Address, was: u8): u8 {
    CellFor(m, Only(SetPwm(fan, pwm)), a, was)
  }

  function AfterEnable(m: Model, fan: Fan, mode: u8, a: Address, was: u8): u8 {
    CellFor(m, Only(SetEnable(fan, mode)), a, was)
  }

  /** The mode that the enable register stands for: manual if its lowest bit is set, or on a device with a
      single register if it holds 0xaa. */
  function EnableShown(m: Model, ram: Ram, fan: Fan): u8 {
    var manual :=
      if fan.Fan2? then ram[FAN2_ENABLE] % 2 == 1
      else if m.onereg then ram[FAN1_ENABLE_ONEREG] == 0xaa
      else ram[FAN1_ENABLE] % 2 == 1;
    if manual then 1 else 2
  }

  /** The cell that a show reads. */
  function DutyRegister(m: Model, fan: Fan): Address {
    if fan.Fan2? then FAN2_DUTY else if m.onereg then FAN1_DUTY_ONEREG else FAN1_DUTY
  }

  // ---------------------------------------------------------------------------------------------
  // The driver
  // ---------------------------------------------------------------------------------------------

  class FanControl {
    const onereg: bool
    const writeRpm: bool
    var ram: Ram

    ghost function Kind(): Model {
      Model(onereg, writeRpm)
    }

    constructor (onereg: bool, verMajor: u8, verMinor: u8, ram: Ram)
      ensures Kind() == ModelOf(onereg, verMajor, verMinor) && this.ram == ram
    {
      this.onereg, this.ram := onereg, ram;
      var rpm := false;
      if !onereg {
        if verMajor >= 9 && verMinor >= 10 {
          rpm := false;
        } else {
          rpm := true;
        }
      }
      this.writeRpm := rpm;
    }

    /** write_fan1_rpm, write_fan1_duty_ranges, write_fan2_rpm and write_fan2_duty, which differ only in
        the table they write and in the unit. */
    method WriteTable(base: TableBase, max: u8, highTemp: u8, value: u8) returns (err: int)
      modifies this
      ensures err == if value > max then -EINVAL else 0
      ensures ram == if value > max then old(ram) else WithTable(old(ram), base, Clamped(value, max), highTemp)
    {
      var data := value;
      if data > max {
        return -EINVAL;
      }
      if data <= FAN_ON_MIN_SPEED_PERCENT * max / 2 / 100 {
        data := 0;
      } else if data < FAN_ON_MIN_SPEED_PERCENT * max / 100 {
        data := FAN_ON_MIN_SPEED_PERCENT * max / 100;
      }
      ghost var clamped := data;
      for reg := base to base + 7
        invariant forall a: Address :: ram[a] == if base <= a < reg then clamped else old(ram)[a]
      {
        ram := ram[reg := data];
      }
      if data < highTemp {
        data := highTemp;
      }
      ram := ram[base + 7 := data];
      ram := ram[base + 8 := data];
      return 0;
    }

    method WriteFan1DutyOnereg(value: u8) returns (err: int)
      modifies this
      ensures err == if value > FAN_SET_DUTY_MAX then -EINVAL else 0
      ensures ram == if value > FAN_SET_DUTY_MAX then old(ram) else
                       old(ram)[FAN1_DUTY_ONEREG := Clamped(value, FAN_SET_DUTY_MAX)]
    {
      var data := value;
      if data > FAN_SET_DUTY_MAX {
        return -EINVAL;
      }
      if data <= FAN_ON_MIN_SPEED_PERCENT * FAN_SET_DUTY_MAX / 2 / 100 {
        data := 0;
      } else if data < FAN_ON_MIN_SPEED_PERCENT * FAN_SET_DUTY_MAX / 100 {
        data := FAN_ON_MIN_SPEED_PERCENT * FAN_SET_DUTY_MAX / 100;
      }
      ram := ram[FAN1_DUTY_ONEREG := data];
      return 0;
    }

    /** fan1_pwm_store and fan2_pwm_store. */
    method PwmStore(fan: Fan, pwm: u8) returns (err: int)
      modifies this
      ensures err == 0
      ensures forall a: Address :: ram[a] == AfterPwm(Kind(), fan, pwm, a, old(ram)[a])
    {
      var dutyData, rpmData := FromPwm(pwm, FAN_SET_DUTY_MAX), FromPwm(pwm, FAN_SET_RPM_MAX);
      if fan.Fan1? {
        if onereg {
          err := WriteFan1DutyOnereg(dutyData);
        } else {
          err := WriteTable(FAN1_DUTY, FAN_SET_DUTY_MAX, FAN_SET_DUTY_HIGHTEMP, dutyData);
        }
      } else {
        err := WriteTable(FAN2_DUTY, FAN_SET_DUTY_MAX, FAN_SET_DUTY_HIGHTEMP, dutyData);
      }
      if err != 0 {
        return err;
      }
      if writeRpm {
        err := WriteTable(if fan.Fan1? then FAN1_RPM else FAN2_RPM, FAN_SET_RPM_MAX, FAN_SET_RPM_HIGHTEMP, rpmData);
      }
    }

    /** fan1_pwm_show and fan2_pwm_show. */
    method PwmShow(fan: Fan) returns (pwm: u8)
      ensures pwm == ToPwm(ram[DutyRegister(Kind(), fan)], FAN_SET_DUTY_MAX)
    {
      var duty := if fan.Fan2? then ram[0x0241] else if onereg then ram[0x1809] else ram[0x02c1];
      pwm := duty * 0xff / FAN_SET_DUTY_MAX % 0x100;
    }

    /** fan1_pwm_enable_show and fan2_pwm_enable_show. */
    method EnableShow(fan: Fan) returns (mode: u8)
      ensures mode == EnableShown(Kind(), ram, fan)
    {
      var enabled;
      if fan.Fan2? {
        enabled := ram[0x0240] % 2 == 1;
      } else if onereg {
        enabled := ram[0x02f1] == 0xaa;
      } else {
        enabled := ram[0x02c0] % 2 == 1;
      }
      mode := if enabled then 1 else 2;
    }

    /** fan1_pwm_enable_store and fan2_pwm_enable_store. */
    method EnableStore(fan: Fan, mode: u8)
      modifies this
      ensures forall a: Address :: ram[a] == AfterEnable(Kind(), fan, mode, a, old(ram)[a])
    {
      var enable := mode != 2;
      if fan.Fan2? {
        ram := ram[FAN2_ENABLE := if enable then 1 else 0];
      } else if onereg {
        ram := ram[FAN1_ENABLE_ONEREG := if enable then 0xaa else 0];
      } else {
        ram := ram[FAN1_ENABLE := if enable then 1 else 0];
      }
    }
  }

  // ---------------------------------------------------------------------------------------------
  // Histories
  // ---------------------------------------------------------------------------------------------

  function Perform(m: Model, ram: Ram, r: Request): Ram {
    seq(RAM_SIZE, a requires 0 <= a < RAM_SIZE => CellFor(m, Only(r), a, ram[a]))
  }

  function After(m: Model, ram: Ram, requests: seq<Request>): Ram {
    if requests == [] then ram else Perform(m, After(m, ram, requests[..|requests| - 1]), requests[|requests| - 1])
  }

  lemma LatestCounts(m: Model, w: Wanted, r: Request, a: Address, was: u8)
    ensures CellFor(m, Only(r), a, CellFor(m, w, a, was)) == CellFor(m, NextWanted(w, r), a, was)
  {
  }

  /** After any history of requests to both fans each cell of the memory is what the last requests to its
      own fan say, or what it was. */
  lemma {:induction false} CellsFollowLastRequests(m: Model, ram: Ram, requests: seq<Request>, a: Address)
    ensures After(m, ram, requests)[a] == CellFor(m, LastWanted(requests), a, ram[a])
  {
    if requests != [] {
      var front := requests[..|requests| - 1];
      CellsFollowLastRequests(m, ram, front, a);
      LatestCounts(m, LastWanted(front), requests[|requests| - 1], a, ram[a]);
    }
  }

  predicate AllowedDuty(d: u8) {
    d == 0 || 46 <= d <= FAN_SET_DUTY_MAX
  }

  /** No pwm value gives a duty or rpm in the dead band or above the maximum, and the two units agree on
      whether the fan is off. */
  lemma UnitsAgreeOnOff(pwm: u8)
    ensures AllowedDuty(Duty(pwm))
    ensures Rpm(pwm) == 0 || 13 <= Rpm(pwm) <= FAN_SET_RPM_MAX
    ensures Rpm(pwm) == 0 <==> Duty(pwm) == 0
    ensures Duty(pwm) == 0 <==> pwm <= 33
  {
  }

  /** A written table: seven equal cells, two high-temperature cells that keep the fan on. */
  ghost predicate TableHolds(ram: Ram, base: TableBase, v: u8, highTemp: u8) {
    && (forall a: Address :: base <= a < base + 7 ==> ram[a] == v)
    && ram[base + 7] == ram[base + 8] == Max(v, highTemp)
  }

  lemma TablesFollow(m: Model, ram: Ram, requests: seq<Request>, base: TableBase, v: u8, highTemp: u8)
    requires forall a: Address :: InTable(base, a) ==>
               CellFor(m, LastWanted(requests), a, ram[a]) == TableCell(base, a, v, highTemp)
    ensures TableHolds(After(m, ram, requests), base, v, highTemp)
  {
    forall a: Address | InTable(base, a) ensures After(m, ram, requests)[a] == TableCell(base, a, v, highTemp) {
      CellsFollowLastRequests(m, ram, requests, a);
    }
  }

  /** Both fans' tables after any history, whatever the order in which the fans were set. */
  lemma TablesAfterHistory(m: Model, ram: Ram, requests: seq<Request>)
    requires m.writeRpm ==> !m.onereg
    ensures var after, w := After(m, ram, requests), LastWanted(requests);
            && (w.pwm1.Some? && !m.onereg ==> TableHolds(after, FAN1_DUTY, Duty(w.pwm1.value), FAN_SET_DUTY_HIGHTEMP))
            && (w.pwm1.Some? && m.onereg ==> after[FAN1_DUTY_ONEREG] == Duty(w.pwm1.value))
            && (w.pwm1.Some? && m.writeRpm ==> TableHolds(after, FAN1_RPM, Rpm(w.pwm1.value), FAN_SET_RPM_HIGHTEMP))
            && (w.pwm2.Some? ==> TableHolds(after, FAN2_DUTY, Duty(w.pwm2.value), FAN_SET_DUTY_HIGHTEMP))
            && (w.pwm2.Some? && m.writeRpm ==> TableHolds(after, FAN2_RPM, Rpm(w.pwm2.value), FAN_SET_RPM_HIGHTEMP))
  {
    var w := LastWanted(requests);
    if w.pwm1.Some? {
      if !m.onereg {
        TablesFollow(m, ram, requests, FAN1_DUTY, Duty(w.pwm1.value), FAN_SET_DUTY_HIGHTEMP);
      }
      if m.writeRpm {
        TablesFollow(m, ram, requests, FAN1_RPM, Rpm(w.pwm1.value), FAN_SET_RPM_HIGHTEMP);
      }
      CellsFollowLastRequests(m, ram, requests, FAN1_DUTY_ONEREG);
    }
    if w.pwm2.Some? {
      TablesFollow(m, ram, requests, FAN2_DUTY, Duty(w.pwm2.value), FAN_SET_DUTY_HIGHTEMP);
      if m.writeRpm {
        TablesFollow(m, ram, requests, FAN2_RPM, Rpm(w.pwm2.value), FAN_SET_RPM_HIGHTEMP);
      }
    }
  }

  // ---------------------------------------------------------------------------------------------
  // Round trips
  // ---------------------------------------------------------------------------------------------

  /** Showing a value and storing what was shown never raises it and loses at most one; it loses nothing
      exactly when the shown value was exact. A value above the maximum is shown cut to a byte. */
  lemma RoundTrip(v: u8, max: u8)
    requires 0 < max && v <= max
    ensures var back := FromPwm(ToPwm(v, max), max);
            && v - 1 <= back <= v
            && (back == v <==> v * 0xff % max == 0)
  {
    var q, r := v * 0xff / max, v * 0xff % max;
    QuotientBound(v * 0xff, 0xff, max, v);
    assert q * max == v * 0xff - r;
    assert FromPwm(q, max) == (v * 0xff - r) / 0xff;
  }

  /** Show, then store what was shown, `n` times over. */
  function Cycled(d: u8, n: nat): u8 {
    if n == 0 then d else Duty(ToPwm(Cycled(d, n - 1), FAN_SET_DUTY_MAX))
  }

  lemma ExactDuties(d: u8)
    requires d <= FAN_SET_DUTY_MAX
    ensures d * 0xff % FAN_SET_DUTY_MAX == 0 <==> d == 0 || d == FAN_SET_DUTY_MAX
  {
  }

  lemma OneCycle(d: u8)
    requires AllowedDuty(d)
    ensures Cycled(d, 1) == if d == 0 || d == FAN_SET_DUTY_MAX then d else if d == 46 then 46 else d - 1
  {
    RoundTrip(d, FAN_SET_DUTY_MAX);
    ExactDuties(d);
    assert Cycled(d, 0) == d;
  }

  /** Off and full speed are fixed points. Any other speed creeps down by one per cycle to the slowest
      running speed and stays there: a running fan is never turned off. */
  lemma {:induction false} CyclesCreepDown(d: u8, n: nat)
    requires AllowedDuty(d)
    ensures Cycled(d, n) == if d == 0 || d == FAN_SET_DUTY_MAX then d else if d - n < 46 then 46 else d - n
  {
    if n > 0 {
      CyclesCreepDown(d, n - 1);
      var e := Cycled(d, n - 1);
      OneCycle(e);
      assert Cycled(e, 0) == e;
    }
  }

  /** The same, in the registers. */
  function ShowThenStore(m: Model, ram: Ram, fan: Fan, n: nat): Ram {
    if n == 0 then ram else
      var before := ShowThenStore(m, ram, fan, n - 1);
      Perform(m, before, SetPwm(fan, ToPwm(before[DutyRegister(m, fan)], FAN_SET_DUTY_MAX)))
  }

  lemma {:induction false} RegisterCycles(m: Model, ram: Ram, fan: Fan, n: nat)
    ensures ShowThenStore(m, ram, fan, n)[DutyRegister(m, fan)] == Cycled(ram[DutyRegister(m, fan)], n)
  {
    if n > 0 {
      RegisterCycles(m, ram, fan, n - 1);
    }
  }

  // ---------------------------------------------------------------------------------------------
  // In the controller's terms
  // ---------------------------------------------------------------------------------------------

  /** A pwm value becomes the greatest value that is no greater a part of the maximum; 255 is all of it. */
  lemma PwmIsScaledDown(pwm: u8, max: u8)
    ensures var v := FromPwm(pwm, max); v * 0xff <= pwm * max < (v + 1) * 0xff
    ensures FromPwm(0xff, max) == max && FromPwm(0, max) == 0
  {
  }

  /** Nothing is cut off what is shown of a value up to the maximum. */
  lemma ShownFitsAByte(v: u8, max: u8)
    requires 0 < max && v <= max
    ensures ToPwm(v, max) == v * 0xff / max
  {
    QuotientBound(v * 0xff, 0xff, max, v);
    QuotientIsNat(v * 0xff, max);
    BelowByte(v * 0xff / max);
  }

  lemma QuotientIsNat(n: nat, d: nat)
    requires d > 0
    ensures n / d >= 0
  {
  }

  lemma BelowByte(q: int)
    requires 0 <= q <= 0xff
    ensures q % 0x100 == q
  {
  }

  /** And what is shown is the greatest pwm value that is no greater a part. */
  lemma ShownIsScaledDown(v: u8, max: u8, p: nat)
    requires 0 < max && v <= max && p == ToPwm(v, max)
    ensures p * max <= v * 0xff < (p + 1) * max
  {
    ShownFitsAByte(v, max);
    Quotient(v * 0xff, max);
  }

  lemma Quotient(n: nat, d: nat)
    requires d > 0
    ensures n / d * d <= n < (n / d + 1) * d
  {
  }

  /** The dead bands, in the units of the registers. */
  lemma DeadBands(v: u8)
    ensures Clamped(v, 184) == if v <= 23 then 0 else if v <= 45 then 46 else v
    ensures Clamped(v, 54) == if v <= 6 then 0 else if v <= 12 then 13 else v
  {
  }

  /** The rpm tables are written unless both firmware numbers have reached 9 and 10, so that version 10.2 still
      counts as an old one; never with a single register. */
  lemma RpmIsWrittenExactly(onereg: bool, major: u8, minor: u8)
    ensures ModelOf(onereg, major, minor).onereg == onereg
    ensures ModelOf(onereg, major, minor).writeRpm <==> !onereg && (major < 9 || minor < 10)
  {
  }

  /** The pwm value last stored for a fan, told without the registers. */
  function LastPwm(requests: seq<Request>, fan: Fan): Option<u8> {
    if requests == [] then None
    else
      var r := requests[|requests| - 1];
      if r.SetPwm? && r.fan == fan then Some(r.pwm) else LastPwm(requests[..|requests| - 1], fan)
  }

  lemma {:induction false} WantedIsLastPwm(requests: seq<Request>)
    ensures LastWanted(requests).pwm1 == LastPwm(requests, Fan1)
    ensures LastWanted(requests).pwm2 == LastPwm(requests, Fan2)
  {
    if requests != [] {
      WantedIsLastPwm(requests[..|requests| - 1]);
    }
  }

  /** The registers of fan 1 after every history. The high-temperature cells are at least as fast as the
      others, at least as fast as 51 (15 in rpm), and no faster than they need to be. */
  lemma Fan1Registers(m: Model, ram: Ram, requests: seq<Request>, p: u8, i: nat)
    requires (m.writeRpm ==> !m.onereg) && LastPwm(requests, Fan1) == Some(p) && i < 7
    ensures var after := After(m, ram, requests);
            && (m.onereg ==> after[0x1809] == Duty(p))
            && (!m.onereg ==>
                  && after[0x02c1 + i] == Duty(p) && after[0x02c8] == after[0x02c9]
                  && after[0x02c8] >= after[0x02c1 + i] && after[0x02c8] >= 51
                  && (after[0x02c8] == after[0x02c1 + i] || after[0x02c8] == 51))
            && (m.writeRpm ==>
                  && after[0x02d0 + i] == Rpm(p) && after[0x02d7] == after[0x02d8]
                  && after[0x02d7] >= after[0x02d0 + i] && after[0x02d7] >= 15
                  && (after[0x02d7] == after[0x02d0 + i] || after[0x02d7] == 15))
  {
    WantedIsLastPwm(requests);
    var w := LastWanted(requests);
    CellsFollowLastRequests(m, ram, requests, 0x1809);
    CellsFollowLastRequests(m, ram, requests, 0x02c1 + i);
    CellsFollowLastRequests(m, ram, requests, 0x02c8);
    CellsFollowLastRequests(m, ram, requests, 0x02c9);
    CellsFollowLastRequests(m, ram, requests, 0x02d0 + i);
    CellsFollowLastRequests(m, ram, requests, 0x02d7);
    CellsFollowLastRequests(m, ram, requests, 0x02d8);
  }

  /** The registers of fan 2 after every history. */
  lemma Fan2Registers(m: Model, ram: Ram, requests: seq<Request>, p: u8, i: nat)
    requires (m.writeRpm ==> !m.onereg) && LastPwm(requests, Fan2) == Some(p) && i < 7
    ensures var after := After(m, ram, requests);
            && after[0x0241 + i] == Duty(p) && after[0x0248] == after[0x0249]
            && after[0x0248] >= after[0x0241 + i] && after[0x0248] >= 51
            && (after[0x0248] == after[0x0241 + i] || after[0x0248] == 51)
            && (m.writeRpm ==>
                  && after[0x0250 + i] == Rpm(p) && after[0x0257] == after[0x0258]
                  && after[0x0257] >= after[0x0250 + i] && after[0x0257] >= 15
                  && (after[0x0257] == after[0x0250 + i] || after[0x0257] == 15))
  {
    WantedIsLastPwm(requests);
    CellsFollowLastRequests(m, ram, requests, 0x0241 + i);
    CellsFollowLastRequests(m, ram, requests, 0x0248);
    CellsFollowLastRequests(m, ram, requests, 0x0249);
    CellsFollowLastRequests(m, ram, requests, 0x0250 + i);
    CellsFollowLastRequests(m, ram, requests, 0x0257);
    CellsFollowLastRequests(m, ram, requests, 0x0258);
  }

  /** A history that never stores a pwm value for a fan leaves that fan's speed registers alone, and no
      history touches a cell that belongs to neither. */
  lemma UntouchedRegisters(m: Model, ram: Ram, requests: seq<Request>, a: Address)
    ensures LastPwm(requests, Fan1).None? && (0x02c1 <= a <= 0x02c9 || 0x02d0 <= a <= 0x02d8 || a == 0x1809) ==>
              After(m, ram, requests)[a] == ram[a]
    ensures LastPwm(requests, Fan2).None? && (0x0241 <= a <= 0x0249 || 0x0250 <= a <= 0x0258) ==>
              After(m, ram, requests)[a] == ram[a]
    ensures a < 0x0240 || 0x0249 < a < 0x0250 || 0x0258 < a < 0x02c0 || 0x02c9 < a < 0x02d0 ==>
              After(m, ram, requests)[a] == ram[a]
    ensures 0x02d8 < a && a != 0x02f1 && a != 0x1809 ==> After(m, ram, requests)[a] == ram[a]
  {
    WantedIsLastPwm(requests);
    CellsFollowLastRequests(m, ram, requests, a);
  }

  /** Storing an enable mode and showing it gives automatic for automatic and manual for everything else; the
      other fan's mode and all speeds are as before. */
  lemma EnableReadsBack(m: Model, ram: Ram, fan: Fan, mode: u8, other: Fan, a: Address)
    requires other != fan
    ensures var after := Perform(m, ram, SetEnable(fan, mode));
            && EnableShown(m, after, fan) == (if mode == 2 then 2 else 1)
            && EnableShown(m, after, other) == EnableShown(m, ram, other)
            && (a != 0x0240 && a != 0x02c0 && a != 0x02f1 ==> after[a] == ram[a])
  {
    var after := Perform(m, ram, SetEnable(fan, mode));
    assert after[FAN2_ENABLE] == CellFor(m, Only(SetEnable(fan, mode)), FAN2_ENABLE, ram[FAN2_ENABLE]);
    assert after[FAN1_ENABLE] == CellFor(m, Only(SetEnable(fan, mode)), FAN1_ENABLE, ram[FAN1_ENABLE]);
    assert after[FAN1_ENABLE_ONEREG] ==
           CellFor(m, Only(SetEnable(fan, mode)), FAN1_ENABLE_ONEREG, ram[FAN1_ENABLE_ONEREG]);
  }

  /** What is shown as manual, in the registers: on a device with a single register exactly what a manual store
      would leave as it is, otherwise an odd byte. */
  lemma ShownAsManual(m: Model, ram: Ram, v: u8)
    ensures EnableShown(m, ram[0x0240 := v], Fan2) == 2 - v % 2
    ensures !m.onereg ==> EnableShown(m, ram[0x02c0 := v], Fan1) == 2 - v % 2
    ensures m.onereg ==> (EnableShown(m, ram, Fan1) == 1 <==> Perform(m, ram, SetEnable(Fan1, 1)) == ram)
  {
    var after := Perform(m, ram, SetEnable(Fan1, 1));
    assert after[FAN1_ENABLE_ONEREG] ==
           CellFor(m, Only(SetEnable(Fan1, 1)), FAN1_ENABLE_ONEREG, ram[FAN1_ENABLE_ONEREG]);
    if m.onereg && ram[FAN1_ENABLE_ONEREG] == 0xaa {
      forall a: Address ensures after[a] == ram[a] {
        assert after[a] == CellFor(m, Only(SetEnable(Fan1, 1)), a, ram[a]);
      }
    }
  }

  /** A show after any history gives the pwm value last stored for the fan, clamped and scaled down. */
  lemma ShownFollowsRequests(m: Model, ram: Ram, requests: seq<Request>, fan: Fan, p: u8)
    requires (m.writeRpm ==> !m.onereg) && LastPwm(requests, fan) == Some(p)
    ensures var shown := ToPwm(After(m, ram, requests)[DutyRegister(m, fan)], FAN_SET_DUTY_MAX);
            shown * 184 <= Duty(p) * 0xff < (shown + 1) * 184
  {
    WantedIsLastPwm(requests);
    CellsFollowLastRequests(m, ram, requests, DutyRegister(m, fan));
    ShownIsScaledDown(Duty(p), FAN_SET_DUTY_MAX, ToPwm(Duty(p), FAN_SET_DUTY_MAX));
  }
}
