/** The statements of Uniwill fan control, one EC write at a time, proved against UniwillFan.dfy.

    `trace` records the EC memory after every single write. On a universal device every memory in it is
    Safe: the custom table is never enabled before all of it is staged. The EC is reliable here, so that
    a write with retries is one write (RomId.dfy models the unreliable one). */
module UniwillFanDriver {
  import opened Common
  import opened UniwillRam
  import opened UniwillFan

  function Resumed(f: Fan): Fan {
    if f.saved.Kept?
    then UniwillFan.SetFan(UniwillFan.SetFan(f.(saved := NotSuspended), 0, f.saved.speeds.fan0), 1, f.saved.speeds.fan1)
    else f
  }

  /** It is the two resume actions of the histories, if nothing comes between them. */
  lemma ResumedIsBothCalls(f: Fan)
    ensures var n := Perform(Machine(f, Asleep), ResumeFan0);
            Resumed(f) == if n.phase.Resuming? then Perform(n, ResumeFan1).fan else n.fan
  {
  }

  function Prepared(ram: Ram): Ram {
    ram[MODE := ram[MODE] & !FULL_FAN][SEPARATE := ram[SEPARATE] | SEPARATE_BIT]
  }

  function TablesLeft(ram: Ram): Ram {
    ram[CUSTOM_TABLE := ram[CUSTOM_TABLE] & !CUSTOM_TABLE_BIT][SEPARATE := ram[SEPARATE] & !SEPARATE_BIT]
  }

  /** The writes of one zone, in the driver's order. */
  function WithZone(ram: Ram, i: nat): Ram
    requires i < 0x10
  {
    ram[0x0f00 + i := ZoneByte(0, i)][0x0f10 + i := ZoneByte(1, i)][CPU_SPEED + i := ZoneByte(2, i)]
       [0x0f30 + i := ZoneByte(3, i)][0x0f40 + i := ZoneByte(4, i)][GPU_SPEED + i := ZoneByte(5, i)]
  }

  /** Zones below `n` hold their table bytes; every other cell is as `before`. */
  ghost predicate ZonesWritten(before: Ram, ram: Ram, n: nat) {
    forall a: int :: 0 <= a < RAM_SIZE ==> ram[a] == if InTable(a) && Zone(a) < n then TableByte(a) else before[a]
  }

  lemma ZoneCell(i: nat, column: nat)
    requires i < 0x10 && column < 6
    ensures var a := 0x0f00 + 0x10 * column + i; InTable(a) && Zone(a) == i && Column(a) == column
  {
  }

  lemma ZoneMembers(a: int)
    requires InTable(a)
    ensures 0 <= Column(a) < 6 && a == 0x0f00 + 0x10 * Column(a) + Zone(a)
  {
  }

  lemma OutsideZone(i: nat, a: int)
    requires i < 0x10 && !(InTable(a) && Zone(a) == i)
    ensures a !in [0x0f00 + i, 0x0f10 + i, 0x0f20 + i, 0x0f30 + i, 0x0f40 + i, 0x0f50 + i]
  {
    ZoneCell(i, 0);
    ZoneCell(i, 1);
    ZoneCell(i, 2);
    ZoneCell(i, 3);
    ZoneCell(i, 4);
    ZoneCell(i, 5);
  }

  lemma ZoneColumn(ram: Ram, i: nat, column: nat)
    requires i < 0x10 && column < 6
    ensures var a := 0x0f00 + 0x10 * column + i;
            InTable(a) && WithZone(ram, i)[a] == TableByte(a)
  {
    ZoneCell(i, column);
  }

  lemma CellWritten(ram: Ram, i: nat, a: int)
    requires i < 0x10 && 0 <= a < RAM_SIZE
    ensures WithZone(ram, i)[a] == if InTable(a) && Zone(a) == i then TableByte(a) else ram[a]
  {
    if InTable(a) && Zone(a) == i {
      ZoneMembers(a);
      ZoneColumn(ram, i, Column(a));
    } else {
      OutsideZone(i, a);
    }
  }

  lemma ZoneWritten(before: Ram, ram: Ram, i: nat)
    requires i < 0x10 && ZonesWritten(before, ram, i)
    ensures ZonesWritten(before, WithZone(ram, i), i + 1)
  {
    forall a: int | 0 <= a < RAM_SIZE
      ensures WithZone(ram, i)[a] == if InTable(a) && Zone(a) < i + 1 then TableByte(a) else before[a]
    {
      CellWritten(ram, i, a);
    }
  }

  /** Adding a bit that is clear, as the driver does, sets it; setting one that is set changes nothing. */
  lemma AddIsSet(b: Byte, bit: Byte)
    requires bit == SEPARATE_BIT || bit == CUSTOM_TABLE_BIT
    ensures b & bit == 0 ==> b + bit == b | bit
    ensures b & bit != 0 ==> b == b | bit
    ensures b & bit == 0 ==> (b | bit) - bit == b
    ensures b & bit != 0 ==> b - bit == b & !bit
  {
  }

  /** When all zones are written, setting the enable bit makes the memory exactly the staged one, whose
      table is complete. */
  lemma EnablingStagesAll(start: Ram, before: Ram, ram: Ram)
    requires before == Prepared(start)
    requires ZonesWritten(before, ram, 0x10)
    ensures ram[CUSTOM_TABLE := ram[CUSTOM_TABLE] | CUSTOM_TABLE_BIT] == Staged(start)
    ensures Safe(Staged(start))
  {
    var after := ram[CUSTOM_TABLE := ram[CUSTOM_TABLE] | CUSTOM_TABLE_BIT];
    forall a: int | 0 <= a < RAM_SIZE ensures after[a] == Staged(start)[a] {
      assert Staged(start)[a] == StagedCell(start, a);
    }
    StagedIsComplete(start);
  }

  lemma ClearBits(b: Byte, bit: Byte)
    requires bit == SEPARATE_BIT || bit == CUSTOM_TABLE_BIT
    ensures b & bit == 0 ==> b & !bit == b
    ensures (b & !bit) & bit == 0
  {
  }

  lemma SpeedCellIsSafe(ram: Ram, a: Address, speed: Byte)
    requires Safe(ram) && AllowedSpeed(speed) && (a == CPU_SPEED || a == GPU_SPEED)
    ensures Safe(ram[a := speed])
  {
  }

  // ---------------------------------------------------------------------------------------------
  // The driver
  // ---------------------------------------------------------------------------------------------

  class FanDriver {
    const universal: bool
    var ram: Ram
    var fansInitialized: bool
    var started: bool
    var work: Work
    var current0: Byte
    var current1: Byte
    var suspendFlag: bool
    var save0: Byte
    var save1: Byte
    ghost var trace: seq<Ram>

    ghost function State(): Fan
      reads this
    {
      Fan(universal, ram, fansInitialized, started, work, Speeds(current0, current1),
          if suspendFlag then Kept(Speeds(save0, save1)) else NotSuspended)
    }

    /** On universal devices the memory is safe now and was after every write so far. */
    ghost predicate TraceSafe()
      reads this
    {
      universal ==> Safe(ram) && forall k :: 0 <= k < |trace| ==> Safe(trace[k])
    }

    ghost predicate StagingSafe()
      reads this
    {
      TraceSafe() && !TableEnabled(ram)
    }

    /** Between calls, the table is not enabled before it was staged. */
    ghost predicate Valid()
      reads this
    {
      TraceSafe() && (universal && !fansInitialized ==> !TableEnabled(ram))
    }

    constructor (universal: bool, ram: Ram)
      ensures Initial(Machine(State(), Awake))
      ensures (universal ==> !TableEnabled(ram)) ==> Valid()
      ensures this.universal == universal && this.ram == ram && trace == []
    {
      this.universal := universal;
      this.ram := ram;
      fansInitialized, started, work := false, false, Unscheduled;
      current0, current1, suspendFlag, save0, save1 := 0, 0, false, 0, 0;
      trace := [];
    }

    method WriteEc(a: Address, b: Byte)
      modifies this`ram, this`trace
      ensures ram == old(ram)[a := b] && trace == old(trace) + [ram]
      ensures old(TraceSafe()) && (universal ==> Safe(ram)) ==> TraceSafe()
    {
      ram := ram[a := b];
      trace := trace + [ram];
    }

    /** A write to a cell that is neither in the table nor its enable byte. */
    method WriteOther(a: Address, b: Byte)
      requires !InTable(a) && a != CUSTOM_TABLE
      modifies this`ram, this`trace
      ensures ram == old(ram)[a := b] && trace == old(trace) + [ram]
      ensures old(TraceSafe()) ==> TraceSafe()
    {
      WriteEc(a, b);
    }

    /** A write of a table cell; it is safe while the table is disabled. */
    method WriteCell(a: Address, b: Byte)
      requires a != CUSTOM_TABLE
      modifies this`ram, this`trace
      ensures ram == old(ram)[a := b] && trace == old(trace) + [ram]
      ensures old(StagingSafe()) ==> StagingSafe()
    {
      assert TableEnabled(ram[a := b]) == TableEnabled(ram);
      WriteEc(a, b);
    }

    method SetFullFanMode(enable: bool)
      modifies this`ram, this`trace
      ensures old(TraceSafe()) ==> TraceSafe()
      ensures ram == WithFullFan(old(ram), enable)
    {
      var modeData := ram[MODE];
      if enable && modeData & FULL_FAN == 0 {
        WriteOther(MODE, modeData | FULL_FAN);
      } else if modeData & FULL_FAN != 0 {
        WriteOther(MODE, modeData & !FULL_FAN);
      }
    }

    /** The six cells of one zone, while the table is disabled. */
    method WriteZone(i: nat)
      requires i < 0x10
      modifies this`ram, this`trace
      ensures old(StagingSafe()) ==> StagingSafe()
      ensures ram == WithZone(old(ram), i)
    {
      WriteCell(0x0f00 + i, if i == 0 then 115 else Truncated(116 + i));
      WriteCell(0x0f10 + i, if i == 0 then 0 else Truncated(115 + i));
      WriteCell(CPU_SPEED + i, if i == 0 then 0x01 else 0xc8);
      WriteCell(0x0f30 + i, if i == 0 then 120 else Truncated(116 + i));
      WriteCell(0x0f40 + i, if i == 0 then 0 else Truncated(115 + i));
      WriteCell(GPU_SPEED + i, if i == 0 then 0x01 else 0xc8);
    }

    /** All sixteen zones of both tables, while they are disabled. */
    method StageZones()
      modifies this`ram, this`trace
      ensures old(StagingSafe()) ==> StagingSafe()
      ensures ZonesWritten(old(ram), ram, 0x10)
    {
      ghost var before := ram;
      ZoneWritten(before, ram, 0);
      WriteZone(0);
      for i := 1 to 0x10
        invariant old(StagingSafe()) ==> StagingSafe()
        invariant ZonesWritten(before, ram, i)
      {
        ZoneWritten(before, ram, i);
        WriteZone(i);
      }
    }

    method SeparateTables()
      modifies this`ram, this`trace
      ensures old(TraceSafe()) ==> TraceSafe()
      ensures ram == old(ram)[SEPARATE := old(ram)[SEPARATE] | SEPARATE_BIT]
    {
      var separate := ram[SEPARATE];
      AddIsSet(separate, SEPARATE_BIT);
      if separate & SEPARATE_BIT == 0 {
        WriteOther(SEPARATE, separate + SEPARATE_BIT);
      }
    }

    /** Leave full-fan mode and separate the tables. */
    method PrepareTables()
      modifies this`ram, this`trace
      ensures old(TraceSafe()) ==> TraceSafe()
      ensures ram == Prepared(old(ram))
    {
      SetFullFanMode(false);
      SeparateTables();
      ClearThenSet(old(ram)[MODE]);
    }

    /** The body of initialisation: stage all zones, only then enable the tables. */
    method StageAndEnable()
      modifies this`ram, this`trace
      ensures old(StagingSafe()) ==> TraceSafe()
      ensures ram == Staged(old(ram))
    {
      PrepareTables();
      ghost var before := ram;
      StageZones();
      var enable := ram[CUSTOM_TABLE];
      EnablingStagesAll(old(ram), before, ram);
      AddIsSet(enable, CUSTOM_TABLE_BIT);
      if enable & CUSTOM_TABLE_BIT == 0 {
        WriteEc(CUSTOM_TABLE, enable + CUSTOM_TABLE_BIT);
      }
    }

    method InitFan()
      modifies this`ram, this`trace, this`fansInitialized
      ensures old(Valid()) ==> Valid()
      ensures State() == UniwillFan.InitFan(old(State()))
    {
      if !fansInitialized && universal {
        StageAndEnable();
      }
      fansInitialized := true;
    }

    /** The restart work: toggle full-fan mode, then write both speeds ten times before the ramp-up. */
    method RestartDirectFanControl()
      requires !universal
      modifies this`ram, this`trace, this`work
      ensures old(Valid()) ==> Valid()
      ensures State() == RestartWork(old(State()))
    {
      SetFullFanMode(false);
      SetFullFanMode(true);
      ghost var toggled := ram;
      for i := 0 to 10
        invariant old(TraceSafe()) ==> TraceSafe()
        invariant ram == if i == 0 then toggled else toggled[FAN0 := current0][FAN1 := current1]
      {
        WriteOther(FAN0, current0);
        WriteOther(FAN1, current1);
        assert ram == toggled[FAN0 := current0][FAN1 := current1];
      }
      work := Later;
    }

    method DirectFanControl(fanIndex: nat, fanSpeed: Byte, preventRampup: bool) returns (result: int)
      modifies this`ram, this`trace, this`current0, this`current1, this`started, this`work
      ensures old(Valid()) ==> Valid()
      ensures State() == DirectFan(old(State()), fanIndex, fanSpeed, preventRampup)
      ensures result == if fanIndex > 1 then -EINVAL else 0
    {
      var addr;
      if fanIndex == 0 {
        addr := FAN0;
        current0 := fanSpeed;
      } else if fanIndex == 1 {
        addr := FAN1;
        current1 := fanSpeed;
      } else {
        return -EINVAL;
      }
      if preventRampup && !started {
        started := true;
        work := Immediate;
      } else {
        WriteOther(addr, fanSpeed);
      }
      return 0;
    }

    /** The table's speed cell, then the fan register. */
    method WriteSpeed(addr: Address, fanIndex: nat, fanSpeed: Byte)
      requires (addr == CPU_SPEED || addr == GPU_SPEED) && AllowedSpeed(fanSpeed)
      modifies this`ram, this`trace, this`started, this`work, this`current0, this`current1
      ensures old(Valid()) ==> Valid()
      ensures State() == DirectFan(old(State()).(ram := old(ram)[addr := fanSpeed]), fanIndex, fanSpeed, false)
    {
      if Safe(ram) {
        SpeedCellIsSafe(ram, addr, fanSpeed);
      }
      WriteEc(addr, fanSpeed);
      var _ := DirectFanControl(fanIndex, fanSpeed, false);
    }

    method SetFan(fanIndex: nat, speed: Byte) returns (result: int)
      modifies this`ram, this`trace, this`fansInitialized, this`started, this`work, this`current0, this`current1
      ensures old(Valid()) ==> Valid()
      ensures State() == UniwillFan.SetFan(old(State()), fanIndex, speed)
      ensures result ==
              if universal && old(ram)[MODE] & FULL_FAN == 0 && (fanIndex > 1 || speed > FAN_SPEED_MAX) then -EINVAL
              else 0
    {
      var fanSpeed := speed;
      if universal {
        if ram[MODE] & FULL_FAN == 0 {
          InitFan();
          var addr;
          if fanIndex == 0 {
            addr := CPU_SPEED;
          } else if fanIndex == 1 {
            addr := GPU_SPEED;
          } else {
            return -EINVAL;
          }
          if fanSpeed > FAN_SPEED_MAX {
            return -EINVAL;
          }
          if fanSpeed < FAN_OFF_BELOW {
            fanSpeed := 0;
          } else if fanSpeed < FAN_ON_MIN {
            fanSpeed := FAN_ON_MIN;
          }
          if fanSpeed == 0 {
            fanSpeed := 1;
          }
          WriteSpeed(addr, fanIndex, fanSpeed);
        }
      } else {
        var _ := DirectFanControl(fanIndex, fanSpeed, true);
      }
      return 0;
    }

    method DisableTable()
      modifies this`ram, this`trace
      ensures old(TraceSafe()) ==> TraceSafe()
      ensures !TableEnabled(ram)
      ensures ram == old(ram)[CUSTOM_TABLE := old(ram)[CUSTOM_TABLE] & !CUSTOM_TABLE_BIT]
      ensures TableEnabled(old(ram)) ==> trace == old(trace) + [ram]
    {
      var enable := ram[CUSTOM_TABLE];
      AddIsSet(enable, CUSTOM_TABLE_BIT);
      ClearBits(enable, CUSTOM_TABLE_BIT);
      if enable & CUSTOM_TABLE_BIT != 0 {
        assert !TableEnabled(ram[CUSTOM_TABLE := enable - CUSTOM_TABLE_BIT]);
        WriteEc(CUSTOM_TABLE, enable - CUSTOM_TABLE_BIT);
      }
    }

    method JoinTables()
      modifies this`ram, this`trace
      ensures old(TraceSafe()) ==> TraceSafe()
      ensures ram == old(ram)[SEPARATE := old(ram)[SEPARATE] & !SEPARATE_BIT]
      ensures old(trace) <= trace
    {
      var separate := ram[SEPARATE];
      AddIsSet(separate, SEPARATE_BIT);
      ClearBits(separate, SEPARATE_BIT);
      if separate & SEPARATE_BIT != 0 {
        WriteOther(SEPARATE, separate - SEPARATE_BIT);
      }
    }

    /** Disable the tables, before anything else if they are enabled. */
    method LeaveTables()
      modifies this`ram, this`trace
      ensures old(TraceSafe()) ==> TraceSafe()
      ensures !TableEnabled(ram) && ram == TablesLeft(old(ram))
      ensures TableEnabled(old(ram)) ==>
        old(trace) + [old(ram)[CUSTOM_TABLE := old(ram)[CUSTOM_TABLE] & !CUSTOM_TABLE_BIT]] <= trace
    {
      DisableTable();
      JoinTables();
    }

    method AutoOnUniversal()
      requires universal
      modifies this`ram, this`trace, this`fansInitialized, this`current0, this`current1
      ensures old(Valid()) ==> Valid()
      ensures State() == SetAuto(old(State()))
      ensures TableEnabled(old(ram)) ==>
        old(trace) + [old(ram)[CUSTOM_TABLE := old(ram)[CUSTOM_TABLE] & !CUSTOM_TABLE_BIT]] <= trace
    {
      LeaveTables();
      fansInitialized := false;
      current0 := 0;
      current1 := 0;
    }

    method AutoOnOlder()
      requires !universal
      modifies this`ram, this`trace, this`started, this`work, this`current0, this`current1
      ensures old(Valid()) ==> Valid()
      ensures State() == SetAuto(old(State()))
    {
      work := Unscheduled;
      started := false;
      WriteOther(MODE, ram[MODE] & 0xbf);
      current0 := 0;
      current1 := 0;
    }

    /** Its statements are those of the two methods above. An enabled table is disabled by the very first
        write. */
    method SetFanAuto()
      modifies this`ram, this`trace, this`fansInitialized, this`started, this`work, this`current0, this`current1
      ensures old(Valid()) ==> Valid()
      ensures State() == SetAuto(old(State()))
      ensures universal && TableEnabled(old(ram)) ==>
        old(trace) + [old(ram)[CUSTOM_TABLE := old(ram)[CUSTOM_TABLE] & !CUSTOM_TABLE_BIT]] <= trace
    {
      if universal {
        AutoOnUniversal();
      } else {
        AutoOnOlder();
      }
    }

    /** The fan part of suspend. */
    method SuspendFans()
      modifies this
      ensures old(Valid()) ==> Valid()
      ensures State() == SuspendFan(old(State()))
    {
      if started {
        suspendFlag := true;
        save0 := current0;
        save1 := current1;
        SetFanAuto();
      }
    }

    /** The fan part of resume, if nothing comes between its two calls. */
    method ResumeFans()
      modifies this
      ensures old(Valid()) ==> Valid()
      ensures State() == Resumed(old(State()))
    {
      if suspendFlag {
        suspendFlag := false;
        ghost var woken := State();
        var _ := SetFan(0, save0);
        ghost var half := State();
        assert half == UniwillFan.SetFan(woken, 0, save0);
        var _ := SetFan(1, save1);
        assert State() == UniwillFan.SetFan(half, 1, save1);
      }
    }
  }
}
