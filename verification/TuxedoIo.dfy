/** Power-profile selection and TDP limits as the tuxedo_io module sets them in EC registers. */
module TuxedoIo {
  import opened Common
  import opened UniwillRam

  const EIO := 5
  const EINVAL := 22
  const ENODEV := 19

  const TDP_BASE: Address := 0x0783

  type Table = t: seq<int> | |t| == 3 witness [0, 0, 0]

  /** The limit tables of a device; a device that is not in the list has none. */
  datatype Limits = Unknown | Known(min: Table, max: Table)

  /** `doublePl4`: the third limit is stored in steps of two. `customMode`: the device needs the
      "overboost" profile before its TDP can be set. */
  datatype Device = Device(limits: Limits, doublePl4: bool, customMode: bool)

  function TdpMin(d: Device, index: nat): int {
    if index > 2 then -EINVAL
    else if d.limits.Unknown? || d.limits.min[index] <= 0 then -ENODEV
    else d.limits.min[index]
  }

  function TdpMax(d: Device, index: nat): int {
    if index > 2 then -EINVAL
    else if d.limits.Unknown? || d.limits.max[index] <= 0 then -ENODEV
    else d.limits.max[index]
  }

  predicate Doubled(d: Device, index: nat) {
    index == 2 && d.doublePl4
  }

  function TdpOf(d: Device, ram: Ram, index: nat): int {
    if TdpMin(d, index) < 0 then TdpMin(d, index)
    else Value(ram[TDP_BASE + index]) * (if Doubled(d, index) then 2 else 1)
  }

  /** The request names a supported limit and lies within its range. */
  predicate Accepted(d: Device, index: nat, value: int) {
    0 < TdpMin(d, index) <= value <= TdpMax(d, index)
  }

  function WithProfile(ram: Ram, profile: nat): Ram {
    if 1 <= profile <= 3 then ram[MODE := (ram[MODE] & !PROFILE_BITS) | ProfileBits(profile)] else ram
  }

  function WithTdp(d: Device, ram: Ram, index: nat, value: int): Ram {
    var r := if d.customMode then WithProfile(ram, 3) else ram;
    if Accepted(d, index, value)
    then r[TDP_BASE + index := Truncated(if Doubled(d, index) then value / 2 else value)]
    else r
  }

  /** How the read and the write of a profile selection go. A read that fails still delivers some byte,
      0xfe from a direct access that timed out; a write that fails may have taken effect. */
  datatype Access = Access(readOk: bool, delivered: Byte, writeOk: bool, takesAnyway: bool)

  predicate Works(io: Access) {
    io.readOk && io.writeOk
  }

  function SeenBy(ram: Ram, io: Access): Byte {
    if io.readOk then ram[MODE] else io.delivered
  }

  function WithProfileVia(ram: Ram, profile: nat, io: Access): Ram {
    if 1 <= profile <= 3 && (io.writeOk || io.takesAnyway)
    then ram[MODE := (SeenBy(ram, io) & !PROFILE_BITS) | ProfileBits(profile)]
    else ram
  }

  function WithTdpVia(d: Device, ram: Ram, index: nat, value: int, io: Access, takes: bool): Ram {
    var r := if d.customMode then WithProfileVia(ram, 3, io) else ram;
    if takes && Accepted(d, index, value)
    then r[TDP_BASE + index := Truncated(if Doubled(d, index) then value / 2 else value)]
    else r
  }

  class IoInterface {
    var ram: Ram
    const device: Device

    method GetTdp(index: nat, readOk: bool) returns (result: int)
      ensures result == if TdpMin(device, index) < 0 || readOk then TdpOf(device, ram, index) else -EIO
    {
      var minStatus := TdpMin(device, index);
      if minStatus < 0 {
        return minStatus;
      }
      if !readOk {
        return -EIO;
      }
      var data := ram[TDP_BASE + index];
      if index == 2 && device.doublePl4 {
        result := Value(data) * 2;
      } else {
        result := Value(data);
      }
    }

    /** The status of the read is kept unsigned, so that the test for an error never fails. */
    method SetPerformanceProfileV1(profile: nat, io: Access) returns (result: int)
      modifies this
      ensures ram == WithProfileVia(old(ram), profile, io)
      ensures result == if 1 <= profile <= 3 then (if io.writeOk then 0 else -EIO) else -EINVAL
    {
      var next := SeenBy(ram, io) & !(0xa0 | 0x10);
      match profile {
        case 1 => next := next | 0xa0;
        case 2 => next := next | 0x00;
        case 3 => next := next | 0x10;
        case _ => return -EINVAL;
      }
      if io.writeOk || io.takesAnyway {
        ram := ram[MODE := next];
      }
      return if io.writeOk then 0 else -EIO;
    }

    /** Nobody looks at the status of the final write, which may or may not take effect. */
    method SetTdp(index: nat, value: int, io: Access, takes: bool) returns (result: int)
      modifies this
      ensures ram == WithTdpVia(device, old(ram), index, value, io, takes)
      ensures result == 0 <==> Accepted(device, index, value)
      ensures result == if TdpMin(device, index) < 0 then TdpMin(device, index)
                        else if Accepted(device, index, value) then 0 else -EINVAL
    {
      if device.customMode {
        var _ := SetPerformanceProfileV1(3, io);
      }
      var minStatus := TdpMin(device, index);
      if minStatus < 0 {
        return minStatus;
      }
      var low, high := TdpMin(device, index), TdpMax(device, index);
      if value < low || value > high {
        return -EINVAL;
      }
      var data := if index == 2 && device.doublePl4 then Truncated(value / 2) else Truncated(value);
      if takes {
        ram := ram[TDP_BASE + index := data];
      }
      return 0;
    }
  }

  /** With accesses that work the calls are those of the fan histories. */
  lemma WorkingCalls(d: Device, ram: Ram, profile: nat, index: nat, value: int, io: Access)
    requires Works(io)
    ensures WithProfileVia(ram, profile, io) == WithProfile(ram, profile)
    ensures WithTdpVia(d, ram, index, value, io, true) == WithTdp(d, ram, index, value)
  {
  }

  /** A selection that stores anything leaves the bits outside the profile alone exactly if what it read,
      or was given instead, agrees with the register there; a failed direct read gives them as 0x4e. */
  lemma SelectionSpoilsExactly(ram: Ram, profile: nat, io: Access)
    requires 1 <= profile <= 3 && (io.writeOk || io.takesAnyway)
    ensures var after := WithProfileVia(ram, profile, io);
            && (after[MODE] & !PROFILE_BITS == ram[MODE] & !PROFILE_BITS <==>
                io.readOk || io.delivered & !PROFILE_BITS == ram[MODE] & !PROFILE_BITS)
            && (!io.readOk && io.delivered == 0xfe ==> after[MODE] == 0x4e | ProfileBits(profile))
  {
    OtherBitsAreTaken(SeenBy(ram, io), ProfileBits(profile));
  }

  lemma OtherBitsAreTaken(seen: Byte, bits: Byte)
    requires bits & !PROFILE_BITS == 0
    ensures ((seen & !PROFILE_BITS) | bits) & !PROFILE_BITS == seen & !PROFILE_BITS
    ensures seen == 0xfe ==> (seen & !PROFILE_BITS) | bits == 0x4e | bits
  {
  }

  /** What the register keeps of an accepted value. */
  function Kept(d: Device, index: nat, value: int): int {
    if Doubled(d, index) then value / 2 % 0x100 * 2 else value % 0x100
  }

  lemma ReadBack(d: Device, ram: Ram, index: nat, value: int)
    requires Accepted(d, index, value)
    ensures TdpOf(d, WithTdp(d, ram, index, value), index) == Kept(d, index, value)
  {
    var stored := if Doubled(d, index) then value / 2 else value;
    TruncatedValue(stored);
    assert WithTdp(d, ram, index, value)[TDP_BASE + index] == Truncated(stored);
  }

  /** Reading an accepted value back returns it exactly when it fits the register, which is one byte, or
      one byte of half the value (then an odd value comes back one less). */
  lemma SetThenGet(d: Device, ram: Ram, index: nat, value: int)
    requires Accepted(d, index, value)
    ensures var got := TdpOf(d, WithTdp(d, ram, index, value), index);
            if Doubled(d, index) then got == value - value % 2 <==> value <= 511
            else got == value <==> value <= 255
  {
    ReadBack(d, ram, index, value);
  }

  /** So a limit table with entries of at most 255, or 510 where the value is halved, is never exceeded
      by what the register can hold. */
  lemma SmallLimitsRoundTrip(d: Device, ram: Ram, index: nat, value: int)
    requires Accepted(d, index, value) && TdpMax(d, index) <= (if Doubled(d, index) then 510 else 255)
    ensures TdpOf(d, WithTdp(d, ram, index, value), index) == if Doubled(d, index) then value - value % 2 else value
  {
    SetThenGet(d, ram, index, value);
  }

  /** A shipped limit reaches 420. On a device with such limits that does not halve the third one, every
      value above 255 is accepted and comes back 256 less, whatever else the device needs. */
  lemma LargePl4IsTruncated(d: Device, ram: Ram, value: int)
    requires d.limits == Known([0x05, 0x05, 0x05], [0xd2, 0xd2, 0x1a4]) && !d.doublePl4
    requires 0xff < value <= 0x1a4
    ensures Accepted(d, 2, value) && TdpOf(d, WithTdp(d, ram, 2, value), 2) == value - 0x100
  {
    ReadBack(d, ram, 2, value);
  }

  /** A request that is not accepted leaves every TDP register alone; an accepted one changes its own
      only. Outside those registers at most the profile bits of the mode byte change. */
  lemma SetTdpFrame(d: Device, ram: Ram, index: nat, value: int, a: Address)
    ensures var after := WithTdp(d, ram, index, value);
            && (a != MODE && !(Accepted(d, index, value) && a == TDP_BASE + index) ==> after[a] == ram[a])
            && after[MODE] & !PROFILE_BITS == ram[MODE] & !PROFILE_BITS
            && (!d.customMode ==> after[MODE] == ram[MODE])
  {
    ProfileKeepsOtherBits(ram[MODE], 3);
  }

  lemma ProfileKeepsOtherBits(mode: Byte, profile: nat)
    requires 1 <= profile <= 3
    ensures var next := (mode & !PROFILE_BITS) | ProfileBits(profile);
            && next & !PROFILE_BITS == mode & !PROFILE_BITS
            && next & PROFILE_BITS == ProfileBits(profile)
  {
  }

  // ---------------------------------------------------------------------------------------------
  // In the controller's terms
  // ---------------------------------------------------------------------------------------------

  /** Which requests are accepted, and the errors of the others. */
  lemma AcceptedExactly(d: Device, index: nat, value: int)
    ensures Accepted(d, index, value) <==>
            && index <= 2 && d.limits.Known?
            && 0 < d.limits.min[index] <= value <= d.limits.max[index]
    ensures index > 2 ==> TdpMin(d, index) == -22
    ensures index <= 2 && (d.limits.Unknown? || d.limits.min[index] <= 0) ==> TdpMin(d, index) == -19
  {
  }

  /** The byte that an accepted request leaves in its register: half the limit for the third one of a device
      that keeps it so, and for no other. */
  lemma RegisterAfterSet(d: Device, ram: Ram, index: nat, value: int)
    requires Accepted(d, index, value)
    ensures index <= 2
    ensures var register := WithTdp(d, ram, index, value)[0x0783 + index];
            Value(register) == if index == 2 && d.doublePl4 then value / 2 % 0x100 else value % 0x100
  {
    TruncatedValue(value / 2);
    TruncatedValue(value);
  }

  /** What a get makes of the register. */
  lemma GetFromRegister(d: Device, ram: Ram, index: nat)
    requires index <= 2 && d.limits.Known? && d.limits.min[index] > 0
    ensures TdpOf(d, ram, index) ==
            if index == 2 && d.doublePl4 then 2 * Value(ram[0x0783 + index]) else Value(ram[0x0783 + index])
  {
  }

  /** Bits 7 and 5 are set by the first profile alone, bit 4 by the third alone; a TDP request on a device
      in custom mode selects the third, accepted or not. */
  lemma ProfileInRegister(d: Device, ram: Ram, profile: nat, index: nat, value: int)
    ensures 1 <= profile <= 3 ==>
              var mode := WithProfile(ram, profile)[0x0751];
              && (mode & 0x80 != 0 <==> profile == 1) && (mode & 0x20 != 0 <==> profile == 1)
              && (mode & 0x10 != 0 <==> profile == 3) && mode & 0x4f == ram[0x0751] & 0x4f
    ensures d.customMode ==>
              var mode := WithTdp(d, ram, index, value)[0x0751];
              mode & 0xa0 == 0 && mode & 0x10 != 0 && mode & 0x4f == ram[0x0751] & 0x4f
    ensures !d.customMode ==> WithTdp(d, ram, index, value)[0x0751] == ram[0x0751]
  {
    ProfileBitsInByte(ram[MODE], if 1 <= profile <= 3 then profile else 1);
    ProfileBitsInByte(ram[MODE], 3);
  }

  lemma ProfileBitsInByte(before: Byte, profile: nat)
    requires 1 <= profile <= 3
    ensures var mode := (before & !PROFILE_BITS) | ProfileBits(profile);
            && (mode & 0x80 != 0 <==> profile == 1) && (mode & 0x20 != 0 <==> profile == 1)
            && (mode & 0x10 != 0 <==> profile == 3) && mode & 0x4f == before & 0x4f
            && (profile == 3 ==> mode & 0xa0 == 0)
  {
  }
}
