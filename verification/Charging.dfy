/** Charging priority and charging profile of Uniwill devices: two settings in shared EC bytes that the
    driver remembers and writes again after resume and after every adapter change. */
module Charging {
  import opened Common
  import opened UniwillRam

  const EIO := 5
  /** Bit 7 is the priority; the other bits are not the driver's. */
  const PRIORITY: Address := 0x07cc
  /** Bits 4 and 5 are the profile. */
  const PROFILE: Address := 0x07a6

  /** How the read and the write of one read-modify-write go. A write that fails may still take effect. */
  datatype Access = Access(readOk: bool, writeOk: bool, takesAnyway: bool)

  predicate Works(io: Access) {
    io.readOk && io.writeOk
  }

  /** The byte after the access. */
  function Written(ram: Ram, a: Address, b: Byte, io: Access): Ram {
    if io.readOk && (io.writeOk || io.takesAnyway) then ram[a := b] else ram
  }

  function PriorityOf(ram: Ram): Byte {
    (ram[PRIORITY] >> 7) & 0x01
  }

  function ProfileOf(ram: Ram): Byte {
    (ram[PROFILE] >> 4) & 0x03
  }

  function WithPriority(previous: Byte, v: Byte): Byte {
    (previous & 0x7f) | ((v & 0x01) << 7)
  }

  function WithProfile(previous: Byte, v: Byte): Byte {
    (previous & 0xcf) | ((v & 0x03) << 4)
  }

  /** The setting can be read back, and the rest of the byte is as before. */
  lemma PriorityReadsBack(b: Byte, v: Byte)
    ensures (WithPriority(b, v) >> 7) & 0x01 == v & 0x01
    ensures WithPriority(b, v) & 0x7f == b & 0x7f
  {
  }

  lemma ProfileReadsBack(b: Byte, v: Byte)
    ensures (WithProfile(b, v) >> 4) & 0x03 == v & 0x03
    ensures WithProfile(b, v) & 0xcf == b & 0xcf
  {
  }

  /** The driver remembers the priority shifted to bit 7, but as a truth value, which becomes 0 or 1 again.
      As a byte it would always be restored as 0. */
  lemma RememberedAsTruthValue(v: Byte)
    ensures var shifted := (v & 0x01) << 7;
            && AsByte(shifted != 0) == v & 0x01
            && shifted & 0x01 == 0
  {
  }

  function AsByte(flag: bool): Byte {
    if flag then 1 else 0
  }

  /** The EC memory, which of the features are loaded, and what the driver remembers of each. */
  datatype State = State(ram: Ram, prioLoaded: bool, profileLoaded: bool, priority: bool, profile: Byte)

  /** A first read: one that fails delivers some other byte, and the driver does not look at its status. */
  datatype FirstRead = FirstRead(ok: bool, delivered: Byte)

  /** A priority read goes through the same shift whether or not it worked; a profile read does not. */
  function FirstPriority(ram: Ram, read: FirstRead): Byte {
    if read.ok then PriorityOf(ram) else (read.delivered >> 7) & 0x01
  }

  function FirstProfile(ram: Ram, read: FirstRead): Byte {
    if read.ok then ProfileOf(ram) else read.delivered
  }

  // ---------------------------------------------------------------------------------------------
  // Histories
  // ---------------------------------------------------------------------------------------------

  /** Stores by user space, restores after resume or an adapter change, and whatever the EC does to its
      memory at any time. */
  datatype Action =
    | StorePriority(value: Byte, io: Access)
    | StoreProfile(value: Byte, io: Access)
    | Restore(prioIo: Access, profileIo: Access)
    | EcChanges(ram: Ram)

  function SetPriority(s: State, v: Byte, io: Access): State {
    s.(ram := Written(s.ram, PRIORITY, WithPriority(s.ram[PRIORITY], v), io),
       priority := if Works(io) then v & 0x01 == 1 else s.priority)
  }

  function SetProfile(s: State, v: Byte, io: Access): State {
    s.(ram := Written(s.ram, PROFILE, WithProfile(s.ram[PROFILE], v), io),
       profile := if Works(io) then v & 0x03 else s.profile)
  }

  function RestorePriority(s: State, io: Access): State {
    if s.prioLoaded then SetPriority(s, AsByte(s.priority), io) else s
  }

  function RestoreProfile(s: State, io: Access): State {
    if s.profileLoaded then SetProfile(s, s.profile, io) else s
  }

  function Perform(s: State, a: Action): State {
    match a
    case StorePriority(v, io) => SetPriority(s, v, io)
    case StoreProfile(v, io) => SetProfile(s, v, io)
    case Restore(prioIo, profileIo) => RestoreProfile(RestorePriority(s, prioIo), profileIo)
    case EcChanges(ram) => s.(ram := ram)
  }

  function After(s: State, actions: seq<Action>): State {
    if actions == [] then s else Perform(After(s, actions[..|actions| - 1]), actions[|actions| - 1])
  }

  lemma BitIsZeroOrOne(b: Byte)
    ensures AsByte((b >> 7) & 0x01 != 0) == (b >> 7) & 0x01
  {
    assert (b >> 7) & 0x01 == 0 || (b >> 7) & 0x01 == 1;
  }

  /** The settings last stored successfully, or else what was remembered initially; restores do not count. */
  function LastPriority(actions: seq<Action>, initially: Byte): Byte {
    if actions == [] then initially
    else
      var a := actions[|actions| - 1];
      if a.StorePriority? && Works(a.io) then a.value & 0x01 else LastPriority(actions[..|actions| - 1], initially)
  }

  function LastProfile(actions: seq<Action>, initially: Byte): Byte {
    if actions == [] then initially
    else
      var a := actions[|actions| - 1];
      if a.StoreProfile? && Works(a.io) then a.value & 0x03 else LastProfile(actions[..|actions| - 1], initially)
  }

  lemma BitValues(v: Byte, flag: bool)
    ensures AsByte(v & 0x01 == 1) == v & 0x01
    ensures AsByte(flag) & 0x01 == AsByte(flag) && (AsByte(flag) == 1 <==> flag)
    ensures (v & 0x03) & 0x03 == v & 0x03
  {
  }

  lemma ActionRemembers(s: State, a: Action)
    ensures var t := Perform(s, a);
            && AsByte(t.priority) == (if a.StorePriority? && Works(a.io) then a.value & 0x01 else AsByte(s.priority))
            && t.profile & 0x03 == (if a.StoreProfile? && Works(a.io) then a.value & 0x03 else s.profile & 0x03)
            && t.prioLoaded == s.prioLoaded && t.profileLoaded == s.profileLoaded
  {
    BitValues(if a.StorePriority? || a.StoreProfile? then a.value else s.profile, s.priority);
  }

  /** What the driver remembers is always the last successful store. */
  lemma {:induction false} RemembersLastStores(s: State, actions: seq<Action>)
    ensures var t := After(s, actions);
            && AsByte(t.priority) == LastPriority(actions, AsByte(s.priority))
            && t.profile & 0x03 == LastProfile(actions, s.profile & 0x03)
            && t.prioLoaded == s.prioLoaded && t.profileLoaded == s.profileLoaded
  {
    if actions != [] {
      RemembersLastStores(s, actions[..|actions| - 1]);
      ActionRemembers(After(s, actions[..|actions| - 1]), actions[|actions| - 1]);
    }
  }

  /** After every history, whatever stores failed and whatever the EC did to its memory: a restore with a
      working access to a loaded setting's byte puts the last successful store of that setting into force,
      or what was read first if there was none. */
  lemma RestoreReinstates(s: State, actions: seq<Action>, prioIo: Access, profileIo: Access)
    ensures var t := After(s, actions + [Restore(prioIo, profileIo)]);
            && (s.prioLoaded && Works(prioIo) ==> PriorityOf(t.ram) == LastPriority(actions, AsByte(s.priority)))
            && (s.profileLoaded && Works(profileIo) ==> ProfileOf(t.ram) == LastProfile(actions, s.profile & 0x03))
  {
    RemembersLastStores(s, actions);
    var all := actions + [Restore(prioIo, profileIo)];
    assert all[..|all| - 1] == actions;
    var u := After(s, actions);
    PriorityReadsBack(u.ram[PRIORITY], AsByte(u.priority));
    BitValues(0, u.priority);
    ProfileReadsBack(u.ram[PROFILE], u.profile);
  }

  /** The state after probe: what the first reads of the loaded features delivered. */
  predicate Probed(s: State, prioRead: FirstRead, profileRead: FirstRead) {
    && (s.prioLoaded ==> AsByte(s.priority) == FirstPriority(s.ram, prioRead))
    && (s.profileLoaded ==> s.profile == FirstProfile(s.ram, profileRead))
  }

  /** From probe on: as long as nothing is stored, every restore with working accesses puts back what the EC
      held when a working first read read it, whatever the EC did since. */
  lemma ProbeIsReinstated(
    s: State, prioRead: FirstRead, profileRead: FirstRead, actions: seq<Action>, prioIo: Access, profileIo: Access)
    requires Probed(s, prioRead, profileRead) && prioRead.ok && profileRead.ok
    requires forall i :: 0 <= i < |actions| ==> actions[i].Restore? || actions[i].EcChanges?
    requires s.prioLoaded && s.profileLoaded && Works(prioIo) && Works(profileIo)
    ensures var t := After(s, actions + [Restore(prioIo, profileIo)]);
            && (t.ram[0x07cc] & 0x80 != 0 <==> s.ram[0x07cc] & 0x80 != 0)
            && t.ram[0x07a6] & 0x30 == s.ram[0x07a6] & 0x30
  {
    WorkingReads(s.ram, prioRead);
    WorkingReads(s.ram, profileRead);
    FirstReadsAreReinstated(s, actions, prioIo, profileIo);
    var t := After(s, actions + [Restore(prioIo, profileIo)]);
    FieldsInBytes(t.ram[PRIORITY], t.ram[PROFILE]);
    FieldsInBytes(s.ram[PRIORITY], s.ram[PROFILE]);
  }

  /** With first reads that work, a restore before any store puts back what the EC held at first. */
  lemma FirstReadsAreReinstated(s: State, actions: seq<Action>, prioIo: Access, profileIo: Access)
    requires AsByte(s.priority) == PriorityOf(s.ram) && s.profile == ProfileOf(s.ram)
    requires forall i :: 0 <= i < |actions| ==> actions[i].Restore? || actions[i].EcChanges?
    requires s.prioLoaded && s.profileLoaded && Works(prioIo) && Works(profileIo)
    ensures var t := After(s, actions + [Restore(prioIo, profileIo)]);
            PriorityOf(t.ram) == PriorityOf(s.ram) && ProfileOf(t.ram) == ProfileOf(s.ram)
  {
    RestoreReinstates(s, actions, prioIo, profileIo);
    NoStores(actions, AsByte(s.priority), s.profile & 0x03);
    BitValues(s.ram[PROFILE] >> 4, s.priority);
  }

  /** A read that works delivers bit 7, and bits 4 and 5, as they are in the registers. */
  lemma WorkingReads(ram: Ram, read: FirstRead)
    requires read.ok
    ensures FirstPriority(ram, read) == PriorityOf(ram) && FirstProfile(ram, read) == ProfileOf(ram)
    ensures FirstPriority(ram, read) == 1 <==> ram[0x07cc] & 0x80 != 0
    ensures FirstPriority(ram, read) == 0 <==> ram[0x07cc] & 0x80 == 0
    ensures FirstProfile(ram, read) << 4 == ram[0x07a6] & 0x30
  {
    FieldsInBytes(ram[PRIORITY], ram[PROFILE]);
  }

  lemma FieldsInBytes(b: Byte, c: Byte)
    ensures ((b >> 7) & 0x01 == 1 <==> b & 0x80 != 0) && ((b >> 7) & 0x01 == 0 <==> b & 0x80 == 0)
    ensures ((c >> 4) & 0x03) << 4 == c & 0x30
  {
  }

  /** A store or restore whose read fails changes nothing at all. */
  lemma FailedReadChangesNothing(s: State, v: Byte, io: Access)
    requires !io.readOk
    ensures SetPriority(s, v, io) == s && SetProfile(s, v, io) == s
  {
  }

  lemma {:induction false} NoStores(actions: seq<Action>, priority: Byte, profile: Byte)
    requires forall i :: 0 <= i < |actions| ==> actions[i].Restore? || actions[i].EcChanges?
    ensures LastPriority(actions, priority) == priority && LastProfile(actions, profile) == profile
  {
    if actions != [] {
      NoStores(actions[..|actions| - 1], priority, profile);
    }
  }

  /** The memory without the two settings. */
  ghost predicate SameElsewhere(ram: Ram, other: Ram) {
    && ram[PRIORITY] & 0x7f == other[PRIORITY] & 0x7f
    && ram[PROFILE] & 0xcf == other[PROFILE] & 0xcf
    && forall a: Address :: a != PRIORITY && a != PROFILE ==> ram[a] == other[a]
  }

  lemma PriorityChangesNothingElse(s: State, v: Byte, io: Access)
    ensures SameElsewhere(SetPriority(s, v, io).ram, s.ram)
  {
    PriorityReadsBack(s.ram[PRIORITY], v);
  }

  lemma ProfileChangesNothingElse(s: State, v: Byte, io: Access)
    ensures SameElsewhere(SetProfile(s, v, io).ram, s.ram)
  {
    ProfileReadsBack(s.ram[PROFILE], v);
  }

  lemma SameElsewhereChains(ram: Ram, between: Ram, other: Ram)
    requires SameElsewhere(ram, between) && SameElsewhere(between, other)
    ensures SameElsewhere(ram, other)
  {
  }

  lemma RestoreChangesNothingElse(s: State, prioIo: Access, profileIo: Access)
    ensures SameElsewhere(Perform(s, Restore(prioIo, profileIo)).ram, s.ram)
  {
    var t := RestorePriority(s, prioIo);
    PriorityChangesNothingElse(s, AsByte(s.priority), prioIo);
    assert SameElsewhere(t.ram, s.ram);
    ProfileChangesNothingElse(t, t.profile, profileIo);
    var u := RestoreProfile(t, profileIo);
    assert SameElsewhere(u.ram, t.ram);
    SameElsewhereChains(u.ram, t.ram, s.ram);
  }

  lemma ActionChangesNothingElse(s: State, a: Action)
    requires !a.EcChanges?
    ensures SameElsewhere(Perform(s, a).ram, s.ram)
  {
    match a {
      case StorePriority(v, io) => PriorityChangesNothingElse(s, v, io);
      case StoreProfile(v, io) => ProfileChangesNothingElse(s, v, io);
      case Restore(prioIo, profileIo) => RestoreChangesNothingElse(s, prioIo, profileIo);
    }
  }

  /** Without the EC's own changes no other bit of the memory changes, even when writes fail. */
  lemma {:induction false} NothingElseChanges(s: State, actions: seq<Action>)
    requires forall i :: 0 <= i < |actions| ==> !actions[i].EcChanges?
    ensures SameElsewhere(After(s, actions).ram, s.ram)
  {
    if actions != [] {
      NothingElseChanges(s, actions[..|actions| - 1]);
      ActionChangesNothingElse(After(s, actions[..|actions| - 1]), actions[|actions| - 1]);
    }
  }

  // ---------------------------------------------------------------------------------------------
  // The driver
  // ---------------------------------------------------------------------------------------------

  class ChargingSettings {
    const prioLoaded: bool
    const profileLoaded: bool
    var ram: Ram
    var prioLastWritten: bool
    var profileLastWritten: Byte

    ghost function Current(): State
      reads this
    {
      State(ram, prioLoaded, profileLoaded, prioLastWritten, profileLastWritten)
    }

    /** A feature that is not loaded is not read. */
    constructor (ram: Ram, prioLoaded: bool, profileLoaded: bool, prioRead: FirstRead, profileRead: FirstRead)
      ensures this.ram == ram && this.prioLoaded == prioLoaded && this.profileLoaded == profileLoaded
      ensures Probed(Current(), prioRead, profileRead)
      ensures prioLoaded ==> AsByte(prioLastWritten) == FirstPriority(ram, prioRead)
      ensures profileLoaded ==> profileLastWritten == FirstProfile(ram, profileRead)
      ensures prioLoaded && prioRead.ok ==> AsByte(prioLastWritten) == PriorityOf(ram)
      ensures profileLoaded && profileRead.ok ==> profileLastWritten == ProfileOf(ram)
    {
      this.ram, this.prioLoaded, this.profileLoaded := ram, prioLoaded, profileLoaded;
      prioLastWritten, profileLastWritten := false, 0;
      new;
      if prioLoaded {
        var _, v := GetChargingPriority(prioRead);
        prioLastWritten := v != 0;
        BitIsZeroOrOne(ram[PRIORITY]);
        BitIsZeroOrOne(prioRead.delivered);
      }
      if profileLoaded {
        var _, v := GetChargingProfile(profileRead);
        profileLastWritten := v;
      }
    }

    method GetChargingPriority(read: FirstRead) returns (result: int, v: Byte)
      ensures result == if read.ok then 0 else -EIO
      ensures v == FirstPriority(ram, read)
      ensures result == 0 ==> v == PriorityOf(ram)
    {
      result, v := if read.ok then 0 else -EIO, if read.ok then ram[0x07cc] else read.delivered;
      v := (v >> 7) & 0x01;
    }

    method GetChargingProfile(read: FirstRead) returns (result: int, v: Byte)
      ensures result == if read.ok then 0 else -EIO
      ensures v == FirstProfile(ram, read)
      ensures result == 0 ==> v == ProfileOf(ram)
    {
      result, v := if read.ok then 0 else -EIO, if read.ok then ram[0x07a6] else read.delivered;
      if result == 0 {
        v := (v >> 4) & 0x03;
      }
    }

    method SetChargingPriority(value: Byte, io: Access) returns (result: int)
      modifies this
      ensures Current() == Perform(old(Current()), StorePriority(value, io))
      ensures result == if Works(io) then 0 else -EIO
    {
      var chargingPriority := (value & 0x01) << 7;
      if !io.readOk {
        return -EIO;
      }
      var nextData := (ram[0x07cc] & 0x7f) | chargingPriority;
      ram := Written(ram, 0x07cc, nextData, io);
      if !io.writeOk {
        return -EIO;
      }
      prioLastWritten := chargingPriority != 0;
      RememberedAsTruthValue(value);
      return 0;
    }

    method SetChargingProfile(value: Byte, io: Access) returns (result: int)
      modifies this
      ensures Current() == Perform(old(Current()), StoreProfile(value, io))
      ensures result == if Works(io) then 0 else -EIO
    {
      var chargingProfile := value & 0x03;
      var shiftedProfile := chargingProfile << 4;
      if !io.readOk {
        return -EIO;
      }
      var nextData := (ram[0x07a6] & 0xcf) | shiftedProfile;
      ram := Written(ram, 0x07a6, nextData, io);
      if !io.writeOk {
        return -EIO;
      }
      profileLastWritten := chargingProfile;
      return 0;
    }

    /** The two write_state calls that an adapter event and a resume end with. */
    method WriteState(prioIo: Access, profileIo: Access)
      modifies this
      ensures Current() == Perform(old(Current()), Restore(prioIo, profileIo))
    {
      if prioLoaded {
        var _ := SetChargingPriority(AsByte(prioLastWritten), prioIo);
      }
      if profileLoaded {
        var _ := SetChargingProfile(profileLastWritten, profileIo);
      }
    }
  }
}
