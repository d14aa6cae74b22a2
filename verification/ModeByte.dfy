/** The mode byte 0x0751 at the granularity of single EC accesses.

    Profile selection, full-fan mode and automatic fan control each read the byte and then write it,
    without a common lock, and none of them looks at the status of the read. The module says exactly which
    interleavings and which failed reads lose an update. */
module ModeByte {
  import opened Common
  import opened UniwillRam
  import Io = TuxedoIo
  import Fan = UniwillFan

  /** What a failed direct read leaves in its output. */
  const ERROR_BYTE: Byte := 0xfe

  /** The calls that write the byte; selecting a profile and setting a TDP do so in the same way. */
  datatype Update = Select(profile: nat) | FullFan(on: bool) | LeaveFullFan

  /** The bits that are an update's own, and those that no update owns. */
  datatype Field = Profile | FullFanBit | Rest

  function Mask(f: Field): Byte {
    match f
    case Profile => PROFILE_BITS
    case FullFanBit => FULL_FAN
    case Rest => 0x0f
  }

  function FieldOf(u: Update): Field {
    if u.Select? then Profile else FullFanBit
  }

  /** The byte that an update writes after it has read `seen`, if it writes at all. */
  function Written(u: Update, seen: Byte): Option<Byte> {
    match u
    case Select(p) => if 1 <= p <= 3 then Some((seen & !PROFILE_BITS) | ProfileBits(p)) else None
    case FullFan(on) =>
      if on && seen & FULL_FAN == 0 then Some(seen | FULL_FAN)
      else if seen & FULL_FAN != 0 then Some(seen & !FULL_FAN)
      else None
    case LeaveFullFan => Some(seen & !FULL_FAN)
  }

  /** Undisturbed and with a read that works, each update is the call that the other modules describe. */
  lemma UpdatesAreTheCalls(ram: Ram, p: nat, on: bool, f: Fan.Fan)
    ensures Io.WithProfile(ram, p) == Stored(ram, Written(Select(p), ram[MODE]))
    ensures Fan.WithFullFan(ram, on) == Stored(ram, Written(FullFan(on), ram[MODE]))
    ensures !f.universal ==> Fan.SetAuto(f).ram == Stored(f.ram, Written(LeaveFullFan, f.ram[MODE]))
  {
  }

  function Stored(ram: Ram, b: Option<Byte>): Ram {
    if b.Some? then ram[MODE := b.value] else ram
  }

  // ---------------------------------------------------------------------------------------------
  // Schedules of single accesses
  // ---------------------------------------------------------------------------------------------

  /** A thread begins an update with its read, which may fail, and ends it with its write. */
  datatype Access = Reads(thread: nat, update: Update, ok: bool) | Writes(thread: nat)

  /** The read that the next write of `t` goes with. */
  function ReadOf(h: seq<Access>, t: nat): Option<nat> {
    if h == [] then None
    else
      var e := h[|h| - 1];
      if e.thread != t then ReadOf(h[..|h| - 1], t) else if e.Reads? then Some(|h| - 1) else None
  }

  lemma {:induction false} ReadOfIsARead(h: seq<Access>, t: nat)
    ensures ReadOf(h, t).Some? ==> ReadOf(h, t).value < |h| && h[ReadOf(h, t).value].Reads?
  {
    if h != [] {
      ReadOfIsARead(h[..|h| - 1], t);
    }
  }

  /** Every write comes after a read of its thread. */
  predicate Runs(h: seq<Access>) {
    h == [] ||
    (&& Runs(h[..|h| - 1])
     && (h[|h| - 1].Writes? ==> ReadOf(h[..|h| - 1], h[|h| - 1].thread).Some?))
  }

  lemma {:induction false} PrefixRuns(h: seq<Access>, n: nat)
    requires n <= |h| && Runs(h)
    ensures Runs(h[..n])
  {
    if n < |h| {
      PrefixRuns(h[..|h| - 1], n);
      assert h[..|h| - 1][..n] == h[..n];
    } else {
      assert h[..n] == h;
    }
  }

  /** The read that belongs to a write at the end of a schedule. */
  function LastRead(h: seq<Access>): (r: nat)
    requires h != [] && Runs(h) && h[|h| - 1].Writes?
    ensures r < |h| - 1 && h[r].Reads?
  {
    var front := h[..|h| - 1];
    ReadOfIsARead(front, h[|h| - 1].thread);
    ReadOf(front, h[|h| - 1].thread).value
  }

  /** The byte in the register after a schedule. */
  function Mode(before: Byte, h: seq<Access>): Byte
    requires Runs(h)
    decreases |h|, 1
  {
    if h == [] then before
    else
      var now := Mode(before, h[..|h| - 1]);
      if h[|h| - 1].Reads? then now
      else
        var b := Written(h[LastRead(h)].update, Seen(before, h));
        if b.Some? then b.value else now
  }

  /** What the read of a last write has delivered. */
  function Seen(before: Byte, h: seq<Access>): Byte
    requires h != [] && Runs(h) && h[|h| - 1].Writes?
    decreases |h|, 0
  {
    var r := LastRead(h);
    PrefixRuns(h, r);
    if h[r].ok then Mode(before, h[..r]) else ERROR_BYTE
  }

  /** The schedule ends with a write that stores something. */
  predicate EndsWithStore(before: Byte, h: seq<Access>) {
    h != [] && Runs(h) && h[|h| - 1].Writes? && Written(h[LastRead(h)].update, Seen(before, h)).Some?
  }

  // ---------------------------------------------------------------------------------------------
  // Where the bits in the register come from
  // ---------------------------------------------------------------------------------------------

  /** A field's bits were there at first, are those of a failed read, or were put there by the write that
      ended the first `length` accesses. */
  datatype Origin = Initially | FailedRead | By(length: nat)

  /** Following the reads back: a write to another field only passes on what its read delivered. */
  function Source(before: Byte, h: seq<Access>, f: Field): Origin
    requires Runs(h)
    decreases |h|
  {
    if h == [] then Initially
    else if !EndsWithStore(before, h) then Source(before, h[..|h| - 1], f)
    else
      var r := LastRead(h);
      PrefixRuns(h, r);
      if FieldOf(h[r].update) == f then By(|h|)
      else if !h[r].ok then FailedRead
      else Source(before, h[..r], f)
  }

  /** The last update of the field that stored anything. */
  function Latest(before: Byte, h: seq<Access>, f: Field): Origin
    requires Runs(h)
    decreases |h|
  {
    if h == [] then Initially
    else if EndsWithStore(before, h) && FieldOf(h[LastRead(h)].update) == f then By(|h|)
    else Latest(before, h[..|h| - 1], f)
  }

  /** The bits that an origin stands for. */
  function BitsOf(before: Byte, h: seq<Access>, o: Origin, f: Field): Byte
    requires Runs(h)
    requires o.By? ==> o.length <= |h| && EndsWithStore(before, h[..o.length])
  {
    match o
    case Initially => before & Mask(f)
    case FailedRead => ERROR_BYTE & Mask(f)
    case By(n) => var g := h[..n]; Written(g[LastRead(g)].update, Seen(before, g)).value & Mask(f)
  }

  lemma OthersPassOn(u: Update, seen: Byte, f: Field)
    requires FieldOf(u) != f && Written(u, seen).Some?
    ensures Written(u, seen).value & Mask(f) == seen & Mask(f)
  {
  }

  predicate ProperOrigin(before: Byte, h: seq<Access>, o: Origin) {
    o.By? ==> 0 < o.length <= |h| && EndsWithStore(before, h[..o.length])
  }

  lemma LongerOrigin(before: Byte, h: seq<Access>, n: nat, o: Origin, f: Field)
    requires n <= |h| && Runs(h) && Runs(h[..n]) && ProperOrigin(before, h[..n], o)
    ensures ProperOrigin(before, h, o) && BitsOf(before, h, o, f) == BitsOf(before, h[..n], o, f)
  {
    if o.By? {
      assert h[..n][..o.length] == h[..o.length];
    }
  }

  /** The field's bits are those of its source. */
  ghost predicate FromSource(before: Byte, h: seq<Access>, f: Field)
    requires Runs(h)
  {
    && ProperOrigin(before, h, Source(before, h, f))
    && Mode(before, h) & Mask(f) == BitsOf(before, h, Source(before, h, f), f)
  }

  lemma OwnStoreIsSource(before: Byte, h: seq<Access>, f: Field)
    requires Runs(h) && EndsWithStore(before, h) && FieldOf(h[LastRead(h)].update) == f
    ensures FromSource(before, h, f)
  {
    assert h[..|h|] == h;
  }

  lemma OtherStorePassesOn(before: Byte, h: seq<Access>, f: Field)
    requires Runs(h) && EndsWithStore(before, h) && FieldOf(h[LastRead(h)].update) != f
    requires Runs(h[..LastRead(h)]) && FromSource(before, h[..LastRead(h)], f)
    ensures FromSource(before, h, f)
  {
    var r := LastRead(h);
    OthersPassOn(h[r].update, Seen(before, h), f);
    if h[r].ok {
      LongerOrigin(before, h, r, Source(before, h, f), f);
    }
  }

  lemma NoStoreKeepsSource(before: Byte, h: seq<Access>, f: Field)
    requires h != [] && Runs(h) && !EndsWithStore(before, h) && FromSource(before, h[..|h| - 1], f)
    ensures FromSource(before, h, f)
  {
    LongerOrigin(before, h, |h| - 1, Source(before, h, f), f);
  }

  /** After every schedule each field holds exactly the bits of its source. */
  lemma {:induction false} FieldsComeFromSources(before: Byte, h: seq<Access>, f: Field)
    requires Runs(h)
    ensures FromSource(before, h, f)
    decreases |h|
  {
    if h == [] {
    } else if !EndsWithStore(before, h) {
      FieldsComeFromSources(before, h[..|h| - 1], f);
      NoStoreKeepsSource(before, h, f);
    } else if FieldOf(h[LastRead(h)].update) == f {
      OwnStoreIsSource(before, h, f);
    } else {
      PrefixRuns(h, LastRead(h));
      FieldsComeFromSources(before, h[..LastRead(h)], f);
      OtherStorePassesOn(before, h, f);
    }
  }

  // ---------------------------------------------------------------------------------------------
  // Exactly when an update is lost
  // ---------------------------------------------------------------------------------------------

  /** At no time does the field hold anything but its latest update. */
  ghost predicate NeverLoses(before: Byte, h: seq<Access>, f: Field)
    requires Runs(h)
  {
    forall n | 0 <= n <= |h| :: InForce(before, h, n, f)
  }

  ghost predicate InForce(before: Byte, h: seq<Access>, n: nat, f: Field)
    requires n <= |h| && Runs(h)
  {
    PrefixRuns(h, n);
    Source(before, h[..n], f) == Latest(before, h[..n], f)
  }

  /** The `n`-th access writes to another field, from a read that failed or is older than the latest
      update of `f`. */
  ghost predicate Overwrites(before: Byte, h: seq<Access>, n: nat, f: Field)
    requires n < |h| && Runs(h)
  {
    PrefixRuns(h, n);
    PrefixRuns(h, n + 1);
    var g := h[..n + 1];
    && EndsWithStore(before, g) && FieldOf(g[LastRead(g)].update) != f
    && (PrefixRuns(h, LastRead(g));
        !g[LastRead(g)].ok || Latest(before, h[..LastRead(g)], f) != Latest(before, h[..n], f))
  }

  /** A schedule never loses an update of a field exactly if no write to another field was read before the
      latest update of this one, or from a failed read. */
  lemma {:induction false} LosesExactly(before: Byte, h: seq<Access>, f: Field)
    requires Runs(h)
    ensures NeverLoses(before, h, f) <==> forall n | 0 <= n < |h| :: !Overwrites(before, h, n, f)
  {
    if forall n | 0 <= n < |h| :: !Overwrites(before, h, n, f) {
      forall n | 0 <= n <= |h| ensures InForce(before, h, n, f) {
        UntilOverwritten(before, h, n, f);
      }
    }
    if NeverLoses(before, h, f) {
      forall n | 0 <= n < |h| ensures !Overwrites(before, h, n, f) {
        OverwriteLoses(before, h, n, f);
      }
    }
  }

  lemma {:induction false} UntilOverwritten(before: Byte, h: seq<Access>, n: nat, f: Field)
    requires n <= |h| && Runs(h) && forall i | 0 <= i < n :: !Overwrites(before, h, i, f)
    ensures InForce(before, h, n, f)
    decreases n
  {
    PrefixRuns(h, n);
    var g := h[..n];
    if n > 0 {
      assert !Overwrites(before, h, n - 1, f);
      assert g[..n - 1] == h[..n - 1];
      UntilOverwritten(before, h, n - 1, f);
      if EndsWithStore(before, g) && FieldOf(g[LastRead(g)].update) != f {
        UntilOverwritten(before, h, LastRead(g), f);
        assert g[..LastRead(g)] == h[..LastRead(g)];
      }
    }
  }

  lemma {:induction false} LatestIsAnUpdate(before: Byte, h: seq<Access>, f: Field)
    requires Runs(h)
    ensures !Latest(before, h, f).FailedRead?
  {
    if h != [] {
      LatestIsAnUpdate(before, h[..|h| - 1], f);
    }
  }

  /** An overwriting access is followed at once by the loss. */
  lemma OverwriteLoses(before: Byte, h: seq<Access>, n: nat, f: Field)
    requires n < |h| && Runs(h) && NeverLoses(before, h, f)
    ensures !Overwrites(before, h, n, f)
  {
    PrefixRuns(h, n + 1);
    var g := h[..n + 1];
    assert g[..n] == h[..n];
    assert InForce(before, h, n + 1, f);
    LatestIsAnUpdate(before, g, f);
    if EndsWithStore(before, g) && FieldOf(g[LastRead(g)].update) != f {
      assert g[..LastRead(g)] == h[..LastRead(g)];
      assert InForce(before, h, LastRead(g), f);
    }
  }

  lemma WholeFromFields(b: Byte)
    ensures b == (b & Mask(Profile)) | (b & Mask(FullFanBit)) | (b & Mask(Rest))
  {
  }

  /** While nothing is lost the byte is put together from the profile selected last, the last full-fan
      action, and the bits that were there at first. */
  lemma SharedWhileNothingIsLost(before: Byte, h: seq<Access>)
    requires Runs(h) && forall f: Field :: NeverLoses(before, h, f)
    ensures ProperOrigin(before, h, Latest(before, h, Profile))
    ensures ProperOrigin(before, h, Latest(before, h, FullFanBit))
    ensures Mode(before, h) ==
            BitsOf(before, h, Latest(before, h, Profile), Profile) |
            BitsOf(before, h, Latest(before, h, FullFanBit), FullFanBit) |
            (before & Mask(Rest))
  {
    forall f: Field ensures FromSource(before, h, f) && Source(before, h, f) == Latest(before, h, f) {
      FieldsComeFromSources(before, h, f);
      assert NeverLoses(before, h, f);
      assert InForce(before, h, |h|, f);
      assert h[..|h|] == h;
    }
    RestHasNoUpdates(before, h);
    WholeFromFields(Mode(before, h));
  }

  lemma {:induction false} RestHasNoUpdates(before: Byte, h: seq<Access>)
    requires Runs(h)
    ensures Latest(before, h, Rest).Initially?
  {
    if h != [] {
      RestHasNoUpdates(before, h[..|h| - 1]);
    }
  }

  /** One thread selects a profile while another one sets the full-fan bit. */
  function TwoThreads(n: nat): seq<Access>
    requires n <= 4
  {
    [Reads(1, Select(1), true), Reads(2, FullFan(true), true), Writes(2), Writes(1)][..n]
  }

  lemma TwoThreadsRun()
    ensures forall n :: 0 <= n <= 4 ==> Runs(TwoThreads(n))
    ensures ReadOf(TwoThreads(2), 2) == Some(1) && ReadOf(TwoThreads(3), 1) == Some(0)
  {
    forall n | 0 <= n < 4 ensures TwoThreads(n + 1)[..n] == TwoThreads(n) {
    }
    assert TwoThreads(0) == [];
    assert ReadOf(TwoThreads(1), 1) == Some(0);
    assert ReadOf(TwoThreads(2), 1) == Some(0);
    assert Runs(TwoThreads(1)) && Runs(TwoThreads(2)) && Runs(TwoThreads(3)) && Runs(TwoThreads(4));
  }

  lemma TwoThreadsStore(before: Byte)
    requires before & FULL_FAN == 0
    ensures Runs(TwoThreads(0)) && Runs(TwoThreads(1)) && Runs(TwoThreads(2))
    ensures Runs(TwoThreads(3)) && Runs(TwoThreads(4))
    ensures EndsWithStore(before, TwoThreads(3)) && LastRead(TwoThreads(3)) == 1
    ensures EndsWithStore(before, TwoThreads(4)) && LastRead(TwoThreads(4)) == 0
    ensures Seen(before, TwoThreads(4)) == before
  {
    TwoThreadsRun();
    assert TwoThreads(0) == [];
    assert TwoThreads(3)[..2] == TwoThreads(2) && TwoThreads(4)[..3] == TwoThreads(3);
    assert TwoThreads(3)[..1] == TwoThreads(1) && TwoThreads(1)[..0] == TwoThreads(0);
    assert TwoThreads(4)[..0] == TwoThreads(0);
    assert Mode(before, TwoThreads(1)) == before;
  }

  lemma TwoThreadsSource(before: Byte)
    requires before & FULL_FAN == 0
    ensures Runs(TwoThreads(4))
    ensures Source(before, TwoThreads(4), FullFanBit) == Initially && Latest(before, TwoThreads(4), FullFanBit) == By(3)
  {
    TwoThreadsStore(before);
    assert TwoThreads(4)[..3] == TwoThreads(3) && TwoThreads(4)[..0] == [];
  }

  /** Two threads are enough, with all reads working: the profile selection takes the full-fan bit back. */
  lemma TwoThreadsLose(before: Byte) returns (h: seq<Access>)
    requires before & FULL_FAN == 0
    ensures Runs(h) && (forall i :: 0 <= i < |h| && h[i].Reads? ==> h[i].ok)
    ensures !NeverLoses(before, h, FullFanBit) && Mode(before, h) & FULL_FAN == 0
  {
    h := TwoThreads(4);
    TwoThreadsSource(before);
    FieldsComeFromSources(before, h, FullFanBit);
    assert h[..4] == h;
    assert !InForce(before, h, 4, FullFanBit);
  }
}
