/** Repairing the ROM identification of a Uniwill device over an unreliable EC connection.

    Each transaction has an outcome that the environment picks beforehand: a read works or fails; a
    write reports success or failure and, either way, leaves any byte at all in the cell it addresses. A
    read that works is faithful. */
module RomId {
  import opened Common
  import opened UniwillRam

  const EIO := 5
  const TRIES := 3
  const ROMID_SIZE := 14
  const ROMID_START: Address := 0x0770
  const ROMID_SPECIAL_1: Address := 0x077e
  const ROMID_SPECIAL_2: Address := 0x077f

  /** A write, the byte it leaves in its cell, and the read-back that follows if the write reports success. */
  datatype Attempt = Attempt(writeOk: bool, left: Byte, readOk: bool)

  type Tries = t: seq<Attempt> | |t| == TRIES witness seq(TRIES, i => Attempt(true, 0, true))

  predicate Clean(b: Byte, t: Attempt) {
    t.writeOk && t.readOk && t.left == b
  }

  function StatusOf(t: Attempt): int {
    if t.writeOk && t.readOk then 0 else -EIO
  }

  /** The attempt that ends the retry loop: the first clean one, or else the last of all. */
  function Final(b: Byte, tries: Tries): (k: nat)
    ensures k < TRIES
    ensures forall i :: 0 <= i < k ==> !Clean(b, tries[i])
    ensures Clean(b, tries[k]) || k == TRIES - 1
  {
    FirstClean(b, tries, 0)
  }

  function FirstClean(b: Byte, tries: Tries, from: nat): (k: nat)
    requires from < TRIES
    ensures from <= k < TRIES
    ensures forall i :: from <= i < k ==> !Clean(b, tries[i])
    ensures Clean(b, tries[k]) || k == TRIES - 1
    decreases TRIES - from
  {
    if Clean(b, tries[from]) || from == TRIES - 1 then from else FirstClean(b, tries, from + 1)
  }

  predicate HasClean(b: Byte, tries: Tries) {
    exists i :: 0 <= i < |tries| && Clean(b, tries[i])
  }

  /** The last attempt goes through and reads back a wrong byte, and no earlier one was clean. */
  predicate FailsSilently(b: Byte, tries: Tries)
  {
    !HasClean(b, tries) && tries[|tries| - 1].writeOk && tries[|tries| - 1].readOk
  }

  /** The retry helper reports success with a wrong byte in the cell exactly when FailsSilently. It
      reports success with the right byte exactly when one of its attempts is clean. */
  lemma RetryOutcome(b: Byte, tries: Tries)
    ensures var t := tries[Final(b, tries)];
            && (StatusOf(t) == 0 && t.left != b <==> FailsSilently(b, tries))
            && (StatusOf(t) == 0 && t.left == b <==> HasClean(b, tries))
  {
    var k := Final(b, tries);
    if HasClean(b, tries) {
      assert Clean(b, tries[k]);
    }
  }

  datatype Store = Store(address: Address, value: Byte)

  function Repeated(s: Store, n: nat): (r: seq<Store>)
    ensures |r| == n && forall i :: 0 <= i < n ==> r[i] == s
  {
    seq(n, _ => s)
  }

  function Sent(log: seq<Store>, s: Store, n: nat): seq<Store> {
    log + Repeated(s, n)
  }

  lemma SentOneMore(log: seq<Store>, s: Store, n: nat)
    ensures Sent(log, s, n) + [s] == Sent(log, s, n + 1)
  {
    assert Repeated(s, n) + [s] == Repeated(s, n + 1);
  }

  function CountTo(log: seq<Store>, a: Address): nat {
    if log == [] then 0
    else CountTo(log[..|log| - 1], a) + (if log[|log| - 1].address == a then 1 else 0)
  }

  datatype Outcome = Outcome(ram: Ram, status: int, log: seq<Store>)

  /** What the environment has in store: for each ROM byte the reads of the inspection, and for each of
      the 16 written bytes the attempts of the repair. */
  datatype World = World(oks: seq<seq<bool>>, writes: seq<Tries>)

  ghost predicate IsWorld(w: World) {
    && |w.oks| == ROMID_SIZE && |w.writes| == ROMID_SIZE + 2
    && (forall i :: 0 <= i < ROMID_SIZE ==> |w.oks[i]| == TRIES)
  }

  type RomBytes = r: seq<Byte> | |r| == ROMID_SIZE witness seq(ROMID_SIZE, i => 0 as bv8)

  // ---------------------------------------------------------------------------------------------
  // What the driver's two loops compute
  // ---------------------------------------------------------------------------------------------

  datatype Found = Unreadable | Wrong | Right

  predicate RomByteOk(ram: Ram, rom: RomBytes, oks: seq<seq<bool>>, i: nat)
    requires i < ROMID_SIZE <= |oks|
  {
    true in oks[i] && ram[ROMID_START + i] == rom[i]
  }

  /** Reading stops at the first byte that cannot be read or is wrong. */
  function Inspect(ram: Ram, rom: RomBytes, oks: seq<seq<bool>>, i: nat): (found: Found)
    requires i <= ROMID_SIZE <= |oks|
    ensures found.Right? <==> forall j :: i <= j < ROMID_SIZE ==> RomByteOk(ram, rom, oks, j)
    ensures found.Wrong? ==> exists j :: i <= j < ROMID_SIZE && ram[ROMID_START + j] != rom[j]
    ensures found.Unreadable? ==> exists j :: i <= j < ROMID_SIZE && true !in oks[j]
    decreases ROMID_SIZE - i
  {
    if i == ROMID_SIZE then Right
    else if RomByteOk(ram, rom, oks, i) then Inspect(ram, rom, oks, i + 1)
    else if true in oks[i] then Wrong
    else Unreadable
  }

  /** The writes of a repair: the two special bytes, then the identification. */
  function Plan(rom: RomBytes): (plan: seq<Store>)
    ensures |plan| == ROMID_SIZE + 2
    ensures plan[0] == Store(ROMID_SPECIAL_1, 0xa5) && plan[1] == Store(ROMID_SPECIAL_2, 0x78)
    ensures forall i :: 0 <= i < ROMID_SIZE ==> plan[i + 2] == Store(ROMID_START + i, rom[i])
    ensures forall i, j :: 0 <= i < j < |plan| ==> plan[i].address != plan[j].address
  {
    [Store(ROMID_SPECIAL_1, 0xa5), Store(ROMID_SPECIAL_2, 0x78)] +
    seq(ROMID_SIZE, i requires 0 <= i < ROMID_SIZE => Store(ROMID_START + i, rom[i]))
  }

  /** After `i` attempts at a store. */
  function AfterTries(o: Outcome, s: Store, tries: Tries, i: nat): Outcome
    requires i <= TRIES
  {
    if i == 0 then o
    else Outcome(o.ram[s.address := tries[i - 1].left], StatusOf(tries[i - 1]), Sent(o.log, s, i))
  }

  lemma OneMoreTry(o: Outcome, s: Store, tries: Tries, i: nat)
    requires i < TRIES
    ensures AfterTries(o, s, tries, i).ram[s.address := tries[i].left] == AfterTries(o, s, tries, i + 1).ram
    ensures AfterTries(o, s, tries, i).log + [s] == AfterTries(o, s, tries, i + 1).log
  {
    SentOneMore(o.log, s, i);
    assert Sent(o.log, s, 0) == o.log;
  }

  function TryStore(o: Outcome, s: Store, tries: Tries): Outcome {
    AfterTries(o, s, tries, Final(s.value, tries) + 1)
  }

  /** The first `n` writes of the plan; the first that fails ends them. */
  function Repair(start: Outcome, plan: seq<Store>, writes: seq<Tries>, n: nat): Outcome
    requires n <= |plan| == |writes|
  {
    if n == 0 then start
    else
      var o := Repair(start, plan, writes, n - 1);
      if o.status != 0 then o else TryStore(o, plan[n - 1], writes[n - 1])
  }

  function RunSetRomId(start: Outcome, rom: RomBytes, w: World): Outcome
    requires IsWorld(w)
  {
    match Inspect(start.ram, rom, w.oks, 0)
    case Unreadable => start.(status := -EIO)
    case Right => start
    case Wrong => Repair(start, Plan(rom), w.writes, ROMID_SIZE + 2)
  }

  /** Before a run, with nothing written yet. */
  function Fresh(ram: Ram): Outcome {
    Outcome(ram, 0, [])
  }

  lemma {:induction false} FailureEndsRepair(start: Outcome, plan: seq<Store>, writes: seq<Tries>, n: nat, m: nat)
    requires n <= m <= |plan| == |writes|
    requires Repair(start, plan, writes, n).status != 0
    ensures Repair(start, plan, writes, m) == Repair(start, plan, writes, n)
  {
    if n < m {
      FailureEndsRepair(start, plan, writes, n, m - 1);
    }
  }

  // ---------------------------------------------------------------------------------------------
  // The driver
  // ---------------------------------------------------------------------------------------------

  class Ec {
    var ram: Ram
    /** Every write that was sent. */
    ghost var log: seq<Store>

    constructor (ram: Ram)
      ensures this.ram == ram && log == []
    {
      this.ram := ram;
      log := [];
    }

    method Read(a: Address, ok: bool) returns (status: int, data: Byte)
      ensures status == (if ok then 0 else -EIO)
      ensures ok ==> data == ram[a]
    {
      if ok {
        return 0, ram[a];
      }
      return -EIO, 0;
    }

    method Write(a: Address, b: Byte, t: Attempt) returns (status: int)
      modifies this
      ensures status == (if t.writeOk then 0 else -EIO)
      ensures ram == old(ram)[a := t.left] && log == old(log) + [Store(a, b)]
    {
      ram := ram[a := t.left];
      log := log + [Store(a, b)];
      status := if t.writeOk then 0 else -EIO;
    }

    /** uniwill_read_ec_ram_with_retry: gives the byte if any of the tries works, and fails otherwise. */
    method ReadWithRetry(a: Address, oks: seq<bool>) returns (status: int, data: Byte)
      requires oks != []
      ensures status == (if true in oks then 0 else -EIO)
      ensures status == 0 ==> data == ram[a]
    {
      status, data := -EIO, 0;
      for i := 0 to |oks|
        invariant status == -EIO && true !in oks[..i]
      {
        status, data := Read(a, oks[i]);
        if status == 0 {
          return;
        }
      }
      assert oks[..|oks|] == oks;
    }

    /** One pass of the loop of uniwill_write_ec_ram_with_retry; if done, the loop ends here. */
    method WriteOnce(a: Address, b: Byte, t: Attempt) returns (status: int, done: bool)
      modifies this
      ensures status == StatusOf(t) && (done <==> Clean(b, t))
      ensures ram == old(ram)[a := t.left] && log == old(log) + [Store(a, b)]
    {
      status := Write(a, b, t);
      if status != 0 {
        return status, false;
      }
      var control;
      status, control := Read(a, t.readOk);
      done := status == 0 && b == control;
    }

    method WriteWithRetry(a: Address, b: Byte, tries: Tries) returns (status: int)
      modifies this
      ensures Outcome(ram, status, log) == TryStore(Outcome(old(ram), 0, old(log)), Store(a, b), tries)
    {
      ghost var start, s := Outcome(ram, 0, log), Store(a, b);
      var done;
      status := 0;
      for i := 0 to TRIES
        invariant forall j :: 0 <= j < i ==> !Clean(b, tries[j])
        invariant Outcome(ram, status, log) == AfterTries(start, s, tries, i)
      {
        OneMoreTry(start, s, tries, i);
        status, done := WriteOnce(a, b, tries[i]);
        if done {
          assert Final(b, tries) == i;
          return;
        }
      }
    }

    /** Its first two writes. */
    method RewriteSpecial(rom: RomBytes, w: World) returns (status: int)
      requires IsWorld(w)
      modifies this
      ensures Outcome(ram, status, log) == Repair(Outcome(old(ram), 0, old(log)), Plan(rom), w.writes, 2)
    {
      ghost var start, plan := Outcome(ram, 0, log), Plan(rom);
      status := WriteWithRetry(ROMID_SPECIAL_1, 0xa5, w.writes[0]);
      assert Outcome(ram, status, log) == Repair(start, plan, w.writes, 1) by {
        assert Repair(start, plan, w.writes, 0) == start;
      }
      if status != 0 {
        FailureEndsRepair(start, plan, w.writes, 1, 2);
        return;
      }
      status := WriteWithRetry(ROMID_SPECIAL_2, 0x78, w.writes[1]);
    }

    /** The repair of set_rom_id. */
    method Rewrite(rom: RomBytes, w: World) returns (status: int)
      requires IsWorld(w)
      modifies this
      ensures Outcome(ram, status, log) == Repair(Outcome(old(ram), 0, old(log)), Plan(rom), w.writes, ROMID_SIZE + 2)
    {
      ghost var start, plan := Outcome(ram, 0, log), Plan(rom);
      status := RewriteSpecial(rom, w);
      if status != 0 {
        FailureEndsRepair(start, plan, w.writes, 2, ROMID_SIZE + 2);
        return;
      }
      for i := 0 to ROMID_SIZE
        invariant status == 0 && Outcome(ram, 0, log) == Repair(start, plan, w.writes, i + 2)
      {
        assert plan[i + 2] == Store(ROMID_START + i, rom[i]);
        status := WriteWithRetry(ROMID_START + i, rom[i], w.writes[i + 2]);
        if status != 0 {
          FailureEndsRepair(start, plan, w.writes, i + 3, ROMID_SIZE + 2);
          return;
        }
      }
    }

    /** set_rom_id on a device with a known identification. */
    method SetRomId(rom: RomBytes, w: World) returns (status: int)
      requires IsWorld(w)
      modifies this
      ensures Outcome(ram, status, log) == RunSetRomId(Outcome(old(ram), 0, old(log)), rom, w)
    {
      var romidFalse := false;
      var data;
      for i := 0 to ROMID_SIZE
        invariant Inspect(ram, rom, w.oks, 0) == Inspect(ram, rom, w.oks, i)
        invariant ram == old(ram) && log == old(log)
      {
        status, data := ReadWithRetry(ROMID_START + i, w.oks[i]);
        if status != 0 {
          return;
        }
        if data != rom[i] {
          romidFalse := true;
          break;
        }
      }
      if romidFalse {
        status := Rewrite(rom, w);
      } else {
        status := 0;
      }
    }
  }

  // ---------------------------------------------------------------------------------------------
  // What it achieves
  // ---------------------------------------------------------------------------------------------

  /** Every read of the inspection works within its tries. */
  ghost predicate Readable(w: World)
    requires IsWorld(w)
  {
    forall i :: 0 <= i < ROMID_SIZE ==> true in w.oks[i]
  }

  ghost predicate RomIs(ram: Ram, rom: RomBytes) {
    forall i :: 0 <= i < ROMID_SIZE ==> ram[ROMID_START + i] == rom[i]
  }

  /** Where the first `n` writes leave the memory, if they all report success. */
  ghost predicate Left(o: Outcome, plan: seq<Store>, writes: seq<Tries>, n: nat)
    requires n <= |plan| == |writes|
  {
    forall i :: 0 <= i < n ==> o.ram[plan[i].address] == writes[i][Final(plan[i].value, writes[i])].left
  }

  ghost predicate AllReported(plan: seq<Store>, writes: seq<Tries>, n: nat)
    requires n <= |plan| == |writes|
  {
    forall i :: 0 <= i < n ==> StatusOf(writes[i][Final(plan[i].value, writes[i])]) == 0
  }

  lemma StoreKeepsLeft(o: Outcome, plan: seq<Store>, writes: seq<Tries>, n: nat)
    requires n < |plan| == |writes|
    requires Left(o, plan, writes, n)
    requires forall i :: 0 <= i < n ==> plan[i].address != plan[n].address
    ensures Left(TryStore(o, plan[n], writes[n]), plan, writes, n + 1)
  {
  }

  lemma {:induction false} RepairOutcome(ram: Ram, plan: seq<Store>, writes: seq<Tries>, n: nat)
    requires n <= |plan| == |writes|
    requires forall i, j :: 0 <= i < j < |plan| ==> plan[i].address != plan[j].address
    ensures var o := Repair(Fresh(ram), plan, writes, n);
            && (o.status == 0 <==> AllReported(plan, writes, n))
            && (o.status == 0 ==> Left(o, plan, writes, n))
  {
    if n > 0 {
      RepairOutcome(ram, plan, writes, n - 1);
      var o := Repair(Fresh(ram), plan, writes, n - 1);
      if o.status == 0 {
        StoreKeepsLeft(o, plan, writes, n - 1);
      }
    }
  }

  lemma {:induction false} RepairFrame(ram: Ram, rom: RomBytes, w: World, n: nat, a: Address)
    requires n <= ROMID_SIZE + 2 && IsWorld(w)
    requires !(ROMID_START <= a <= ROMID_SPECIAL_2)
    ensures Repair(Fresh(ram), Plan(rom), w.writes, n).ram[a] == ram[a]
  {
    if n > 0 {
      RepairFrame(ram, rom, w, n - 1, a);
      if n > 2 {
        assert Plan(rom)[n - 3 + 2] == Store(ROMID_START + (n - 3), rom[n - 3]);
      }
    }
  }

  lemma {:induction false} CountRepeated(log: seq<Store>, s: Store, n: nat, a: Address)
    ensures CountTo(Sent(log, s, n), a) == CountTo(log, a) + (if s.address == a then n else 0)
  {
    if n == 0 {
      assert Sent(log, s, 0) == log;
    } else {
      CountRepeated(log, s, n - 1, a);
      SentOneMore(log, s, n - 1);
    }
  }

  lemma {:induction false} RepairCounts(ram: Ram, rom: RomBytes, w: World, n: nat, a: Address)
    requires n <= ROMID_SIZE + 2 && IsWorld(w)
    ensures var log := Repair(Fresh(ram), Plan(rom), w.writes, n).log;
            && CountTo(log, a) <= TRIES
            && ((forall i :: 0 <= i < n ==> Plan(rom)[i].address != a) ==> CountTo(log, a) == 0)
  {
    if n > 0 {
      RepairCounts(ram, rom, w, n - 1, a);
      var plan, before := Plan(rom), Repair(Fresh(ram), Plan(rom), w.writes, n - 1);
      CountRepeated(before.log, plan[n - 1], Final(plan[n - 1].value, w.writes[n - 1]) + 1, a);
    }
  }

  lemma PlanAddresses(rom: RomBytes, i: nat)
    requires i < ROMID_SIZE + 2
    ensures ROMID_START <= Plan(rom)[i].address <= ROMID_SPECIAL_2
  {
    assert i >= 2 ==> Plan(rom)[i - 2 + 2] == Store(ROMID_START + (i - 2), rom[i - 2]);
  }

  /** Whatever the connection does: nothing outside the identification and its two special bytes changes or
      is ever written, and no byte is written more than three times. */
  lemma OnlyRomBytesAtMostThrice(ram: Ram, rom: RomBytes, w: World, a: Address)
    requires IsWorld(w)
    ensures var o := RunSetRomId(Fresh(ram), rom, w);
            && CountTo(o.log, a) <= 3
            && (!(0x0770 <= a <= 0x077f) ==> o.ram[a] == ram[a] && CountTo(o.log, a) == 0)
  {
    RepairCounts(ram, rom, w, ROMID_SIZE + 2, a);
    if !(ROMID_START <= a <= ROMID_SPECIAL_2) {
      RepairFrame(ram, rom, w, ROMID_SIZE + 2, a);
      forall i | 0 <= i < ROMID_SIZE + 2 ensures Plan(rom)[i].address != a {
        PlanAddresses(rom, i);
      }
    }
  }

  /** If each byte can be read in three tries, and written with a matching read-back in three tries, the
      repair succeeds and the identification is right afterwards. */
  lemma SucceedsOnAFairConnection(ram: Ram, rom: RomBytes, w: World)
    requires IsWorld(w) && Readable(w)
    requires forall i :: 0 <= i < ROMID_SIZE + 2 ==> HasClean(Plan(rom)[i].value, w.writes[i])
    ensures var o := RunSetRomId(Fresh(ram), rom, w); o.status == 0 && RomIs(o.ram, rom)
    ensures !RomIs(ram, rom) ==>
              var o := RunSetRomId(Fresh(ram), rom, w);
              o.ram[ROMID_SPECIAL_1] == 0xa5 && o.ram[ROMID_SPECIAL_2] == 0x78
  {
    forall i | 0 <= i < ROMID_SIZE + 2
      ensures var t := w.writes[i][Final(Plan(rom)[i].value, w.writes[i])];
              StatusOf(t) == 0 && t.left == Plan(rom)[i].value
    {
      RetryOutcome(Plan(rom)[i].value, w.writes[i]);
    }
    RepairOutcome(ram, Plan(rom), w.writes, ROMID_SIZE + 2);
    if Inspect(ram, rom, w.oks, 0).Wrong? {
      var o := Repair(Fresh(ram), Plan(rom), w.writes, ROMID_SIZE + 2);
      forall i | 0 <= i < ROMID_SIZE ensures o.ram[ROMID_START + i] == rom[i] {
        assert o.ram[Plan(rom)[i + 2].address] == rom[i];
      }
      assert o.ram[Plan(rom)[0].address] == 0xa5 && o.ram[Plan(rom)[1].address] == 0x78;
    } else {
      forall i | 0 <= i < ROMID_SIZE ensures ram[ROMID_START + i] == rom[i] {
        assert RomByteOk(ram, rom, w.oks, i);
      }
    }
  }

  /** The `i`-th byte can be read and is wrong, and all before it can be read and are right. */
  predicate FirstWrong(ram: Ram, rom: RomBytes, oks: seq<seq<bool>>, i: nat)
    requires i < ROMID_SIZE <= |oks|
  {
    && true in oks[i] && ram[0x0770 + i] != rom[i]
    && forall j :: 0 <= j < i ==> true in oks[j] && ram[0x0770 + j] == rom[j]
  }

  lemma {:induction false} WrongExactly(ram: Ram, rom: RomBytes, oks: seq<seq<bool>>, i: nat)
    requires i <= ROMID_SIZE <= |oks|
    requires forall j :: 0 <= j < i ==> true in oks[j] && ram[0x0770 + j] == rom[j]
    ensures Inspect(ram, rom, oks, i).Wrong? <==> exists k :: 0 <= k < ROMID_SIZE && FirstWrong(ram, rom, oks, k)
    decreases ROMID_SIZE - i
  {
    if i < ROMID_SIZE {
      if RomByteOk(ram, rom, oks, i) {
        WrongExactly(ram, rom, oks, i + 1);
      } else if true in oks[i] {
        assert FirstWrong(ram, rom, oks, i);
      }
    }
  }

  /** set_rom_id writes only after it has read a wrong byte behind right ones. Otherwise it changes nothing,
      and fails exactly if some byte cannot be read. */
  lemma WritesOnlyWhenWrong(ram: Ram, rom: RomBytes, w: World)
    requires IsWorld(w)
    requires forall k :: 0 <= k < ROMID_SIZE ==> !FirstWrong(ram, rom, w.oks, k)
    ensures var o := RunSetRomId(Fresh(ram), rom, w);
            && o.log == [] && o.ram == ram
            && o.status == (if forall i :: 0 <= i < ROMID_SIZE ==> true in w.oks[i] then 0 else -5)
  {
    WrongExactly(ram, rom, w.oks, 0);
    if Inspect(ram, rom, w.oks, 0).Right? {
      forall i | 0 <= i < ROMID_SIZE ensures true in w.oks[i] {
        assert RomByteOk(ram, rom, w.oks, i);
      }
    }
  }

  /** And then it does write, the first special byte first. */
  lemma {:induction false} WritesWhenWrong(ram: Ram, rom: RomBytes, w: World, k: nat)
    requires IsWorld(w) && k < ROMID_SIZE && FirstWrong(ram, rom, w.oks, k)
    ensures var log := RunSetRomId(Fresh(ram), rom, w).log; log != [] && log[0] == Store(0x077e, 0xa5)
  {
    WrongExactly(ram, rom, w.oks, 0);
    FirstStoreStays(ram, rom, w, ROMID_SIZE + 2);
  }

  lemma {:induction false} FirstStoreStays(ram: Ram, rom: RomBytes, w: World, n: nat)
    requires IsWorld(w) && 0 < n <= ROMID_SIZE + 2
    ensures var log := Repair(Fresh(ram), Plan(rom), w.writes, n).log; log != [] && log[0] == Store(0x077e, 0xa5)
  {
    if n > 1 {
      FirstStoreStays(ram, rom, w, n - 1);
    } else {
      assert Repair(Fresh(ram), Plan(rom), w.writes, 0) == Fresh(ram);
    }
  }

  /** Once the identification is right, running again over a connection that can read writes nothing. */
  lemma SecondRunWritesNothing(ram: Ram, rom: RomBytes, w: World, again: World)
    requires IsWorld(w) && IsWorld(again) && Readable(again)
    requires RomIs(RunSetRomId(Fresh(ram), rom, w).ram, rom)
    ensures var o := RunSetRomId(Fresh(ram), rom, w);
            RunSetRomId(Fresh(o.ram), rom, again) == Fresh(o.ram)
  {
    var after := RunSetRomId(Fresh(ram), rom, w).ram;
    forall i | 0 <= i < ROMID_SIZE ensures RomByteOk(after, rom, again.oks, i) {
    }
  }

  /** set_rom_id reports success over a wrong identification exactly when it started a repair in which every
      one of the 16 writes reported success and at least one ROM byte failed silently. */
  lemma SilentFailureExactly(ram: Ram, rom: RomBytes, w: World)
    requires IsWorld(w)
    ensures var o := RunSetRomId(Fresh(ram), rom, w);
            o.status == 0 && !RomIs(o.ram, rom) <==>
            && Inspect(ram, rom, w.oks, 0).Wrong?
            && (forall i :: 0 <= i < ROMID_SIZE + 2 ==>
                  HasClean(Plan(rom)[i].value, w.writes[i]) || FailsSilently(Plan(rom)[i].value, w.writes[i]))
            && (exists i :: 0 <= i < ROMID_SIZE && FailsSilently(rom[i], w.writes[i + 2]))
  {
    var found := Inspect(ram, rom, w.oks, 0);
    if found.Right? {
      forall i | 0 <= i < ROMID_SIZE ensures ram[ROMID_START + i] == rom[i] {
        assert RomByteOk(ram, rom, w.oks, i);
      }
    } else if found.Wrong? {
      SilentRepairExactly(ram, rom, w);
    }
  }

  lemma SilentRepairExactly(ram: Ram, rom: RomBytes, w: World)
    requires IsWorld(w)
    ensures var o := Repair(Fresh(ram), Plan(rom), w.writes, ROMID_SIZE + 2);
            o.status == 0 && !RomIs(o.ram, rom) <==>
            && (forall i :: 0 <= i < ROMID_SIZE + 2 ==>
                  HasClean(Plan(rom)[i].value, w.writes[i]) || FailsSilently(Plan(rom)[i].value, w.writes[i]))
            && (exists i :: 0 <= i < ROMID_SIZE && FailsSilently(rom[i], w.writes[i + 2]))
  {
    var plan := Plan(rom);
    var o := Repair(Fresh(ram), plan, w.writes, ROMID_SIZE + 2);
    RepairOutcome(ram, Plan(rom), w.writes, ROMID_SIZE + 2);
    forall i | 0 <= i < ROMID_SIZE + 2
      ensures var t := w.writes[i][Final(plan[i].value, w.writes[i])];
              && (StatusOf(t) == 0 && t.left != plan[i].value <==> FailsSilently(plan[i].value, w.writes[i]))
              && (StatusOf(t) == 0 && t.left == plan[i].value <==> HasClean(plan[i].value, w.writes[i]))
    {
      RetryOutcome(plan[i].value, w.writes[i]);
    }
    if o.status == 0 {
      forall i | 0 <= i < ROMID_SIZE
        ensures o.ram[ROMID_START + i] != rom[i] <==> FailsSilently(rom[i], w.writes[i + 2])
      {
        assert plan[i + 2] == Store(ROMID_START + i, rom[i]);
      }
    }
  }

  /** A connection that reads everything and writes everything cleanly, except that one ROM byte is never
      taken. */
  function FaultyWorld(rom: RomBytes): World {
    World(seq(ROMID_SIZE, _ => [true, true, true]), FaultyWrites(rom, ROMID_SIZE + 2))
  }

  function FaultyWrites(rom: RomBytes, n: nat): (w: seq<Tries>)
    requires n <= ROMID_SIZE + 2
    ensures |w| == n && forall i :: 0 <= i < n ==> w[i] == FaultyTries(rom, i)
  {
    if n == 0 then [] else FaultyWrites(rom, n - 1) + [FaultyTries(rom, n - 1)]
  }

  function FaultyTries(rom: RomBytes, i: nat): Tries
    requires i < ROMID_SIZE + 2
  {
    var t := Attempt(true, if i == 2 then !rom[0] else Plan(rom)[i].value, true);
    [t, t, t]
  }

  /** It happens: over such a connection a wrong first byte is reported as repaired and is not. */
  lemma SilentFailureHappens(ram: Ram, rom: RomBytes) returns (w: World)
    requires ram[ROMID_START] != rom[0]
    ensures IsWorld(w) && RunSetRomId(Fresh(ram), rom, w).status == 0
    ensures !RomIs(RunSetRomId(Fresh(ram), rom, w).ram, rom)
  {
    w := FaultyWorld(rom);
    assert Inspect(ram, rom, w.oks, 0).Wrong?;
    assert Plan(rom)[0 + 2] == Store(ROMID_START + 0, rom[0]);
    NotItself(rom[0]);
    forall i | 0 <= i < ROMID_SIZE + 2
      ensures if i == 2 then FailsSilently(Plan(rom)[i].value, w.writes[i])
              else HasClean(Plan(rom)[i].value, w.writes[i])
    {
      assert w.writes[i][0].writeOk && w.writes[i][2].readOk;
    }
    SilentFailureExactly(ram, rom, w);
  }

  lemma NotItself(b: Byte)
    ensures !b != b
  {
  }

  /** On a reliable connection writing with retries is a single plain write. */
  lemma ReliableRetryIsOneWrite(ram: Ram, s: Store, tries: Tries)
    requires Clean(s.value, tries[0])
    ensures TryStore(Fresh(ram), s, tries) == Outcome(ram[s.address := s.value], 0, [s])
  {
    SentOneMore([], s, 0);
    assert Sent([], s, 0) == [];
  }
}
