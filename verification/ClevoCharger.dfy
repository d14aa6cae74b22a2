/** Charge thresholds of Clevo devices: requested percentages go to the nearest value the firmware knows,
    through one of two firmware interfaces that set start, end and on/off status all at once.

    The driver packs words with shifts and ors of disjoint bytes; here these are products and sums. */
module ClevoCharger {
  import opened Common

  type u32 = x: int | 0 <= x < 0x1_0000_0000

  const EIO := 5
  const EINVAL := 22
  const ENODEV := 19

  // ---------------------------------------------------------------------------------------------
  // Nearest value
  // ---------------------------------------------------------------------------------------------

  const START_VALUES: seq<u8> := [40, 50, 60, 70, 80, 95]
  const END_VALUES: seq<u8> := [60, 70, 80, 90, 100]

  function Distance(v: u8, w: u8): nat {
    if v < w then w - v else v - w
  }

  /** The first index at minimal distance. */
  predicate IsClosest(value: u8, haystack: seq<u8>, k: nat) {
    && k < |haystack|
    && (forall i :: 0 <= i < |haystack| ==> Distance(value, haystack[k]) <= Distance(value, haystack[i]))
    && (forall i :: 0 <= i < k ==> Distance(value, haystack[k]) < Distance(value, haystack[i]))
  }

  function ClosestIndex(value: u8, haystack: seq<u8>): (k: nat)
    requires haystack != []
    ensures IsClosest(value, haystack, k)
  {
    var n := |haystack| - 1;
    if n == 0 then 0
    else
      var k := ClosestIndex(value, haystack[..n]);
      if Distance(value, haystack[n]) < Distance(value, haystack[k]) then n else k
  }

  function Closest(value: u8, haystack: seq<u8>): u8
    requires haystack != []
  {
    haystack[ClosestIndex(value, haystack)]
  }

  method ArrayFindClosest(value: u8, haystack: seq<u8>) returns (r: int)
    ensures haystack == [] ==> r == -EINVAL
    ensures haystack != [] ==> r == Closest(value, haystack)
  {
    if |haystack| == 0 {
      return -EINVAL;
    }
    var closest := haystack[0];
    ghost var k := 0;
    for i := 0 to |haystack|
      invariant k < |haystack| && closest == haystack[k] && (k < i || k == 0)
      invariant forall j :: 0 <= j < i ==> Distance(value, closest) <= Distance(value, haystack[j])
      invariant forall j :: 0 <= j < k ==> Distance(value, closest) < Distance(value, haystack[j])
    {
      if Distance(value, haystack[i]) < Distance(value, closest) {
        closest := haystack[i];
        k := i;
      }
    }
    ClosestIsUnique(value, haystack, k, ClosestIndex(value, haystack));
    return closest;
  }

  lemma ClosestIsUnique(value: u8, haystack: seq<u8>, k: nat, l: nat)
    requires IsClosest(value, haystack, k) && IsClosest(value, haystack, l)
    ensures k == l
  {
    assert Distance(value, haystack[k]) == Distance(value, haystack[l]);
  }

  /** In plain numbers: no member is nearer, neither above nor below. */
  lemma ClosestIsNearest(value: u8, haystack: seq<u8>, i: nat)
    requires i < |haystack|
    ensures var c, x := Closest(value, haystack), haystack[i];
            && c in haystack
            && (c >= value && x >= value ==> c <= x)
            && (c <= value && x <= value ==> c >= x)
            && (c >= value && x <= value ==> c - value <= value - x)
            && (c <= value && x >= value ==> value - c <= x - value)
  {
    var k := ClosestIndex(value, haystack);
    assert Distance(value, haystack[k]) <= Distance(value, haystack[i]);
  }

  /** The values that stores can leave, and those of the least and the greatest percentage. */
  lemma StoredThresholds(percent: u8)
    ensures Closest(percent, START_VALUES) in [40, 50, 60, 70, 80, 95]
    ensures Closest(percent, END_VALUES) in [60, 70, 80, 90, 100]
    ensures percent <= 40 ==> Closest(percent, START_VALUES) == 40 && Closest(percent, END_VALUES) == 60
    ensures percent >= 95 ==> Closest(percent, START_VALUES) == 95
    ensures percent >= 100 ==> Closest(percent, END_VALUES) == 100
  {
    ClosestIsNearest(percent, START_VALUES, 0);
    ClosestIsNearest(percent, START_VALUES, 5);
    ClosestIsNearest(percent, END_VALUES, 0);
    ClosestIsNearest(percent, END_VALUES, 4);
  }

  /** A value in the haystack is its own nearest value, so that taking the nearest twice is taking it once. */
  lemma ClosestIsIdempotent(value: u8, haystack: seq<u8>)
    requires haystack != []
    ensures value in haystack ==> Closest(value, haystack) == value
    ensures Closest(Closest(value, haystack), haystack) == Closest(value, haystack)
  {
    if value in haystack {
      MemberIsClosest(value, haystack);
    }
    MemberIsClosest(Closest(value, haystack), haystack);
  }

  lemma MemberIsClosest(value: u8, haystack: seq<u8>)
    requires haystack != [] && value in haystack
    ensures Closest(value, haystack) == value
  {
    var i :| 0 <= i < |haystack| && haystack[i] == value;
    assert Distance(value, haystack[ClosestIndex(value, haystack)]) <= Distance(value, haystack[i]) == 0;
  }

  /** A greater request never ends up lower, in whatever order the haystack is. */
  lemma ClosestIsMonotone(v: u8, w: u8, haystack: seq<u8>)
    requires haystack != [] && v <= w
    ensures Closest(v, haystack) <= Closest(w, haystack)
  {
    var k, l := ClosestIndex(v, haystack), ClosestIndex(w, haystack);
    assert Distance(v, haystack[k]) <= Distance(v, haystack[l]);
    assert Distance(w, haystack[l]) <= Distance(w, haystack[k]);
  }

  // ---------------------------------------------------------------------------------------------
  // The firmware
  // ---------------------------------------------------------------------------------------------

  datatype Kind = Legacy | Cc4

  /** `high` is a byte of the legacy status word that the driver ignores, as are all but the lowest bit of
      the legacy status byte. */
  datatype Device = Device(kind: Kind, start: u8, end: u8, status: u8, high: u8) {
    function LegacyWord(): u32 {
      high * 0x100_0000 + end * 0x1_0000 + start * 0x100 + status
    }

    /** Command 0x76: subcommand 6 sets both thresholds, subcommand 5 the lowest status bit. */
    function LegacyCommand(word: u32): Device {
      if word / 0x100_0000 == 0x06 then this.(start := word % 0x100, end := word / 0x100 % 0x100)
      else if word / 0x100_0000 == 0x05 then this.(status := status / 2 * 2 + word % 2)
      else this
    }

    function Visible(): Settings {
      Settings(start, end, if kind.Cc4? then status else status % 2)
    }

    /** The newer interface reports no device if both thresholds are 0. */
    predicate Answers() {
      kind.Cc4? ==> start != 0 || end != 0
    }
  }

  datatype Settings = Settings(start: u8, end: u8, status: u8)

  /** Which firmware calls work: the probe for the newer interface, the read, and up to two writes. */
  datatype Calls = Calls(probe: bool, read: bool, write1: bool, write2: bool)

  /** The settings to write: those given, and for the rest those read. */
  datatype Params = Params(start: Option<u8>, end: Option<u8>, status: Option<u8>)

  function Or(p: Option<u8>, previous: u8): u8 {
    if p.Some? then p.value else previous
  }

  predicate Reads(d: Device, calls: Calls) {
    d.Answers() && calls.read && (d.kind.Cc4? ==> calls.probe)
  }

  function ThresholdsWord(start: u8, end: u8): u32 {
    var s: int, e: int := start, end;
    0x600_0000 + e * 0x100 + s
  }

  function StatusWord(status: u8): u32 {
    var s: int := status;
    0x500_0000 + s % 2
  }

  lemma ThresholdsCommand(d: Device, start: u8, end: u8)
    ensures d.LegacyCommand(ThresholdsWord(start, end)) == d.(start := start, end := end)
  {
    var e: int := end;
    assert ThresholdsWord(start, end) / 0x100 == 0x6_0000 + e;
  }

  lemma StatusCommand(d: Device, status: u8)
    ensures d.LegacyCommand(StatusWord(status)) == d.(status := d.status / 2 * 2 + status % 2)
  {
  }

  lemma LegacyWordParts(d: Device)
    ensures d.LegacyWord() / 0x100 % 0x100 == d.start
    ensures d.LegacyWord() / 0x1_0000 % 0x100 == d.end
    ensures d.LegacyWord() % 2 == d.status % 2
    ensures d.LegacyWord() / 0x100 % 0x1_0000 == d.end * 0x100 + d.start
  {
    var h: int, e: int, s: int, t: int := d.high, d.end, d.start, d.status;
    assert d.LegacyWord() / 0x100 == h * 0x1_0000 + e * 0x100 + s;
    assert d.LegacyWord() / 0x1_0000 == h * 0x100 + e;
    assert (h * 0x1_0000 + e * 0x100 + s) % 0x100 == s;
    assert (h * 0x1_0000 + e * 0x100 + s) % 0x1_0000 == e * 0x100 + s;
    assert (h * 0x100 + e) % 0x100 == e;
  }

  lemma ProbeWritesWhatItRead(d: Device)
    ensures d.LegacyCommand(0x600_0000 + d.LegacyWord() / 0x100 % 0x1_0000) == d
  {
    LegacyWordParts(d);
    ThresholdsCommand(d, d.start, d.end);
  }

  // ---------------------------------------------------------------------------------------------
  // Stores
  // ---------------------------------------------------------------------------------------------

  /** What a write does. The legacy interface takes the thresholds first; if the second call then fails
      they stay set although the write reports an error. */
  function WriteOutcome(d: Device, p: Params, calls: Calls): (Device, int) {
    var v := d.Visible();
    if !Reads(d, calls) || !calls.write1 then (d, -EIO)
    else
      var e := d.(start := Or(p.start, v.start), end := Or(p.end, v.end));
      if d.kind.Cc4? then (e.(status := Or(p.status, v.status)), 0)
      else if !calls.write2 then (e, -EIO)
      else (e.(status := d.status / 2 * 2 + Or(p.status, v.status) % 2), 0)
  }

  datatype Request = Start(percent: u8) | End(percent: u8) | Custom(on: bool)

  function Perform(d: Device, r: Request, calls: Calls): (Device, int) {
    if !r.Custom? && (r.percent < 1 || r.percent > 100) then (d, -EINVAL)
    else WriteOutcome(d, ParamsOf(r), calls)
  }

  function ParamsOf(r: Request): Params {
    match r
    case Start(p) => Params(Some(Closest(p, START_VALUES)), None, None)
    case End(p) => Params(None, Some(Closest(p, END_VALUES)), None)
    case Custom(on) => Params(None, None, Some(if on then 1 else 0))
  }

  /** The visible settings with the requested one in place. */
  function Requested(s: Settings, r: Request): Settings {
    match r
    case Start(p) => s.(start := Closest(p, START_VALUES))
    case End(p) => s.(end := Closest(p, END_VALUES))
    case Custom(on) => s.(status := if on then 1 else 0)
  }

  /** On either interface a store that reports success has set the requested setting to the nearest value
      and left the other two alone; one that fails has done so too or has done nothing. */
  lemma StoreSetsOne(d: Device, r: Request, calls: Calls)
    ensures var (e, result) := Perform(d, r, calls);
            && (result == 0 ==> e.Visible() == Requested(d.Visible(), r))
            && (result != 0 ==> e.Visible() == d.Visible() || e.Visible() == Requested(d.Visible(), r))
            && e.kind == d.kind && (d.Answers() ==> e.Answers())
  {
    var s := d.status;
    assert (s / 2 * 2 + s % 2 % 2) % 2 == s % 2;
    TableValuesAreNotZero(r);
  }

  /** The same, setting by setting. */
  lemma SuccessfulStore(d: Device, r: Request, calls: Calls)
    requires Perform(d, r, calls).1 == 0
    ensures var s, t := d.Visible(), Perform(d, r, calls).0.Visible();
            && (r.Start? ==> t.start == Closest(r.percent, START_VALUES) && t.end == s.end && t.status == s.status)
            && (r.End? ==> t.end == Closest(r.percent, END_VALUES) && t.start == s.start && t.status == s.status)
            && (r.Custom? ==> t.status == (if r.on then 1 else 0) && t.start == s.start && t.end == s.end)
  {
    StoreSetsOne(d, r, calls);
  }

  lemma TableValuesAreNotZero(r: Request)
    ensures r.Start? ==> Closest(r.percent, START_VALUES) >= 40
    ensures r.End? ==> Closest(r.percent, END_VALUES) >= 60
  {
    if r.Start? {
      assert Closest(r.percent, START_VALUES) in START_VALUES;
    }
    if r.End? {
      assert Closest(r.percent, END_VALUES) in END_VALUES;
    }
  }

  /** A store succeeds exactly when its value is a percentage, the device answers and the calls work. */
  lemma StoreSucceedsExactly(d: Device, r: Request, calls: Calls)
    ensures Perform(d, r, calls).1 == 0 <==>
            && (r.Custom? || 1 <= r.percent <= 100)
            && Reads(d, calls) && calls.write1 && (d.kind.Legacy? ==> calls.write2)
  {
  }

  datatype Attempt = Attempt(request: Request, calls: Calls)

  function After(d: Device, attempts: seq<Attempt>): Device {
    if attempts == [] then d
    else
      var a := attempts[|attempts| - 1];
      Perform(After(d, attempts[..|attempts| - 1]), a.request, a.calls).0
  }

  predicate SameSetting(r: Request, q: Request) {
    (r.Start? <==> q.Start?) && (r.End? <==> q.End?)
  }

  /** The setting that a request is about. */
  function SettingOf(s: Settings, r: Request): u8 {
    match r case Start(_) => s.start case End(_) => s.end case Custom(_) => s.status
  }

  /** What a successful store sets its setting to. */
  function ValueOf(r: Request): u8 {
    match r
    case Start(p) => Closest(p, START_VALUES)
    case End(p) => Closest(p, END_VALUES)
    case Custom(on) => if on then 1 else 0
  }

  lemma AfterOneMore(d: Device, attempts: seq<Attempt>, a: Attempt)
    ensures After(d, attempts + [a]) == Perform(After(d, attempts), a.request, a.calls).0
  {
    assert (attempts + [a])[..|attempts|] == attempts;
  }

  lemma StoreKeepsOwn(d: Device, a: Attempt)
    requires Perform(d, a.request, a.calls).1 == 0
    ensures SettingOf(Perform(d, a.request, a.calls).0.Visible(), a.request) == ValueOf(a.request)
  {
    StoreSetsOne(d, a.request, a.calls);
  }

  lemma OtherStoreKeeps(d: Device, r: Request, a: Attempt)
    requires !SameSetting(r, a.request)
    ensures SettingOf(Perform(d, a.request, a.calls).0.Visible(), r) == SettingOf(d.Visible(), r)
  {
    StoreSetsOne(d, a.request, a.calls);
  }

  /** A setting stored successfully keeps its value over every later history of stores to the other two,
      failed ones included. */
  lemma {:induction false} StoredSettingStays(d: Device, before: seq<Attempt>, a: Attempt, later: seq<Attempt>)
    requires Perform(After(d, before), a.request, a.calls).1 == 0
    requires forall i :: 0 <= i < |later| ==> !SameSetting(a.request, later[i].request)
    ensures SettingOf(After(d, before + [a] + later).Visible(), a.request) == ValueOf(a.request)
  {
    if later == [] {
      assert before + [a] + later == before + [a];
      AfterOneMore(d, before, a);
      StoreKeepsOwn(After(d, before), a);
    } else {
      var front, last := later[..|later| - 1], later[|later| - 1];
      assert before + [a] + later == before + [a] + front + [last];
      StoredSettingStays(d, before, a, front);
      AfterOneMore(d, before + [a] + front, last);
      OtherStoreKeeps(After(d, before + [a] + front), a.request, last);
    }
  }

  // ---------------------------------------------------------------------------------------------
  // The driver
  // ---------------------------------------------------------------------------------------------

  class Charger {
    var dev: Device

    method Evaluate77(ok: bool) returns (result: int, data: u32)
      ensures result == if ok && dev.kind.Legacy? then 0 else -EIO
      ensures result == 0 ==> data == dev.LegacyWord()
    {
      if ok && dev.kind.Legacy? {
        return 0, dev.LegacyWord();
      }
      return -EIO, 0;
    }

    /** If it works it answers with its own command number. */
    method Evaluate76(word: u32, ok: bool, previous: u32) returns (result: int, data: u32)
      modifies this
      ensures result == if ok && old(dev).kind.Legacy? then 0 else -EIO
      ensures if result == 0 then data == 0x76 && dev == old(dev).LegacyCommand(word)
              else data == previous && dev == old(dev)
    {
      if ok && dev.kind.Legacy? {
        dev := dev.LegacyCommand(word);
        return 0, 0x76;
      }
      return -EIO, previous;
    }

    method LegacyRead(ok: bool) returns (result: int, settings: Settings)
      ensures result == if ok && dev.kind.Legacy? then 0 else -EIO
      ensures result == 0 ==> settings == dev.Visible()
    {
      var data;
      result, data := Evaluate77(ok);
      LegacyWordParts(dev);
      settings := Settings(data / 0x100 % 0x100, data / 0x1_0000 % 0x100, data % 2);
    }

    method LegacyWrite(p: Params, calls: Calls) returns (result: int)
      modifies this
      ensures old(dev).kind.Legacy? ==> (dev, result) == WriteOutcome(old(dev), p, calls)
      ensures old(dev).kind.Cc4? ==> dev == old(dev) && result == -EIO
    {
      var previous;
      result, previous := LegacyRead(calls.read);
      if result != 0 {
        return -EIO;
      }
      var setStart, setEnd := Or(p.start, previous.start), Or(p.end, previous.end);
      var setStatus := Or(p.status, previous.status);
      ThresholdsCommand(dev, setStart, setEnd);
      var data;
      result, data := Evaluate76(ThresholdsWord(setStart, setEnd), calls.write1, 0);
      if result != 0 {
        return -EIO;
      }
      StatusCommand(dev, setStatus);
      result, data := Evaluate76(StatusWord(setStatus), calls.write2, 0);
      if result != 0 {
        return -EIO;
      }
      return 0;
    }

    method Cc4Read(ok: bool) returns (result: int, settings: Settings)
      ensures result == if !ok || dev.kind.Legacy? then -EIO else if !dev.Answers() then -ENODEV else 0
      ensures result == 0 ==> settings == dev.Visible()
    {
      settings := Settings(0, 0, 0);
      if !ok || dev.kind.Legacy? {
        return -EIO, settings;
      }
      if dev.end == 0 && dev.start == 0 {
        return -ENODEV, settings;
      }
      return 0, Settings(dev.start, dev.end, dev.status);
    }

    method Cc4Write(p: Params, calls: Calls) returns (result: int)
      modifies this
      ensures old(dev).kind.Cc4? ==> (dev, result) == WriteOutcome(old(dev), p, calls.(probe := true))
      ensures old(dev).kind.Legacy? ==> dev == old(dev) && result == -EIO
    {
      var previous;
      result, previous := Cc4Read(calls.read);
      if result != 0 {
        return -EIO;
      }
      var setStart, setEnd := Or(p.start, previous.start), Or(p.end, previous.end);
      var setStatus := Or(p.status, previous.status);
      if !calls.write1 {
        return -EIO;
      }
      dev := dev.(start := setStart, end := setEnd, status := setStatus);
      return 0;
    }

    method FlexichargerRead(calls: Calls) returns (result: int, settings: Settings)
      ensures result == if Reads(dev, calls) then 0 else -EIO
      ensures result == 0 ==> settings == dev.Visible()
    {
      var probe;
      probe, settings := Cc4Read(calls.probe);
      if probe == 0 {
        result, settings := Cc4Read(calls.read);
      } else {
        result, settings := LegacyRead(calls.read);
      }
    }

    method FlexichargerWrite(p: Params, calls: Calls) returns (result: int)
      modifies this
      ensures (dev, result) == WriteOutcome(old(dev), p, calls)
    {
      var probe, _ := Cc4Read(calls.probe);
      if probe == 0 {
        result := Cc4Write(p, calls);
      } else {
        result := LegacyWrite(p, calls);
      }
    }

    /** charge_control_start_threshold_store, charge_control_end_threshold_store and charge_type_store. */
    method Store(request: Request, calls: Calls) returns (result: int)
      modifies this
      ensures (dev, result) == Perform(old(dev), request, calls)
    {
      match request {
        case Start(value) =>
          if value < 1 || value > 100 {
            return -EINVAL;
          }
          var writeValue := ArrayFindClosest(value, START_VALUES);
          result := FlexichargerWrite(Params(Some(writeValue), None, None), calls);
        case End(value) =>
          if value < 1 || value > 100 {
            return -EINVAL;
          }
          var writeValue := ArrayFindClosest(value, END_VALUES);
          result := FlexichargerWrite(Params(None, Some(writeValue), None), calls);
        case Custom(on) =>
          result := FlexichargerWrite(Params(None, None, Some(if on then 1 else 0)), calls);
      }
    }

    /** clevo_has_legacy_flexicharger on a device that is not excluded: writes the thresholds it has just
        read. It finds the interface if both calls work, and changes nothing in any case. If only the write
        fails, the word read before is taken for its answer. */
    method HasLegacyFlexicharger(calls: Calls) returns (result: int, status: bool)
      modifies this
      ensures dev == old(dev)
      ensures result == 0 <==> dev.kind.Legacy? && calls.read && calls.write1
      ensures result == 0 ==> status
      ensures dev.kind.Legacy? && calls.read && !calls.write1 ==> (status <==> dev.LegacyWord() == 0x76)
    {
      var readData;
      status := false;
      result, readData := Evaluate77(calls.read);
      if result != 0 {
        return;
      }
      ProbeWritesWhatItRead(dev);
      var writeData := 0x600_0000 + readData / 0x100 % 0x1_0000;
      result, readData := Evaluate76(writeData, calls.write1, readData);
      status := readData == 0x76;
    }
  }
}
