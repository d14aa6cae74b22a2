/** The restart work of older Uniwill devices against fan calls, at single loads and writes.

    A fan call assigns the current speed of its fan and then writes the fan register; a round of the restart
    work loads the current speed and then writes it. They run in different threads, as the first call of
    resume starts the work that the second one overlaps. One fan is modelled; the other one is alike. */
module RestartRace {
  import opened Common
  import opened UniwillRam

  datatype Access = Assigns(thread: nat, speed: Byte) | CallWrites(thread: nat) | WorkLoads | WorkWrites

  /** The speed that the next register write of a thread, or of the work, carries: where it was assigned or
      loaded. */
  function CarriedBy(h: seq<Access>, a: Access): Option<nat> {
    if h == [] then None
    else
      var e := h[|h| - 1];
      if a.CallWrites? && e.Assigns? && e.thread == a.thread then Some(|h| - 1)
      else if a.WorkWrites? && e.WorkLoads? then Some(|h| - 1)
      else if e == a then None
      else CarriedBy(h[..|h| - 1], a)
  }

  predicate IsWrite(a: Access) {
    a.CallWrites? || a.WorkWrites?
  }

  /** Every register write has a speed to write. */
  predicate Runs(h: seq<Access>) {
    h == [] || (Runs(h[..|h| - 1]) && (IsWrite(h[|h| - 1]) ==> CarriedBy(h[..|h| - 1], h[|h| - 1]).Some?))
  }

  lemma {:induction false} CarriedIsTaken(h: seq<Access>, a: Access)
    requires IsWrite(a) && CarriedBy(h, a).Some?
    ensures CarriedBy(h, a).value < |h|
    ensures var e := h[CarriedBy(h, a).value]; if a.CallWrites? then e.Assigns? else e.WorkLoads?
  {
    var e := h[|h| - 1];
    if !(a.CallWrites? && e.Assigns? && e.thread == a.thread) && !(a.WorkWrites? && e.WorkLoads?) {
      CarriedIsTaken(h[..|h| - 1], a);
    }
  }

  lemma {:induction false} PrefixRuns(h: seq<Access>, n: nat)
    requires n <= |h| && Runs(h)
    ensures Runs(h[..n])
  {
    if n < |h| {
      PrefixRuns(h[..|h| - 1], n);
      assert h[..|h| - 1][..n] == h[..n];
    } else {
      assert h[..n] == h;
    }
  }

  /** A speed was there at first or was assigned by the access that ended the first `length`. */
  datatype Origin = Initially | By(length: nat)

  function CurrentFrom(h: seq<Access>): Origin {
    if h == [] then Initially else if h[|h| - 1].Assigns? then By(|h|) else CurrentFrom(h[..|h| - 1])
  }

  function Current(before: Byte, h: seq<Access>): Byte {
    if h == [] then before else if h[|h| - 1].Assigns? then h[|h| - 1].speed else Current(before, h[..|h| - 1])
  }

  /** Where the speed of a register write at the end was taken. */
  function Taken(h: seq<Access>): (c: nat)
    requires h != [] && Runs(h) && IsWrite(h[|h| - 1])
    ensures c < |h| - 1
    ensures if h[|h| - 1].CallWrites? then h[c].Assigns? else h[c].WorkLoads?
  {
    CarriedIsTaken(h[..|h| - 1], h[|h| - 1]);
    CarriedBy(h[..|h| - 1], h[|h| - 1]).value
  }

  /** The fan register after a schedule. */
  function Register(before: Byte, register: Byte, h: seq<Access>): Byte
    requires Runs(h)
  {
    if h == [] then register
    else if IsWrite(h[|h| - 1]) then Current(before, h[..Taken(h) + 1])
    else Register(before, register, h[..|h| - 1])
  }

  /** The length of the schedule up to its last register write, or 0. */
  function LastWrite(h: seq<Access>): (n: nat)
    requires Runs(h)
    ensures n <= |h|
    ensures n > 0 ==> IsWrite(h[n - 1]) && Runs(h[..n])
  {
    if h == [] then 0
    else if IsWrite(h[|h| - 1]) then assert h[..|h|] == h; |h|
    else
      assert forall n | 0 <= n < |h| :: h[..|h| - 1][..n] == h[..n];
      LastWrite(h[..|h| - 1])
  }

  /** The register holds what was current when the last register write took its speed. */
  lemma {:induction false} RegisterHolds(before: Byte, register: Byte, h: seq<Access>)
    requires Runs(h) && LastWrite(h) > 0
    ensures Register(before, register, h) == Current(before, h[..Taken(h[..LastWrite(h)]) + 1])
  {
    if IsWrite(h[|h| - 1]) {
      assert h[..|h|] == h;
    } else {
      RegisterHolds(before, register, h[..|h| - 1]);
      var n := LastWrite(h);
      assert h[..|h| - 1][..n] == h[..n];
      var c := Taken(h[..n]);
      assert h[..|h| - 1][..c + 1] == h[..c + 1];
    }
  }

  lemma {:induction false} CurrentSince(h: seq<Access>, c: nat)
    requires c <= |h|
    ensures CurrentFrom(h) == CurrentFrom(h[..c]) <==> forall j :: c <= j < |h| ==> !h[j].Assigns?
    ensures CurrentFrom(h[..c]).By? ==> CurrentFrom(h[..c]).length <= c
  {
    if c == |h| {
      assert h[..c] == h;
      CurrentIsEarlier(h);
    } else {
      CurrentSince(h[..|h| - 1], c);
      assert h[..|h| - 1][..c] == h[..c];
      if h[|h| - 1].Assigns? {
        assert CurrentFrom(h) == By(|h|);
      } else if exists j :: c <= j < |h| - 1 && h[j].Assigns? {
        var j :| c <= j < |h| - 1 && h[j].Assigns?;
        assert h[..|h| - 1][j].Assigns?;
      }
    }
  }

  lemma {:induction false} CurrentIsEarlier(h: seq<Access>)
    ensures CurrentFrom(h).By? ==> 0 < CurrentFrom(h).length <= |h|
  {
    if h != [] {
      CurrentIsEarlier(h[..|h| - 1]);
    }
  }

  /** Where the speed in the register comes from. */
  function RegisterFrom(h: seq<Access>): Origin
    requires Runs(h) && LastWrite(h) > 0
  {
    CurrentFrom(h[..Taken(h[..LastWrite(h)]) + 1])
  }

  predicate AssignedSince(h: seq<Access>, c: nat) {
    exists j :: c < j < |h| && h[j].Assigns?
  }

  /** The register holds the very speed that is current exactly if nothing was assigned after the last
      register write took its speed: the load of a work round, or the assignment of a call. */
  lemma InForceExactly(h: seq<Access>)
    requires Runs(h) && LastWrite(h) > 0
    ensures RegisterFrom(h) == CurrentFrom(h) <==> !AssignedSince(h, Taken(h[..LastWrite(h)]))
  {
    CurrentSince(h, Taken(h[..LastWrite(h)]) + 1);
  }

  lemma {:induction false} CurrentSpeed(before: Byte, h: seq<Access>, c: nat)
    requires c <= |h| && forall j :: c <= j < |h| ==> !h[j].Assigns?
    ensures Current(before, h) == Current(before, h[..c])
  {
    if c < |h| {
      CurrentSpeed(before, h[..|h| - 1], c);
      assert h[..|h| - 1][..c] == h[..c];
    } else {
      assert h[..c] == h;
    }
  }

  /** Once a round of the work has begun after the last assignment and its write is the last one, as in the
      next firing, the fan runs at the speed requested last. */
  lemma LaterRoundMends(before: Byte, register: Byte, h: seq<Access>)
    requires Runs(h) && LastWrite(h) > 0
    requires var c := Taken(h[..LastWrite(h)]); forall j :: c < j < |h| ==> !h[j].Assigns?
    ensures Register(before, register, h) == Current(before, h)
  {
    RegisterHolds(before, register, h);
    CurrentSpeed(before, h, Taken(h[..LastWrite(h)]) + 1);
  }

  /** One more access; `w` is a register write to come. */
  lemma Grown(before: Byte, h: seq<Access>, a: Access, w: Access)
    requires Runs(h) && IsWrite(w) && (IsWrite(a) ==> CarriedBy(h, a).Some?)
    ensures Runs(h + [a])
    ensures CarriedBy(h + [a], w) ==
              if (w.WorkWrites? && a.WorkLoads?) || (w.CallWrites? && a.Assigns? && a.thread == w.thread) then Some(|h|)
              else if a == w then None
              else CarriedBy(h, w)
    ensures Current(before, h + [a]) == if a.Assigns? then a.speed else Current(before, h)
  {
    assert (h + [a])[..|h|] == h;
  }

  /** The overlap that loses a speed: the last round loads before a call assigns and writes after it. */
  lemma OverlapLosesSpeed(before: Byte, register: Byte, t: nat, v: Byte) returns (h: seq<Access>)
    ensures h == [WorkLoads, Assigns(t, v), CallWrites(t), WorkWrites]
    ensures Runs(h) && Current(before, h) == v && Register(before, register, h) == before
  {
    var h1, h2 := [WorkLoads], [WorkLoads, Assigns(t, v)];
    var h3 := h2 + [CallWrites(t)];
    Grown(before, [], WorkLoads, WorkWrites);
    assert [] + [WorkLoads] == h1;
    Grown(before, h1, Assigns(t, v), WorkWrites);
    Grown(before, h1, Assigns(t, v), CallWrites(t));
    assert h1 + [Assigns(t, v)] == h2;
    Grown(before, h2, CallWrites(t), WorkWrites);
    Grown(before, h3, WorkWrites, WorkWrites);
    h := h3 + [WorkWrites];
    assert h[..|h| - 1] == h3 && Taken(h) == 0 && h[..1] == h1;
  }
}
