/** Charge threshold stores at single firmware calls. Each store reads all three settings and writes all
    three back, and nothing keeps two stores apart. */
module ClevoRaces {
  import opened Common
  import opened ClevoCharger
  import R = Relay

  datatype Setting = StartOf | EndOf | StatusOf

  /** A store's read, then its writes: thresholds and status apart on the older interface, all at once on the
      newer one. A store whose call fails just ends. */
  datatype Access =
    | Reads(thread: nat, request: Request)
    | WritesThresholds(thread: nat)
    | WritesStatus(thread: nat)
    | WritesAll(thread: nat)

  predicate Concerns(r: Request, q: Setting) {
    (r.Start? <==> q.StartOf?) && (r.End? <==> q.EndOf?)
  }

  /** The accesses as one setting sees them. */
  function View(h: seq<Access>, q: Setting): (v: seq<R.Access<u8>>)
    ensures |v| == |h|
  {
    seq(|h|, i requires 0 <= i < |h| => Seen(h[i], q))
  }

  function Seen(a: Access, q: Setting): R.Access<u8> {
    match a
    case Reads(t, r) => R.Takes(t, if Concerns(r, q) then Some(ValueOf(r)) else None)
    case WritesThresholds(t) => if q.StatusOf? then R.Other else R.Puts(t)
    case WritesStatus(t) => if q.StatusOf? then R.Puts(t) else R.Other
    case WritesAll(t) => R.Puts(t)
  }

  ghost predicate Runs(h: seq<Access>) {
    forall q: Setting :: R.Runs(View(h, q))
  }

  function Part(s: Settings, q: Setting): u8 {
    match q case StartOf => s.start case EndOf => s.end case StatusOf => s.status
  }

  ghost function SettingAfter(before: Settings, h: seq<Access>, q: Setting): u8
    requires Runs(h)
  {
    assert R.Runs(View(h, q));
    R.Content(Part(before, q), View(h, q))
  }

  lemma GrownView(h: seq<Access>, a: Access, q: Setting, t: nat)
    requires R.Runs(View(h, q)) && (Seen(a, q).Puts? ==> R.TakenBy(View(h, q), Seen(a, q).thread).Some?)
    ensures View(h + [a], q) == View(h, q) + [Seen(a, q)] && R.Runs(View(h + [a], q))
    ensures R.TakenBy(View(h + [a], q), t) ==
              if Seen(a, q).Takes? && Seen(a, q).thread == t then Some(|h|)
              else if Seen(a, q).Puts? && Seen(a, q).thread == t then None
              else R.TakenBy(View(h, q), t)
  {
    R.GrownRuns(View(h, q), Seen(a, q), t);
    assert View(h + [a], q) == View(h, q) + [Seen(a, q)];
  }

  /** The single calls of one store in program order. */
  function OneStore(kind: Kind, t: nat, r: Request): seq<Access> {
    [Reads(t, r)] + if kind.Legacy? then [WritesThresholds(t)] + [WritesStatus(t)] else [WritesAll(t)]
  }

  /** Undisturbed they have the effect of the store. */
  lemma {:induction false} OneStoreIsTheStore(d: Device, t: nat, r: Request, q: Setting)
    requires d.Answers() && (r.Custom? || 1 <= r.percent <= 100)
    ensures var h := OneStore(d.kind, t, r);
            && R.Runs(View(h, q))
            && R.Content(Part(d.Visible(), q), View(h, q)) ==
                 Part(Perform(d, r, Calls(true, true, true, true)).0.Visible(), q)
  {
    var before := Part(d.Visible(), q);
    StoreSetsOne(d, r, Calls(true, true, true, true));
    var read := [] + [Reads(t, r)];
    GrownView([], Reads(t, r), q, t);
    if d.kind.Cc4? {
      GrownView(read, WritesAll(t), q, t);
      PutsOnce(before, View(read, q), t);
      assert OneStore(d.kind, t, r) == read + [WritesAll(t)];
    } else {
      var half := read + [WritesThresholds(t)];
      GrownView(read, WritesThresholds(t), q, t);
      GrownView(half, WritesStatus(t), q, t);
      if q.StatusOf? {
        PutsOnce(before, View(half, q), t);
      } else {
        PutsOnce(before, View(read, q), t);
        R.GrownContent(before, View(half, q), R.Other);
      }
      assert OneStore(d.kind, t, r) == half + [WritesStatus(t)];
    }
  }

  /** A putting after a taking that was the first access of all. */
  lemma PutsOnce(before: u8, v: seq<R.Access<u8>>, t: nat)
    requires R.Runs(v) && v != [] && R.TakenBy(v, t) == Some(0) && v[0].Takes?
    ensures R.Runs(v + [R.Puts(t)])
    ensures R.Content(before, v + [R.Puts(t)]) == if v[0].own.Some? then v[0].own.value else before
  {
    R.GrownRuns(v, R.Puts(t), t);
    R.GrownContent(before, v, R.Puts(t));
    assert v[..0] == [];
  }

  /** A setting never loses a store exactly if no store to another setting writes back what it read before
      the latest store to this one was written. */
  lemma SettingLostExactly(h: seq<Access>, q: Setting)
    requires Runs(h)
    ensures R.Runs(View(h, q))
    ensures R.NeverLoses(View(h, q)) <==> R.PutsBackNothingOld(View(h, q))
  {
    assert R.Runs(View(h, q));
    R.LosesExactly(View(h, q));
  }

  /** While nothing is lost, a setting has the value of the latest store to it. */
  lemma SettingIsLatest(before: Settings, h: seq<Access>, q: Setting)
    requires Runs(h) && R.Runs(View(h, q)) && R.NeverLoses(View(h, q))
    ensures R.Proper(View(h, q), R.Latest(View(h, q)))
    ensures SettingAfter(before, h, q) == R.ValueOf(Part(before, q), View(h, q), R.Latest(View(h, q)))
  {
    R.ContentComesFromSource(Part(before, q), View(h, q));
    assert R.InForce(View(h, q), |h|);
    assert View(h, q)[..|h|] == View(h, q);
  }

  /** Two stores on the newer interface, to the start and to the end threshold: the second one to write takes
      the other one back. */
  lemma TwoStoresLose(before: Settings, p: u8, e: u8) returns (h: seq<Access>)
    ensures h == [Reads(1, Start(p)), Reads(2, End(e)), WritesAll(2), WritesAll(1)]
    ensures R.Runs(View(h, StartOf)) && R.Runs(View(h, EndOf)) && R.Runs(View(h, StatusOf))
    ensures R.Content(before.end, View(h, EndOf)) == before.end
  {
    var h1, h2 := [Reads(1, Start(p))], [Reads(1, Start(p)), Reads(2, End(e))];
    var h3 := h2 + [WritesAll(2)];
    h := h3 + [WritesAll(1)];
    forall q: Setting
      ensures R.Runs(View(h, q)) && View(h, q) == View(h3, q) + [R.Puts(1)] && R.TakenBy(View(h3, q), 1) == Some(0)
      ensures R.Runs(View(h3, q))
    {
      GrownView([], Reads(1, Start(p)), q, 1);
      assert [] + [Reads(1, Start(p))] == h1;
      GrownView(h1, Reads(2, End(e)), q, 1);
      GrownView(h1, Reads(2, End(e)), q, 2);
      assert h1 + [Reads(2, End(e))] == h2;
      GrownView(h2, WritesAll(2), q, 1);
      GrownView(h3, WritesAll(1), q, 1);
    }
    PutsOnce(before.end, View(h3, EndOf), 1);
  }
}
