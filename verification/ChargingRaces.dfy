/** One charging setting at single accesses. Stores from user space and the restores of adapter events run
    in different threads, and nothing keeps a restore from loading the remembered setting, being overtaken
    by a store, and then writing and remembering what it loaded. */
module ChargingRaces {
  import opened Common
  import opened UniwillRam
  import R = Relay

  /** A store begins with its value, a restore by loading the remembered one; then the field in the EC is
      written and, if that reports success, the value remembered. A write that fails may take effect; a
      thread that fails just begins anew. The EC may change the field by itself. */
  datatype Access =
    | Begins(thread: nat, store: Option<Byte>)
    | WritesField(thread: nat)
    | Remembers(thread: nat)
    | EcChanges(field: Byte)

  /** The same accesses, seen from the remembered setting. */
  function OnRemembered(h: seq<Access>): (r: seq<R.Access<Byte>>)
    ensures |r| == |h|
  {
    if h == [] then []
    else OnRemembered(h[..|h| - 1]) + [Seen(h[|h| - 1])]
  }

  function Seen(a: Access): R.Access<Byte> {
    match a
    case Begins(t, store) => R.Takes(t, store)
    case Remembers(t) => R.Puts(t)
    case WritesField(_) => R.Other
    case EcChanges(_) => R.Other
  }

  lemma {:induction false} PrefixOnRemembered(h: seq<Access>, n: nat)
    requires n <= |h|
    ensures OnRemembered(h[..n]) == OnRemembered(h)[..n]
  {
    if n < |h| {
      PrefixOnRemembered(h[..|h| - 1], n);
      assert h[..|h| - 1][..n] == h[..n];
    } else {
      assert h[..n] == h;
    }
  }

  /** Both kinds of writes belong to a store or restore that has begun. */
  predicate Runs(h: seq<Access>) {
    R.Runs(OnRemembered(h)) &&
    (h == [] ||
     (Runs(h[..|h| - 1]) &&
      (h[|h| - 1].WritesField? ==> R.TakenBy(OnRemembered(h[..|h| - 1]), h[|h| - 1].thread).Some?)))
  }

  lemma {:induction false} PrefixRuns(h: seq<Access>, n: nat)
    requires n <= |h| && Runs(h)
    ensures Runs(h[..n])
  {
    if n < |h| {
      PrefixRuns(h[..|h| - 1], n);
      assert h[..|h| - 1][..n] == h[..n];
    } else {
      assert h[..n] == h;
    }
  }

  function Remembered(before: Byte, h: seq<Access>): Byte
    requires Runs(h)
  {
    R.Content(before, OnRemembered(h))
  }

  /** Where the store or restore began whose write of the field ends the schedule. */
  function Beginning(h: seq<Access>): (r: nat)
    requires h != [] && Runs(h) && h[|h| - 1].WritesField?
    ensures r < |h| - 1 && h[r].Begins?
  {
    var front := OnRemembered(h[..|h| - 1]);
    R.TakenByTakes(front, h[|h| - 1].thread);
    var r := R.TakenBy(front, h[|h| - 1].thread).value;
    PrefixOnRemembered(h[..|h| - 1], r + 1);
    assert h[..|h| - 1][..r + 1][..r] == h[..r] && h[..|h| - 1][..r + 1][r] == h[r];
    r
  }

  /** The field in the EC after a schedule; `before` is what was remembered at first. */
  function Field(before: Byte, field: Byte, h: seq<Access>): Byte
    requires Runs(h)
  {
    if h == [] then field
    else
      match h[|h| - 1]
      case WritesField(_) =>
        var r := Beginning(h);
        PrefixRuns(h, r);
        if h[r].store.Some? then h[r].store.value else Remembered(before, h[..r])
      case EcChanges(f) => f
      case Begins(_, _) => Field(before, field, h[..|h| - 1])
      case Remembers(_) => Field(before, field, h[..|h| - 1])
  }

  /** No remembered store is ever forgotten exactly if no restore remembers again what it loaded before the
      latest store was remembered. */
  lemma ForgetsExactly(h: seq<Access>)
    requires Runs(h)
    ensures R.NeverLoses(OnRemembered(h)) <==> R.PutsBackNothingOld(OnRemembered(h))
  {
    R.LosesExactly(OnRemembered(h));
  }

  /** The value of the latest store that was remembered, or what was remembered at first. */
  function LatestStore(before: Byte, h: seq<Access>): Byte
    requires Runs(h)
  {
    LatestIsProper(h);
    R.ValueOf(before, OnRemembered(h), R.Latest(OnRemembered(h)))
  }

  lemma LatestIsProper(h: seq<Access>)
    requires Runs(h)
    ensures R.Proper(OnRemembered(h), R.Latest(OnRemembered(h)))
  {
    R.LatestIsProper(OnRemembered(h));
  }

  /** As long as nothing is forgotten, a restore's write puts the latest store remembered when the restore
      began into force, and that is what is remembered then. */
  lemma RestoreWritesLatest(before: Byte, field: Byte, h: seq<Access>)
    requires h != [] && Runs(h) && h[|h| - 1].WritesField? && h[Beginning(h)].store.None?
    requires R.NeverLoses(OnRemembered(h))
    ensures Runs(h[..Beginning(h)])
    ensures Field(before, field, h) == LatestStore(before, h[..Beginning(h)]) == Remembered(before, h[..Beginning(h)])
  {
    var r := Beginning(h);
    PrefixRuns(h, r);
    PrefixOnRemembered(h, r);
    assert R.InForce(OnRemembered(h), r);
    R.ContentComesFromSource(before, OnRemembered(h[..r]));
  }

  /** One more access. */
  lemma Grown(before: Byte, h: seq<Access>, a: Access, t: nat)
    requires Runs(h)
    requires a.WritesField? || a.Remembers? ==> R.TakenBy(OnRemembered(h), a.thread).Some?
    ensures Runs(h + [a]) && OnRemembered(h + [a]) == OnRemembered(h) + [Seen(a)]
    ensures R.TakenBy(OnRemembered(h + [a]), t) ==
              if a.Begins? && a.thread == t then Some(|h|)
              else if a.Remembers? && a.thread == t then None
              else R.TakenBy(OnRemembered(h), t)
  {
    assert (h + [a])[..|h|] == h;
    R.GrownRuns(OnRemembered(h), Seen(a), t);
  }

  /** A store that overlaps a restore: it succeeds, and yet is forgotten and not in force. */
  lemma OverlapForgets(before: Byte, field: Byte, v: Byte) returns (stored: seq<Access>, h: seq<Access>)
    requires v != before
    ensures Runs(stored) && Remembered(before, stored) == v
    ensures stored == [Begins(1, None), Begins(2, Some(v)), WritesField(2), Remembers(2)]
    ensures h == stored + [WritesField(1)] + [Remembers(1)]
    ensures Runs(h) && Remembered(before, h) == before && Field(before, field, stored + [WritesField(1)]) == before
  {
    var h1, h2 := [Begins(1, None)], [Begins(1, None), Begins(2, Some(v))];
    var h3 := h2 + [WritesField(2)];
    Grown(before, [], Begins(1, None), 1);
    assert [] + [Begins(1, None)] == h1;
    Grown(before, h1, Begins(2, Some(v)), 1);
    Grown(before, h1, Begins(2, Some(v)), 2);
    assert h1 + [Begins(2, Some(v))] == h2;
    Grown(before, h2, WritesField(2), 1);
    Grown(before, h2, WritesField(2), 2);
    Grown(before, h3, Remembers(2), 1);
    stored := h3 + [Remembers(2)];
    R.GrownContent(before, OnRemembered(h3), R.Puts(2));
    Grown(before, stored, WritesField(1), 1);
    var written := stored + [WritesField(1)];
    Grown(before, written, Remembers(1), 1);
    h := written + [Remembers(1)];
    R.GrownContent(before, OnRemembered(written), R.Puts(1));
    assert OnRemembered(written)[..0] == [] && written[..0] == [];
    assert written[..|written| - 1] == stored && Beginning(written) == 0;
  }
}
