/** A cell that several threads take a value from and put a value into, without a lock in between.

    An update puts a value of its own; a relay puts back what it took. The module says for every schedule
    where the value in the cell comes from, and exactly which schedules lose an update. Remembered charging
    settings and charge thresholds are such cells. */
module Relay {
  import opened Common

  /** A thread takes the cell's value, and decides whether to put an own value or that one; later it puts
      it. `Other` is anything that does not concern the cell. */
  datatype Access<V> = Takes(thread: nat, own: Option<V>) | Puts(thread: nat) | Other

  /** The taking that the next putting of `t` goes with. */
  function TakenBy<V>(h: seq<Access<V>>, t: nat): Option<nat> {
    if h == [] then None
    else
      var e := h[|h| - 1];
      if e.Takes? && e.thread == t then Some(|h| - 1)
      else if e.Puts? && e.thread == t then None
      else TakenBy(h[..|h| - 1], t)
  }

  lemma {:induction false} TakenByTakes<V>(h: seq<Access<V>>, t: nat)
    ensures TakenBy(h, t).Some? ==> TakenBy(h, t).value < |h| && h[TakenBy(h, t).value].Takes?
  {
    if h != [] {
      TakenByTakes(h[..|h| - 1], t);
    }
  }

  /** Every putting comes after a taking of its thread. */
  predicate Runs<V>(h: seq<Access<V>>) {
    h == [] ||
    (&& Runs(h[..|h| - 1])
     && (h[|h| - 1].Puts? ==> TakenBy(h[..|h| - 1], h[|h| - 1].thread).Some?))
  }

  lemma {:induction false} PrefixRuns<V>(h: seq<Access<V>>, n: nat)
    requires n <= |h| && Runs(h)
    ensures Runs(h[..n])
  {
    if n < |h| {
      PrefixRuns(h[..|h| - 1], n);
      assert h[..|h| - 1][..n] == h[..n];
    } else {
      assert h[..n] == h;
    }
  }

  predicate EndsWithPut<V>(h: seq<Access<V>>) {
    h != [] && Runs(h) && h[|h| - 1].Puts?
  }

  /** The taking that belongs to a putting at the end. */
  function Taking<V>(h: seq<Access<V>>): (r: nat)
    requires EndsWithPut(h)
    ensures r < |h| - 1 && h[r].Takes?
  {
    TakenByTakes(h[..|h| - 1], h[|h| - 1].thread);
    TakenBy(h[..|h| - 1], h[|h| - 1].thread).value
  }

  /** The value in the cell after a schedule. */
  function Content<V>(before: V, h: seq<Access<V>>): V
    requires Runs(h)
    decreases |h|
  {
    if h == [] then before
    else if !EndsWithPut(h) then Content(before, h[..|h| - 1])
    else
      var r := Taking(h);
      PrefixRuns(h, r);
      if h[r].own.Some? then h[r].own.value else Content(before, h[..r])
  }

  /** Where a value comes from: it was there at first, or the putting that ended the first `length` accesses
      was an update with it. */
  datatype Origin = Initially | By(length: nat)

  predicate EndsWithUpdate<V>(h: seq<Access<V>>) {
    EndsWithPut(h) && h[Taking(h)].own.Some?
  }

  /** Following the takings back. */
  function Source<V>(h: seq<Access<V>>): Origin
    requires Runs(h)
    decreases |h|
  {
    if h == [] then Initially
    else if !EndsWithPut(h) then Source(h[..|h| - 1])
    else
      var r := Taking(h);
      PrefixRuns(h, r);
      if h[r].own.Some? then By(|h|) else Source(h[..r])
  }

  /** The update that was put last. */
  function Latest<V>(h: seq<Access<V>>): Origin
    requires Runs(h)
    decreases |h|
  {
    if h == [] then Initially else if EndsWithUpdate(h) then By(|h|) else Latest(h[..|h| - 1])
  }

  predicate Proper<V>(h: seq<Access<V>>, o: Origin) {
    o.By? ==> 0 < o.length <= |h| && EndsWithUpdate(h[..o.length])
  }

  function ValueOf<V>(before: V, h: seq<Access<V>>, o: Origin): V
    requires Proper(h, o)
  {
    match o
    case Initially => before
    case By(n) => h[..n][Taking(h[..n])].own.value
  }

  /** After every schedule the cell holds the value of its source. */
  lemma {:induction false} ContentComesFromSource<V>(before: V, h: seq<Access<V>>)
    requires Runs(h)
    ensures Proper(h, Source(h)) && Content(before, h) == ValueOf(before, h, Source(h))
    decreases |h|
  {
    if h != [] {
      var n := if EndsWithPut(h) then Taking(h) else |h| - 1;
      PrefixRuns(h, n);
      ContentComesFromSource(before, h[..n]);
      assert h[..|h|] == h;
      if Source(h[..n]).By? {
        assert h[..n][..Source(h[..n]).length] == h[..Source(h[..n]).length];
      }
    }
  }

  lemma {:induction false} LatestIsProper<V>(h: seq<Access<V>>)
    requires Runs(h)
    ensures Proper(h, Latest(h))
  {
    if h != [] {
      LatestIsProper(h[..|h| - 1]);
      assert h[..|h|] == h;
      if Latest(h[..|h| - 1]).By? {
        assert h[..|h| - 1][..Latest(h[..|h| - 1]).length] == h[..Latest(h[..|h| - 1]).length];
      }
    }
  }

  ghost predicate InForce<V>(h: seq<Access<V>>, n: nat)
    requires n <= |h| && Runs(h)
  {
    PrefixRuns(h, n);
    Source(h[..n]) == Latest(h[..n])
  }

  /** At no time does the cell hold anything but its latest update. */
  ghost predicate NeverLoses<V>(h: seq<Access<V>>)
    requires Runs(h)
  {
    forall n | 0 <= n <= |h| :: InForce(h, n)
  }

  /** The `n`-th access puts back a value that was taken before the latest update. */
  ghost predicate PutsBackOld<V>(h: seq<Access<V>>, n: nat)
    requires n < |h| && Runs(h)
  {
    PrefixRuns(h, n);
    PrefixRuns(h, n + 1);
    var g := h[..n + 1];
    && EndsWithPut(g) && !EndsWithUpdate(g)
    && (PrefixRuns(h, Taking(g)); Latest(h[..Taking(g)]) != Latest(h[..n]))
  }

  ghost predicate PutsBackNothingOld<V>(h: seq<Access<V>>)
    requires Runs(h)
  {
    forall n | 0 <= n < |h| :: !PutsBackOld(h, n)
  }

  /** A schedule never loses an update exactly if no relay puts back what it took before the latest update. */
  lemma LosesExactly<V>(h: seq<Access<V>>)
    requires Runs(h)
    ensures NeverLoses(h) <==> PutsBackNothingOld(h)
  {
    if PutsBackNothingOld(h) {
      forall n | 0 <= n <= |h| ensures InForce(h, n) {
        UntilPutBack(h, n);
      }
    }
    if NeverLoses(h) {
      forall n | 0 <= n < |h| ensures !PutsBackOld(h, n) {
        PutBackLoses(h, n);
      }
    }
  }

  lemma {:induction false} UntilPutBack<V>(h: seq<Access<V>>, n: nat)
    requires n <= |h| && Runs(h) && forall i | 0 <= i < n :: !PutsBackOld(h, i)
    ensures InForce(h, n)
    decreases n
  {
    PrefixRuns(h, n);
    var g := h[..n];
    if n > 0 {
      assert !PutsBackOld(h, n - 1);
      assert g[..n - 1] == h[..n - 1];
      UntilPutBack(h, n - 1);
      if EndsWithPut(g) && !EndsWithUpdate(g) {
        UntilPutBack(h, Taking(g));
        assert g[..Taking(g)] == h[..Taking(g)];
      }
    }
  }

  lemma PutBackLoses<V>(h: seq<Access<V>>, n: nat)
    requires n < |h| && Runs(h) && NeverLoses(h)
    ensures !PutsBackOld(h, n)
  {
    PrefixRuns(h, n + 1);
    var g := h[..n + 1];
    assert g[..n] == h[..n];
    assert InForce(h, n + 1);
    if EndsWithPut(g) && !EndsWithUpdate(g) {
      assert g[..Taking(g)] == h[..Taking(g)];
      assert InForce(h, Taking(g));
    }
  }

  // ---------------------------------------------------------------------------------------------
  // One more access
  // ---------------------------------------------------------------------------------------------

  lemma GrownRuns<V>(h: seq<Access<V>>, e: Access<V>, t: nat)
    ensures Runs(h + [e]) <==> Runs(h) && (e.Puts? ==> TakenBy(h, e.thread).Some?)
    ensures TakenBy(h + [e], t) ==
              if e.Takes? && e.thread == t then Some(|h|) else if e.Puts? && e.thread == t then None else TakenBy(h, t)
  {
    assert (h + [e])[..|h|] == h;
  }

  lemma GrownContent<V>(before: V, h: seq<Access<V>>, e: Access<V>)
    requires Runs(h) && Runs(h + [e])
    ensures !e.Puts? ==> Content(before, h + [e]) == Content(before, h)
    ensures e.Puts? ==> Taking(h + [e]) == TakenBy(h, e.thread).value < |h|
    ensures e.Puts? ==> var r := Taking(h + [e]);
              Runs(h[..r]) &&
              Content(before, h + [e]) == if h[r].own.Some? then h[r].own.value else Content(before, h[..r])
  {
    assert (h + [e])[..|h|] == h;
    if e.Puts? {
      var r := Taking(h + [e]);
      PrefixRuns(h, r);
      assert (h + [e])[..r] == h[..r];
    }
  }
}
