/** The NB05 power-profile restore loop with any number of stores at once, as the attribute can be opened
    more than once.

    The rest of the system is that of ProfileLoop.dfy. Which of several overlapping stores is the last is
    decided by their assignments of last_chosen_profile, in any order; the loop brings the hardware there. */
module ConcurrentStores {
  import opened ProfileLoop

  /** `core` has no store of its own; `stores` are the stores in progress, one place per thread. */
  datatype Sys = Sys(core: State, stores: seq<Store>)

  datatype SysAction = OfStore(thread: nat, action: StoreAction) | OfRest(rest: Action)

  /** The system as one thread's store sees it. */
  function SeenBy(y: Sys, t: nat): State
    requires t < |y.stores|
  {
    y.core.(store := y.stores[t])
  }

  predicate CanDo(y: Sys, a: SysAction) {
    match a
    case OfStore(t, b) => t < |y.stores| && StoreEnabled(SeenBy(y, t), b)
    case OfRest(b) => !b.ByStore? && Enabled(y.core, b)
  }

  function Do(y: Sys, a: SysAction): Sys
    requires CanDo(y, a)
  {
    match a
    case OfStore(t, b) =>
      var s := PerformStore(SeenBy(y, t), b);
      Sys(s.(store := NoStore), y.stores[t := s.store])
    case OfRest(b) => y.(core := Perform(y.core, b))
  }

  predicate SomeArms(y: Sys) {
    exists t :: 0 <= t < |y.stores| && y.stores[t].StoreArms?
  }

  /** Some store is between its bump and its assignment. */
  predicate SomeWrites(y: Sys) {
    exists t :: 0 <= t < |y.stores| && (y.stores[t].StoreWrites? || y.stores[t].StoreAssigns?)
  }

  predicate SomeStores(y: Sys) {
    exists t :: 0 <= t < |y.stores| && !y.stores[t].NoStore?
  }

  /** The environment assumptions of ProfileLoop.dfy, for every store. */
  predicate SysAssumed(y: Sys, a: SysAction) {
    a.OfRest? ==> a.rest != ByWork(WorkReadFails) && (a.rest == ByTimer(TimerExpires) ==> !SomeWrites(y))
  }

  predicate SysStep(y: Sys, a: SysAction) {
    CanDo(y, a) && SysAssumed(y, a)
  }

  predicate SysInitial(y: Sys) {
    Initial(y.core) && forall t :: 0 <= t < |y.stores| ==> y.stores[t].NoStore?
  }

  datatype SysActions = Stop | First(first: SysAction, rest: SysActions)

  predicate SysRuns(y: Sys, actions: SysActions)
    decreases actions
  {
    actions.First? ==> SysStep(y, actions.first) && SysRuns(Do(y, actions.first), actions.rest)
  }

  function SysAfter(y: Sys, actions: SysActions): Sys
    requires SysRuns(y, actions)
    decreases actions
  {
    match actions
    case Stop => y
    case First(a, rest) => SysAfter(Do(y, a), rest)
  }

  // ---------------------------------------------------------------------------------------------
  // The invariant
  // ---------------------------------------------------------------------------------------------

  predicate SysInv(y: Sys) {
    var s := y.core;
    && s.store.NoStore?
    && (s.flag ==> s.armed || SomeArms(y) || s.work.WorkArms? || s.callback.CallbackClears?)
    && (SomeWrites(y) ==> s.armed)
    && (s.work.NoWork? && s.hw != s.last ==> Outstanding(s) || SomeStores(y))
    && (s.work.WorkCompares? && s.hw != s.work.cur ==> Outstanding(s) || SomeStores(y))
    && (s.work.WorkWrites? ==> s.armed || !s.callback.NoCallback? || s.pending)
  }

  /** What changes with one store's step. */
  lemma StoresAfter(y: Sys, t: nat, to: Store)
    requires t < |y.stores|
    ensures var z := y.(stores := y.stores[t := to]);
            && (to.StoreArms? ==> SomeArms(z))
            && (SomeArms(y) && !y.stores[t].StoreArms? ==> SomeArms(z))
            && (SomeWrites(z) ==> SomeWrites(y) || to.StoreWrites? || to.StoreAssigns?)
            && (!to.NoStore? ==> SomeStores(z))
            && (SomeStores(y) && y.stores[t].NoStore? ==> SomeStores(z))
  {
    var z := y.(stores := y.stores[t := to]);
    assert z.stores[t] == to;
    if SomeArms(y) && !y.stores[t].StoreArms? {
      var u :| 0 <= u < |y.stores| && y.stores[u].StoreArms?;
      assert z.stores[u].StoreArms?;
    }
    if SomeWrites(z) {
      var u :| 0 <= u < |z.stores| && (z.stores[u].StoreWrites? || z.stores[u].StoreAssigns?);
      assert u != t ==> y.stores[u] == z.stores[u];
    }
    if SomeStores(y) && y.stores[t].NoStore? {
      var u :| 0 <= u < |y.stores| && !y.stores[u].NoStore?;
      assert z.stores[u] == y.stores[u];
    }
  }

  lemma StoreKeepsSysInv(y: Sys, t: nat, b: StoreAction)
    requires SysInv(y) && CanDo(y, OfStore(t, b))
    ensures SysInv(Do(y, OfStore(t, b)))
  {
    var s := PerformStore(SeenBy(y, t), b);
    StoresAfter(y, t, s.store);
    var z := Do(y, OfStore(t, b));
    var w := y.(stores := y.stores[t := s.store]);
    assert z.stores == w.stores;
    assert SomeArms(z) == SomeArms(w) && SomeWrites(z) == SomeWrites(w) && SomeStores(z) == SomeStores(w);
    assert y.stores[t].StoreWrites? || y.stores[t].StoreAssigns? ==> SomeWrites(y);
  }

  lemma RestKeepsSysInv(y: Sys, b: Action)
    requires SysInv(y) && SysStep(y, OfRest(b))
    ensures SysInv(Do(y, OfRest(b)))
  {
    var z := Do(y, OfRest(b));
    assert z.stores == y.stores;
    assert SomeArms(z) == SomeArms(y) && SomeWrites(z) == SomeWrites(y) && SomeStores(z) == SomeStores(y);
  }

  lemma SysStepKeepsInv(y: Sys, a: SysAction)
    requires SysInv(y) && SysStep(y, a)
    ensures SysInv(Do(y, a))
  {
    match a
    case OfStore(t, b) => StoreKeepsSysInv(y, t, b);
    case OfRest(b) => RestKeepsSysInv(y, b);
  }

  lemma {:induction false} SysInvHolds(y: Sys, actions: SysActions)
    requires SysInv(y) && SysRuns(y, actions)
    ensures SysInv(SysAfter(y, actions))
    decreases actions
  {
    match actions
    case Stop =>
    case First(a, rest) =>
      SysStepKeepsInv(y, a);
      SysInvHolds(Do(y, a), rest);
  }

  // ---------------------------------------------------------------------------------------------
  // Convergence
  // ---------------------------------------------------------------------------------------------

  /** Steps with no new store, no mode key and no failing write. */
  predicate SysSettling(y: Sys, a: SysAction) {
    && SysStep(y, a)
    && match a
       case OfStore(_, b) => !b.StoreSetsFlag? && !b.StoreWriteFails?
       case OfRest(b) => (b.ByWork? ==> !b.work.WorkWriteFails?) && (b.ByNotice? ==> !b.notice.ModeKey?)
  }

  predicate SysSettled(y: Sys) {
    Settled(y.core) && !SomeStores(y)
  }

  function StepsLeft(stores: seq<Store>): nat {
    if stores == [] then 0 else StepsLeft(stores[..|stores| - 1]) + StepsOf(stores[|stores| - 1])
  }

  function StepsOf(store: Store): nat {
    match store
    case NoStore => 0
    case StoreArms(_) => 3
    case StoreWrites(_) => 2
    case StoreAssigns(_) => 1
  }

  lemma {:induction false} FewerSteps(stores: seq<Store>, t: nat, to: Store)
    requires t < |stores| && StepsOf(to) < StepsOf(stores[t])
    ensures StepsLeft(stores[t := to]) < StepsLeft(stores)
  {
    var n := |stores| - 1;
    if t == n {
      assert stores[t := to][..n] == stores[..n];
    } else {
      FewerSteps(stores[..n], t, to);
      assert stores[t := to][..n] == stores[..n][t := to];
    }
  }

  /** A settling step uses up a step of some store, or makes the rest of the system settle. */
  lemma SysSettlingDecreases(y: Sys, a: SysAction)
    requires SysSettling(y, a) && y.core.store.NoStore?
    ensures var z := Do(y, a);
            && z.core.store.NoStore?
            && (|| StepsLeft(z.stores) < StepsLeft(y.stores)
                || (z.stores == y.stores && Decreases(y.core, z.core)))
  {
    match a
    case OfStore(t, b) => FewerSteps(y.stores, t, PerformStore(SeenBy(y, t), b).store);
    case OfRest(b) => SettlingStepDecreases(y.core, b);
  }

  /** A system that is not at rest has a settling step. */
  lemma SysNotStuck(y: Sys)
    requires SysInv(y) && !SysSettled(y)
    ensures exists a :: SysSettling(y, a)
  {
    if SomeStores(y) {
      var t :| 0 <= t < |y.stores| && !y.stores[t].NoStore?;
      var b := match y.stores[t]
        case StoreArms(_) => StoreArmsTimer
        case StoreWrites(_) => StoreWritesOk(0)
        case StoreAssigns(_) => StoreAssignsLast;
      assert SysSettling(y, OfStore(t, b));
    } else {
      StuckMeansSettled(y.core);
      var b :| Settling(y.core, b);
      assert SomeWrites(y) ==> SomeStores(y);
      assert SysSettling(y, OfRest(b));
    }
  }

  ghost predicate SysFollows(y: Sys, z: Sys) {
    if SysSettled(y) then z == y else exists a :: SysSettling(y, a) && z == Do(y, a)
  }

  ghost predicate SysScheduledAt(run: nat -> Sys, i: nat) {
    SysFollows(run(i), run(i + 1))
  }

  ghost predicate SysSchedule(run: nat -> Sys) {
    forall i: nat :: SysScheduledAt(run, i)
  }

  lemma {:induction false} SysSettlesFrom(run: nat -> Sys, i: nat) returns (n: nat)
    requires SysSchedule(run) && SysInv(run(i))
    ensures n >= i && SysSettled(run(n)) && SysInv(run(n))
    decreases StepsLeft(run(i).stores), WriteBudget(run(i).core), run(i).core.notices, run(i).core.handlers,
              TimerSteps(run(i).core), WorkSteps(run(i).core)
  {
    assert SysScheduledAt(run, i);
    if SysSettled(run(i)) {
      n := i;
    } else {
      var a :| SysSettling(run(i), a) && run(i + 1) == Do(run(i), a);
      SysSettlingDecreases(run(i), a);
      SysStepKeepsInv(run(i), a);
      n := SysSettlesFrom(run, i + 1);
    }
  }

  lemma {:induction false} SysStaysSettled(run: nat -> Sys, n: nat, m: nat)
    requires SysSchedule(run) && SysSettled(run(n)) && n <= m
    ensures run(m) == run(n)
    decreases m - n
  {
    if n < m {
      assert SysScheduledAt(run, n);
      SysStaysSettled(run, n + 1, m);
    }
  }

  /** The schedule is at rest from `n` on, with last_chosen_profile in hardware. */
  ghost predicate SysRestsFrom(run: nat -> Sys, n: nat) {
    SysSettled(run(n)) && forall m: nat :: m >= n ==> run(m) == run(n) && run(m).core.hw == run(m).core.last
  }

  /** From every state that any number of overlapping stores can reach: once users and mode keys are quiet and
      writes succeed, every schedule comes to rest with last_chosen_profile in hardware. */
  lemma LastAssignedWins(y: Sys, actions: SysActions, run: nat -> Sys)
    requires SysInitial(y) && SysRuns(y, actions) && run(0) == SysAfter(y, actions)
    requires SysSchedule(run)
    ensures exists n: nat :: SysRestsFrom(run, n)
  {
    assert SysInv(y);
    SysInvHolds(y, actions);
    var n := SysSettlesFrom(run, 0);
    forall m: nat | m >= n ensures run(m) == run(n) {
      SysStaysSettled(run, n, m);
    }
    assert SysRestsFrom(run, n);
  }
}
