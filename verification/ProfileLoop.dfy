/** The NB05 power-profile restore loop: a sysfs store, a work item, a timer and firmware notifications
    run concurrently and together must bring the hardware back to the profile the user chose last.

    Every statement that touches shared state is one action; a run is any interleaving of actions. */
module ProfileLoop {

  type Profile = nat

  /** A store in progress, named by the statement it executes next. */
  datatype Store = NoStore | StoreArms(p: Profile) | StoreWrites(p: Profile) | StoreAssigns(p: Profile)

  /** The work item; `cur` is the profile it read, `arg` the argument it loaded for the write. */
  datatype Work =
    | NoWork
    | WorkReads
    | WorkCompares(cur: Profile)
    | WorkLoads
    | WorkFlags(arg: Profile)
    | WorkArms(arg: Profile)
    | WorkWrites(arg: Profile)

  datatype Callback = NoCallback | CallbackClears | CallbackSchedules

  /** `last` is last_chosen_profile, `flag` is profile_changed_by_driver_flag; `notices` counts mode
      notifications not delivered yet, `handlers` those delivered while the flag was clear and about to
      schedule the work item. */
  datatype State = State(
    hw: Profile, last: Profile, flag: bool, armed: bool, callback: Callback,
    pending: bool, work: Work, store: Store, notices: nat, handlers: nat)

  /** `notices` on a write is the number of notifications the firmware raises for it. A write that fails
      may or may not have reached the hardware (`took`). */
  datatype StoreAction =
    | StoreSetsFlag(p: Profile)
    | StoreArmsTimer
    | StoreWritesOk(notices: nat)
    | StoreWriteFails(took: bool, notices: nat)
    | StoreAssignsLast

  datatype WorkAction =
    | WorkStarts
    | WorkReadsOk
    | WorkReadFails
    | WorkComparesProfiles
    | WorkLoadsLast
    | WorkSetsFlag
    | WorkArmsTimer
    | WorkWritesOk(notices: nat)
    | WorkWriteFails(took: bool, notices: nat)

  datatype TimerAction = TimerExpires | CallbackClearsFlag | CallbackSchedulesWork

  datatype NoticeAction = ModeKey(p: Profile) | NoticeDelivered | HandlerSchedulesWork

  datatype Action =
    | ByStore(store: StoreAction)
    | ByWork(work: WorkAction)
    | ByTimer(timer: TimerAction)
    | ByNotice(notice: NoticeAction)

  /** What the code and the kernel allow: one store at a time, one instance of the work item and one of
      the timer callback, but the work item may be queued again while it runs. */
  predicate Enabled(s: State, a: Action) {
    match a
    case ByStore(b) => StoreEnabled(s, b)
    case ByWork(b) => WorkEnabled(s, b)
    case ByTimer(b) => TimerEnabled(s, b)
    case ByNotice(b) => b.ModeKey? || (if b.NoticeDelivered? then s.notices > 0 else s.handlers > 0)
  }

  predicate StoreEnabled(s: State, a: StoreAction) {
    match a
    case StoreSetsFlag(_) => s.store.NoStore?
    case StoreArmsTimer => s.store.StoreArms?
    case StoreWritesOk(_) => s.store.StoreWrites?
    case StoreWriteFails(_, _) => s.store.StoreWrites?
    case StoreAssignsLast => s.store.StoreAssigns?
  }

  predicate WorkEnabled(s: State, a: WorkAction) {
    match a
    case WorkStarts => s.pending && s.work.NoWork?
    case WorkReadsOk => s.work.WorkReads?
    case WorkReadFails => s.work.WorkReads?
    case WorkComparesProfiles => s.work.WorkCompares?
    case WorkLoadsLast => s.work.WorkLoads?
    case WorkSetsFlag => s.work.WorkFlags?
    case WorkArmsTimer => s.work.WorkArms?
    case WorkWritesOk(_) => s.work.WorkWrites?
    case WorkWriteFails(_, _) => s.work.WorkWrites?
  }

  predicate TimerEnabled(s: State, a: TimerAction) {
    match a
    case TimerExpires => s.armed && s.callback.NoCallback?
    case CallbackClearsFlag => s.callback.CallbackClears?
    case CallbackSchedulesWork => s.callback.CallbackSchedules?
  }

  function Perform(s: State, a: Action): State
    requires Enabled(s, a)
  {
    match a
    case ByStore(b) => PerformStore(s, b)
    case ByWork(b) => PerformWork(s, b)
    case ByTimer(b) => PerformTimer(s, b)
    case ByNotice(b) => PerformNotice(s, b)
  }

  function PerformStore(s: State, a: StoreAction): State
    requires StoreEnabled(s, a)
  {
    match a
    case StoreSetsFlag(p) => s.(flag := true, store := StoreArms(p))
    case StoreArmsTimer => s.(armed := true, store := StoreWrites(s.store.p))
    case StoreWritesOk(n) => s.(hw := s.store.p, notices := s.notices + n, store := StoreAssigns(s.store.p))
    case StoreWriteFails(took, n) =>
      s.(hw := if took then s.store.p else s.hw, notices := s.notices + n, store := NoStore)
    case StoreAssignsLast => s.(last := s.store.p, store := NoStore)
  }

  function PerformWork(s: State, a: WorkAction): State
    requires WorkEnabled(s, a)
  {
    match a
    case WorkStarts => s.(pending := false, work := WorkReads)
    case WorkReadsOk => s.(work := WorkCompares(s.hw))
    case WorkReadFails => s.(work := NoWork)
    case WorkComparesProfiles => s.(work := if s.work.cur != s.last then WorkLoads else NoWork)
    case WorkLoadsLast => s.(work := WorkFlags(s.last))
    case WorkSetsFlag => s.(flag := true, work := WorkArms(s.work.arg))
    case WorkArmsTimer => s.(armed := true, work := WorkWrites(s.work.arg))
    case WorkWritesOk(n) => s.(hw := s.work.arg, notices := s.notices + n, work := NoWork)
    case WorkWriteFails(took, n) =>
      s.(hw := if took then s.work.arg else s.hw, notices := s.notices + n, work := NoWork)
  }

  function PerformTimer(s: State, a: TimerAction): State
    requires TimerEnabled(s, a)
  {
    match a
    case TimerExpires => s.(armed := false, callback := CallbackClears)
    case CallbackClearsFlag => s.(flag := false, callback := CallbackSchedules)
    case CallbackSchedulesWork => s.(pending := true, callback := NoCallback)
  }

  /** A mode key changes the profile and raises a notification; a notification delivered while the
      driver's own flag is set is dropped. */
  function PerformNotice(s: State, a: NoticeAction): State
    requires Enabled(s, ByNotice(a))
  {
    match a
    case ModeKey(p) => s.(hw := p, notices := s.notices + 1)
    case NoticeDelivered =>
      s.(notices := s.notices - 1, handlers := if s.flag then s.handlers else s.handlers + 1)
    case HandlerSchedulesWork => s.(pending := true, handlers := s.handlers - 1)
  }

  /** The two environment assumptions: reading the profile succeeds, and the 300 ms timer does not run
      out between a store's bump and its assignment of last_chosen_profile. */
  predicate Assumed(s: State, a: Action) {
    && a != ByWork(WorkReadFails)
    && (a == ByTimer(TimerExpires) ==> !s.store.StoreWrites? && !s.store.StoreAssigns?)
  }

  predicate Step(s: State, a: Action) {
    Enabled(s, a) && Assumed(s, a)
  }

  /** The state right after a successful probe: notifications may already be under way. */
  predicate Initial(s: State) {
    && s.hw == s.last && !s.flag && !s.armed && s.callback.NoCallback? && !s.pending
    && s.work.NoWork? && s.store.NoStore? && s.handlers == 0
  }

  datatype Actions = Done | Then(first: Action, rest: Actions)

  predicate Runs(s: State, actions: Actions)
    decreases actions
  {
    actions.Then? ==> Step(s, actions.first) && Runs(Perform(s, actions.first), actions.rest)
  }

  function After(s: State, actions: Actions): State
    requires Runs(s, actions)
    decreases actions
  {
    match actions
    case Done => s
    case Then(a, rest) => After(Perform(s, a), rest)
  }

  // ---------------------------------------------------------------------------------------------
  // Runs without the assumptions
  // ---------------------------------------------------------------------------------------------

  /** A run in which the environment assumptions need not hold ... */
  predicate RunsFreely(s: State, actions: Actions)
    decreases actions
  {
    actions.Then? ==> Enabled(s, actions.first) && RunsFreely(Perform(s, actions.first), actions.rest)
  }

  function AfterFreely(s: State, actions: Actions): State
    requires RunsFreely(s, actions)
    decreases actions
  {
    match actions
    case Done => s
    case Then(a, rest) => AfterFreely(Perform(s, a), rest)
  }

  /** ... and how often they do not. */
  function Lapses(s: State, actions: Actions): nat
    requires RunsFreely(s, actions)
    decreases actions
  {
    match actions
    case Done => 0
    case Then(a, rest) => (if Assumed(s, a) then 0 else 1) + Lapses(Perform(s, a), rest)
  }

  // ---------------------------------------------------------------------------------------------
  // The driver's routines; run without interference, each is a run of the actions above
  // ---------------------------------------------------------------------------------------------

  const EIO := 5
  const EINVAL := 22

  /** How a WMI call that sets the profile ends: `Rejected` is a nonzero status from the firmware. */
  datatype WmiSet = Accepted | CallFailed | Rejected

  function SetError(w: WmiSet): int {
    match w case Accepted => 0 case CallFailed => -EIO case Rejected => -EINVAL
  }

  /** The actions of one whole store, in program order. */
  function StoreRun(p: Profile, wmi: WmiSet, took: bool, n: nat): Actions {
    Then(ByStore(StoreSetsFlag(p)), Then(ByStore(StoreArmsTimer),
      if wmi.Accepted? then Then(ByStore(StoreWritesOk(n)), Then(ByStore(StoreAssignsLast), Done))
      else Then(ByStore(StoreWriteFails(took, n)), Done)))
  }

  /** The actions of one whole execution of the work item. */
  function WorkRun(s: State, readOk: bool, wmi: WmiSet, took: bool, n: nat): Actions {
    Then(ByWork(WorkStarts),
      if !readOk then Then(ByWork(WorkReadFails), Done)
      else Then(ByWork(WorkReadsOk), Then(ByWork(WorkComparesProfiles),
        if s.hw == s.last then Done else WriteBackRun(wmi, took, n))))
  }

  function WriteBackRun(wmi: WmiSet, took: bool, n: nat): Actions {
    Then(ByWork(WorkLoadsLast), Then(ByWork(WorkSetsFlag), Then(ByWork(WorkArmsTimer),
      Then(ByWork(if wmi.Accepted? then WorkWritesOk(n) else WorkWriteFails(took, n)), Done))))
  }

  lemma OneStepFirst(s: State, a: Action, rest: Actions)
    requires Enabled(s, a) && RunsFreely(Perform(s, a), rest)
    ensures RunsFreely(s, Then(a, rest)) && AfterFreely(s, Then(a, rest)) == AfterFreely(Perform(s, a), rest)
  {
  }

  /** A whole store leaves the flag set, the timer armed and, if the write was accepted, the profile in
      hardware and in last_chosen_profile. */
  lemma StoreRunEnds(s: State, p: Profile, wmi: WmiSet, took: bool, n: nat)
    requires s.store.NoStore?
    ensures RunsFreely(s, StoreRun(p, wmi, took, n))
    ensures AfterFreely(s, StoreRun(p, wmi, took, n)) ==
            s.(flag := true, armed := true, notices := s.notices + n,
               hw := if wmi.Accepted? || took then p else s.hw, last := if wmi.Accepted? then p else s.last)
  {
    var run := StoreRun(p, wmi, took, n);
    var s1 := Perform(s, run.first);
    var s2 := Perform(s1, run.rest.first);
    var s3 := Perform(s2, run.rest.rest.first);
    if wmi.Accepted? {
      OneStepFirst(s3, ByStore(StoreAssignsLast), Done);
    }
    OneStepFirst(s2, run.rest.rest.first, run.rest.rest.rest);
    OneStepFirst(s1, run.rest.first, run.rest.rest);
    OneStepFirst(s, run.first, run.rest);
  }

  lemma WriteBackRunEnds(s: State, wmi: WmiSet, took: bool, n: nat)
    requires s.work.WorkLoads?
    ensures RunsFreely(s, WriteBackRun(wmi, took, n))
    ensures AfterFreely(s, WriteBackRun(wmi, took, n)) ==
            s.(work := NoWork, flag := true, armed := true, notices := s.notices + n,
               hw := if wmi.Accepted? || took then s.last else s.hw)
  {
    var run := WriteBackRun(wmi, took, n);
    var s1 := Perform(s, run.first);
    var s2 := Perform(s1, run.rest.first);
    var s3 := Perform(s2, run.rest.rest.first);
    OneStepFirst(s3, run.rest.rest.rest.first, Done);
    OneStepFirst(s2, run.rest.rest.first, run.rest.rest.rest);
    OneStepFirst(s1, run.rest.first, run.rest.rest);
    OneStepFirst(s, run.first, run.rest);
  }

  /** A whole execution of the work item: nothing if the read fails or finds the chosen profile, else
      the same as a store of last_chosen_profile. */
  lemma WorkRunEnds(s: State, readOk: bool, wmi: WmiSet, took: bool, n: nat)
    requires s.pending && s.work.NoWork?
    ensures RunsFreely(s, WorkRun(s, readOk, wmi, took, n))
    ensures AfterFreely(s, WorkRun(s, readOk, wmi, took, n)) ==
            if !readOk || s.hw == s.last then s.(pending := false)
            else s.(pending := false, flag := true, armed := true, notices := s.notices + n,
                    hw := if wmi.Accepted? || took then s.last else s.hw)
  {
    var run := WorkRun(s, readOk, wmi, took, n);
    var s1 := Perform(s, run.first);
    var s2 := Perform(s1, run.rest.first);
    if readOk {
      var s3 := Perform(s2, run.rest.rest.first);
      if s.hw != s.last {
        WriteBackRunEnds(s3, wmi, took, n);
      }
      OneStepFirst(s2, run.rest.rest.first, run.rest.rest.rest);
    }
    OneStepFirst(s1, run.rest.first, run.rest.rest);
    OneStepFirst(s, run.first, run.rest);
  }

  class PowerProfiles {
    var hw: Profile
    var last: Profile
    var flag: bool
    var armed: bool
    var callback: Callback
    var pending: bool
    var notices: nat
    var handlers: nat

    ghost function Snapshot(): State
      reads this
    {
      State(hw, last, flag, armed, callback, pending, NoWork, NoStore, notices, handlers)
    }

    method ProfileChangedTimerBump()
      modifies this`flag, this`armed
      ensures flag && armed
    {
      flag := true;
      armed := true;
    }

    /** The timer runs out and its callback executes. */
    method ProfileChangedTimeout()
      requires armed && callback.NoCallback?
      modifies this
      ensures !flag && !armed && pending
      ensures Snapshot() == old(Snapshot()).(flag := false, armed := false, pending := true)
    {
      armed := false;
      flag := false;
      RewriteLastProfile();
    }

    method RewriteLastProfile()
      modifies this`pending
      ensures pending
    {
      pending := true;
    }

    method WriteProfile(profile: Profile, wmi: WmiSet, took: bool, n: nat) returns (err: int)
      modifies this`flag, this`armed, this`hw, this`notices
      ensures flag && armed && err == SetError(wmi)
      ensures hw == if wmi.Accepted? || took then profile else old(hw)
      ensures notices == old(notices) + n
    {
      ProfileChangedTimerBump();
      if wmi.Accepted? || took {
        hw := profile;
      }
      notices := notices + n;
      err := SetError(wmi);
    }

    /** `profile` is the option that the written text names, if it names one. */
    method PlatformProfileStore(option: bool, profile: Profile, wmi: WmiSet, took: bool, n: nat) returns (err: int)
      modifies this
      ensures err == if option then SetError(wmi) else -EINVAL
      ensures err == 0 ==> last == profile && hw == profile
      ensures err != 0 ==> last == old(last)
      ensures option ==>
        && RunsFreely(old(Snapshot()), StoreRun(profile, wmi, took, n))
        && Snapshot() == AfterFreely(old(Snapshot()), StoreRun(profile, wmi, took, n))
      ensures !option ==> Snapshot() == old(Snapshot())
    {
      if !option {
        return -EINVAL;
      }
      StoreRunEnds(Snapshot(), profile, wmi, took, n);
      err := WriteProfile(profile, wmi, took, n);
      if err != 0 {
        return;
      }
      last := profile;
    }

    method RewriteLastProfileInternal(readOk: bool, wmi: WmiSet, took: bool, n: nat) returns (err: int)
      requires pending
      modifies this
      ensures err == if !readOk then -EIO else if old(hw == last) then 0 else SetError(wmi)
      ensures readOk && err == 0 ==> hw == last == old(last)
      ensures RunsFreely(old(Snapshot()), WorkRun(old(Snapshot()), readOk, wmi, took, n))
      ensures Snapshot() == AfterFreely(old(Snapshot()), WorkRun(old(Snapshot()), readOk, wmi, took, n))
    {
      WorkRunEnds(Snapshot(), readOk, wmi, took, n);
      pending := false;
      if !readOk {
        return -EIO;
      }
      var current := hw;
      err := 0;
      if current != last {
        err := WriteProfile(last, wmi, took, n);
      }
    }

    /** The mode-event branch of the keyboard driver's notify handler. */
    method KeyboardNotify()
      requires notices > 0
      modifies this
      ensures Snapshot() == old(Snapshot()).(notices := old(notices) - 1, pending := old(pending) || !old(flag))
    {
      notices := notices - 1;
      if !flag {
        RewriteLastProfile();
      }
    }
  }

  // ---------------------------------------------------------------------------------------------
  // Safety: a mismatch always has somebody who will look at it
  // ---------------------------------------------------------------------------------------------

  /** Somebody other than a running work item will still (re)schedule the work, or a store is unfinished. */
  predicate Outstanding(s: State) {
    s.armed || !s.callback.NoCallback? || s.pending || s.notices > 0 || s.handlers > 0 || !s.store.NoStore?
  }

  predicate Inv(s: State) {
    && (s.flag ==> s.armed || s.store.StoreArms? || s.work.WorkArms? || s.callback.CallbackClears?)
    && (s.store.StoreWrites? || s.store.StoreAssigns? ==> s.armed)
    && (s.work.NoWork? && s.hw != s.last ==> Outstanding(s))
    && (s.work.WorkCompares? && s.hw != s.work.cur ==> Outstanding(s))
    && (s.work.WorkWrites? ==> s.armed || !s.callback.NoCallback? || s.pending)
  }

  lemma StepKeepsInv(s: State, a: Action)
    requires Inv(s) && Step(s, a)
    ensures Inv(Perform(s, a))
  {
  }

  lemma {:induction false} InvHolds(s: State, actions: Actions)
    requires Inv(s) && Runs(s, actions)
    ensures Inv(After(s, actions))
    decreases actions
  {
    match actions
    case Done =>
    case Then(a, rest) =>
      StepKeepsInv(s, a);
      InvHolds(Perform(s, a), rest);
  }

  /** In every interleaving, a hardware profile that is not the chosen one implies an outstanding
      obligation; and the own-write flag is never left set with nobody to clear it. */
  lemma MismatchHasObligation(s: State, actions: Actions)
    requires Initial(s) && Runs(s, actions)
    ensures var t := After(s, actions);
            && (t.hw != t.last ==> Outstanding(t) || !t.work.NoWork?)
            && (t.flag ==> t.armed || t.store.StoreArms? || t.work.WorkArms? || t.callback.CallbackClears?)
  {
    InvHolds(s, actions);
  }

  // ---------------------------------------------------------------------------------------------
  // Convergence
  // ---------------------------------------------------------------------------------------------

  /** Steps of a system in which no user starts a store, no mode key is pressed and writes succeed. */
  predicate Settling(s: State, a: Action) {
    && Step(s, a)
    && (a.ByStore? ==> !a.store.StoreSetsFlag? && !a.store.StoreWriteFails?)
    && (a.ByWork? ==> !a.work.WorkWriteFails?)
    && (a.ByNotice? ==> !a.notice.ModeKey?)
  }

  predicate Settled(s: State) {
    && s.store.NoStore? && s.work.NoWork? && s.callback.NoCallback?
    && !s.armed && !s.pending && s.notices == 0 && s.handlers == 0
  }

  /** The user's last choice: that of the store in progress if there is one. */
  function Chosen(s: State): Profile {
    if s.store.NoStore? then s.last else s.store.p
  }

  function StoreSteps(s: State): nat {
    match s.store
    case NoStore => 0
    case StoreArms(_) => 3
    case StoreWrites(_) => 2
    case StoreAssigns(_) => 1
  }

  /** Profile writes that the work item can still make while `last` does not change, five units each,
      less the statements already behind it on the way to the next one. */
  function WriteBudget(s: State): nat {
    var mismatch := if s.hw != s.last then 5 else 0;
    match s.work
    case NoWork => mismatch
    case WorkReads => mismatch
    case WorkCompares(cur) => if cur != s.last then 5 else mismatch
    case WorkLoads => 4
    case WorkFlags(arg) => if arg != s.last then 8 else 3
    case WorkArms(arg) => if arg != s.last then 7 else 2
    case WorkWrites(arg) => if arg != s.last then 6 else 1
  }

  function TimerSteps(s: State): nat {
    (if s.armed then 3 else 0) +
    match s.callback case NoCallback => 0 case CallbackClears => 2 case CallbackSchedules => 1
  }

  function WorkSteps(s: State): nat {
    (if s.pending then 3 else 0) + match s.work case NoWork => 0 case WorkReads => 2 case _ => 1
  }

  /** Lexicographic decrease of (store, writes, notices, handlers, timer, work). */
  predicate Decreases(s: State, t: State) {
    || StoreSteps(t) < StoreSteps(s)
    || (StoreSteps(t) == StoreSteps(s)
        && (|| WriteBudget(t) < WriteBudget(s)
            || (WriteBudget(t) == WriteBudget(s)
                && (|| t.notices < s.notices
                    || (t.notices == s.notices
                        && (|| t.handlers < s.handlers
                            || (t.handlers == s.handlers
                                && (|| TimerSteps(t) < TimerSteps(s)
                                    || (TimerSteps(t) == TimerSteps(s) && WorkSteps(t) < WorkSteps(s))))))))))
  }

  lemma StoreStepDecreases(s: State, a: StoreAction)
    requires Settling(s, ByStore(a))
    ensures StoreSteps(PerformStore(s, a)) < StoreSteps(s) && Chosen(PerformStore(s, a)) == Chosen(s)
  {
  }

  /** Each write the work item makes uses up budget, and only a write can raise notifications. */
  lemma WorkStepDecreases(s: State, a: WorkAction)
    requires Settling(s, ByWork(a))
    ensures var t := PerformWork(s, a);
            && t.store == s.store && t.last == s.last && t.handlers == s.handlers && t.callback == s.callback
            && (|| WriteBudget(t) < WriteBudget(s)
                || (WriteBudget(t) == WriteBudget(s) && t.notices == s.notices && t.armed == s.armed
                    && WorkSteps(t) < WorkSteps(s)))
  {
  }

  lemma SettlingStepDecreases(s: State, a: Action)
    requires Settling(s, a)
    ensures Decreases(s, Perform(s, a))
    ensures Chosen(Perform(s, a)) == Chosen(s)
  {
    match a
    case ByStore(b) => StoreStepDecreases(s, b);
    case ByWork(b) => WorkStepDecreases(s, b);
    case ByTimer(b) =>
      assert WriteBudget(PerformTimer(s, b)) == WriteBudget(s);
    case ByNotice(b) =>
      assert WriteBudget(PerformNotice(s, b)) == WriteBudget(s);
  }

  /** Nothing is left to run exactly when the system has settled. */
  lemma StuckMeansSettled(s: State)
    ensures (forall a :: !Settling(s, a)) <==> Settled(s)
  {
    if !Settled(s) {
      var a :=
        match s.store
        case StoreArms(_) => ByStore(StoreArmsTimer)
        case StoreWrites(_) => ByStore(StoreWritesOk(0))
        case StoreAssigns(_) => ByStore(StoreAssignsLast)
        case NoStore =>
          match s.work
          case WorkReads => ByWork(WorkReadsOk)
          case WorkCompares(_) => ByWork(WorkComparesProfiles)
          case WorkLoads => ByWork(WorkLoadsLast)
          case WorkFlags(_) => ByWork(WorkSetsFlag)
          case WorkArms(_) => ByWork(WorkArmsTimer)
          case WorkWrites(_) => ByWork(WorkWritesOk(0))
          case NoWork =>
            if s.callback.CallbackClears? then ByTimer(CallbackClearsFlag)
            else if s.callback.CallbackSchedules? then ByTimer(CallbackSchedulesWork)
            else if s.armed then ByTimer(TimerExpires)
            else if s.pending then ByWork(WorkStarts)
            else if s.notices > 0 then ByNotice(NoticeDelivered)
            else ByNotice(HandlerSchedulesWork);
      assert Settling(s, a);
    }
  }

  /** A schedule of the settling system: at every instant it takes some settling step, and it stands
      still only when there is none. */
  ghost predicate Schedule(run: nat -> State) {
    forall i: nat :: ScheduledAt(run, i)
  }

  ghost predicate ScheduledAt(run: nat -> State, i: nat) {
    Follows(run(i), run(i + 1))
  }

  ghost predicate Follows(s: State, t: State) {
    if Settled(s) then t == s else exists a :: Settling(s, a) && t == Perform(s, a)
  }

  /** Every schedule comes to rest, from any state at all. */
  lemma {:induction false} SettlesFrom(run: nat -> State, i: nat) returns (n: nat)
    requires Schedule(run)
    ensures n >= i && Settled(run(n)) && Chosen(run(n)) == Chosen(run(i))
    ensures !Lost(run(i)) ==> !Lost(run(n))
    decreases StoreSteps(run(i)), WriteBudget(run(i)), run(i).notices, run(i).handlers,
              TimerSteps(run(i)), WorkSteps(run(i))
  {
    assert ScheduledAt(run, i);
    if Settled(run(i)) {
      n := i;
    } else {
      var a :| Settling(run(i), a) && run(i + 1) == Perform(run(i), a);
      SettlingStepDecreases(run(i), a);
      if !Lost(run(i)) {
        SettlingStepKeepsChoice(run(i), a);
      }
      n := SettlesFrom(run, i + 1);
    }
  }

  lemma {:induction false} StaysSettled(run: nat -> State, n: nat, m: nat)
    requires Schedule(run) && Settled(run(n)) && n <= m
    ensures run(m) == run(n)
    decreases m - n
  {
    if n < m {
      assert ScheduledAt(run, n);
      StaysSettled(run, n + 1, m);
    }
  }

  // ---------------------------------------------------------------------------------------------
  // Which states lose the choice
  // ---------------------------------------------------------------------------------------------

  /** Nobody is left who would look at the hardware, except a running work item or store. */
  predicate Blind(s: State) {
    s.callback.NoCallback? && !s.pending && s.handlers == 0 && (s.flag || s.notices == 0)
  }

  /** Some schedule from here comes to rest without the user's last choice. With the timer armed or about
      to be, all is well; otherwise the work item is about to leave, or has left, a wrong profile, and
      whoever still looks compares it with a last_chosen_profile that is not the choice yet. */
  predicate Lost(s: State) {
    var p := Chosen(s);
    && !s.armed && !s.store.StoreArms?
    && match s.work
       case WorkWrites(arg) => arg != p && (arg == s.last || Blind(s))
       case NoWork => !s.store.StoreWrites? && s.hw != p && (s.hw == s.last || Blind(s))
       case WorkReads => !s.store.StoreWrites? && s.hw != p && s.hw == s.last
       case WorkCompares(cur) =>
         && !s.store.StoreWrites? && s.hw != p
         && (if cur == s.last then s.hw == s.last || Blind(s) else cur == p && Blind(s))
       case WorkLoads => false
       case WorkFlags(_) => false
       case WorkArms(_) => false
  }

  lemma SettlingStepKeepsChoice(s: State, a: Action)
    requires !Lost(s) && Settling(s, a)
    ensures !Lost(Perform(s, a))
  {
  }

  lemma LostAtRest(s: State)
    requires Settled(s)
    ensures Lost(s) <==> s.hw != Chosen(s)
  {
  }

  /** A lost state that is not at rest has a step to a lost state. */
  function LosingStep(s: State): (a: Action)
    requires Lost(s) && !Settled(s)
    ensures Settling(s, a) && Lost(Perform(s, a))
  {
    match s.work
    case WorkWrites(_) => if s.store.StoreWrites? then ByStore(StoreWritesOk(0)) else ByWork(WorkWritesOk(0))
    case WorkReads => ByWork(WorkReadsOk)
    case WorkCompares(cur) => if cur == s.last then ByWork(WorkComparesProfiles) else ByStore(StoreAssignsLast)
    case NoWork =>
      if s.pending && s.hw == s.last then ByWork(WorkStarts)
      else if s.callback.CallbackClears? then ByTimer(CallbackClearsFlag)
      else if s.callback.CallbackSchedules? then ByTimer(CallbackSchedulesWork)
      else if s.handlers > 0 then ByNotice(HandlerSchedulesWork)
      else if s.notices > 0 then ByNotice(NoticeDelivered)
      else ByStore(StoreAssignsLast)
  }

  /** The schedule that always takes the losing step. */
  function Losing(s: State, i: nat): (t: State)
    requires Lost(s)
    ensures Lost(t)
  {
    if i == 0 then s
    else
      var before := Losing(s, i - 1);
      if Settled(before) then before else Perform(before, LosingStep(before))
  }

  /** A schedule comes to rest for good with `p` in hardware. */
  ghost predicate RestsWith(run: nat -> State, p: Profile) {
    exists n: nat :: RestsFrom(run, n, p)
  }

  ghost predicate RestsFrom(run: nat -> State, n: nat, p: Profile) {
    Settled(run(n)) && forall m: nat :: m >= n ==> run(m) == run(n) && run(m).hw == p
  }

  /** From every state whatsoever: all schedules come to rest with the user's last choice in hardware
      exactly if the state is not lost. */
  lemma ChoiceWinsExactly(s: State)
    ensures (forall run: nat -> State :: Schedule(run) && run(0) == s ==> RestsWith(run, Chosen(s))) <==> !Lost(s)
  {
    if Lost(s) {
      var run := (i: nat) => Losing(s, i);
      LosingIsASchedule(s, run);
      LosingMisses(s, run);
    } else {
      forall run: nat -> State | Schedule(run) && run(0) == s ensures RestsWith(run, Chosen(s)) {
        RestsUnlessLost(run);
      }
    }
  }

  lemma RestsUnlessLost(run: nat -> State)
    requires Schedule(run) && !Lost(run(0))
    ensures RestsWith(run, Chosen(run(0)))
  {
    var n := SettlesFrom(run, 0);
    LostAtRest(run(n));
    forall m: nat | m >= n ensures run(m) == run(n) {
      StaysSettled(run, n, m);
    }
    assert RestsFrom(run, n, Chosen(run(0)));
  }

  lemma LosingGoesOn(s: State, i: nat)
    requires Lost(s)
    ensures Follows(Losing(s, i), Losing(s, i + 1))
  {
    var t := Losing(s, i);
    if !Settled(t) {
      assert Settling(t, LosingStep(t));
    }
  }

  ghost predicate IsLosing(s: State, run: nat -> State, i: nat)
    requires Lost(s)
  {
    run(i) == Losing(s, i)
  }

  lemma LosingIsASchedule(s: State, run: nat -> State)
    requires Lost(s) && forall i: nat :: IsLosing(s, run, i)
    ensures Schedule(run)
  {
    forall i: nat ensures ScheduledAt(run, i) {
      assert IsLosing(s, run, i) && IsLosing(s, run, i + 1);
      LosingGoesOn(s, i);
    }
  }

  lemma LosingMisses(s: State, run: nat -> State)
    requires Lost(s) && Schedule(run) && forall i: nat :: IsLosing(s, run, i)
    ensures !RestsWith(run, Chosen(s))
  {
    var n := SettlesFrom(run, 0);
    assert IsLosing(s, run, n) && IsLosing(s, run, 0);
    LostAtRest(run(n));
    forall k: nat ensures !RestsFrom(run, k, Chosen(s)) {
      if k <= n {
        assert run(n).hw != Chosen(s);
      } else {
        StaysSettled(run, n, k);
      }
    }
  }

  /** The invariant keeps clear of them, so ... */
  lemma InvIsNotLost(s: State)
    requires Inv(s)
    ensures !Lost(s)
  {
  }

  /** ... from every reachable state, once users and mode keys are quiet and writes succeed, every
      continuation comes to rest after finitely many steps, although the driver's own writes raise
      further notifications; and it rests with the user's last choice in hardware. */
  lemma LastChoiceWins(s: State, actions: Actions, run: nat -> State)
    requires Initial(s) && Runs(s, actions) && run(0) == After(s, actions)
    requires Schedule(run)
    ensures RestsWith(run, Chosen(run(0)))
  {
    InvHolds(s, actions);
    InvIsNotLost(run(0));
    ChoiceWinsExactly(run(0));
  }

  // ---------------------------------------------------------------------------------------------
  // Lapses of the assumptions
  // ---------------------------------------------------------------------------------------------

  /** In a reachable state a failed read can lose the choice exactly if the profile is wrong and the work
      item that reads it is the last that would have noticed. */
  lemma FailedReadLosesExactly(s: State)
    requires Inv(s) && s.work.WorkReads?
    ensures Lost(Perform(s, ByWork(WorkReadFails))) <==> s.hw != s.last && !Outstanding(s)
  {
  }

  /** The work item is writing last_chosen_profile back, or the store has been overwritten by it already
      and every comparison finds it in place. */
  predicate Overwritten(s: State) {
    match s.work
    case WorkWrites(arg) => arg == s.last
    case NoWork => s.store.StoreAssigns? && s.hw == s.last
    case WorkReads => s.store.StoreAssigns? && s.hw == s.last
    case WorkCompares(cur) => s.store.StoreAssigns? && s.hw == s.last && cur == s.last
    case WorkLoads => false
    case WorkFlags(_) => false
    case WorkArms(_) => false
  }

  /** In a reachable state an expiry of the timer can lose the choice exactly if it comes between a store's
      bump and its assignment and the former profile is in hardware or about to get there. */
  lemma ExpiryLosesExactly(s: State)
    requires Inv(s) && TimerEnabled(s, TimerExpires)
    ensures Lost(Perform(s, ByTimer(TimerExpires))) <==>
            (s.store.StoreWrites? || s.store.StoreAssigns?) && s.store.p != s.last && Overwritten(s)
  {
  }

  function Probed(p: Profile): State {
    State(p, p, false, false, NoCallback, false, NoWork, NoStore, 0, 0)
  }

  /** A run without the assumptions, in which there were `lapses` lapses, leads to a lost state. */
  predicate Loses(s: State, run: Actions, lapses: nat) {
    RunsFreely(s, run) && Lapses(s, run) == lapses && Lost(AfterFreely(s, run))
  }

  lemma Prepend(s: State, a: Action, tail: Actions, lapses: nat) returns (run: Actions)
    requires Enabled(s, a) && Loses(Perform(s, a), tail, lapses)
    ensures run == Then(a, tail) && Loses(s, run, if Assumed(s, a) then lapses else lapses + 1)
  {
    run := Then(a, tail);
  }

  /** One failed read is enough: after a mode key the work item gives up and nobody looks again. */
  lemma OneFailedReadLosesTheChoice(former: Profile, pressed: Profile)
    requires pressed != former
    ensures Initial(Probed(former)) && exists run :: Loses(Probed(former), run, 1)
  {
    var s0 := Probed(former);
    var s1 := Perform(s0, ByNotice(ModeKey(pressed)));
    var s2 := Perform(s1, ByNotice(NoticeDelivered));
    var s3 := Perform(s2, ByNotice(HandlerSchedulesWork));
    var s4 := Perform(s3, ByWork(WorkStarts));
    FailedReadLosesExactly(s4);
    var run := Done;
    run := Prepend(s4, ByWork(WorkReadFails), run, 0);
    run := Prepend(s3, ByWork(WorkStarts), run, 1);
    run := Prepend(s2, ByNotice(HandlerSchedulesWork), run, 1);
    run := Prepend(s1, ByNotice(NoticeDelivered), run, 1);
    run := Prepend(s0, ByNotice(ModeKey(pressed)), run, 1);
  }

  /** A store has put `chosen` into hardware but not assigned it yet; the work item is about to put
      `former` there. */
  function Overtaken(former: Profile, chosen: Profile): State {
    State(chosen, former, true, true, NoCallback, false, WorkWrites(former), StoreAssigns(chosen), 0, 0)
  }

  lemma OvertakenLoses(former: Profile, chosen: Profile) returns (run: Actions)
    requires chosen != former
    ensures Loses(Overtaken(former, chosen), run, 1)
  {
    ExpiryLosesExactly(Overtaken(former, chosen));
    run := Prepend(Overtaken(former, chosen), ByTimer(TimerExpires), Done, 0);
  }

  /** One expiry of the timer between a store's write and its assignment is enough, too: a work item that
      was about to write the former profile back overwrites the store, reads its own profile back, and is
      content with it. */
  lemma OneEarlyExpiryLosesTheChoice(former: Profile, pressed: Profile, chosen: Profile)
    requires pressed != former && chosen != former
    ensures Initial(Probed(former)) && exists run :: Loses(Probed(former), run, 1)
  {
    var s0 := Probed(former);
    var s1 := Perform(s0, ByNotice(ModeKey(pressed)));
    var s2 := Perform(s1, ByNotice(NoticeDelivered));
    var s3 := Perform(s2, ByNotice(HandlerSchedulesWork));
    var s4 := Perform(s3, ByWork(WorkStarts));
    var s5 := Perform(s4, ByWork(WorkReadsOk));
    var s6 := Perform(s5, ByWork(WorkComparesProfiles));
    var s7 := Perform(s6, ByWork(WorkLoadsLast));
    var s8 := Perform(s7, ByWork(WorkSetsFlag));
    var s9 := Perform(s8, ByWork(WorkArmsTimer));
    var s10 := Perform(s9, ByStore(StoreSetsFlag(chosen)));
    var s11 := Perform(s10, ByStore(StoreArmsTimer));
    var s12 := Perform(s11, ByStore(StoreWritesOk(0)));
    assert s12 == Overtaken(former, chosen);
    var run := OvertakenLoses(former, chosen);
    run := Prepend(s11, ByStore(StoreWritesOk(0)), run, 1);
    run := Prepend(s10, ByStore(StoreArmsTimer), run, 1);
    run := Prepend(s9, ByStore(StoreSetsFlag(chosen)), run, 1);
    run := Prepend(s8, ByWork(WorkArmsTimer), run, 1);
    run := Prepend(s7, ByWork(WorkSetsFlag), run, 1);
    run := Prepend(s6, ByWork(WorkLoadsLast), run, 1);
    run := Prepend(s5, ByWork(WorkComparesProfiles), run, 1);
    run := Prepend(s4, ByWork(WorkReadsOk), run, 1);
    run := Prepend(s3, ByWork(WorkStarts), run, 1);
    run := Prepend(s2, ByNotice(HandlerSchedulesWork), run, 1);
    run := Prepend(s1, ByNotice(NoticeDelivered), run, 1);
    run := Prepend(s0, ByNotice(ModeKey(pressed)), run, 1);
  }
}
