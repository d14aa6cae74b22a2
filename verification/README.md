# Verified model of the TUXEDO driver core

These Dafny modules model the part of the TUXEDO laptop drivers that talks to embedded controllers (ECs)
and keyboard controllers, and prove what the drivers rely on. `dafny verify dfyconfig.toml` checks
everything.

| file | models |
|---|---|
| ProfileLoop.dfy | the NB05 power-profile restore loop: sysfs store, work item, timer and firmware events as interleaved single statements; safety and termination |
| ConcurrentStores.dfy | the same loop with any number of stores at once |
| Linearization.dfy | what it means that concurrent single-byte accesses behave like one flat memory |
| Nb05EcPorts.dfy | the NB05 index and data ports, stepped at single port accesses |
| UniwillDirectEc.dfy, UniwillDirectDriver.dfy | the Uniwill request registers, with the firmware taking note of requests and answering them at its own pace; the driver's routines with their bounded polling |
| UniwillFan.dfy, UniwillFanDriver.dfy | Uniwill fan control as functions and histories, and the driver's statements proved against them one EC write at a time |
| RestartRace.dfy | the restart work against fan calls, at single loads and writes |
| ScancodeFilter.dfy | the i8042 touchpad-toggle filter |
| RomId.dfy | the ROM-ID repair with its retry helpers over an unreliable EC connection |
| Charging.dfy | charging priority and profile over stores, resumes and adapter events |
| ChargingRaces.dfy | one charging setting at single accesses of stores and restores |
| Nb05Fan.dfy | NB05 fan requests, tables, clamps and conversions |
| Nb05FanRaces.dfy | stores to the same NB05 fan from several threads, cell by cell |
| Ite8291.dfy | the ITE 8291 per-key frame with its buffering and lost reports |
| ClevoCharger.dfy | nearest-value search and both Clevo charger interfaces |
| ClevoRaces.dfy | threshold stores from several threads, at single firmware calls |
| TuxedoIo.dfy, UniwillRam.dfy | profile selection and TDP limits; the shared EC registers |
| ModeByte.dfy | the byte that fan control and profile selection share, at single EC accesses with failing reads |
| Relay.dfy, Histories.dfy | cells that threads take values from and put them back into; facts that calls establish and end |
| Common.dfy | types that several modules share |

Driver code that changes state is a class whose methods have the source's branches and loops and are proved
against functions on the state; the promises are lemmas about those functions over arbitrary histories.
Protocols are systems of single actions, and results hold for every interleaving of them.

## What turned out differently

Where the obvious statement is false of the code, the code was kept and the exact condition proved.

- The profile loop needs its environment: reads of the profile succeed, and the 300 ms timer does not expire
  between a store's bump and its assignment of `last_chosen_profile`. `ProfileLoop.LastChoiceWins` has both
  as a guard on steps (`Assumed`). `ChoiceWinsExactly` says for every state whether the last choice wins from
  there, and `FailedReadLosesExactly` and `ExpiryLosesExactly` say which failed reads and which expiries lose
  it; one of either is enough, from probe.
- Direct EC access behaves like one memory unless the driver gives up on a request that the firmware is working
  on: then the answer can come after the call has returned (`UniwillDirectEc.AtomicExactly`). It can come between
  the clearing of FLAGS and the return, too, which is still within the call. Giving up can be reached from every
  initial state (`GivingUpIsReachable`).
- A request answered just before the 30th poll is reported as a timeout although it took effect
  (`UniwillDirectEc.ExitConditions`, `LatePollMissesTheAnswer`).
- Updates of the mode byte 0x0751 can be lost, between threads and after a failed read, whose status nobody
  looks at. `ModeByte.LosesExactly` says exactly when; two threads are enough (`TwoThreadsLose`).
- So can charging settings, charge thresholds, the speed of an older device's fan, and the uniformity of an
  NB05 fan table: none of them is locked over a whole update. `ChargingRaces.ForgetsExactly`,
  `ClevoRaces.SettingLostExactly`, `RestartRace.InForceExactly` and `Nb05FanRaces.TablesAreOneStoresExactly` say
  exactly when, and each has an overlap beside it that does it.
- `set_full_fan_mode(true)` clears the bit if it is already set. Its callers always clear it first.
- `uniwill_write_ec_ram_with_retry` can return 0 after every read-back mismatched, and so can `set_rom_id`
  (`RomId.SilentFailureExactly`, `SilentFailureHappens`).
- A lost row announcement of the ITE 8291 spoils the row before, whose place the next data takes
  (`Ite8291.RightExactly`).
- The comment on the fan tables speaks of one controllable zone up to 115 degrees; the GPU table's zone 0
  ends at 120. The model has the code's values.
- On devices with custom fan tables, suspend and resume neither save nor stage them again;
  `UniwillFan.SoundExactly` says what does. If the EC switched them off, fan calls have no effect until
  automatic control (`FanCallsAreLost`).
- A shipped PL4 limit can exceed what its one-byte register holds.
- The NB05 rpm tables are left alone only if both firmware numbers reach 9 and 10, so that version 10.2 counts as
  older than 9.10 (`Nb05Fan.RpmIsWrittenExactly`).
- One stray 0xe0 right before the touchpad sequence hides it, because the filter does not look at a
  mismatching byte again.

## Model

| member | source | states |
|---|---|---|
| `ProfileLoop.PowerProfiles.ProfileChangedTimerBump` | src/tuxedo_nb05/tuxedo_nb05_power_profiles.c:61-65 | the own-write flag is set and the timer armed |
| `ProfileLoop.PowerProfiles.ProfileChangedTimeout` | src/tuxedo_nb05/tuxedo_nb05_power_profiles.c:67-72 | an expiry clears the flag and queues the work item, and changes nothing else |
| `ProfileLoop.PowerProfiles.RewriteLastProfile` | src/tuxedo_nb05/tuxedo_nb05_power_profiles.c:249-252 | the work item is queued |
| `ProfileLoop.PowerProfiles.WriteProfile` | src/tuxedo_nb05/tuxedo_nb05_power_profiles.c:122-133 | flag and timer are set before the write; error code for a failed call and for a rejecting firmware; a failed write may still have reached the hardware |
| `ProfileLoop.PowerProfiles.PlatformProfileStore` | src/tuxedo_nb05/tuxedo_nb05_power_profiles.c:285-296 | a store without interference is the run of its single actions; unknown text is refused without any change |
| `ProfileLoop.PowerProfiles.RewriteLastProfileInternal` | src/tuxedo_nb05/tuxedo_nb05_power_profiles.c:230-247 | the work item without interference is the run of its single actions, including a failing read |
| `ProfileLoop.PowerProfiles.KeyboardNotify` | src/tuxedo_nb05/tuxedo_nb05_keyboard.c:207-215 | a notification queues the work item unless the own-write flag is set; it is consumed either way |
| `ProfileLoop.OneStepFirst` | src/tuxedo_nb05/tuxedo_nb05_power_profiles.c:61-72 | a run is its first action and the run of the rest |
| `ProfileLoop.StoreRunEnds` | src/tuxedo_nb05/tuxedo_nb05_power_profiles.c:122-133 | the actions of a store in program order are a run, and where it ends |
| `ProfileLoop.WriteBackRunEnds` | src/tuxedo_nb05/tuxedo_nb05_power_profiles.c:240-244 | the actions of a write-back by the work item are a run, and where it ends |
| `ProfileLoop.WorkRunEnds` | src/tuxedo_nb05/tuxedo_nb05_power_profiles.c:230-247 | the actions of the whole work item are a run, and where it ends |
| `ProfileLoop.StepKeepsInv` | src/tuxedo_nb05/tuxedo_nb05_power_profiles.c:61-72 | every single action of every routine keeps the loop invariant |
| `ProfileLoop.InvHolds` | src/tuxedo_nb05/tuxedo_nb05_power_profiles.c:230-252 | the invariant holds after every interleaving |
| `ProfileLoop.MismatchHasObligation` | src/tuxedo_nb05/tuxedo_nb05_power_profiles.c:230-252 | in every interleaving a hardware profile other than last_chosen_profile has an outstanding obligation, and a set flag has somebody who will clear it |
| `ProfileLoop.StoreStepDecreases` | src/tuxedo_nb05/tuxedo_nb05_power_profiles.c:285-292 | a store in progress gets closer to its end and does not change its choice |
| `ProfileLoop.WorkStepDecreases` | src/tuxedo_nb05/tuxedo_nb05_power_profiles.c:230-247 | a write-back uses up a budget that neither notifications nor timer refill |
| `ProfileLoop.SettlingStepDecreases` | src/tuxedo_nb05/tuxedo_nb05_power_profiles.c:67-72 | every step without new user input decreases the lexicographic measure and keeps the last choice |
| `ProfileLoop.StuckMeansSettled` | src/tuxedo_nb05/tuxedo_nb05_power_profiles.c:50-72 | no step is possible exactly when nothing is armed, queued, running or undelivered |
| `ProfileLoop.SettlesFrom` | src/tuxedo_nb05/tuxedo_nb05_power_profiles.c:230-252 | from any state at all every schedule reaches rest, and not in a lost state unless it began in one |
| `ProfileLoop.StaysSettled` | src/tuxedo_nb05/tuxedo_nb05_power_profiles.c:230-252 | a system at rest stays at rest |
| `ProfileLoop.SettlingStepKeepsChoice` | src/tuxedo_nb05/tuxedo_nb05_power_profiles.c:230-252 | no step of the settling system leads into a lost state |
| `ProfileLoop.LostAtRest` | src/tuxedo_nb05/tuxedo_nb05_power_profiles.c:240-244 | at rest, lost means that the hardware profile is not the last choice |
| `ProfileLoop.LosingStep` | src/tuxedo_nb05/tuxedo_nb05_power_profiles.c:230-252 | a lost state that is not at rest has a step to a lost state |
| `ProfileLoop.Losing` | src/tuxedo_nb05/tuxedo_nb05_power_profiles.c:230-252 | always taking a losing step stays among lost states |
| `ProfileLoop.LosingGoesOn` | src/tuxedo_nb05/tuxedo_nb05_power_profiles.c:230-252 | each losing step is a step that a schedule may take |
| `ProfileLoop.LosingIsASchedule` | src/tuxedo_nb05/tuxedo_nb05_power_profiles.c:230-252 | taking losing steps for ever is a schedule |
| `ProfileLoop.LosingMisses` | src/tuxedo_nb05/tuxedo_nb05_power_profiles.c:230-252 | the schedule of losing steps does not come to rest with the last choice |
| `ProfileLoop.RestsUnlessLost` | src/tuxedo_nb05/tuxedo_nb05_power_profiles.c:230-252 | every schedule from a state that is not lost comes to rest with the last choice |
| `ProfileLoop.ChoiceWinsExactly` | src/tuxedo_nb05/tuxedo_nb05_power_profiles.c:61-72 | main result: from every state whatsoever, all schedules come to rest with the last choice in hardware if and only if the state is not lost |
| `ProfileLoop.InvIsNotLost` | src/tuxedo_nb05/tuxedo_nb05_power_profiles.c:61-72 | the loop invariant excludes lost states |
| `ProfileLoop.FailedReadLosesExactly` | src/tuxedo_nb05/tuxedo_nb05_power_profiles.c:236-238 | from a reachable state a failed read loses the choice exactly if the profile is wrong and nothing else is outstanding |
| `ProfileLoop.ExpiryLosesExactly` | src/tuxedo_nb05/tuxedo_nb05_power_profiles.c:67-72 | from a reachable state an expiry loses the choice exactly if it comes between bump and assignment of a store and the former profile is in hardware or about to be written |
| `ProfileLoop.LastChoiceWins` | src/tuxedo_nb05/tuxedo_nb05_power_profiles.c:67-72 | main result: from every reachable state, once users and mode keys are quiet and writes succeed, every schedule comes to rest in finitely many steps, for good, with the last choice in hardware |
| `ProfileLoop.Prepend` | src/tuxedo_nb05/tuxedo_nb05_power_profiles.c:61-72 | one more action in front of a run to a lost state, with its lapse counted |
| `ProfileLoop.OneFailedReadLosesTheChoice` | src/tuxedo_nb05/tuxedo_nb05_power_profiles.c:236-238 | a lost state can be reached from probe with one failed read |
| `ProfileLoop.OvertakenLoses` | src/tuxedo_nb05/tuxedo_nb05_power_profiles.c:285-292 | a pending write-back of the former profile, a store between its write and its assignment, and one expiry lead to a lost state |
| `ProfileLoop.OneEarlyExpiryLosesTheChoice` | src/tuxedo_nb05/tuxedo_nb05_power_profiles.c:285-292 | that situation, and so a lost state, can be reached from probe with one early expiry |
| `ConcurrentStores.StoresAfter` | src/tuxedo_nb05/tuxedo_nb05_power_profiles.c:285-292 | what one store's step changes about all stores in progress |
| `ConcurrentStores.StoreKeepsSysInv` | src/tuxedo_nb05/tuxedo_nb05_power_profiles.c:285-292 | a step of any of the overlapping stores keeps the invariant |
| `ConcurrentStores.RestKeepsSysInv` | src/tuxedo_nb05/tuxedo_nb05_power_profiles.c:61-72 | a step of work item, timer or notification keeps it |
| `ConcurrentStores.SysStepKeepsInv` | src/tuxedo_nb05/tuxedo_nb05_power_profiles.c:61-72 | every step keeps the invariant of the system with any number of stores |
| `ConcurrentStores.SysInvHolds` | src/tuxedo_nb05/tuxedo_nb05_power_profiles.c:230-292 | that invariant holds after every interleaving |
| `ConcurrentStores.FewerSteps` | src/tuxedo_nb05/tuxedo_nb05_power_profiles.c:285-292 | one step of one store brings all stores closer to their end |
| `ConcurrentStores.SysSettlingDecreases` | src/tuxedo_nb05/tuxedo_nb05_power_profiles.c:230-292 | every settling step uses up a step of a store or the measure of the rest |
| `ConcurrentStores.SysNotStuck` | src/tuxedo_nb05/tuxedo_nb05_power_profiles.c:50-72 | a system that is not at rest has a settling step |
| `ConcurrentStores.SysSettlesFrom` | src/tuxedo_nb05/tuxedo_nb05_power_profiles.c:230-292 | every schedule reaches rest |
| `ConcurrentStores.SysStaysSettled` | src/tuxedo_nb05/tuxedo_nb05_power_profiles.c:230-292 | a system at rest stays at rest |
| `ConcurrentStores.LastAssignedWins` | src/tuxedo_nb05/tuxedo_nb05_power_profiles.c:285-292 | main result: from every state that any number of overlapping stores can reach, every schedule comes to rest with last_chosen_profile in hardware |
| `Linearization.Replay` | src/tuxedo_nb05/tuxedo_nb05_ec.c:59-97 | the flat memory that a history of instants describes keeps its size |
| `Linearization.BrokenStaysBroken` | src/tuxedo_nb05/tuxedo_nb05_ec.c:59-97 | a violation of call, act once, return is never forgotten by a longer history |
| `Linearization.FaithfulPrefix` | src/tuxedo_nb05/tuxedo_nb05_ec.c:59-97 | what loads saw is judged by the history before them |
| `Linearization.ActedAt` | src/tuxedo_nb05/tuxedo_nb05_ec.c:59-97 | a thread that has acted did so at one instant inside its call |
| `Linearization.LoadReturnsCurrentByte` | src/tuxedo_nb05/tuxedo_nb05_ec.c:59-76 | in a linearizable history a load returns the byte that the flat memory held at an instant inside the call |
| `Nb05EcPorts.EcPorts.IoWrite` | src/tuxedo_nb05/tuxedo_nb05_ec.c:47-51 | register number to the index port, then the byte to the data port |
| `Nb05EcPorts.EcPorts.IoRead` | src/tuxedo_nb05/tuxedo_nb05_ec.c:53-57 | register number to the index port, then the byte from the data port |
| `Nb05EcPorts.EcPorts.ReadEcRam` | src/tuxedo_nb05/tuxedo_nb05_ec.c:59-76 | returns the addressed byte, changes no memory, and is the twelve-access script |
| `Nb05EcPorts.EcPorts.WriteEcRam` | src/tuxedo_nb05/tuxedo_nb05_ec.c:79-96 | changes exactly the addressed byte, and is the twelve-access script |
| `Nb05EcPorts.EcPorts.Prologue` | src/tuxedo_nb05/tuxedo_nb05_ec.c:66-72 | whatever was in the index registers, they now address the cell |
| `Nb05EcPorts.Script` | src/tuxedo_nb05/tuxedo_nb05_ec.c:64-75 | both routines are twelve port accesses |
| `Nb05EcPorts.AccessPrepares` | src/tuxedo_nb05/tuxedo_nb05_ec.c:66-75 | each access leaves the index registers as the next one needs them, and only the last touches memory |
| `Nb05EcPorts.AccessKeepsInv` | src/tuxedo_nb05/tuxedo_nb05_ec.c:64-75 | a port access of the mutex holder keeps the invariant |
| `Nb05EcPorts.CallKeepsInv` | src/tuxedo_nb05/tuxedo_nb05_ec.c:59-64 | a new call keeps the invariant |
| `Nb05EcPorts.AcquireKeepsInv` | src/tuxedo_nb05/tuxedo_nb05_ec.c:64-64 | taking the mutex keeps the invariant |
| `Nb05EcPorts.ReleaseKeepsInv` | src/tuxedo_nb05/tuxedo_nb05_ec.c:75-75 | leaving the mutex with the result keeps the invariant |
| `Nb05EcPorts.FirmwareKeepsInv` | src/tuxedo_nb05/tuxedo_nb05_ec.c:59-76 | the firmware changing a cell of its own accord keeps the invariant |
| `Nb05EcPorts.OneMoreAction` | src/tuxedo_nb05/tuxedo_nb05_ec.c:59-97 | a run and one enabled action are a run |
| `Nb05EcPorts.UninterruptedIsARun` | src/tuxedo_nb05/tuxedo_nb05_ec.c:59-97 | the routine as the methods run it is a run of the interleaving system |
| `Nb05EcPorts.StepKeepsInv` | src/tuxedo_nb05/tuxedo_nb05_ec.c:59-97 | every step keeps the invariant |
| `Nb05EcPorts.InvHolds` | src/tuxedo_nb05/tuxedo_nb05_ec.c:59-97 | the invariant holds after every interleaving |
| `Nb05EcPorts.PortsAreAtomicMemory` | src/tuxedo_nb05/tuxedo_nb05_ec.c:59-97 | main result: reads and writes of any number of threads, interleaved at every port access, are linearizable to one flat memory |
| `Nb05EcPorts.HolderIsLockOwner` | src/tuxedo_nb05/tuxedo_nb05_ec.c:64-75 | a thread is at the ports exactly when it has the mutex |
| `Nb05EcPorts.OneThreadAtThePorts` | src/tuxedo_nb05/tuxedo_nb05_ec.c:64-75 | never two threads at the ports; the mutex is free exactly when none is |
| `UniwillDirectEc.PostedRequest` | src/uniwill_wmi.c:162-170 | what the firmware reads out of the five registers is the request that was posted |
| `UniwillDirectEc.PostingKeepsHolderOk` | src/uniwill_wmi.c:156-170 | the register accesses up to the request keep the holder's part of the invariant |
| `UniwillDirectEc.AccessKeepsHolderOk` | src/uniwill_wmi.c:156-195 | polling, fetching and clearing FLAGS keep the holder's part of the invariant |
| `UniwillDirectEc.AddressingKeepsHolderOk` | src/uniwill_wmi.c:156-166 | the register accesses up to the address keep the holder's part of the invariant |
| `UniwillDirectEc.PostingIsNotPosted` | src/uniwill_wmi.c:156-170 | until the last register write there is no request for the firmware to see |
| `UniwillDirectEc.RequestIsHolders` | src/uniwill_wmi.c:172-180 | a request that the firmware finds is the lock holder's own and not answered yet |
| `UniwillDirectEc.AnswerKeepsHolderOk` | src/uniwill_wmi.c:172-188 | an answer leaves in the registers what the holder will fetch |
| `UniwillDirectEc.LatchKeepsInv` | src/uniwill_wmi.c:172-180 | the firmware taking note of a request keeps the invariant |
| `UniwillDirectEc.AnswerActs` | src/uniwill_wmi.c:172-188 | an answer is the instant at which the lock holder's operation acts, on its own address and byte |
| `UniwillDirectEc.AnswerKeepsInv` | src/uniwill_wmi.c:172-188 | an answer keeps the invariant |
| `UniwillDirectEc.AccessKeepsInv` | src/uniwill_wmi.c:154-197 | a register access keeps the invariant |
| `UniwillDirectEc.CallKeepsInv` | src/uniwill_wmi.c:146-154 | a new call keeps the invariant |
| `UniwillDirectEc.AcquireKeepsInv` | src/uniwill_wmi.c:154-154 | taking the mutex keeps the invariant |
| `UniwillDirectEc.ReleaseKeepsInv` | src/uniwill_wmi.c:195-207 | leaving the mutex with the result keeps the invariant |
| `UniwillDirectEc.FirmwareKeepsInv` | src/uniwill_wmi.c:146-208 | the firmware changing a cell of its own accord keeps the invariant |
| `UniwillDirectEc.AnswerRaisesDrdy` | src/uniwill_wmi.c:175-180 | an answer raises DRDY whatever flags the firmware keeps, and is not given twice |
| `UniwillDirectEc.OneMoreAction` | src/uniwill_wmi.c:146-272 | a run and one enabled action are a run |
| `UniwillDirectEc.StepKeepsInv` | src/uniwill_wmi.c:146-272 | every step keeps the invariant |
| `UniwillDirectEc.InvHolds` | src/uniwill_wmi.c:146-272 | the invariant holds after every interleaving that starts with idle FLAGS |
| `UniwillDirectEc.DirectAccessIsAtomicMemory` | src/uniwill_wmi.c:146-272 | main result: any number of threads, interleaved at every register access with a firmware that takes note of requests and answers them later, see one flat memory; each call acts at most once and never after its return; FLAGS is 0 whenever the lock is free |
| `UniwillDirectEc.InvIsLinearizable` | src/uniwill_wmi.c:146-272 | the invariant implies linearizability |
| `UniwillDirectEc.AtomicExactly` | src/uniwill_wmi.c:195-207 | after every timely run, a step keeps all further behaviour atomic if and only if it does not clear FLAGS under a request that the firmware is working on |
| `UniwillDirectEc.LateAnswerBreaks` | src/uniwill_wmi.c:189-197 | after giving up on a request that the firmware is working on, an answer can come after the return of the call |
| `UniwillDirectEc.ExitConditions` | src/uniwill_wmi.c:172-207 | a call succeeds exactly if one of the first 29 polls it made found DRDY in FLAGS (on the 30th it is still a timeout); FLAGS is 0 at every exit and no request is left while the lock is free |
| `UniwillDirectEc.AccessKeepsPollsFit` | src/uniwill_wmi.c:172-189 | polling goes on while DRDY is not found and polls are left |
| `UniwillDirectEc.PollsFitHolds` | src/uniwill_wmi.c:172-189 | at every moment of every run the routine is where its polls so far lead |
| `UniwillDirectEc.LeavesInTime` | src/uniwill_wmi.c:172-195 | the result is decided by whether a poll before the 30th found DRDY |
| `UniwillDirectEc.Posts` | src/uniwill_wmi.c:218-229 | from every initial state a thread gets as far as the low address byte of a write |
| `UniwillDirectEc.CompletedRuns` | src/uniwill_wmi.c:230-236 | the four accesses that complete the request can follow |
| `UniwillDirectEc.CompletedIsPosted` | src/uniwill_wmi.c:230-236 | after the four accesses that complete it, the request is posted |
| `UniwillDirectEc.LatchesPosted` | src/uniwill_wmi.c:236-245 | the firmware can take note of it |
| `UniwillDirectEc.PostsAndIsLatched` | src/uniwill_wmi.c:218-239 | from every initial state a thread can wait for a write that the firmware is working on |
| `UniwillDirectEc.NotReadyYet` | src/uniwill_wmi.c:243-244 | an unanswered request does not show DRDY |
| `UniwillDirectEc.OnePollInVain` | src/uniwill_wmi.c:239-246 | a poll of an unanswered request finds nothing |
| `UniwillDirectEc.PollsInVain` | src/uniwill_wmi.c:239-246 | up to 29 such polls can follow each other |
| `UniwillDirectEc.GivingUpIsReachable` | src/uniwill_wmi.c:255-271 | from every initial state any thread can get to clear FLAGS under a request that the firmware is working on, and then a run that is not linearizable follows |
| `UniwillDirectEc.LastPollGivesUp` | src/uniwill_wmi.c:243-259 | an answer found by the 30th poll is given up |
| `UniwillDirectEc.ClearsAndReturns` | src/uniwill_wmi.c:255-272 | giving up clears FLAGS and returns an error |
| `UniwillDirectEc.LatePollMissesTheAnswer` | src/uniwill_wmi.c:239-272 | from every initial state a write answered just before the 30th poll can take effect and return an error |
| `UniwillDirectDriver.DirectEc.FirmwareTurn` | src/uniwill_wmi.c:172-180 | a request is served at most once |
| `UniwillDirectDriver.DirectEc.WaitForReady` | src/uniwill_wmi.c:172-180 | the remaining count is nonzero exactly if the firmware answered before poll 29 |
| `UniwillDirectDriver.DirectEc.PostRead` | src/uniwill_wmi.c:156-170 | whatever FLAGS held, the firmware sees exactly this read |
| `UniwillDirectDriver.DirectEc.PostWrite` | src/uniwill_wmi.c:220-236 | the firmware sees exactly this write, unless FLAGS already asked for a read |
| `UniwillDirectDriver.DirectEc.ReadAddrDirect` | src/uniwill_wmi.c:146-208 | 0 exactly if answered before the 29th poll, then with the byte as served, else the error pattern; memory unchanged; FLAGS cleared |
| `UniwillDirectDriver.DirectEc.WriteAddrDirect` | src/uniwill_wmi.c:210-272 | 0 exactly if answered before the 29th poll; the byte is written exactly if answered at all and FLAGS did not ask for a read before; FLAGS cleared |
| `UniwillDirectDriver.DirectEc.ReadEcRam` | src/uniwill_wmi.c:274-294 | a 16-bit read: the byte as served, or an error and no change |
| `UniwillDirectDriver.DirectEc.WriteEcRam` | src/uniwill_wmi.c:296-313 | a 16-bit write: 0 exactly if answered in time; on an error the write has happened fully or not at all |
| `UniwillDirectDriver.PostedFlagsRequest` | src/uniwill_wmi.c:162-170 | what the firmware reads out of FLAGS over any former content |
| `UniwillDirectDriver.PostedLoadFlags` | src/uniwill_wmi.c:168-170 | the flags of a read |
| `UniwillDirectDriver.PostedStoreFlags` | src/uniwill_wmi.c:234-236 | the flags of a write |
| `UniwillDirectDriver.ServedBeforeNext` | src/uniwill_wmi.c:175-180 | one more turn of the firmware |
| `UniwillDirectDriver.SoloAccess` | src/uniwill_wmi.c:156-195 | a routine goes on with its next register access |
| `UniwillDirectDriver.SoloPostsAddress` | src/uniwill_wmi.c:156-166 | the register accesses up to the address |
| `UniwillDirectDriver.SoloPostsRest` | src/uniwill_wmi.c:168-170 | the register accesses that complete the request |
| `UniwillDirectDriver.SoloPosts` | src/uniwill_wmi.c:156-170 | the register accesses before the poll loop post exactly the request |
| `UniwillDirectDriver.PollOnce` | src/uniwill_wmi.c:175-180 | one pass of the poll loop, access by access |
| `UniwillDirectDriver.PolledNext` | src/uniwill_wmi.c:175-180 | one pass of the poll loop: when DRDY is seen and what is in the registers |
| `UniwillDirectDriver.SoloClears` | src/uniwill_wmi.c:195-195 | clearing FLAGS ends the routine with the result it has |
| `UniwillDirectDriver.SoloFetches` | src/uniwill_wmi.c:182-188 | a successful read fetches the byte, then clears FLAGS |
| `UniwillDirectDriver.SoloEnds` | src/uniwill_wmi.c:182-195 | what follows the last poll, for every outcome of the loop |
| `UniwillDirectDriver.SoloWhole` | src/uniwill_wmi.c:146-208 | posting, polling and leaving make up the whole routine |
| `UniwillDirectDriver.FollowsAdvances` | src/uniwill_wmi.c:146-272 | each access brings the routine closer to its end |
| `UniwillDirectDriver.ReachesInSteps` | src/uniwill_wmi.c:146-272 | a routine ends where its next access leaves it to end |
| `UniwillDirectDriver.ReachesAtOnce` | src/uniwill_wmi.c:195-207 | a routine at its end has reached it |
| `UniwillDirectDriver.SoloTurn` | src/uniwill_wmi.c:175-180 | the firmware's turn before a poll, as actions of the system |
| `UniwillDirectDriver.SoloStep` | src/uniwill_wmi.c:146-272 | one access with that turn, as actions of the system |
| `UniwillDirectDriver.SoloIsARun` | src/uniwill_wmi.c:146-272 | the routine as the methods run it is a run of the interleaving system |
| `UniwillFan.Quantised` | src/uniwill_keyboard.h:2063-2077 | speeds up to the maximum become 1 or 50 to 200; those are not changed again |
| `UniwillFan.FullFanAsRequested` | src/uniwill_keyboard.h:1913-1928 | set_full_fan_mode does as asked exactly when it is not asked to set a bit that is set (it then clears it); no other bit changes |
| `UniwillFan.ClearThenSet` | src/uniwill_keyboard.h:1996-1998 | clearing and setting the full-fan bit |
| `UniwillFan.RestartEndsInFullFan` | src/uniwill_keyboard.h:1988-2010 | from every starting byte the restart work ends in full-fan mode with both current speeds in the fan registers |
| `UniwillFan.DirectFanKeepsFullFanInv` | src/uniwill_keyboard.h:2012-2036 | a fan call on an older device keeps the invariant that ties queue, registers, cached speeds and request together |
| `UniwillFan.SleepKeepsFullFanInv` | src/uniwill_keyboard.h:2273-2303 | automatic control, suspend, the EC losing its memory and both calls of resume keep that invariant |
| `UniwillFan.IoKeepsFullFanInv` | src/tuxedo_io/tuxedo_io.c:459-525 | profile selections and TDP requests keep that invariant |
| `UniwillFan.CallKeepsFullFanInv` | src/uniwill_keyboard.h:1988-2127 | every call keeps the invariant |
| `UniwillFan.FullFanInvHolds` | src/uniwill_keyboard.h:1988-2127 | that invariant holds after every history |
| `UniwillFan.RequestIsInForce` | src/uniwill_keyboard.h:1988-2127 | after every history: asked for speeds exactly if the work is queued, and once it has run the requested speeds are in both registers in full-fan mode |
| `UniwillFan.NightKeepsRequest` | src/uniwill_keyboard.h:2285-2303 | what is requested survives suspend and resume; work that fired is re-queued |
| `UniwillFan.SuspendResumeRestores` | src/uniwill_keyboard.h:2285-2303 | main result: after any history, suspend, any change of EC memory and resume, once the restart work has run both registers hold the speeds requested before |
| `UniwillFan.NothingToRestore` | src/uniwill_keyboard.h:2285-2303 | if automatic control was in force, suspend and resume write nothing and change no driver state |
| `UniwillFan.ProfileKeepsFanBit` | src/tuxedo_io/tuxedo_io.c:496-525 | a profile selection leaves the full-fan bit alone |
| `UniwillFan.ComposedParts` | src/uniwill_keyboard.h:1913-1928 | the three fields of the mode byte can be changed independently |
| `UniwillFan.ModeAfterIsComposed` | src/tuxedo_io/tuxedo_io.c:496-525 | each call changes its own field of the mode byte |
| `UniwillFan.SetFanKeepsMode` | src/uniwill_keyboard.h:2038-2089 | setting a fan speed never changes the mode byte |
| `UniwillFan.CallChangesMode` | src/uniwill_keyboard.h:2092-2127 | the mode byte after each kind of call |
| `UniwillFan.CallKeepsModeIs` | src/uniwill_keyboard.h:1913-1928 | each call keeps the mode byte composed of its fields |
| `UniwillFan.ModeByteIsShared` | src/uniwill_keyboard.h:1913-1928 | main result: after every history 0x0751 is made of the profile bits last selected, the full-fan bit of the last fan action, and the untouched rest |
| `UniwillFan.StagedIsComplete` | src/uniwill_keyboard.h:1948-1980 | staging fills in all 96 cells and enables the tables |
| `UniwillFan.TableIsSafe` | src/uniwill_keyboard.h:1948-2113 | after every history an enabled table is complete, with a speed of 1 or 50 to 200 in both zones 0 |
| `UniwillFan.NightKeepsNoTables` | src/uniwill_keyboard.h:2273-2303 | on newer devices suspend and resume touch neither the tables nor what the driver believes of them |
| `UniwillFan.SpeedWriteMends` | src/uniwill_keyboard.h:2079-2079 | a speed write completes the table exactly if no other cell is wrong |
| `UniwillFan.InitializedSetFan` | src/uniwill_keyboard.h:2050-2082 | a fan call on tables thought staged writes one cell of them and enables nothing |
| `UniwillFan.FirstSetFan` | src/uniwill_keyboard.h:2050-2082 | a fan call on tables not thought staged stages them all |
| `UniwillFan.SetFanRestoresExactly` | src/uniwill_keyboard.h:2048-2082 | when a fan call leaves the tables sound |
| `UniwillFan.OtherCallsKeepTable` | src/uniwill_keyboard.h:2273-2303 | suspend, resume, profile and TDP calls leave the tables as they are |
| `UniwillFan.AutoDisables` | src/uniwill_keyboard.h:2104-2107 | automatic control disables the table |
| `UniwillFan.CallRestoresExactly` | src/uniwill_keyboard.h:2038-2127 | what each call does to the soundness of the tables, both ways |
| `Histories.HoldsExactly` | src/uniwill_keyboard.h:2038-2127 | a fact that some calls establish and others end holds exactly if it did and was never ended, or was established and not ended since |
| `UniwillFan.PrefixRuns` | src/uniwill_keyboard.h:2038-2127 | a beginning of a history is a history |
| `UniwillFan.SoundExactly` | src/uniwill_keyboard.h:1931-2127 | main result: over every history with any number of nights the tables are sound exactly if the EC has not spoilt them, or automatic control, a staging fan call, a fan call that mends the one wrong cell, or the EC itself restored them since |
| `UniwillFan.BeforeNext` | src/uniwill_keyboard.h:2038-2127 | one more call in a history |
| `UniwillFan.StaysQuiet` | src/uniwill_keyboard.h:2038-2127 | a newer device never has work queued or speeds saved |
| `UniwillFan.StagedSpeeds` | src/uniwill_keyboard.h:1948-1980 | staging enables the tables with both fans off |
| `UniwillFan.KnownTablesSpeed` | src/uniwill_keyboard.h:2050-2082 | a fan call on tables thought staged changes its own speed cell only |
| `UniwillFan.SetFanSpeedExactly` | src/uniwill_keyboard.h:2048-2082 | when a speed is in force after a fan call |
| `UniwillFan.CallSpeedExactly` | src/uniwill_keyboard.h:2038-2127 | when a speed is in force after any call |
| `UniwillFan.SpeedInForceExactly` | src/uniwill_keyboard.h:2038-2127 | main result: over every history with any number of nights a requested speed is in force exactly if nothing has dropped it since it was, or since a fan call, staging or the EC put it there |
| `UniwillFan.CallLeavesTablesOff` | src/uniwill_keyboard.h:2048-2082 | tables thought staged but switched off stay off |
| `UniwillFan.FanCallsAreLost` | src/uniwill_keyboard.h:2048-2082 | if the EC switched staged tables off, no fan call puts a speed into force before automatic control |
| `UniwillFan.SetFanControlByte` | src/uniwill_keyboard.h:1951-1979 | a fan call leaves a control byte alone or sets its enable bit |
| `UniwillFan.AutoControlBytes` | src/uniwill_keyboard.h:2104-2111 | automatic control clears exactly the two enable bits |
| `UniwillFan.CallChangesControlByte` | src/uniwill_keyboard.h:2097-2113 | no call changes any other bit of 0x07c5 or 0x07c6 |
| `UniwillFan.HistoryKeepsControlBits` | src/uniwill_keyboard.h:2097-2113 | no history changes any other bit of 0x07c5 or 0x07c6 |
| `UniwillFan.AutoRestoresControlBytes` | src/uniwill_keyboard.h:2097-2113 | if both enable bits started clear, automatic control restores both bytes exactly, whatever was called before |
| `UniwillFan.QuantisedMeans` | src/uniwill_keyboard.h:2063-2077 | below 25 is off (stored as 1), 25 to 49 the slowest speed 50, the rest unchanged; a greater request never makes a fan slower |
| `UniwillFan.StagedTableCell` | src/uniwill_keyboard.h:1948-1974 | each of the 96 cells after staging |
| `UniwillFan.StagedZoneZero` | src/uniwill_keyboard.h:1948-1974 | zone 0 ends at 115 degrees for the CPU and 120 for the GPU, with the fan off |
| `UniwillFan.StagedEnds` | src/uniwill_keyboard.h:1948-1974 | zone i above it ends at 116 + i degrees |
| `UniwillFan.StagedStarts` | src/uniwill_keyboard.h:1948-1974 | zone i above it starts at 115 + i degrees |
| `UniwillFan.StagedZonesFollow` | src/uniwill_keyboard.h:1948-1974 | fifteen zones at full speed follow each other without gap |
| `UniwillFan.InitFanBytes` | src/uniwill_keyboard.h:1931-1985 | the first initialisation leaves full-fan mode, separates and enables the tables, and keeps the other bits |
| `UniwillFan.InitFanFrame` | src/uniwill_keyboard.h:1931-1985 | initialisation changes nothing but the tables and those three bytes, and nothing at all a second time or on older devices |
| `UniwillFan.SetAutoOnUniversal` | src/uniwill_keyboard.h:2092-2113 | automatic control of a newer device gives up both tables, forgets that they were staged, and changes nothing else |
| `UniwillFan.SetAutoOnOlder` | src/uniwill_keyboard.h:2114-2127 | automatic control of an older device cancels the work, leaves full-fan mode, and changes nothing else |
| `UniwillFan.SetFanKeepsTablesKnown` | src/uniwill_keyboard.h:2048-2082 | a fan call keeps it true that the tables are enabled exactly if the driver counts them as staged |
| `UniwillFan.AutoLeavesTablesKnown` | src/uniwill_keyboard.h:2092-2113 | automatic control keeps the tables enabled exactly if they count as staged |
| `UniwillFan.CallKeepsTablesKnown` | src/uniwill_keyboard.h:2038-2127 | every call without suspend keeps the tables enabled exactly if they count as staged |
| `UniwillFan.TablesAreKnown` | src/uniwill_keyboard.h:2038-2127 | after every history without suspend, from a disabled table, the tables are enabled exactly if the driver counts them as staged |
| `UniwillFan.ValidCall` | src/uniwill_keyboard.h:2048-2082 | with tables enabled exactly if they count as staged, a valid fan call puts its speed into its fan's zone 0 of an enabled, separate table |
| `UniwillFan.EnableBitsAreSet` | src/uniwill_keyboard.h:1976-1979 | the two enable bits are set in the bytes written |
| `UniwillFan.ValidCallTakesEffect` | src/uniwill_keyboard.h:2038-2127 | main result: on a newer device that starts with its table disabled, after every history of calls without suspend, automatic control included, a fan call with a valid speed out of full-fan mode makes that fan run at that speed |
| `UniwillFan.InvalidCall` | src/uniwill_keyboard.h:2048-2082 | an invalid fan or speed changes no speed, and in full-fan mode a fan call of a newer device changes nothing |
| `UniwillFan.RequestInRegisters` | src/uniwill_keyboard.h:1987-2035 | after every history of an older device whose request is in force both duty registers hold its speeds, in full-fan mode |
| `RestartRace.CarriedIsTaken` | src/uniwill_keyboard.h:2002-2006 | a register write has a speed that was assigned or loaded before |
| `RestartRace.Taken` | src/uniwill_keyboard.h:2002-2006 | where the speed of a register write was taken |
| `RestartRace.LastWrite` | src/uniwill_keyboard.h:2002-2032 | the last register write of a schedule |
| `RestartRace.RegisterHolds` | src/uniwill_keyboard.h:2002-2032 | the fan register holds what was current when the last register write took its speed |
| `RestartRace.CurrentSince` | src/uniwill_keyboard.h:2018-2023 | the current speed is the same one exactly if nothing was assigned in between |
| `RestartRace.InForceExactly` | src/uniwill_keyboard.h:1988-2036 | main result: whatever rounds of the restart work and fan calls overlap, the register holds the very speed that is current exactly if nothing was assigned after the last register write took its speed |
| `RestartRace.CurrentSpeed` | src/uniwill_keyboard.h:2018-2023 | without assignments the current speed stays |
| `RestartRace.LaterRoundMends` | src/uniwill_keyboard.h:2002-2009 | a round that begins after the last assignment, as at the next firing, sets the requested speed |
| `RestartRace.Grown` | src/uniwill_keyboard.h:2002-2032 | one more access |
| `RestartRace.OverlapLosesSpeed` | src/uniwill_keyboard.h:2002-2032 | a round that loads before a fan call and writes after it takes the requested speed back |
| `UniwillFanDriver.FanDriver.constructor` | src/uniwill_keyboard.h:1903-1909 | a freshly loaded driver over any EC memory; the table is safe if it is disabled |
| `UniwillFanDriver.FanDriver.WriteEc` | src/uniwill_keyboard.h:157-170 | one write, which keeps all memories so far safe if the new one is |
| `UniwillFanDriver.FanDriver.SetFullFanMode` | src/uniwill_keyboard.h:1913-1928 | sets, clears or keeps the bit as FullFanAsRequested says, with safe memories throughout |
| `UniwillFanDriver.FanDriver.WriteZone` | src/uniwill_keyboard.h:1960-1973 | the six cells of a zone, written while the table is disabled |
| `UniwillFanDriver.FanDriver.StageZones` | src/uniwill_keyboard.h:1960-1974 | sixteen zones; every other cell is as before |
| `UniwillFanDriver.FanDriver.SeparateTables` | src/uniwill_keyboard.h:1951-1954 | adding the bit when it is clear is setting it |
| `UniwillFanDriver.FanDriver.PrepareTables` | src/uniwill_keyboard.h:1949-1954 | full-fan mode off and tables separated, nothing else |
| `UniwillFanDriver.FanDriver.StageAndEnable` | src/uniwill_keyboard.h:1949-1979 | ends in the staged memory, and is safe after each single write |
| `UniwillFanDriver.FanDriver.InitFan` | src/uniwill_keyboard.h:1931-1985 | stages at most once between two calls of automatic control; safe after each single write |
| `UniwillFanDriver.FanDriver.RestartDirectFanControl` | src/uniwill_keyboard.h:1988-2010 | ten rounds of writes have the effect of one; the work is queued again |
| `UniwillFanDriver.FanDriver.DirectFanControl` | src/uniwill_keyboard.h:2012-2036 | first use queues the work instead of writing; an unknown fan is refused |
| `UniwillFanDriver.FanDriver.WriteOther` | src/uniwill_keyboard.h:157-170 | a write outside the tables and their enable byte is always safe |
| `UniwillFanDriver.FanDriver.WriteCell` | src/uniwill_keyboard.h:172-197 | a table write is safe while the table is disabled |
| `UniwillFanDriver.FanDriver.WriteSpeed` | src/uniwill_keyboard.h:2079-2081 | an allowed speed goes to the table cell and the fan register, safely |
| `UniwillFanDriver.FanDriver.SetFan` | src/uniwill_keyboard.h:2038-2089 | the state after a fan call, the error cases, and safety after each single write |
| `UniwillFanDriver.FanDriver.DisableTable` | src/uniwill_keyboard.h:2104-2107 | clears the enable bit with a single write, if it is set |
| `UniwillFanDriver.FanDriver.JoinTables` | src/uniwill_keyboard.h:2108-2111 | clears the separation bit |
| `UniwillFanDriver.FanDriver.LeaveTables` | src/uniwill_keyboard.h:2104-2111 | an enabled table is disabled by the very first write |
| `UniwillFanDriver.FanDriver.SetFanAuto` | src/uniwill_keyboard.h:2092-2127 | the state after automatic control; an enabled table is disabled by the very first write |
| `UniwillFanDriver.FanDriver.AutoOnUniversal` | src/uniwill_keyboard.h:2097-2126 | automatic control on newer devices: tables disabled first, then joined |
| `UniwillFanDriver.FanDriver.AutoOnOlder` | src/uniwill_keyboard.h:2114-2126 | automatic control on older devices: work cancelled, full-fan mode off |
| `UniwillFanDriver.FanDriver.SuspendFans` | src/uniwill_keyboard.h:2285-2290 | speeds are saved exactly when control was started |
| `UniwillFanDriver.FanDriver.ResumeFans` | src/uniwill_keyboard.h:2299-2303 | both calls of resume, if nothing comes between them |
| `UniwillFanDriver.ResumedIsBothCalls` | src/uniwill_keyboard.h:2299-2303 | both calls of resume are the two resume actions of the histories |
| `UniwillFanDriver.CellWritten` | src/uniwill_keyboard.h:1960-1973 | which cells a zone is made of, and with which bytes |
| `UniwillFanDriver.ZoneWritten` | src/uniwill_keyboard.h:1967-1974 | one more zone |
| `UniwillFanDriver.AddIsSet` | src/uniwill_keyboard.h:1952-1953 | adding or subtracting a bit after testing it is setting or clearing it |
| `UniwillFanDriver.EnablingStagesAll` | src/uniwill_keyboard.h:1976-1979 | after sixteen zones, enabling gives the staged memory, which is safe |
| `UniwillFanDriver.SpeedCellIsSafe` | src/uniwill_keyboard.h:2079-2079 | writing an allowed speed into a zone 0 keeps the memory safe |
| `ScancodeFilter.Uniwill8042Filter.constructor` | src/uniwill_keyboard.h:2148-2148 | the position starts at 0 |
| `ScancodeFilter.Uniwill8042Filter.Apply` | src/uniwill_keyboard.h:2139-2166 | the statements of the filter compute the automaton step; the index is always in bounds |
| `ScancodeFilter.AuxIsTransparent` | src/uniwill_keyboard.h:2150-2151 | the position depends on the keyboard bytes alone |
| `ScancodeFilter.PositionSpellsPrefix` | src/uniwill_keyboard.h:2153-2165 | the position counts bytes that spell the sequence, read from position 0 |
| `ScancodeFilter.PrefixIsFollowed` | src/uniwill_keyboard.h:2153-2161 | from position 0 the sequence is followed |
| `ScancodeFilter.FiresExactly` | src/uniwill_keyboard.h:2153-2161 | among keyboard bytes alone the event fires exactly at the end of a sequence read from position 0 |
| `ScancodeFilter.DetectsExactly` | src/uniwill_keyboard.h:2139-2166 | main result: on every stream the event fires at exactly those bytes that complete the sequence from position 0; AUX bytes neither fire nor disturb |
| `ScancodeFilter.StrayByteHidesSequence` | src/uniwill_keyboard.h:2164-2165 | a mismatching byte is not looked at again, so one stray 0xe0 before the sequence hides it |
| `ScancodeFilter.Spelled` | src/uniwill_keyboard.h:2130-2137 | the longest beginning of the sequence that a stream spells |
| `ScancodeFilter.NextByteCounts` | src/uniwill_keyboard.h:2153-2161 | one more fitting byte |
| `ScancodeFilter.MisfitCounts` | src/uniwill_keyboard.h:2164-2165 | a byte that does not fit |
| `ScancodeFilter.TallyFromSnoc` | src/uniwill_keyboard.h:2139-2166 | counting one more byte from the front and from the back agree |
| `ScancodeFilter.TallyFromStart` | src/uniwill_keyboard.h:2139-2166 | counting a whole stream from the front and from the back agree |
| `ScancodeFilter.AttemptIsFollowed` | src/uniwill_keyboard.h:2153-2161 | an attempt is followed as far as it spells |
| `ScancodeFilter.AttemptIsAbandoned` | src/uniwill_keyboard.h:2164-2165 | at the first byte that does not fit an attempt is abandoned |
| `ScancodeFilter.AttemptAccounts` | src/uniwill_keyboard.h:2153-2165 | one attempt in the account |
| `ScancodeFilter.ParseExplains` | src/uniwill_keyboard.h:2139-2166 | the automaton does exactly what reading attempt by attempt predicts |
| `ScancodeFilter.SwallowBalance` | src/uniwill_keyboard.h:2139-2166 | main result: events, swallowed downs and swallowed ups of every stream; downs minus ups are the attempts abandoned or open right after the down; each match swallows two bytes |
| `ScancodeFilter.LastKeyBefore` | src/uniwill_keyboard.h:2150-2165 | the keyboard byte before, behind any AUX bytes |
| `ScancodeFilter.SwallowsOnlyPairs` | src/uniwill_keyboard.h:2155-2156 | only 0x76 and 0xf6 from the keyboard are ever swallowed, and a swallowed 0xf6 is the next keyboard byte after a swallowed 0x76 |
| `ScancodeFilter.PrefixBytes` | src/uniwill_keyboard.h:2139-2152 | what a prefix of the touchpad sequence looks like, byte by byte |
| `ScancodeFilter.SequenceIsThePrefix` | src/uniwill_keyboard.h:2130-2137 | the whole sequence is the bytes e0 5b 1d 76 f6 9d e0 db |
| `RomId.Final` | src/uniwill_keyboard.h:177-194 | the retry loop ends at the first clean attempt, or after the last |
| `RomId.RetryOutcome` | src/uniwill_keyboard.h:172-197 | the write helper reports success over a wrong byte exactly when no attempt was clean and the last one went through; over the right byte exactly when one was clean |
| `RomId.Ec.ReadWithRetry` | src/uniwill_keyboard.h:128-141 | gives the byte exactly if one of the tries works |
| `RomId.Ec.WriteOnce` | src/uniwill_keyboard.h:177-194 | one pass, done exactly if write and read-back were clean |
| `RomId.Ec.WriteWithRetry` | src/uniwill_keyboard.h:172-197 | memory, status and writes sent of the whole loop |
| `RomId.Inspect` | src/uniwill_keyboard.h:1607-1619 | all right exactly if every byte can be read and is equal |
| `RomId.Plan` | src/uniwill_keyboard.h:1622-1633 | the sixteen writes, all to different cells |
| `RomId.Ec.SetRomId` | src/uniwill_keyboard.h:1591-1643 | inspection, then repair if a byte was wrong; memory, status and writes sent |
| `RomId.Ec.Rewrite` | src/uniwill_keyboard.h:1621-1639 | the repair ends with the first write that fails |
| `RomId.Ec.RewriteSpecial` | src/uniwill_keyboard.h:1622-1631 | the two special bytes first |
| `RomId.OneMoreTry` | src/uniwill_keyboard.h:178-193 | one more attempt |
| `RomId.FailureEndsRepair` | src/uniwill_keyboard.h:1622-1638 | after a failure nothing more is written |
| `RomId.StoreKeepsLeft` | src/uniwill_keyboard.h:1632-1638 | a later write leaves earlier cells alone |
| `RomId.RepairOutcome` | src/uniwill_keyboard.h:1621-1639 | success exactly if every write reported success, and what each cell then holds |
| `RomId.RepairFrame` | src/uniwill_keyboard.h:1621-1639 | no cell outside 0x0770 to 0x077f changes |
| `RomId.CountRepeated` | src/uniwill_keyboard.h:177-194 | how often a retried write is sent |
| `RomId.RepairCounts` | src/uniwill_keyboard.h:1621-1639 | at most three writes to each cell |
| `RomId.OnlyRomBytesAtMostThrice` | src/uniwill_keyboard.h:1607-1643 | set_rom_id writes each cell at most three times, and never writes or changes one outside 0x0770 to 0x077f, whatever the connection does |
| `RomId.PlanAddresses` | src/uniwill_keyboard.h:1622-1633 | all writes of a repair go to 0x0770 to 0x077f |
| `RomId.SucceedsOnAFairConnection` | src/uniwill_keyboard.h:1607-1643 | main result: if every byte can be read and cleanly written within three attempts, the result is 0 and all fourteen bytes are right |
| `RomId.SecondRunWritesNothing` | src/uniwill_keyboard.h:1607-1619 | once right, a second run over a readable connection writes nothing |
| `RomId.SilentFailureExactly` | src/uniwill_keyboard.h:1607-1643 | success over a wrong identification exactly when a repair started, all sixteen writes reported success and one ROM byte failed silently |
| `RomId.SilentRepairExactly` | src/uniwill_keyboard.h:1621-1639 | the repair reports success over a wrong identification exactly when all sixteen writes reported success and one ROM byte failed silently |
| `RomId.FaultyWrites` | src/uniwill_keyboard.h:177-194 | a connection on which one ROM byte is never taken |
| `RomId.SilentFailureHappens` | src/uniwill_keyboard.h:1607-1643 | over such a connection every wrong first byte is reported as repaired and is not |
| `RomId.ReliableRetryIsOneWrite` | src/uniwill_keyboard.h:172-197 | on a reliable connection a write with retries is one write |
| `RomId.WrongExactly` | src/uniwill_keyboard.h:1607-1619 | a byte is found wrong exactly if it can be read, differs, and all before it were read and right |
| `RomId.WritesOnlyWhenWrong` | src/uniwill_keyboard.h:1607-1643 | set_rom_id without such a byte writes nothing, and fails with -5 exactly if some byte cannot be read |
| `RomId.WritesWhenWrong` | src/uniwill_keyboard.h:1607-1643 | set_rom_id with such a byte writes, beginning with 0xa5 to 0x077e |
| `RomId.FirstStoreStays` | src/uniwill_keyboard.h:1622-1633 | whatever the connection does, a repair begins with 0xa5 to 0x077e |
| `Nb05Fan.FromPwm` | src/tuxedo_nb05/tuxedo_nb05_fan_control.c:36-37 | a pwm value never exceeds the unit's maximum |
| `Nb05Fan.FanControl.constructor` | src/tuxedo_nb05/tuxedo_nb05_fan_control.c:499-507 | rpm tables are written on table-driven models unless both firmware numbers reach 9 and 10 |
| `Nb05Fan.FanControl.WriteTable` | src/tuxedo_nb05/tuxedo_nb05_fan_control.c:90-152 | seven cells with the clamped value and two with at least the high-temperature one; a value above the maximum is refused |
| `Nb05Fan.FanControl.WriteFan1DutyOnereg` | src/tuxedo_nb05/tuxedo_nb05_fan_control.c:154-168 | the single register |
| `Nb05Fan.FanControl.PwmStore` | src/tuxedo_nb05/tuxedo_nb05_fan_control.c:326-443 | every cell after a pwm store; no value is refused |
| `Nb05Fan.FanControl.PwmShow` | src/tuxedo_nb05/tuxedo_nb05_fan_control.c:309-324 | which register is shown, cut to a byte |
| `Nb05Fan.FanControl.EnableStore` | src/tuxedo_nb05/tuxedo_nb05_fan_control.c:379-400 | every cell after an enable store |
| `Nb05Fan.LatestCounts` | src/tuxedo_nb05/tuxedo_nb05_fan_control.c:326-443 | a later request replaces an earlier one to the same fan and leaves the rest |
| `Nb05Fan.CellsFollowLastRequests` | src/tuxedo_nb05/tuxedo_nb05_fan_control.c:326-477 | main result: after every history each cell is what the last requests to its own fan say, or what it was; the fans never touch each other |
| `Nb05Fan.UnitsAgreeOnOff` | src/tuxedo_nb05/tuxedo_nb05_fan_control.c:30-39 | for every pwm value: duty 0 or 46 to 184, rpm 0 or 13 to 54, both off together, exactly up to 33 |
| `Nb05Fan.TablesFollow` | src/tuxedo_nb05/tuxedo_nb05_fan_control.c:90-152 | a table whose cells follow the request is seven equal cells and two high ones |
| `Nb05Fan.TablesAfterHistory` | src/tuxedo_nb05/tuxedo_nb05_fan_control.c:90-152 | both fans' duty and rpm tables after every history |
| `Nb05Fan.RoundTrip` | src/tuxedo_nb05/tuxedo_nb05_fan_control.c:36-39 | for every maximum: showing and storing back never raises a value, loses at most one, and loses nothing exactly when the shown value was exact |
| `Nb05Fan.ExactDuties` | src/tuxedo_nb05/tuxedo_nb05_fan_control.c:39-39 | only off and full speed are shown exactly |
| `Nb05Fan.OneCycle` | src/tuxedo_nb05/tuxedo_nb05_fan_control.c:136-140 | one show-then-store with the dead band |
| `Nb05Fan.CyclesCreepDown` | src/tuxedo_nb05/tuxedo_nb05_fan_control.c:309-344 | any number of them: 0 and 184 stay, others creep to 46 and stay; a running fan is never turned off |
| `Nb05Fan.RegisterCycles` | src/tuxedo_nb05/tuxedo_nb05_fan_control.c:309-443 | the registers of either fan go through exactly those cycles |
| `Nb05Fan.FanControl.EnableShow` | src/tuxedo_nb05/tuxedo_nb05_fan_control.c:357-377 | automatic or manual, as the enable register of that fan and model says |
| `Nb05Fan.PwmIsScaledDown` | src/tuxedo_nb05/tuxedo_nb05_fan_control.c:36-37 | pwm / 255 of the maximum, rounded down; 255 is the maximum itself |
| `Nb05Fan.ShownFitsAByte` | src/tuxedo_nb05/tuxedo_nb05_fan_control.c:39-39 | what is shown is not cut to a byte |
| `Nb05Fan.ShownIsScaledDown` | src/tuxedo_nb05/tuxedo_nb05_fan_control.c:39-39 | what is shown is v / maximum of 255, rounded down |
| `Nb05Fan.DeadBands` | src/tuxedo_nb05/tuxedo_nb05_fan_control.c:136-140 | duties up to 23 are off and 24 to 45 become 46; rpm values up to 6 are off and 7 to 12 become 13 |
| `Nb05Fan.RpmIsWrittenExactly` | src/tuxedo_nb05/tuxedo_nb05_fan_control.c:499-507 | rpm tables are written exactly if there are tables and one of the firmware numbers is below 9 or 10; version 10.2 counts as old |
| `Nb05Fan.WantedIsLastPwm` | src/tuxedo_nb05/tuxedo_nb05_fan_control.c:326-443 | the speed wanted is the one last stored for that fan |
| `Nb05Fan.Fan1Registers` | src/tuxedo_nb05/tuxedo_nb05_fan_control.c:90-152 | after every history fan 1 has the last duty in seven cells, and in the two high-temperature cells the greater of that and 51 (15 in rpm) |
| `Nb05Fan.Fan2Registers` | src/tuxedo_nb05/tuxedo_nb05_fan_control.c:197-253 | after every history fan 2 has the last duty in seven cells, and in the two high-temperature cells the greater of that and 51 (15 in rpm) |
| `Nb05Fan.UntouchedRegisters` | src/tuxedo_nb05/tuxedo_nb05_fan_control.c:326-477 | stores to one fan never touch the other fan's speed registers, and no store touches a cell of neither |
| `Nb05Fan.EnableReadsBack` | src/tuxedo_nb05/tuxedo_nb05_fan_control.c:357-477 | an enable mode reads back as 2 if it was 2 and as 1 otherwise, and changes neither the other fan's mode nor any speed |
| `Nb05Fan.ShownAsManual` | src/tuxedo_nb05/tuxedo_nb05_fan_control.c:170-182 | with a single register only 0xaa shows as manual, which is what a manual store leaves; otherwise any odd byte does |
| `Nb05Fan.ShownFollowsRequests` | src/tuxedo_nb05/tuxedo_nb05_fan_control.c:309-443 | after every history a show gives the duty last stored for that fan, scaled down |
| `Nb05FanRaces.CellsByLastWriter` | src/tuxedo_nb05/tuxedo_nb05_fan_control.c:90-152 | in every interleaving of stores each cell holds what the store that wrote it last asked for |
| `Nb05FanRaces.CellsAreAllowedAlways` | src/tuxedo_nb05/tuxedo_nb05_fan_control.c:129-152 | no interleaving leaves a speed in the dead band or makes a fan slower at high temperatures than asked for, or lets it stand still there |
| `Nb05FanRaces.LastWriterIsFinal` | src/tuxedo_nb05/tuxedo_nb05_fan_control.c:90-152 | a store wrote a cell last exactly if nobody writes it again |
| `Nb05FanRaces.TablesAreOneStoresExactly` | src/tuxedo_nb05/tuxedo_nb05_fan_control.c:326-355 | the tables are one store's exactly if nobody overtakes it in any cell |
| `Nb05FanRaces.OneStore` | src/tuxedo_nb05/tuxedo_nb05_fan_control.c:326-355 | the writes of one store in order |
| `Nb05FanRaces.OneMoreWrite` | src/tuxedo_nb05/tuxedo_nb05_fan_control.c:90-152 | one more cell write |
| `Nb05FanRaces.UndisturbedStoreWins` | src/tuxedo_nb05/tuxedo_nb05_fan_control.c:326-355 | an undisturbed store has both tables for itself |
| `Nb05FanRaces.OthersProgress` | src/tuxedo_nb05/tuxedo_nb05_fan_control.c:326-355 | a store does not advance another one |
| `Nb05FanRaces.TwoStoresMix` | src/tuxedo_nb05/tuxedo_nb05_fan_control.c:326-355 | two overlapping stores can leave a mixed table |
| `Ite8291.Channel` | src/ite_8291/ite_8291.c:513-513 | row and column of a channel are its quotient and remainder by 21 |
| `Ite8291.DecodeEncoded` | src/ite_8291/ite_8291.c:254-275 | the padded three-plane rows give every channel its colour back |
| `Ite8291.PlaneOf` | src/ite_8291/ite_8291.c:264-266 | where a plane's column is in a row |
| `Ite8291.EncodedIsInjective` | src/ite_8291/ite_8291.c:254-275 | no two matrices have the same frame |
| `Ite8291.SetChangesThreeBytes` | src/ite_8291/ite_8291.c:264-270 | a set changes the three bytes of its cell and no others |
| `Ite8291.FirstFailure` | src/ite_8291/ite_8291.c:406-413 | the first row report that fails |
| `Ite8291.HoldsEarlierData` | src/ite_8291/ite_8291.c:406-413 | a row holds data sent before |
| `Ite8291.RowsHold` | src/ite_8291/ite_8291.c:406-413 | which data each row holds after any announcements were lost |
| `Ite8291.TargetIsAbove` | src/ite_8291/ite_8291.c:407-408 | an announcement that arrives leaves the earlier rows behind |
| `Ite8291.RightExactly` | src/ite_8291/ite_8291.c:406-413 | a row keeps its own data exactly if the controller writes to it when they are sent and the next row sent is announced |
| `Ite8291.FlushedExactly` | src/ite_8291/ite_8291.c:389-418 | what a transfer leaves in each row, and in brightness and light, however its reports fail |
| `Ite8291.Keyboard.constructor` | src/ite_8291/ite_8291.c:547-569 | all keys white and scaled, brightness 0, sent as far as the reports work |
| `Ite8291.Keyboard.RowDataSet` | src/ite_8291/ite_8291.c:254-275 | exactly one channel of the matrix changes; outside the matrix an error and no change |
| `Ite8291.Keyboard.WriteRows` | src/ite_8291/ite_8291.c:389-418 | the device after a transfer in which the first control report, any announcement and any output report may fail; only the output reports decide the result |
| `Ite8291.Keyboard.OutputReport` | src/ite_8291/ite_8291.c:409-410 | the row sent is that of the matrix |
| `Ite8291.Keyboard.WriteState` | src/ite_8291/ite_8291.c:606-611 | the picture as far as the reports work, and the result of the transfer |
| `Ite8291.Keyboard.SetBrightness` | src/ite_8291/ite_8291.c:468-495 | picture and image after an LED request, buffered or not, with any reports failing |
| `Ite8291.Keyboard.BufferInputStore` | src/ite_8291/ite_8291.c:775-792 | switching buffering off sends the picture; a text that names no truth value changes nothing |
| `Ite8291.Keyboard.SuspendCallback` | src/ite_8291/ite_8291.c:870-877 | the keyboard goes dark if the report arrives; its status is ignored |
| `Ite8291.Keyboard.ResumeCallback` | src/ite_8291/ite_8291.c:879-886 | the picture is sent even if input is buffered; the result is that of the transfer |
| `Ite8291.LastFlush` | src/ite_8291/ite_8291.c:493-494 | the last action that sent the frame |
| `Ite8291.FlushedShows` | src/ite_8291/ite_8291.c:406-413 | a transfer shows the picture in the rows it delivered |
| `Ite8291.ActionShows` | src/ite_8291/ite_8291.c:468-495 | what sends the frame, and what leaves the image alone |
| `Ite8291.PictureFollowsRequests` | src/ite_8291/ite_8291.c:468-495 | the picture is the last request to each channel and the last brightness, sent or not |
| `Ite8291.PrefixRuns` | src/ite_8291/ite_8291.c:468-495 | a beginning of a run is a run |
| `Ite8291.ShowsLastFlush` | src/ite_8291/ite_8291.c:468-886 | main result: an awake keyboard shows the picture of the last flush in every row that it delivered, and that is the present picture if input is not buffered |
| `Ite8291.UnbufferedShowsRequests` | src/ite_8291/ite_8291.c:468-886 | on an unbuffered awake keyboard every key in a delivered row shows the scaled colour last asked for it, at the clamped brightness last asked for if the first report arrived |
| `Ite8291.ResultExactly` | src/ite_8291/ite_8291.c:389-418 | a transfer returns the error of the first output report that fails |
| `Ite8291.WorkingResult` | src/ite_8291/ite_8291.c:389-418 | a transfer succeeds exactly if all six output reports do |
| `Ite8291.SuspendDarkens` | src/ite_8291/ite_8291.c:600-604 | after every run that ends with a suspend whose report arrives the keyboard is dark; if it is lost the image is as before; matrix, brightness and buffering stay either way |
| `Ite8291.ResumeLights` | src/ite_8291/ite_8291.c:879-886 | after every run that ends with a resume whose first report arrives the keyboard is lit again |
| `Ite8291.BufferRequests` | src/ite_8291/ite_8291.c:775-792 | switching the buffer on sends nothing; switching it off sends the picture |
| `Ite8291.ProbeIsWhite` | src/ite_8291/ite_8291.c:547-569 | at probe every key is white in its scaled colour, at brightness 0 and not buffered |
| `Charging.PriorityReadsBack` | src/uniwill_keyboard.h:574-598 | the priority reads back and no other bit changes |
| `Charging.ProfileReadsBack` | src/uniwill_keyboard.h:713-741 | the profile reads back and no other bit changes |
| `Charging.RememberedAsTruthValue` | src/uniwill_keyboard.h:579-588 | the shifted priority survives only because it is remembered as a bool |
| `Charging.ChargingSettings.constructor` | src/uniwill_keyboard.h:661-674 | remembers what the first reads deliver, which is what the EC holds if they work; a feature that is not loaded is not read |
| `Charging.ChargingSettings.GetChargingPriority` | src/uniwill_keyboard.h:593-598 | bit 7 of 0x07cc, or of whatever a failed read delivered |
| `Charging.ChargingSettings.GetChargingProfile` | src/uniwill_keyboard.h:735-741 | bits 4 and 5 of 0x07a6; what a failed read delivered is not shifted |
| `Charging.ChargingSettings.SetChargingPriority` | src/uniwill_keyboard.h:574-591 | memory and remembered value after a store whose read or write may fail |
| `Charging.ChargingSettings.SetChargingProfile` | src/uniwill_keyboard.h:713-733 | memory and remembered value after a profile store whose read or write may fail |
| `Charging.ChargingSettings.WriteState` | src/uniwill_keyboard.h:2314-2315 | the two restores of resume and adapter change, each only if its feature is loaded |
| `Charging.ActionRemembers` | src/uniwill_keyboard.h:587-588 | only a successful store changes what is remembered |
| `Charging.RemembersLastStores` | src/uniwill_keyboard.h:311-319 | what is remembered is the last successful store, or what was first read |
| `Charging.RestoreReinstates` | src/uniwill_keyboard.h:655-659 | main result: after every history a restore with working access puts the last successful store of each loaded setting into force, or what was remembered first |
| `Charging.FirstReadsAreReinstated` | src/uniwill_keyboard.h:661-674 | with working first reads and no store, a restore puts back what the EC held at first |
| `Charging.NoStores` | src/uniwill_keyboard.h:655-659 | without stores the first values are the last |
| `Charging.BitIsZeroOrOne` | src/uniwill_keyboard.h:593-598 | a shifted priority is 0 or 1 |
| `Charging.PriorityChangesNothingElse` | src/uniwill_keyboard.h:579-586 | a priority store, failing or not, changes no other bit |
| `Charging.ProfileChangesNothingElse` | src/uniwill_keyboard.h:719-727 | a profile store, failing or not, changes no other bit |
| `Charging.RestoreChangesNothingElse` | src/uniwill_keyboard.h:772-776 | a restore changes no other bit |
| `Charging.ActionChangesNothingElse` | src/uniwill_keyboard.h:772-776 | a store or restore changes no other bit |
| `Charging.NothingElseChanges` | src/uniwill_keyboard.h:574-776 | no history without changes by the EC itself changes any other bit |
| `Charging.WorkingReads` | src/uniwill_keyboard.h:593-741 | a first read that works gives bit 7 of 0x07cc, and bits 4 and 5 of 0x07a6 |
| `Charging.ProbeIsReinstated` | src/uniwill_keyboard.h:661-674 | from a probe whose reads work, resumes and adapter events keep bit 7 of 0x07cc and bits 4 and 5 of 0x07a6 as they were, until something is stored |
| `Charging.FieldsInBytes` | src/uniwill_keyboard.h:593-598 | where the two settings are in their bytes |
| `Charging.FailedReadChangesNothing` | src/uniwill_keyboard.h:574-582 | a store whose read fails changes neither memory nor what is remembered |
| `Relay.Taking` | src/uniwill_keyboard.h:655-659 | a value that is put back was taken before |
| `Relay.ContentComesFromSource` | src/uniwill_keyboard.h:655-659 | a cell that threads take values from and put them into holds the value found by following the takings back |
| `Relay.LatestIsProper` | src/uniwill_keyboard.h:655-659 | the latest update is one |
| `Relay.LosesExactly` | src/uniwill_keyboard.h:655-659 | such a cell never loses an update exactly if nobody puts back what it took before the latest one |
| `Relay.UntilPutBack` | src/uniwill_keyboard.h:655-659 | until then the latest update is in the cell |
| `Relay.PutBackLoses` | src/uniwill_keyboard.h:655-659 | putting back an older value loses it at once |
| `Relay.GrownRuns` | src/uniwill_keyboard.h:655-659 | one more access of the cell |
| `Relay.GrownContent` | src/uniwill_keyboard.h:655-659 | what one more access leaves in the cell |
| `ChargingRaces.Beginning` | src/uniwill_keyboard.h:655-659 | a write of the field belongs to a store or restore that has begun |
| `ChargingRaces.ForgetsExactly` | src/uniwill_keyboard.h:574-659 | main result: in every interleaving of stores, restores and failing writes no remembered store is forgotten exactly if no restore remembers again what it loaded before the latest store was remembered |
| `ChargingRaces.RestoreWritesLatest` | src/uniwill_keyboard.h:655-659 | as long as nothing is forgotten, a restore writes the latest store remembered when it began |
| `ChargingRaces.Grown` | src/uniwill_keyboard.h:574-659 | one more access |
| `ChargingRaces.OverlapForgets` | src/uniwill_keyboard.h:574-659 | a store inside a restore succeeds and is forgotten and not in force |
| `ClevoCharger.ClosestIndex` | src/clevo_keyboard.h:513-528 | the first index at minimal distance |
| `ClevoCharger.ArrayFindClosest` | src/clevo_keyboard.h:513-528 | the search loop finds that value; an empty haystack is an error |
| `ClevoCharger.ClosestIsUnique` | src/clevo_keyboard.h:513-528 | there is only one first index at minimal distance |
| `ClevoCharger.ClosestIsIdempotent` | src/clevo_keyboard.h:513-528 | members are their own nearest value; searching twice is searching once |
| `ClevoCharger.MemberIsClosest` | src/clevo_keyboard.h:513-528 | a member of the haystack is its own nearest value |
| `ClevoCharger.ClosestIsMonotone` | src/clevo_keyboard.h:513-528 | a greater request never ends up lower, in any haystack |
| `ClevoCharger.Charger.LegacyRead` | src/clevo_keyboard.h:580-599 | the three settings out of the status word |
| `ClevoCharger.Charger.LegacyWrite` | src/clevo_keyboard.h:608-637 | thresholds first, status last; settings not given are kept |
| `ClevoCharger.Charger.Cc4Read` | src/clevo_keyboard.h:639-670 | the settings, or no device if both thresholds are 0 |
| `ClevoCharger.Charger.Cc4Write` | src/clevo_keyboard.h:682-709 | all three at once; settings not given are kept |
| `ClevoCharger.Charger.FlexichargerRead` | src/clevo_keyboard.h:711-719 | either interface gives the visible settings |
| `ClevoCharger.Charger.FlexichargerWrite` | src/clevo_keyboard.h:721-731 | either interface, with every pattern of failing calls |
| `ClevoCharger.Charger.Store` | src/clevo_keyboard.h:752-856 | the three stores, with the refusal of values that are no percentage |
| `ClevoCharger.Charger.HasLegacyFlexicharger` | src/clevo_keyboard.h:556-571 | the probe changes nothing; success exactly if both calls work; if only the write fails a stale word decides |
| `ClevoCharger.ThresholdsCommand` | src/clevo_keyboard.h:625-626 | the word written sets exactly both thresholds |
| `ClevoCharger.StatusCommand` | src/clevo_keyboard.h:627-627 | the word written sets exactly the status bit |
| `ClevoCharger.LegacyWordParts` | src/clevo_keyboard.h:592-597 | where the settings are in the status word |
| `ClevoCharger.ProbeWritesWhatItRead` | src/clevo_keyboard.h:560-561 | the probe's write puts back what its read gave |
| `ClevoCharger.StoreSetsOne` | src/clevo_keyboard.h:752-856 | main result: a successful store sets its setting to the nearest value and leaves the other two; a failing one did that or nothing |
| `ClevoCharger.TableValuesAreNotZero` | src/clevo_keyboard.h:510-511 | no store can make the device disappear |
| `ClevoCharger.StoreSucceedsExactly` | src/clevo_keyboard.h:752-856 | success exactly if the value is a percentage, the device answers and the calls work |
| `ClevoCharger.AfterOneMore` | src/clevo_keyboard.h:752-856 | one more store |
| `ClevoCharger.StoreKeepsOwn` | src/clevo_keyboard.h:752-856 | the stored setting has its value |
| `ClevoCharger.OtherStoreKeeps` | src/clevo_keyboard.h:752-856 | a store to another setting keeps it |
| `ClevoCharger.StoredSettingStays` | src/clevo_keyboard.h:752-856 | a stored setting keeps its value over every later history of stores to the other two, failed ones included |
| `ClevoCharger.ClosestIsNearest` | src/clevo_keyboard.h:513-528 | the value chosen is in the list and no other one is nearer, from either side |
| `ClevoCharger.StoredThresholds` | src/clevo_keyboard.h:510-511 | which thresholds a store can leave, and which ones the least and greatest percentages do |
| `ClevoCharger.SuccessfulStore` | src/clevo_keyboard.h:752-856 | a successful store changes the one setting it names, to the nearest value, and keeps the other two |
| `ClevoRaces.GrownView` | src/clevo_keyboard.h:608-709 | one more call, as one setting sees it |
| `ClevoRaces.OneStoreIsTheStore` | src/clevo_keyboard.h:608-709 | the single calls of an undisturbed store have the effect of the store, on either interface |
| `ClevoRaces.PutsOnce` | src/clevo_keyboard.h:617-634 | a write after the first read |
| `ClevoRaces.SettingLostExactly` | src/clevo_keyboard.h:608-709 | main result: a setting never loses a store exactly if no store to another setting writes back what it read before the latest one |
| `ClevoRaces.SettingIsLatest` | src/clevo_keyboard.h:608-709 | while nothing is lost a setting has the value of the latest store to it |
| `ClevoRaces.TwoStoresLose` | src/clevo_keyboard.h:682-709 | two overlapping stores to different settings: the later write takes the other one back |
| `UniwillRam.TruncatedValue` | src/tuxedo_io/tuxedo_io.c:482-487 | a value stored into a byte is kept modulo 256 |
| `TuxedoIo.IoInterface.GetTdp` | src/tuxedo_io/tuxedo_io.c:434-457 | the register, doubled where the limit is kept in steps of two; unsupported limits and a failing read are errors |
| `TuxedoIo.IoInterface.SetPerformanceProfileV1` | src/tuxedo_io/tuxedo_io.c:496-525 | what is written after a read that may have failed; the status of the write; an unknown profile is refused |
| `TuxedoIo.IoInterface.SetTdp` | src/tuxedo_io/tuxedo_io.c:459-490 | success exactly if the limit is supported and the value in range; custom-mode devices get the overboost profile even if it is not |
| `TuxedoIo.WorkingCalls` | src/tuxedo_io/tuxedo_io.c:459-525 | with working accesses the calls are those of the fan histories |
| `TuxedoIo.SelectionSpoilsExactly` | src/tuxedo_io/tuxedo_io.c:500-520 | a selection leaves the other bits of 0x0751 alone exactly if what its read delivered agrees with them; after a failed direct read it writes 0x4e and the profile bits |
| `TuxedoIo.OtherBitsAreTaken` | src/tuxedo_io/tuxedo_io.c:503-514 | the other bits are those of the byte that was read |
| `TuxedoIo.ReadBack` | src/tuxedo_io/tuxedo_io.c:434-490 | what a get after a set returns |
| `TuxedoIo.SetThenGet` | src/tuxedo_io/tuxedo_io.c:434-490 | a get after a set gives the value exactly when that fits the register, one less for an odd halved value |
| `TuxedoIo.SmallLimitsRoundTrip` | src/tuxedo_io/tuxedo_io.c:84-164 | for limits up to 255, or 510 where halved, every accepted value reads back (one less if odd and halved) |
| `TuxedoIo.LargePl4IsTruncated` | src/tuxedo_io/tuxedo_io.c:144-145 | with a shipped limit table and no halving, every value above 255 is accepted and reads back 256 less |
| `TuxedoIo.SetTdpFrame` | src/tuxedo_io/tuxedo_io.c:459-490 | a refused request changes no TDP register, an accepted one only its own |
| `TuxedoIo.ProfileKeepsOtherBits` | src/tuxedo_io/tuxedo_io.c:502-514 | profile bits are as selected, all others as before |
| `TuxedoIo.AcceptedExactly` | src/tuxedo_io/tuxedo_io.c:404-490 | a limit is accepted exactly if it is one of three, known for the device, supported, and the value in its range; -22 and -19 otherwise |
| `TuxedoIo.RegisterAfterSet` | src/tuxedo_io/tuxedo_io.c:482-487 | the byte an accepted limit leaves in its own register: half of it for PL4 on devices that keep it so, and for no other limit |
| `TuxedoIo.GetFromRegister` | src/tuxedo_io/tuxedo_io.c:451-456 | what a get returns, from the byte in the register: twice that for PL4 on devices that keep it so, and for no other limit |
| `TuxedoIo.ProfileInRegister` | src/tuxedo_io/tuxedo_io.c:502-514 | which bits of 0x0751 each profile sets, and that a TDP request on a device in custom mode selects the third one |
| `TuxedoIo.ProfileBitsInByte` | src/tuxedo_io/tuxedo_io.c:502-514 | the profile bits within a byte |
| `ModeByte.UpdatesAreTheCalls` | src/uniwill_keyboard.h:1913-1928 | undisturbed, the single accesses make up the calls of the other modules |
| `ModeByte.LastRead` | src/uniwill_keyboard.h:1916-1920 | a write goes with the last read of its thread |
| `ModeByte.OthersPassOn` | src/tuxedo_io/tuxedo_io.c:503-514 | a write passes on the fields it does not own as they were read |
| `ModeByte.FieldsComeFromSources` | src/tuxedo_io/tuxedo_io.c:496-525 | after every schedule of single accesses with failing reads each field holds the bits found by following the reads back |
| `ModeByte.OwnStoreIsSource` | src/tuxedo_io/tuxedo_io.c:503-520 | a write is the source of its own field |
| `ModeByte.OtherStorePassesOn` | src/tuxedo_io/tuxedo_io.c:503-520 | a write to another field has the source of its read |
| `ModeByte.NoStoreKeepsSource` | src/uniwill_keyboard.h:1927-1927 | an access that stores nothing changes no source |
| `ModeByte.UntilOverwritten` | src/tuxedo_io/tuxedo_io.c:496-525 | without an overwriting access the latest update is in force |
| `ModeByte.LatestIsAnUpdate` | src/tuxedo_io/tuxedo_io.c:500-502 | a failed read is not an update |
| `ModeByte.OverwriteLoses` | src/tuxedo_io/tuxedo_io.c:496-525 | an overwriting access loses an update at once |
| `ModeByte.LosesExactly` | src/uniwill_keyboard.h:1913-1928 | main result: a schedule never loses an update of a field of 0x0751 if and only if no write to another field was read before the latest update of this one or from a failed read |
| `ModeByte.SharedWhileNothingIsLost` | src/uniwill_keyboard.h:1913-1928 | while nothing is lost 0x0751 is made of the last profile, the last full-fan action and the first remaining bits |
| `ModeByte.RestHasNoUpdates` | src/uniwill_keyboard.h:1913-1928 | the remaining bits are never updated |
| `ModeByte.TwoThreadsRun` | src/uniwill_keyboard.h:1916-1920 | one thread selects a profile while another one sets the full-fan bit |
| `ModeByte.TwoThreadsStore` | src/uniwill_keyboard.h:1916-1920 | the two threads of the overlap both store, the second one over a stale read |
| `ModeByte.TwoThreadsSource` | src/tuxedo_io/tuxedo_io.c:503-520 | the full-fan bit then comes from the beginning |
| `ModeByte.TwoThreadsLose` | src/tuxedo_io/tuxedo_io.c:503-520 | two threads lose an update with all reads working, from every byte without the full-fan bit |

## Left out

- The WMI method path to the Uniwill EC, ACPI and HID buffers, USB transport, sysfs and ioctl parsing, LED,
  hwmon and input registration: only the values that reach the modelled functions appear.
- Compatibility tables and feature detection: features are parameters.
- Module load and unload, memory allocation, null interfaces and null devices.
- Delays: the 300 ms, 50 minute and 10 ms periods are steps that may happen at any time, with the guard
  stated above.
- ProfileLoop.LastChoiceWins: one store at a time, ConcurrentStores.LastAssignedWins has any number; both assume
  the guard above, each half of which is needed. The write calls of store and work item are single actions
  although each is a firmware call of some length.
- UniwillDirectEc.DirectAccessIsAtomicMemory: starts from FLAGS 0 with no request posted, as the driver
  leaves it at every exit, and assumes what AtomicExactly shows to be needed. The firmware takes note of a whole
  request at one instant and answers it at another. Errors of the ACPI EC access itself are ignored by the
  driver and not modelled.
- UniwillDirectDriver.DirectEc.WaitForReady: the firmware's turns are given in advance as a schedule, one before
  each poll, in which it answers at once; arbitrary instants are in the system of single steps.
- UniwillDirectDriver.DirectEc.WriteAddrDirect: a firmware that is asked to read and to write at once reads.
- UniwillFanDriver.FanDriver.RestartDirectFanControl: runs without other fan calls between its own writes;
  RestartRace.dfy has them.
- UniwillFan.SuspendResumeRestores: the restart work is one step; RestartRace.InForceExactly has its single loads
  and writes, and the overlap that loses a speed until the next firing.
- UniwillFanDriver.FanDriver.InitFan: the EC is reliable in fan control, so that a write with retries is one
  write and reads do not fail; RomId.dfy has the unreliable connection.
- UniwillFan.ModeByteIsShared: each call is atomic and its reads succeed; ModeByte.LosesExactly has single accesses
  and failing reads.
- UniwillFan.TableIsSafe: histories without suspend; SoundExactly has those with any number of nights.
- UniwillFan.ValidCallTakesEffect: likewise; SpeedInForceExactly has the nights.
- Suspend and resume also switch the keyboard backlight and the custom-profile light: one-bit writes that
  share no register with the modelled parts.
- RomId.SucceedsOnAFairConnection: a write may leave any byte in its own cell but none elsewhere; reads that
  report success are faithful.
- Nb05Fan.FanControl.WriteTable: the four table writers of the source are one method with the table's start
  and the unit as parameters; EC accesses there are atomic, as Nb05EcPorts.dfy proves.
- A report of the ITE 8291 that fails changes nothing on the keyboard. The zone keyboards are not modelled.
- Charging.RestoreReinstates: stores and restores are one step each; ChargingRaces.dfy has their single accesses.
- ClevoCharger.StoredSettingStays: stores are one step each; ClevoRaces.dfy has their single calls.
- Nb05Fan.CellsFollowLastRequests: stores are one step each; Nb05FanRaces.dfy has their single writes.
- ChargingRaces.ForgetsExactly: one setting; the other bits of its byte are not followed through overlaps.
- Colour scaling of the ITE 8291 is an arbitrary function of colour and position.
- The Clevo probe's list of excluded boards; a device with the newer interface does not answer the
  legacy commands.
- The raw mode write and the debug access of the ioctl interface, which go around all of this.
- NB04 drivers, the other ITE controllers, sensors, NVIDIA power control and the simple one-bit settings: easy
  members without new arguments.
