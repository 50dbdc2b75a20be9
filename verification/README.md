# ventd verification model

A Dafny model of the parts of ventd (a Linux fan-control daemon written in Go) in which state
and interleaving decide correctness, with proofs about every run, every input and every crash
point. Each module stands for one component of the repository and keeps its form: objects whose
methods update fields are classes, loops are loops with invariants proved against a
specification function, and concurrent protocols are step systems whose runs are all sequences
of enabled steps.

`dafny verify dfyconfig.toml` checks the project.

## What is modelled

| file | component |
|---|---|
| `Watchdog.dfy` | the watchdog registry: a shared list used as one stack per path |
| `Rebind.dfy` | following a runtime hwmon renumber: resolving, deciding, carrying entries over |
| `Daemon.dfy` | run, reload and shutdown of the daemon as a step system |
| `DaemonSafety.dfy`, `DaemonWaits.dfy`, `DaemonCoverage.dfy` | what all its runs keep: single writers and followed renumbers; waits that end; watchdog coverage |
| `HwmonPaths.dfy` | re-anchoring configured paths by chip name |
| `Reanchoring.dfy` | the two repairs of a renumbering together: what Load has re-anchored the daemon no longer sees move |
| `TradedIndices.dfy` | a directory that another chip takes over: which loads are refused, which re-anchor, which notice nothing |
| `Duty.dfy` | raw and percent duty cycles through Save and Load |
| `CrashSafe.dfy` | temp-file, fsync, rename on a disk with volatile and durable state |
| `Sentinel.dfy` | the zero-PWM safety timer with delayed callbacks |
| `Schedule.dfy`, `ScheduleText.dfy`, `ScheduleLanguage.dfy` | weekly windows, their grammar and parser, and which texts are accepted |
| `WebSchedule.dfy`, `ScheduleWords.dfy`, `ScheduleAgreement.dfy` | the browser's own schedule parser, how both cut a text into words, and when they agree |
| `ObsBridge.dfy` | the bridge from controller ticks to the learning layers |
| `PackedTrace.dfy` | the packed covariance matrix: writer, reader, trace |
| `Changelog.dfy`, `ChangelogAgain.dfy` | the changelog conflict resolver; resolving twice, and what the old block loses |
| `Common.dfy`, `GoStrings.dfy` | shared types; the string functions of Go that are needed |

Sysfs, the clock and the loader are parameters: the loader's result, and the look at sysfs that
`hwmon.ResolvePath` takes, are part of a reload step's label, so theorems about runs hold for
every loader and every sysfs tree unless they state an assumption. `Settled` is what is used of a
resolver: a path it reports as new is there. `ResolvePathIsSettled` proves it of the function.

## What the proofs found

Several properties the code aims at hold only under a condition. The code is modelled as it is,
and the exact condition, or a run or an input outside it, is proved; for most there are both.

- Single writer. A SIGHUP that loads a config with no controls, followed by a reload with
  controls, starts a second set of controllers beside the first (`SighupThenReloadDoubleDrives`).
  A first-boot reload is safe exactly when the new targets are distinct and unused
  (`FirstBootKeepsSingleWriterIff`).
- First boot. Web handlers store configs at any time. A handler that stores controls first takes
  the first-boot branch away: no controller starts until a config without controls is stored or
  a controlled fan moves, and the first such step makes a start possible (`PutPreemptsFirstBoot`).
- Renumber follow. Moves are computed on the freshly loaded config, but `config.Load` has
  already re-anchored entries with a chip name, so nothing moves. A reload then leaves a controller
  on a path its fan no longer has exactly when the two loads put the fan into different
  directories (`ReanchoredReloadStrandsIff`), for a fan that names its chip exactly when the chip's
  directory has changed (`RenumberAfterStartStrandsIff`). On any config, an in-place reload is right
  exactly when what was loaded still carries the bound paths (`InPlaceReloadFollowsIff`). A config
  that a client fetched before a renumber and sends back strands controllers exactly when some
  control's target has moved (`StalePutStrandsIff`).
- Traded indices. When another chip takes over the directory a fan's paths name, the controller goes
  on writing there, to the other chip, and the next load decides (`TakenOverReload`,
  `TakenOverFanIff`). A fan that names its chip is re-anchored and its controller stranded. One that
  names only its device makes the load fail, unless the other chip has the same name (then it is
  re-anchored) or its name cannot be read, or is unique with an unreadable device link (then nothing
  is noticed). One that names neither is left where it is, unless the name found there is ambiguous.
- Error channel. It is sized by the startup controls. After a first-boot reload the cohort and
  the web server no longer fit (`FirstBootOutgrowsErrCh`), and from any state without a slot for
  everyone a shutdown can block for ever (`WithoutCreditShutdownCanHang`).
- Coverage. Startup registers the file's paths before it resolves them (`StartupCoveredIff`);
  a fan that is new in a renumber reload is driven but never registered (`RenumberCoversIff`).
- Registry counts. Resolved paths are not written back, so reloading an unchanged file after a
  renumber repeats the moves, its Deregisters miss, and each reload leaves one more entry
  (`RegistryAfterReloads`, `UnchangedFileStacksUp`). The loop keeps every count exactly when each
  Deregister finds its entry (`SwapConservesExactly`).
- Shutdown order. The exit in the middle of a renumber does not wait for the wait group, so one of
  its goroutines may write after the exit Restore (`RenumberExitSkipsTheJoin`); all other exits do
  wait (`JoinedIffStopDone`). No exit waits for the envelope goroutine, for calibration sweeps and
  the setup wizard, or for web handlers that outlive the two seconds of Shutdown: each of them may
  write last after any exit (`UnjoinedMayWriteLast`).
- A raw duty of 1 becomes 0 after one Save and Load; no other nonzero value does (`OnlyOneIsLost`).
- A delayed callback of an earlier `Set(0)` can escalate right after a fresh one
  (`StaleCallbackEscalatesEarly`). A `Set(0)` can be followed by an early escalation exactly when
  a callback is waiting at it, the case in which `timer.Stop()` reports false
  (`EarlyEscalationIff`).
- The daemon accepts upper-case day names and signed hours that the browser does not draw, and
  takes U+0085 for white space, which the browser does not (`UpperCaseDayDisagrees`,
  `SignedHourDisagrees`, `NelSeparatorDisagrees`). `BrowserAgreesIff` gives the exact condition
  for every text the daemon accepts.
- The resolver loses the first merged bullet when the changelog ends inside an unfinished blank
  line right below the Added heading (`ExtractUndoesRebuildIff`). It drops lines of ours exactly
  when our Added block holds one that is neither blank nor a bullet (`NoLineIsLostIff`), and
  resolving again changes the text exactly when ours stopped at or right below the heading
  (`ResolvingIsIdempotentIff`).
- The comment in internal/config/load.go:94-99 says that a renumber with no chip name stored is
  surfaced loudly by the resolver. The code is silent, or adopts the chip that is in the directory
  now (`FilledInNameStaysIff`); the model follows the code.
- The comment above `deriveVerdict` in cmd/ventd-soak/main.go describes a full d×d layout; the
  code, and the model, use the packed upper triangle.

## Model

| member | source | states |
|---|---|---|
| `FanWatchdog.Watchdog.Register` | internal/watchdog/watchdog.go:287-363 | a non-IPMI registration pushes one entry with the reading taken; IPMI paths are left to RegisterIPMI |
| `FanWatchdog.Watchdog.Deregister` | internal/watchdog/watchdog.go:573-582 | removes the most recent entry of the path and nothing else, no-op when there is none |
| `FanWatchdog.Watchdog.FindRestoreTarget` | internal/watchdog/watchdog.go:550-567 | RestoreOne picks the top of the path's stack, and nothing exactly when the stack is empty |
| `FanWatchdog.CallMeans` | internal/watchdog/watchdog.go:287-582 | each call's effect on the stack of every path: nothing for IPMI or an empty stack, else a push or pop of its own path alone |
| `FanWatchdog.ListRefinesStacks` | cmd/ventd/controller_spawn.go:230-235 | for any operations, the shared list behaves as independent stacks, one per path |
| `FanWatchdog.StartupEntrySurvives` | internal/watchdog/watchdog.go:569-572 | nested sweeps on a path leave the entries below them in place whatever runs between |
| `FanWatchdog.BagExec1` | internal/watchdog/watchdog.go:287-582 | one operation changes the multiset of registered paths by exactly one entry or, on a miss, not at all |
| `FanWatchdog.EntriesAreSumOfHoldings` | cmd/ventd/main.go:846-853 | under every interleaving of daemon, polarity probe and sweeps in which nobody pops another's entry, the entries are the sum of the holdings |
| `FanWatchdog.EntriesAreHoldingsIff` | cmd/ventd/main.go:846-853 | and only then: counts equal holdings at every moment if and only if no call takes back an entry that only somebody else holds |
| `FanWatchdog.PoliteProgramsKeepOwn` | cmd/ventd/main.go:838-853 | goroutines that take back only their own registrations never pop another's, however they interleave |
| `FanWatchdog.HeldPathsAreCovered` | cmd/ventd/main.go:826-837 | a path somebody still holds has an entry for the exit Restore |
| `FanWatchdog.ProbeLeavesNothing` | cmd/ventd/main.go:838-853 | the polarity probe takes back only its own entries at every point and ends holding none |
| `Rebind.ResolveHwmonPaths` | cmd/ventd/main.go:1924-1970 | updates fans and sensors in place to their resolution and returns the moves in order |
| `Rebind.ResolveFanPaths` | cmd/ventd/main.go:1926-1957 | the fan loop: only hwmon fans with a device move, tachometers only when configured |
| `Rebind.ResolveFanEntry` | cmd/ventd/main.go:1941-1953 | one fan's entry becomes its resolution, the others stay, and the move records both sides |
| `Rebind.ResolveSensorPaths` | cmd/ventd/main.go:1958-1968 | the sensor loop |
| `Rebind.FanMovesExact` | cmd/ventd/main.go:1954-1956 | a fan move is reported if and only if that fan's resolution changed it |
| `Rebind.SensorMovesExact` | cmd/ventd/main.go:1958-1968 | the sensor moves reported are exactly those of hwmon sensors whose file is elsewhere |
| `Rebind.AnyControlledFanPWMChanged` | cmd/ventd/main.go:1976-1988 | true if and only if some move is of a controlled fan's pwm path |
| `Rebind.RespawnExactlyWhenControlledFanMoves` | cmd/ventd/main.go:1972-1988 | on the config itself: the renumber branch is taken exactly when some controlled fan resolves elsewhere |
| `Rebind.SwapEntries` | cmd/ventd/main.go:1872-1889 | the Deregister/Register loop performs exactly the operations of the moves |
| `Rebind.SwapConservesExactly` | cmd/ventd/main.go:1872-1889 | for every list of moves, swaps and cycles included: the holdings become old minus sources plus targets if and only if every Deregister finds its entry |
| `Rebind.MissesAddEntries` | cmd/ventd/main.go:1883-1884 | the entry count never falls, and stays the same exactly when every Deregister finds its entry |
| `Rebind.RegistryAfterReloads` | cmd/ventd/main.go:1834-1889 | after n reloads of an unchanged file, the count of every path: sources lose up to n entries, targets gain n |
| `Rebind.UnchangedFileStacksUp` | cmd/ventd/main.go:1883-1884 | one moved fan and the same file n times: n entries where one belongs |
| `Rebind.SwapIsPolite` | cmd/ventd/main.go:1883-1887 | the loop never removes an entry of another goroutine |
| `Rebind.OwnersKeptUnderInterleaving` | cmd/ventd/main.go:1872-1889 | any number of renumber reloads of the same file against probe and sweeps in any interleaving: the entries equal the holdings, the daemon's share is exactly known, and every followed fan stays covered |
| `Rebind.ResolvePathIff` | internal/hwmon/resolve.go:76-92 | a path moves to q if and only if it is gone, its device has a hwmon directory and q is the file of the same name there, which exists |
| `Rebind.MovedFilesStayApart` | internal/hwmon/resolve.go:87 | differently named files of one device never move to the same path |
| `Rebind.EntriesFollowDevice` | cmd/ventd/main.go:1941-1968 | a hwmon fan's pwm file and tachometer and a hwmon sensor's file each end in their device's directory under their own name, or stay; nothing else of the entry changes |
| `Rebind.OthersStay` | cmd/ventd/main.go:1928-1930 | entries of another kind or without a device are left alone |
| `Rebind.ResolvePathIsSettled` | internal/hwmon/resolve.go:76-92 | a path is reported as moved only when it is gone and its new place is there, so a place reached is never reported as moved |
| `Rebind.SettledMovesApart` | cmd/ventd/main.go:1924-1970 | on one look at sysfs no path is both left and reached, tachometers included |
| `Rebind.FreshReadingSurvives` | cmd/ventd/main.go:1876-1884 | after a renumber the top entry of every moved fan's path is the reading taken there, above what was there before |
| `Daemon.ResolveControl` | cmd/ventd/main.go:2038-2045 | the first fan with the control's name |
| `Daemon.Reconcile` | cmd/ventd/controller_spawn.go:236-249 | spawns one controller per control that resolves, in order, skipping the others |
| `Daemon.SpawnedShape` | cmd/ventd/controller_spawn.go:236-265 | every spawned controller is bound to its fan's path in the config and belongs to the given cohort |
| `Daemon.ConfigHasHwmonDevice` | cmd/ventd/rebind_trigger.go:51-63 | a device event is relevant exactly when some hwmon fan or sensor names the device |
| `DaemonSafety.DeviceMattersIff` | cmd/ventd/rebind_trigger.go:51-63 | the live config names a device if and only if some resolver that moves only that device's files reports a move |
| `DaemonSafety.DeviceEventSends` | cmd/ventd/rebind_trigger.go:20-45 | an added device leads to a send exactly when some resolver that moves only its files would move something of the live config |
| `DaemonSafety.LoadSwitch` | cmd/ventd/main.go:1834-1898 | from the live config, the loaded one and the resolved paths: first boot whatever has moved, else a drain exactly when a controlled fan is elsewhere, else nothing but the store; with the whole new state |
| `DaemonSafety.LoadChangesNoMore` | cmd/ventd/main.go:1834-1898 | a load touches neither errors, web server, helpers, probe nor log, and has read the latest version |
| `DaemonSafety.FailedLoad` | cmd/ventd/main.go:1829-1833 | a load that fails changes nothing |
| `DaemonSafety.OthersActAnyTime` | cmd/ventd/controller_spawn.go:251-265 | whatever main does, controllers may write or fail, handlers store any config, the world change, reloads be asked for and the unwaited-for goroutines write |
| `DaemonSafety.MainActsIff` | cmd/ventd/main.go:1763-1828 | when the select loop may take each of its cases |
| `DaemonSafety.EndsOnlyWhenTold` | cmd/ventd/controller_spawn.go:204-265 | when controllers and web server may end, and that main goes on only once those it waits for have |
| `DaemonSafety.StopsForGood` | cmd/ventd/main.go:1763-1824 | once a stop signal, a cancellation or an error has been taken, no run ever listens, loads or drains for a renumber again |
| `DaemonSafety.ReloadsAreAskedFor` | cmd/ventd/rebind_trigger.go:37-42 | in no run are there more reloads than sends |
| `DaemonSafety.EverySendIsServed` | cmd/ventd/rebind_trigger.go:37-42 | after any send for a version in a run, dropped or not, a reload has read that version or a later one, or is about to |
| `DaemonSafety.RequestsOweASend` | cmd/ventd/rebind_trigger.go:37-42 | a request is recorded as owing a send, and only a send for it settles that |
| `DaemonSafety.CountsAreKept` | cmd/ventd/main.go:1799-1824 | in every run the errors on errCh are those reported less those taken, and versions count the changes |
| `DaemonWaits.ControllersHandBack` | cmd/ventd/controller_spawn.go:251-265 | in every run a controller writes its own path only, and one that has ended has handed back and written nothing since |
| `DaemonSafety.TargetOfIsFirst` | cmd/ventd/main.go:2038-2045 | a control is bound to p if and only if p is the path of the first fan with its name |
| `DaemonSafety.SpawnedInOrder` | cmd/ventd/controller_spawn.go:236-249 | one controller for each control that resolves, at the place its control has among those |
| `DaemonSafety.RegisteredPathsExact` | cmd/ventd/main.go:1164-1166 | the paths registered at boot are exactly those of the fans that are not IPMI |
| `Daemon.NoWriteAfterExitRestore` | cmd/ventd/main.go:677-717 | in every run, however it ends, no controller or polarity-probe write follows the exit Restore, no wait-group goroutine's does if the exit waited for the group, and live controllers are of the current cohort |
| `Daemon.JoinedIffStopDone` | cmd/ventd/main.go:1763-1824 | the wait group has been waited for exactly in the runs that end through a stop, so not in those that end in the middle of a renumber |
| `DaemonWaits.UnjoinedMayWriteLast` | internal/calibrate/calibrate.go:455-459 | from every start some run waits for the wait group and still has the envelope goroutine, or a sweep or handler that nothing waits for, write after the exit Restore |
| `DaemonWaits.RenumberExitSkipsTheJoin` | cmd/ventd/main.go:1866-1871 | from every start with a helper running and a config a reload can move, some run exits in the middle of the renumber and the helper then writes after the exit Restore |
| `Daemon.NoLostReload` | cmd/ventd/rebind_trigger.go:37-42 | in every run, once the loop is idle without a token and every requester has done its send, dropped sends included, the last reload has read a version at least as new as the latest one a reload was asked for; a SIGHUP does not count |
| `DaemonSafety.OneWriterPerPath` | cmd/ventd/main.go:1728-1900 | if only the first-boot branch changes whether controls is empty, web handlers included, and targets are distinct, no reachable state has two live controllers on one path |
| `DaemonSafety.FirstBootKeepsSingleWriterIff` | cmd/ventd/main.go:1843-1851 | a first-boot reload keeps the single writer if and only if no two controls of the resolved config have one path and no live controller drives one of them |
| `DaemonSafety.SighupThenReloadDoubleDrives` | cmd/ventd/main.go:1776-1787 | an emptying SIGHUP and a reload put two writers on a controlled path |
| `DaemonSafety.NeverBootedStep` | cmd/ventd/main.go:1842-1898 | a daemon that holds controls and has started none stays so exactly under steps that store only configs with controls and move no controlled fan |
| `DaemonSafety.PutPreemptsFirstBoot` | internal/web/server.go:1563-1573 | a handler that stores controls first: no controller starts in any run of such steps, and exactly the step that breaks them, an emptied config or a move, makes a start possible |
| `DaemonSafety.InPlaceReloadFollowsIff` | cmd/ventd/main.go:1895-1898 | an in-place reload leaves controllers on their fans' paths exactly when the loaded config carried the bound paths |
| `DaemonSafety.ControllersFollow` | cmd/ventd/main.go:1834-1893 | if what SIGHUP, in-place reloads and web handlers store carries the bound paths, every live controller's path equals its fan's live path whenever the daemon listens, in every run |
| `DaemonWaits.StalePutStrandsIff` | internal/web/server.go:1563-1573 | a renumber followed by a handler storing the config fetched before it: the controllers follow the live config if and only if no control's target has moved |
| `TradedIndices.FateIsWhatLoads` | internal/config/load.go:100-101 | Load refuses a fan, leaves it or re-anchors it exactly as the lookup for its chip name, or the one found in its directory, says |
| `TradedIndices.FateAfterRenumbering` | internal/config/resolve_hwmon.go:293-366 | once another directory's chip has taken over, the fan's fate is the one it would have had in that directory before, under the name the load goes by |
| `TradedIndices.TakenOverFanIff` | internal/config/resolve_hwmon.go:293-366 | from the tree before the renumbering: exactly which fans are refused, moved, or left to the other chip, by whether they name chip and device |
| `TradedIndices.TakenOverReload` | cmd/ventd/main.go:1826-1898 | the reload after it: refused and nothing changes, or in place, where a controller of a fan in that directory is stranded if and only if its fan moves |
| `Reanchoring.ReanchoredReloadStrandsIff` | internal/config/load.go:100-101 | a reload, whatever chip names each load fills in: a failed load changes nothing, another runs in place and strands exactly the controllers whose fan the two loads put into different directories |
| `Reanchoring.ReloadAfterStartStrandsIff` | cmd/ventd/main.go:1826-1898 | the same as a run from startup through the trigger to the reload |
| `Reanchoring.RenumberAfterStartStrandsIff` | cmd/ventd/main.go:1826-1898 | for a file that names its chips and any renumbering: the load succeeds again and a controller is stranded if and only if its chip's directory has changed |
| `Reanchoring.PathChangesIff` | internal/config/resolve_hwmon.go:171-192 | two successful loads of a fan give different pwm paths exactly when they write different directories, or one writes a directory the file does not have |
| `Reanchoring.LoadFailsIff` | internal/config/load.go:100-103 | Load fails exactly when the root cannot be read or some entry does not resolve |
| `Reanchoring.NothingToFillIn` | internal/config/resolve_hwmon.go:91-107 | a file in which every hwmon entry names its chip is loaded as it is, whatever names can be read |
| `Reanchoring.AnchorMovesIff` | internal/config/resolve_hwmon.go:171-192 | under a renumbering a fan that names its chip loads again and changes its pwm path exactly when the chip's directory changes |
| `DaemonWaits.InitCredit` | cmd/ventd/main.go:1371 | the startup cohort and the web server always fit the error channel |
| `DaemonWaits.SendsNeverBlock` | cmd/ventd/controller_spawn.go:251-265 | if later spawns fit, no error send blocks in any run |
| `DaemonWaits.WaitIsBounded` | cmd/ventd/controller_spawn.go:213-220 | from any wait, in any run: the goroutines waited for take at most as many steps as they have left |
| `DaemonWaits.WaitsReturn` | cmd/ventd/controller_spawn.go:213-220 | every drain and shutdown wait of every run, wait group included: bounded as above, no goroutine waited for is ever blocked, and when none is left the wait is over |
| `DaemonWaits.WaitCanEnd` | cmd/ventd/controller_spawn.go:213-220 | from every such wait the goroutines' own steps end it |
| `DaemonWaits.DeadlockIsPermanent` | cmd/ventd/main.go:1799-1824 | once the channel is full and unread with a sender left, no continuation ever exits |
| `DaemonWaits.FailuresDeadlock` | cmd/ventd/main.go:1799-1824 | without enough slots, failures lead an exit path into that deadlock |
| `DaemonWaits.WithoutCreditShutdownCanHang` | cmd/ventd/main.go:1789-1796 | the capacity condition is exact: without it SIGTERM can hang for ever |
| `DaemonWaits.FirstBootOutgrowsErrCh` | cmd/ventd/main.go:1371 | a daemon started without controls exceeds the channel after its first-boot reload |
| `Rebind.HopsOfFanMoves` | cmd/ventd/main.go:1872-1884 | the paths swapped are exactly those of the moved fans |
| `DaemonCoverage.RenumberCoversIff` | cmd/ventd/main.go:1872-1891 | after a renumber reload a fan is registered exactly when it moved or was registered before |
| `DaemonCoverage.CohortStaysCovered` | cmd/ventd/main.go:1843-1891 | with a loader that delivers registered fans, every path the current cohort has driven is registered in every reachable state, the exit Restore's included |
| `DaemonCoverage.StartupCoveredIff` | cmd/ventd/main.go:1164-1166 | startup controllers are covered exactly when the resolved paths were already named in the file |
| `HwmonPaths.RewriteLastWins` | internal/config/resolve_hwmon.go:373-378 | for every string the later of two rewrites alone decides the result, and a path segment neither appears nor vanishes |
| `HwmonPaths.RewriteInjective` | internal/config/resolve_hwmon.go:373-378 | rewriting a path with a hwmonN segment to two directories gives the same path only if the directories are the same |
| `HwmonPaths.RewriteReplacesTheSegment` | internal/config/resolve_hwmon.go:373-378 | in a path with one hwmonN segment exactly that segment is replaced |
| `HwmonPaths.ChipOfIff` | internal/config/resolve_hwmon.go:248-262 | a name file yields a chip name if and only if, in a hwmonN directory, it is that name with white space around it |
| `HwmonPaths.CandidatesExact` | internal/config/resolve_hwmon.go:230-266 | the candidates for a name are exactly the listed directories that yield it |
| `HwmonPaths.NamedChipIsCandidate` | internal/config/resolve_hwmon.go:255-264 | a chip is found under the name in its name file, line end or other white space included |
| `HwmonPaths.BuildChipMap` | internal/config/resolve_hwmon.go:230-266 | an error exactly when the root cannot be read; otherwise each chip name maps to exactly its hwmonN directories, in listing order |
| `HwmonPaths.LookupChip` | internal/config/resolve_hwmon.go:293-366 | the directory chosen, or which of six errors, equals the lookup specification |
| `HwmonPaths.LookupErrors` | internal/config/resolve_hwmon.go:293-366 | each of the six errors exactly when it occurs, in terms of the candidates' device links |
| `HwmonPaths.LookupNeverGuesses` | internal/config/resolve_hwmon.go:293-366 | a chosen directory is never one whose device link contradicts the config, nor one of two candidates without a device |
| `HwmonPaths.EnrichChipName` | internal/config/resolve_hwmon.go:91-107 | fills in the chip name of exactly the hwmon entries that lack one and have a path, in place |
| `HwmonPaths.ResolvesInPlaceIff` | internal/config/resolve_hwmon.go:171-192 | a fan with a chip name is left as it is exactly when the lookup gives the directory it lies in |
| `HwmonPaths.FilledInNameStaysIff` | internal/config/load.go:94-101 | what Load's fill-in does for a fan without a chip name: silent when no name can be read; otherwise no change exactly when the lookup picks the fan's directory, so without a device it adopts whichever chip is there |
| `HwmonPaths.FilledInSensorStaysIff` | internal/config/load.go:94-101 | the same for a sensor without a chip name |
| `HwmonPaths.ResolveHwmonPaths` | internal/config/resolve_hwmon.go:142-194 | rewrites all entries in place or reports the first entry that fails, sensors before fans; an unreadable root fails first and changes nothing |
| `HwmonPaths.FirstErrorIsFirst` | internal/config/resolve_hwmon.go:155-192 | the error reported is e if and only if e is that of the first failing sensor, or of the first failing fan when all sensors resolve |
| `HwmonPaths.ResolveSensorPaths` | internal/config/resolve_hwmon.go:155-169 | the sensor loop |
| `HwmonPaths.ResolveFanPaths` | internal/config/resolve_hwmon.go:171-192 | the fan loop |
| `HwmonPaths.LookupFollowsRenumbering` | internal/config/resolve_hwmon.go:293-366 | looking up a chip commutes with any permutation of hwmonN names and any listing order, errors included |
| `HwmonPaths.FanSurvivesRenumbering` | internal/config/resolve_hwmon.go:171-192 | a fan that resolves once resolves in every renumbered tree, into the same chip, and twice equals once |
| `HwmonPaths.SensorSurvivesRenumbering` | internal/config/resolve_hwmon.go:155-169 | the same for sensors |
| `HwmonPaths.ConfigSurvivesRenumbering` | internal/config/resolve_hwmon.go:142-194 | the same for whole configs |
| `Duty.ConversionsRoundTrip` | internal/config/migrate.go:209-219 | percent survives raw exactly, raw survives percent within one |
| `Duty.PctToRawIsNearest` | internal/config/migrate.go:209-215 | the raw value nearest to the percentage, a half up, and above 100 that of 100; 0, 50 and 100 are 0, 128 and 255 |
| `Duty.RawToPctIsNearest` | internal/config/migrate.go:217-219 | the percentage nearest to the raw value |
| `Duty.ConversionsAreMonotone` | internal/config/migrate.go:209-219 | both conversions keep order |
| `Duty.ReconcileSettles` | internal/config/migrate.go:172-205 | reconcile is idempotent, always ends in sync, keeps the side that was given and converts the one that was not |
| `Duty.RawOverwrittenIff` | internal/config/migrate.go:172-205 | exactly when the raw value is overwritten, and that it then is the percentage's |
| `Duty.MigrateCurvePWMFields` | internal/config/migrate.go:144-165 | reconciles every field of every curve in place and nothing else |
| `Duty.Save` | internal/config/save.go:21-68 | the caller's chip names are filled in and curves migrated even when marshalling, validation, mkdir or the write fails; on success the file holds percent only and what is returned is what loading the file yields |
| `Duty.Parse` | internal/config/load.go:107-122 | a malformed or invalid document is an error; otherwise every field of what was read is reconciled |
| `Duty.SaveErrorsIff` | internal/config/save.go:53-67 | which error a save ends with, in each case exactly, and what it returns otherwise |
| `Duty.CycleFieldSettles` | internal/config/save.go:23-60 | one Save/Load leaves a field at exactly its percent value, within one of where it was, for good |
| `Duty.OnlyOneIsLost` | internal/config/save.go:40-48 | the only nonzero duty a save turns into zero is 1 |
| `Duty.CyclesAreConstant` | internal/config/save.go:21-68 | any number of cycles equals one cycle |
| `Duty.SaveAgain` | internal/config/save.go:21-68 | a failed save changes nothing about the next one, and what a save has returned is saved again unchanged |
| `Duty.SavedFileIsNamed` | internal/config/save.go:22 | in what a save returns, a hwmon fan lacks a chip name only if none can be read beside its path |
| `Duty.NoDutyDrift` | internal/config/load.go:107-122 | curves with raw keys only: every duty stays within one, min/max and point order are kept, the caller's raw values are untouched |
| `CrashSafe.Machine.WriteFileSync` | internal/config/save.go:89-131 | the operations that reach the disk, for every failing call; succeeds exactly when none fails |
| `CrashSafe.Machine.Replace` | internal/config/save.go:90-125 | the write, sync, close, rename sequence with cleanup, for every failing call |
| `CrashSafe.Machine.CopyFileAtomic` | internal/calibrate/migrate.go:112-143 | the same sequence for the copied bytes |
| `CrashSafe.Machine.MigrateLegacyPath` | internal/calibrate/migrate.go:49-107 | all exits of the migration, the operations each performs, and which are successes |
| `CrashSafe.MigrateActsIff` | internal/calibrate/migrate.go:49-107 | it writes exactly when the new file is known to be missing, the legacy path is a readable file, and directory and temp file can be made; the note follows exactly a complete copy |
| `CrashSafe.WriteIsAtomic` | internal/config/save.go:87-131 | at every crash point and for every failing call the file is what it could have been before, or the complete new content |
| `CrashSafe.SyncedWriteSurvivesCrash` | internal/config/save.go:122-129 | after success with the directory synced no crash takes the new content back |
| `CrashSafe.FailedReplaceLeavesNothing` | internal/config/save.go:90-125 | whichever call fails, with the temp file removed no temp file is left and every other file is as it was |
| `CrashSafe.ReplaceTouchesOnlyPath` | internal/config/save.go:90-125 | a success puts the content at the path, leaves no temp file and touches no other file |
| `CrashSafe.MigrateStaysMigratable` | internal/calibrate/migrate.go:49-107 | the migration stopped anywhere leaves the legacy bytes intact and the new path absent or complete |
| `CrashSafe.AttemptsStayMigratable` | internal/calibrate/migrate.go:49-107 | so does any number of crashed attempts |
| `CrashSafe.MigrationConverges` | internal/calibrate/migrate.go:49-143 | one attempt without failures then leaves the new path holding the legacy bytes, and the legacy file unchanged |
| `CrashSafe.DefaultPathsAreApart` | internal/calibrate/migrate.go:14-27 | the two default locations, temp file and tombstone included, are four different paths, as the theorems above require |
| `Sentinel.ZeroPWMSentinel.Set` | internal/calibrate/safety.go:90-112 | the whole new state, timers included: re-armed on zero, cancelled otherwise, untouched once stopped |
| `Sentinel.ZeroPWMSentinel.Stop` | internal/calibrate/safety.go:116-124 | stopped, and no timer left running |
| `Sentinel.ZeroPWMSentinel.EscalateLocked` | internal/calibrate/safety.go:129-147 | escalates only if not stopped and at zero |
| `Sentinel.EscalatesOncePerZero` | internal/calibrate/safety.go:90-147 | in every interleaving: escalations only at zero and not stopped, once per Set(0), never before 2000 milliseconds; at most one running timer, only at zero |
| `Sentinel.PromptEscalationIsExact` | internal/calibrate/safety.go:15-25 | with prompt callbacks each escalation is exactly two seconds after the latest Set(0), and a final Set(0) always leads to one |
| `Sentinel.StaleCallbackEscalatesEarly` | internal/calibrate/safety.go:126-147 | a delayed callback escalates at the very moment of a fresh Set(0) |
| `Sentinel.EarlyEscalationIff` | internal/calibrate/safety.go:101-104 | in every reachable state: some run from a Set(0) escalates before it is two seconds old if and only if the sentinel is not stopped and an expired timer's callback is still waiting |
| `WeeklySchedule.WeekIsDurationTimesDays` | internal/config/schedule.go:187-233 | the accepted minutes of a week equal duration times day count, wrapping included, exactly when the eighth bit is clear |
| `WeeklySchedule.MatchesIffAWindowIsOpen` | internal/config/schedule.go:183-210 | a minute matches exactly when some chosen day's window opened less than the duration before it |
| `WeeklySchedule.RangeHolds` | internal/config/schedule.go:156-166 | a day range holds exactly the days up to ((end - start) mod 7) after its start |
| `WeeklySchedule.WalkRange` | internal/config/schedule.go:160-165 | the walk ends and sets exactly ((end - start) mod 7) + 1 days |
| `ScheduleText.ParseDaySpec` | internal/config/schedule.go:128-173 | the loops compute the day specification, errors included |
| `ScheduleText.NamedDaysHold` | internal/config/schedule.go:132-145 | a list denotes exactly its named days and is never empty |
| `ScheduleText.ParsedSchedulesAreValid` | internal/config/schedule.go:74-126 | every accepted text is a non-empty window inside the day with some day set; the empty-mask error cannot occur |
| `ScheduleText.PrintedScheduleIsRead` | internal/config/schedule.go:56-92 | every text of the grammar is read back as its times and days; equal times are refused |
| `ScheduleText.ScheduleRoundTrip` | internal/config/schedule.go:56-92 | printing any valid schedule canonically and parsing it returns it |
| `ScheduleLanguage.AcceptedTextsIff` | internal/config/schedule.go:74-173 | the whole language: a text is accepted as a schedule if and only if its two words are a time range and a day specification, spelled out in characters |
| `ScheduleLanguage.RefusalsIff` | internal/config/schedule.go:74-97 | which texts are refused as empty, as not two words, as lacking a dash |
| `ScheduleLanguage.ClockReadsIff` | internal/config/schedule.go:113-126 | clock times are two numerals of an hour below 24 and a minute below 60, signs included |
| `ScheduleLanguage.DayReadsIff` | internal/config/schedule.go:175-181 | day names are three letters in any case with white space around them |
| `WebSchedule.MarkChunk` | web/schedule.js:52-66 | one chunk adds exactly its days to the array |
| `WebSchedule.MarkSpec` | web/schedule.js:48-67 | the days array equals the closed-form meaning of the specification |
| `WebSchedule.ParseSchedule` | web/schedule.js:37-69 | null or the parsed record, as specified |
| `ScheduleLanguage.RangeMatchIff` | web/schedule.js:42-47 | the browser's range is two times of one or two digits, a colon and two digits, around a dash |
| `ScheduleLanguage.TimesAloneMeanEveryDay` | web/schedule.js:49-50 | a time range alone is drawn on every day |
| `ScheduleAgreement.BrowserNeverDrawsTooMuch` | web/schedule.js:166-176 | whatever text the daemon accepts, every painted minute is one it acts on |
| `ScheduleAgreement.BrowserAgreesIff` | web/schedule.js:71-81 | for every text the daemon accepts, painted and accepted minutes coincide exactly when the browser's first word is the time range, unsigned, and every weekday is named in lower case in its second |
| `ScheduleAgreement.GrammarTextsAgree` | web/schedule.js:246-249 | on the documented grammar the two agree about every minute of the week across the Monday/Sunday shift |
| `ScheduleAgreement.UpperCaseDayDisagrees` | internal/config/schedule.go:175-181 | an upper-case day is accepted by the daemon and not drawn |
| `ScheduleAgreement.SignedHourDisagrees` | internal/config/schedule.go:113-126 | a signed hour is accepted by the daemon and not drawn |
| `ScheduleAgreement.NelSeparatorDisagrees` | internal/config/schedule.go:74-83 | U+0085 between times and days is accepted by the daemon and not drawn |
| `ObsBridge.MaxTempReading` | cmd/ventd/smart_obs_bridge.go:193-207 | the largest finite reading, in whatever order the map is visited, or none |
| `ObsBridge.Bridge.FeedCouplingAndMarginal` | cmd/ventd/smart_obs_bridge.go:150-181 | what one usable tick feeds to the two layers |
| `ObsBridge.Bridge.Observe` | cmd/ventd/smart_obs_bridge.go:96-144 | the whole effect of one tick on the channel state and the feeds |
| `ObsBridge.FeedsOfChannel` | cmd/ventd/smart_obs_bridge.go:96-181 | in any interleaving a channel's feeds are those of its own sub-stream: one per usable tick after the first |
| `ObsBridge.FeedsTellTheTicks` | cmd/ventd/smart_obs_bridge.go:150-181 | field by field, over any stream: what time, duty, signature and temperatures each layer is fed for a channel |
| `ObsBridge.EveryTickIsPersisted` | cmd/ventd/smart_obs_bridge.go:97-118 | every record is persisted and reaches layer A, usable or not |
| `ObsBridge.DeltasTelescope` | cmd/ventd/smart_obs_bridge.go:171-180 | a channel's deltas number its usable ticks less one and add up to last minus first |
| `ObsBridge.CouplingChains` | cmd/ventd/smart_obs_bridge.go:160-167 | a channel's coupling feeds come from exactly its usable ticks with a shard, and each previous temperature is the one fed as current before it unless the shard was missing at the usable tick before |
| `PackedTrace.SerialiseSymDense` | internal/coupling/persistence.go:177-188 | the loops write exactly the row-major upper triangle, little-endian |
| `PackedTrace.WordBytesAreLittleEndian` | internal/coupling/persistence.go:177-188 | the first byte is the word modulo 256 and the others are those of the word divided by 256 |
| `PackedTrace.DeserialiseSymDense` | internal/coupling/persistence.go:192-208 | accepts exactly the right length and then sets every entry and its mirror from its slot |
| `PackedTrace.RestoredMatrixIsSaved` | internal/coupling/persistence.go:177-208 | reading what was written restores every symmetric matrix |
| `PackedTrace.EntryInBounds` | cmd/ventd-soak/main.go:291-293 | every slot lies inside the buffer |
| `PackedTrace.PackedHolds` | cmd/ventd-soak/main.go:281-284 | index i·d - i·(i-1)/2 + (j - i) is entry (i, j) of the packed matrix |
| `PackedTrace.TraceFromSerialised` | cmd/ventd-soak/main.go:284-306 | zero on short input or d <= 0, otherwise the sum over the diagonal slots, all reads in bounds |
| `PackedTrace.PackedTraceIsTrace` | cmd/ventd-soak/main.go:275-306 | for every dimension and matrix that sum is the trace |
| `Changelog.MergeAdded` | scripts/_resolve-changelog-conflict.py:42-50 | the order-preserving union |
| `Changelog.MergeIsUnion` | scripts/_resolve-changelog-conflict.py:42-50 | ours stays in front and the elements are exactly the union |
| `Changelog.MergeAddsEachOnce` | scripts/_resolve-changelog-conflict.py:46-49 | an added bullet differs from everything before it |
| `Changelog.MergeIsAssociative` | scripts/_resolve-changelog-conflict.py:42-50 | merging is associative |
| `Changelog.MergeIsIdempotent` | scripts/_resolve-changelog-conflict.py:42-50 | merging the same bullets again adds nothing |
| `Changelog.ExtractAddedBullets` | scripts/_resolve-changelog-conflict.py:20-39 | the flag-driven loop computes the extraction |
| `Changelog.ExtractedAreBullets` | scripts/_resolve-changelog-conflict.py:27-39 | every extracted line is one bullet without a line break |
| `Changelog.RebuildText` | scripts/_resolve-changelog-conflict.py:53-98 | the nested loops compute the rebuilt text |
| `Changelog.RebuildReplacesBlock` | scripts/_resolve-changelog-conflict.py:73-93 | what is written is ours with the block replaced: all lines outside it are kept |
| `Changelog.BlockEndsAtHashes` | scripts/_resolve-changelog-conflict.py:81-86 | the old block that is skipped ends at the next line starting with "### " or "## " |
| `Changelog.NoAddedBeforeRelease` | scripts/_resolve-changelog-conflict.py:66-95 | a section without an Added heading is left as it is, whatever later releases hold |
| `Changelog.ExtractUndoesRebuildIff` | scripts/_resolve-changelog-conflict.py:20-98 | extracting from the rebuilt text gives the bullets back exactly when there are none or the file does not stop inside a blank line below the heading |
| `Changelog.ResolvedTextHasTheUnion` | scripts/_resolve-changelog-conflict.py:101-120 | a whole run keeps everything outside the block character by character, and carries the union of both sides' bullets, ours first, exactly when there are none or ours does not stop inside a blank line below the heading |
| `ChangelogAgain.ResolvingIsIdempotentIff` | scripts/_resolve-changelog-conflict.py:101-120 | resolving the result against the same other side again changes nothing if and only if ours does not stop at the heading or inside a blank line right below it |
| `ChangelogAgain.NoLineIsLostIff` | scripts/_resolve-changelog-conflict.py:81-86 | every non-blank line of ours survives, repetitions counted, if and only if our Added block holds nothing but bullets and blank lines |
| `ChangelogAgain.ExtractExample` | scripts/_resolve-changelog-conflict.py:20-39 | the headings and the bullet mark on a concrete section |

## Left out

- Daemon.Reconcile: a whole first-boot or respawn loop is one atomic step of the protocol, so controllers already started do not run between two spawns of the same loop.
- Daemon.NoWriteAfterExitRestore: the goroutines of the daemon's own wait group (watcher, swap monitor, scheduler, samplers) are counted and otherwise alike, and may write until they return; panics in them are not modelled. Sweeps, the wizard and web handlers are one outsider that may write at any time.
- DaemonWaits.UnjoinedMayWriteLast: the bodies of the envelope probe, the sweeps, the wizard and the panic handler; only the fact that nothing waits for them is used.
- DaemonSafety.ControllersFollow: a reload reads the old config, stores the new one and takes its branch in one step, so a handler's store lands before or after it, never between.
- DaemonWaits.SendsNeverBlock: the two-second read of further errors on the error exit is not a step; it starts only after the waits the theorems are about.
- DaemonWaits.WaitsReturn: termination is stated as a bound on the steps left together with a step that is always enabled; that the scheduler runs an enabled goroutine, and that a helper reacts to its cancelled context, is not part of the model.
- DaemonSafety.PutPreemptsFirstBoot: how a handler arrives at the config it stores (merging, profiles, diagnostics) is not modelled; every config may be stored.
- DaemonCoverage.CohortStaysCovered: the loader assumption is one-directional; its per-branch exact forms are RenumberCoversIff and StartupCoveredIff.
- TradedIndices.TakenOverReload: the paths are those of /sys/class/hwmon, where the directory goes on existing; below a device the old directory vanishes, no name can be read, and hwmon.ResolvePath reports the move.
- Rebind.RegistryAfterReloads: the n reloads see the same file and the same sysfs tree.
- FanWatchdog.Watchdog.Register: reading pwm_enable, the prior-crash fallback and the stored identities are one parameter, the value read.
- FanWatchdog.Watchdog.FindRestoreTarget: the hardware writes of a restore, its time budget and its parallel goroutines.
- Rebind.ResolveHwmonPaths: remapping and aborting calibration data (cal.RemapKey, cal.Abort).
- HwmonPaths.ResolveHwmonPaths: on an error in an entry the partly rewritten config is discarded by the caller and the model says nothing about its entries; nil arguments are not represented.
- HwmonPaths.LookupChip: error texts are reduced to kinds.
- Duty.Save: YAML itself; what validation accepts is a parameter, fields are assumed to survive marshalling and only percent keys to be written. The write itself is CrashSafe.Machine.WriteFileSync.
- CrashSafe.WriteIsAtomic: one directory namespace, created directories and file ownership are not tracked; the temp file must not be a hard link of the target.
- Sentinel.PromptEscalationIsExact: what the escalate function writes, and errors it may meet.
- ScheduleText.ParsedSchedulesAreValid: texts are sequences of Unicode characters, so invalid UTF-8 is not represented; error texts are reduced to kinds.
- ScheduleAgreement.BrowserAgreesIff: drawing itself, time zones and polling are not modelled.
- ObsBridge.DeltasTelescope: temperatures are reals, so rounding of float64 differences is not captured.
- PackedTrace.TraceFromSerialised: a float64 is its bit pattern and its value an arbitrary function to reals; rounding and non-finite sums are not captured.
- Changelog.ExtractUndoesRebuildIff: texts with several [Unreleased] headings, or none, or with a second Added heading in the section.
- Go's integers are unbounded in the model; all quantities involved are far below 2^63.
- The web server, D-Bus, DMI, NVML, IPMI transport, systemd notification, logging, flags and subcommands.
- The estimators behind the observation bridge, and the calibration sweep itself.
