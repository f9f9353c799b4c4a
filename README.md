# Round-robin scheduler: the rotation engine

This project models the core of a time-sliced round-robin process scheduler,
`exercise1/scheduler.c`. The scheduler keeps a fixed table of child pids and a
parallel table of `dead` flags, plus `current_id` and `current`: the slot and
pid of the child that holds the CPU. Two signal handlers drive it:

- `sigalrm_handler` runs when the quantum expires and sends SIGSTOP to `current`.
- `sigchld_handler` drains every pending `waitpid` result. For each result it
  marks the current slot dead if the child exited or was killed. It then
  advances `current_id` modulo `nproc` and scans forward for a slot that is
  not dead. It either re-arms the two-second alarm and sends SIGCONT to that
  child, or, when the scan gives up, exits with status 0.

`main` rejects zero tasks with status 1. Otherwise it clears every dead flag,
makes slot 0 current, arms the alarm and resumes slot 0.

The project has two modules:

- `Rotation` (rotation.dfy) states the engine on values. `State` holds the
  globals. `ReapOne` is one classify-and-rotate step. `Drain` is the whole
  drain loop. `Boot` is the initialisation. `Scan` and `FirstLive` give the
  circular search as a reference definition. The lemmas state round-robin
  order, completion only when every slot is dead, monotone death flags, and
  the other properties below.
- `RoundRobin` (scheduler.dfy) holds the class `Scheduler`, whose fields are
  the globals: the arrays `pid` and `dead`, plus `nproc`, `currentId` and
  `current`.
  - Its constructor fills both arrays in a loop, as `main` does.
  - `OnAlarm` and `OnChildEvents` are the two handlers. `ReapAndAdvance` is
    the body of the drain loop, with the bounded `while` scan and its counter.
  - `Launch` is the startup part of `main`.
  - `ReapAndAdvance`, `OnChildEvents` and `Launch` are proved to compute
    exactly what `ReapOne`, `Drain` and `Boot` say, so the lemmas about those
    functions carry over to the class. The contract of `OnAlarm` stands on
    its own: it sends one stop to `current` and changes no field.

The operating system is abstracted:

- The results of the successive `waitpid(-1, …, WUNTRACED | WNOHANG)` calls
  come in as a sequence of `WaitResult`s. The end of the sequence is the zero
  return ("nothing more pending"). `WaitFailed` is a negative return.
- `kill`, `alarm` and `exit` become recorded `Action`s: `Stop(pid)`,
  `Resume(pid)`, `AlarmArmed(2)` and `Exit(code)`. Each handler returns the
  actions it performed, in order, together with its exit code if it ended
  the process.
- The signal mask installed at startup blocks both signals while either
  handler runs. Each handler is therefore one atomic method call.

Three behaviours of the code are modelled exactly as written:

- A death marks `dead[current_id]`, the slot current when the result is
  drained, not the slot of the pid `waitpid` reported
  (`DeathMarksCurrentSlot`).
- Every drained result causes one rotation step, whatever its status. A
  drain that does not exit performs exactly two actions per result
  (`Drain`), one alarm followed by one resume (`DrainArmsOncePerEvent`).
- The scan examines up to `nproc + 1` positions. It starts at the slot after
  the old one, and the `i > nproc` exit fires after `nproc + 1` failed checks,
  so the first slot is examined twice before giving up. The previously
  current slot is examined last of the `nproc` distinct slots, so it is
  selected again when it is the only live one (`ScanOldSlotLast`). When the
  scan gives up, the cursor stands one slot past the first examined slot.
  `ReapOne` leaves `current_id` there.

## Model

| member | source | states |
|---|---|---|
| `Rotation.Mark` | exercise1/scheduler.c:71-79 | an exit or a kill by a signal sets the flag of the slot current at the event; a stop leaves it; every other flag is unchanged |
| `Rotation.MarkMonotone` | exercise1/scheduler.c:74 | a flag that is set stays set |
| `Rotation.MarkIdempotent` | exercise1/scheduler.c:74 | marking an already-dead slot again changes nothing; classifying the same status twice equals classifying it once |
| `Rotation.FirstLive` | exercise1/scheduler.c:84-101 | returns the least step count at which a slot is not dead, every earlier slot in circular order being dead; returns nothing only when every slot in range is dead |
| `Rotation.Scan` | exercise1/scheduler.c:81-93 | a slot it selects is in range and not dead |
| `Rotation.ScanFindsFirstLive` | exercise1/scheduler.c:81-95 | every slot strictly closer than the selected one, counting in circular order from the slot after the old current, is dead |
| `Rotation.ScanNoneIffAllDead` | exercise1/scheduler.c:83-100 | the scan finds nothing if and only if every dead flag is set |
| `Rotation.ScanOldSlotLast` | exercise1/scheduler.c:81-97 | the old current slot is the last of the nproc slots examined; when it is the only live slot it is selected again |
| `Rotation.ReapOne` | exercise1/scheduler.c:71-101 | one step keeps the table invariant (`0 <= current_id < nproc`, `current == pid[current_id]`) and never changes the pid table |
| `Rotation.ReapOneRotates` | exercise1/scheduler.c:80-93 | when a live slot remains after marking: no exit; the new current is live and is the first live slot in circular order; the flags are exactly the marked ones; the alarm is armed once and exactly that slot's pid is resumed |
| `Rotation.ReapOneCompletes` | exercise1/scheduler.c:94-100 | the step exits if and only if every slot is dead; it then exits with status 0, without arming the alarm or resuming any child |
| `Rotation.DeathMarksCurrentSlot` | exercise1/scheduler.c:69-75 | the flag set by a death is the one of the slot current at the event, whatever pid the event reports; no other flag changes |
| `Rotation.StopAdvancesByOne` | exercise1/scheduler.c:76-93 | with no slot dead, a stop moves the CPU to `(current_id + 1) % nproc`, leaves the flags, arms the alarm and resumes that slot's pid |
| `Rotation.Drain` | exercise1/scheduler.c:60-103 | a whole drain keeps the table invariant and the pid table; a drain that does not exit performs exactly two actions per result |
| `Rotation.DrainMonotone` | exercise1/scheduler.c:60-103 | no flag set before a drain is clear after it |
| `Rotation.DrainHandlesEveryEvent` | exercise1/scheduler.c:60-67 | a drain that returns without exiting has consumed every pending result, each a reaped child |
| `Rotation.DrainArmsOncePerEvent` | exercise1/scheduler.c:60-101 | a drain that does not exit performs, for each result, one alarm followed by one resume, and leaves a live child current |
| `Rotation.DrainExitCodes` | exercise1/scheduler.c:60-101 | a drain ends the process only with Exit as its last action: status 1 after a failed waitpid, or status 0 with every slot dead |
| `Rotation.AdvanceWithinRound` | exercise1/scheduler.c:81-95 | within one round, repeated advancing visits the slots in circular order; nproc advances return to the start |
| `Rotation.AdvancePeriodic` | exercise1/scheduler.c:81-95 | the visiting order repeats with period nproc |
| `Rotation.RoundRobinWhenAllLive` | exercise1/scheduler.c:76-95 | with no slot dead and only stop events, the m-th resume goes to the slot m+1 steps after the starting one, for any number of rounds; no flag changes and there is no exit |
| `Rotation.SoleSurvivorKeepsCpu` | exercise1/scheduler.c:81-97 | when only the current slot is live, stop events keep resuming its pid and the state does not change |
| `Rotation.BootOutcome` | exercise1/scheduler.c:156-204 | startup fails with status 1 exactly when there are no tasks; otherwise no slot is dead, slot 0 is current, the alarm is armed and slot 0's pid is resumed |
| `RoundRobin.Scheduler.Init` | exercise1/scheduler.c:167-198 | the arrays, filled in a loop, hold the given pids and all-false flags; slot 0 is current |
| `RoundRobin.Scheduler.OnAlarm` | exercise1/scheduler.c:27-36 | the expiry handler sends exactly one stop, to `current`, and changes no field |
| `RoundRobin.Scheduler.ReapAndAdvance` | exercise1/scheduler.c:71-101 | the in-place mark, advance and bounded scan (at most nproc+1 checks, counted by `i`) produce exactly the state, actions and exit of `ReapOne` |
| `RoundRobin.Scheduler.OnChildEvents` | exercise1/scheduler.c:41-104 | the in-place drain loop produces exactly the state, actions and exit of `Drain`; flags only go from false to true; an exit with status 0 leaves every flag set |
| `RoundRobin.Launch` | exercise1/scheduler.c:156-204 | zero tasks: no scheduler object, only Exit(1); otherwise a fresh scheduler in the state and with the actions of `Boot` |

## Left out

- Launch: startup is treated as completing before any handler runs. In the source, the handlers are installed (exercise1/scheduler.c:196) before `current` and `current_id` are set (197-198), before the alarm is armed (200) and before slot 0 is resumed (204). A SIGCHLD in that window would run the handler with `current` still 0 rather than `pid[0]`. The handler could then mark `dead[0]` and resume another child, after which `main` resumes `pid[0]` as well. The window is reachable only through an outside signal to a stopped child, and the model does not represent it.
- Child creation with `fork` and `execve` and the child's self-`raise(SIGSTOP)` are process plumbing. `Launch` receives the created pids as its input.
- `wait_for_ready_children` lives in `proc-common`, which is not part of this model; readiness is taken as given.
- `install_signal_handlers` is not modelled as code. Its one effect that matters, that the two handlers never interleave, is captured by each handler being one atomic method call. The `SIGPIPE` ignore and `SA_RESTART` are not modelled either.
- The `pause()` loop in `main` and its unreachable `return 1` are not modelled. The caller decides which handler runs next, and no handler is called after one has returned an exit.
- Real time is not modelled. The quantum appears only as the argument 2 of `AlarmArmed`.
- `printf`, `fprintf`, `perror` and `explain_wait_status` produce diagnostics only and are not modelled.
- The wrong-signum guards at the top of each handler are not modelled: each method is only ever invoked for its own signal.
- There is no alarm-failure path. `alarm` returns an unsigned value, so the `alarm(...) < 0` tests never fire.
- `malloc` failure is not modelled; the source does not check the result.
- `nproc` is the number of pids given. A negative `argc - 1`, which happens only when the program is run with an empty argument vector, is not represented.
- The status of a `waitpid` result is one of exited, killed by a signal, or stopped. This is what `WUNTRACED` without `WCONTINUED` can report. Exit codes and signal numbers are carried but never inspected, as in the source.
