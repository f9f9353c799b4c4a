/** The rotation engine of the round-robin scheduler, stated on values.

    The scheduler's globals (the pid table, the dead flags, current_id and
    current) are captured by `State`; one drained child event is `ReapOne`,
    the whole drain loop of the SIGCHLD handler is `Drain` and the
    initialisation part of main is `Boot`.
    The class in scheduler.dfy is proved to compute exactly these. */
module Rotation {

  datatype Option<T> = None | Some(value: T)

  /** The time quantum in seconds handed to every alarm (SCHED_TQ_SEC). */
  const Quantum: nat := 2

  /** What waitpid(..., WUNTRACED | WNOHANG) reports about one child. */
  datatype Status = Exited(code: int) | Signaled(signal: int) | Stopped(signal: int)
  {
    /** WIFEXITED or WIFSIGNALED: the child is gone for good. */
    predicate Died() { Exited? || Signaled? }
  }

  /** One call of waitpid inside the drain loop: a child pid with its status,
      or a negative return (an error). A zero return, "nothing more pending",
      is the end of the sequence of results. */
  datatype WaitResult = Reaped(child: int, status: Status) | WaitFailed

  /** What the scheduler does to the outside world. */
  datatype Action =
    | Stop(pid: int)              // kill(pid, SIGSTOP)
    | Resume(pid: int)            // kill(pid, SIGCONT)
    | AlarmArmed(seconds: nat)    // alarm(seconds)
    | Exit(code: int)             // exit(code)

  /** The scheduler's globals: the pid table, the dead flags, and the slot
      and pid of the child that holds the CPU. */
  datatype State = State(pid: seq<int>, dead: seq<bool>, currentId: int, current: int)

  /** What a handler leaves behind: the new state, the actions it performed
      in order, and the exit code if it ended the process. */
  datatype Effect = Effect(state: State, actions: seq<Action>, exit: Option<int>)

  /** The outcome of startup. */
  datatype Startup = NoTasks(code: int) | Started(state: State, actions: seq<Action>)

  /** The tables have one entry per task, at least one task, and `current`
      is the pid of slot `currentId`. */
  predicate Valid(s: State)
  {
    |s.pid| == |s.dead| && 0 < |s.pid| &&
    0 <= s.currentId < |s.pid| && s.current == s.pid[s.currentId]
  }

  /** Steady state: the child holding the CPU is not dead. */
  predicate Running(s: State)
  {
    Valid(s) && !s.dead[s.currentId]
  }

  predicate AllDead(d: seq<bool>)
  {
    forall i :: 0 <= i < |d| ==> d[i]
  }

  // ---------------------------------------------------------------------
  // Circular order on the slots 0 .. n-1

  /** The slot after `x`, as the source computes it: (x + 1) % n. */
  function Succ(x: int, n: int): (y: int)
    requires 0 <= x < n
    ensures y == if x + 1 < n then x + 1 else 0
  {
    (x + 1) % n
  }

  /** The slot `j` steps after `s` in circular order (0 <= j <= n). */
  function Offset(s: int, j: int, n: int): (t: int)
    requires 0 <= s < n && 0 <= j <= n
    ensures 0 <= t < n
  {
    if s + j < n then s + j else s + j - n
  }

  /** How many steps forward from `s` slot `t` lies: the inverse of Offset. */
  function Dist(s: int, t: int, n: int): (j: int)
    requires 0 <= s < n && 0 <= t < n
    ensures 0 <= j < n && Offset(s, j, n) == t
  {
    if s <= t then t - s else t - s + n
  }

  lemma DistOffset(s: int, j: int, n: int)
    requires 0 <= s < n && 0 <= j < n
    ensures Dist(s, Offset(s, j, n), n) == j
  {
  }

  lemma SuccOffset(s: int, j: int, n: int)
    requires 0 <= s < n && 0 <= j < n
    ensures Succ(Offset(s, j, n), n) == Offset(s, j + 1, n)
  {
  }

  // ---------------------------------------------------------------------
  // The death flags

  /** Classify one event for the slot that is current: an exit or a kill by a
      signal marks that slot dead, a stop leaves the flags alone. */
  function Mark(d: seq<bool>, cid: int, st: Status): (r: seq<bool>)
    requires 0 <= cid < |d|
    ensures |r| == |d|
    ensures r[cid] == (d[cid] || st.Died())
    ensures forall i :: 0 <= i < |d| && i != cid ==> r[i] == d[i]
  {
    if st.Died() then d[cid := true] else d
  }

  /** A death flag, once set, stays set. */
  lemma MarkMonotone(d: seq<bool>, cid: int, st: Status)
    requires 0 <= cid < |d|
    ensures forall i :: 0 <= i < |d| && d[i] ==> Mark(d, cid, st)[i]
  {
  }

  /** Marking an already-dead slot once more changes nothing, and classifying
      the same status twice is the same as classifying it once. */
  lemma MarkIdempotent(d: seq<bool>, cid: int, st: Status)
    requires 0 <= cid < |d|
    ensures d[cid] ==> Mark(d, cid, st) == d
    ensures Mark(Mark(d, cid, st), cid, st) == Mark(d, cid, st)
  {
  }

  // ---------------------------------------------------------------------
  // The bounded circular scan

  /** The least number of steps j, k <= j < n, after `s` at which a slot is
      not dead, if any. */
  function FirstLive(d: seq<bool>, s: int, k: int): (r: Option<int>)
    requires 0 <= s < |d| && 0 <= k <= |d|
    ensures r.Some? ==>
      k <= r.value < |d| && !d[Offset(s, r.value, |d|)] &&
      forall m :: k <= m < r.value ==> d[Offset(s, m, |d|)]
    ensures r.None? ==> forall m :: k <= m < |d| ==> d[Offset(s, m, |d|)]
    decreases |d| - k
  {
    if k == |d| then None
    else if !d[Offset(s, k, |d|)] then Some(k)
    else FirstLive(d, s, k + 1)
  }

  /** The slot the rotation selects after `oldId`: the first one not dead, in
      circular order, starting at the slot after `oldId`. */
  function Scan(d: seq<bool>, oldId: int): (r: Option<int>)
    requires 0 <= oldId < |d|
    ensures r.Some? ==> 0 <= r.value < |d| && !d[r.value]
  {
    var first := Succ(oldId, |d|);
    match FirstLive(d, first, 0)
    case Some(j) => Some(Offset(first, j, |d|))
    case None => None
  }

  /** The scan picks a live slot, and every slot strictly closer to the start
      of the scan in circular order is dead: round-robin order. */
  lemma ScanFindsFirstLive(d: seq<bool>, oldId: int)
    requires 0 <= oldId < |d|
    ensures var first := Succ(oldId, |d|);
      Scan(d, oldId).Some? ==>
        forall t :: 0 <= t < |d| && Dist(first, t, |d|) < Dist(first, Scan(d, oldId).value, |d|) ==> d[t]
  {
    var n, first := |d|, Succ(oldId, |d|);
    var r := FirstLive(d, first, 0);
    if r.Some? {
      DistOffset(first, r.value, n);
      forall t | 0 <= t < n && Dist(first, t, n) < r.value
        ensures d[t]
      {
        assert Offset(first, Dist(first, t, n), n) == t;
      }
    }
  }

  /** The scan finds nothing exactly when every slot is dead. */
  lemma ScanNoneIffAllDead(d: seq<bool>, oldId: int)
    requires 0 <= oldId < |d|
    ensures Scan(d, oldId).None? <==> AllDead(d)
  {
    var n, first := |d|, Succ(oldId, |d|);
    if Scan(d, oldId).None? {
      forall t | 0 <= t < n
        ensures d[t]
      {
        assert Offset(first, Dist(first, t, n), n) == t;
      }
    }
  }

  /** The previously current slot is examined last: it lies n-1 steps after
      the start of the scan. Hence when it is the only live slot the scan
      selects it again. */
  lemma ScanOldSlotLast(d: seq<bool>, oldId: int)
    requires 0 <= oldId < |d|
    ensures Dist(Succ(oldId, |d|), oldId, |d|) == |d| - 1
    ensures !d[oldId] && (forall t :: 0 <= t < |d| && t != oldId ==> d[t]) ==>
      Scan(d, oldId) == Some(oldId)
  {
    var n, first := |d|, Succ(oldId, |d|);
    if !d[oldId] && (forall t :: 0 <= t < n && t != oldId ==> d[t]) {
      var r := FirstLive(d, first, 0);
      assert Offset(first, n - 1, n) == oldId;
      assert r.Some?;
      DistOffset(first, r.value, n);
    }
  }

  // ---------------------------------------------------------------------
  // One drained event, the drain loop, the alarm, startup

  /** One classify-and-rotate step of the SIGCHLD handler: mark the current
      slot if the event is a death, advance to the next live slot, arm the
      alarm and resume it; or, with every slot dead, exit with status 0.
      When giving up the cursor stands one step past the start of the scan,
      as the source leaves it after n+1 failed checks. */
  function ReapOne(s: State, st: Status): (e: Effect)
    requires Valid(s)
    ensures Valid(e.state) && e.state.pid == s.pid
  {
    var n := |s.pid|;
    var d := Mark(s.dead, s.currentId, st);
    match Scan(d, s.currentId)
    case Some(t) =>
      Effect(State(s.pid, d, t, s.pid[t]), [AlarmArmed(Quantum), Resume(s.pid[t])], None)
    case None =>
      var g := Offset(Succ(s.currentId, n), 1, n);
      Effect(State(s.pid, d, g, s.pid[g]), [Exit(0)], Some(0))
  }

  /** The drain loop of the SIGCHLD handler: handle every pending result in
      order; a failed waitpid exits with status 1; an exit ends the drain. */
  function Drain(s: State, events: seq<WaitResult>): (e: Effect)
    requires Valid(s)
    ensures Valid(e.state) && e.state.pid == s.pid
    ensures e.exit.None? ==> |e.actions| == 2 * |events|
    decreases |events|
  {
    if events == [] then Effect(s, [], None)
    else match events[0]
      case WaitFailed => Effect(s, [Exit(1)], Some(1))
      case Reaped(_, st) =>
        var e := ReapOne(s, st);
        if e.exit.Some? then e
        else
          var rest := Drain(e.state, events[1..]);
          Effect(rest.state, e.actions + rest.actions, rest.exit)
  }

  /** The initialisation part of main, given the pids of the created
      children: no tasks is a fatal error with status 1; otherwise no slot is
      dead, slot 0 is current, the alarm is armed and slot 0 resumed. */
  function Boot(pids: seq<int>): (r: Startup)
  {
    if |pids| == 0 then NoTasks(1)
    else
      Started(State(pids, seq(|pids|, _ => false), 0, pids[0]),
              [AlarmArmed(Quantum), Resume(pids[0])])
  }

  // ---------------------------------------------------------------------
  // Properties of the model

  lemma BootOutcome(pids: seq<int>)
    ensures Boot(pids).NoTasks? <==> |pids| == 0
    ensures Boot(pids).NoTasks? ==> Boot(pids).code == 1
    ensures Boot(pids).Started? ==>
      var s := Boot(pids).state;
      Running(s) && s.pid == pids && s.currentId == 0 && s.current == pids[0] &&
      (forall i :: 0 <= i < |s.dead| ==> !s.dead[i]) &&
      Boot(pids).actions == [AlarmArmed(Quantum), Resume(pids[0])]
  {
  }

  /** A death marks the slot current at the time of the event, the pid the
      event reports plays no part: another slot stays as it was. */
  lemma DeathMarksCurrentSlot(s: State, p: int, st: Status)
    requires Valid(s)
    ensures var e := Drain(s, [Reaped(p, st)]);
      e.state.dead[s.currentId] == (s.dead[s.currentId] || st.Died()) &&
      forall i :: 0 <= i < |s.dead| && i != s.currentId ==> e.state.dead[i] == s.dead[i]
  {
    assert [Reaped(p, st)][1..] == [];
  }

  /** When some slot survives the classification, the step selects the first
      live slot after the old current in circular order, arms the alarm once
      and resumes exactly that slot's pid. */
  lemma ReapOneRotates(s: State, st: Status)
    requires Valid(s)
    requires !AllDead(Mark(s.dead, s.currentId, st))
    ensures var e := ReapOne(s, st); var first := Succ(s.currentId, |s.pid|);
      e.exit.None? && Running(e.state) &&
      e.state.dead == Mark(s.dead, s.currentId, st) &&
      e.actions == [AlarmArmed(Quantum), Resume(s.pid[e.state.currentId])] &&
      forall t :: 0 <= t < |s.pid| && Dist(first, t, |s.pid|) < Dist(first, e.state.currentId, |s.pid|) ==>
        e.state.dead[t]
  {
    var d := Mark(s.dead, s.currentId, st);
    ScanNoneIffAllDead(d, s.currentId);
    ScanFindsFirstLive(d, s.currentId);
  }

  /** The step reports completion, with status 0 and no alarm and no resume,
      exactly when every slot is dead after the classification. */
  lemma ReapOneCompletes(s: State, st: Status)
    requires Valid(s)
    ensures var e := ReapOne(s, st);
      e.exit.Some? <==> AllDead(e.state.dead)
    ensures var e := ReapOne(s, st);
      e.exit.Some? ==> e.exit == Some(0) && e.actions == [Exit(0)]
  {
    var d := Mark(s.dead, s.currentId, st);
    ScanNoneIffAllDead(d, s.currentId);
  }

  /** With no slot dead, a stop moves the CPU to the very next slot. */
  lemma StopAdvancesByOne(s: State, sig: int)
    requires Valid(s) && forall i :: 0 <= i < |s.dead| ==> !s.dead[i]
    ensures var e := ReapOne(s, Stopped(sig));
      e.exit.None? && e.state.currentId == Succ(s.currentId, |s.pid|) && e.state.dead == s.dead &&
      e.actions == [AlarmArmed(Quantum), Resume(s.pid[Succ(s.currentId, |s.pid|)])]
  {
    var first := Succ(s.currentId, |s.pid|);
    assert !s.dead[Offset(first, 0, |s.pid|)];
  }

  /** Death flags only ever go from false to true over a whole drain. */
  lemma {:induction false} DrainMonotone(s: State, events: seq<WaitResult>)
    requires Valid(s)
    ensures forall i :: 0 <= i < |s.dead| && s.dead[i] ==> Drain(s, events).state.dead[i]
    decreases |events|
  {
    if events != [] && events[0].Reaped? {
      var e := ReapOne(s, events[0].status);
      MarkMonotone(s.dead, s.currentId, events[0].status);
      if e.exit.None? {
        DrainMonotone(e.state, events[1..]);
      }
    }
  }

  /** One drain step unfolded: a reaped child that does not end the process
      contributes its actions ahead of those of the rest of the drain. */
  lemma DrainStep(s: State, events: seq<WaitResult>)
    requires Valid(s) && events != [] && events[0].Reaped?
    requires ReapOne(s, events[0].status).exit.None?
    ensures var e := ReapOne(s, events[0].status); var rest := Drain(e.state, events[1..]);
      Drain(s, events) == Effect(rest.state, e.actions + rest.actions, rest.exit)
  {
  }

  /** A drain that ends without exiting has handled every result, each of them
      a reaped child. */
  lemma {:induction false} DrainHandlesEveryEvent(s: State, events: seq<WaitResult>)
    requires Valid(s)
    ensures Drain(s, events).exit.None? ==> forall k :: 0 <= k < |events| ==> events[k].Reaped?
    decreases |events|
  {
    if events != [] && events[0].Reaped? {
      var e := ReapOne(s, events[0].status);
      if e.exit.None? {
        DrainHandlesEveryEvent(e.state, events[1..]);
        if Drain(s, events).exit.None? {
          forall k | 1 <= k < |events|
            ensures events[k].Reaped?
          {
            assert events[k] == events[1..][k - 1];
          }
        }
      }
    }
  }

  /** ... performing for each of them exactly one alarm followed by one
      resume, and leaving a live child on the CPU. */
  lemma {:induction false} DrainArmsOncePerEvent(s: State, events: seq<WaitResult>)
    requires Valid(s)
    ensures var e := Drain(s, events);
      e.exit.None? ==>
        (forall k :: 0 <= k < |events| ==>
           e.actions[2 * k] == AlarmArmed(Quantum) && e.actions[2 * k + 1].Resume?) &&
        (events != [] ==> Running(e.state))
    decreases |events|
  {
    if events != [] && events[0].Reaped? {
      var st := events[0].status;
      var e := ReapOne(s, st);
      if e.exit.None? {
        assert e.actions == [AlarmArmed(Quantum), Resume(e.state.current)] && Running(e.state) by {
          ReapOneCompletes(s, st);
          ScanNoneIffAllDead(Mark(s.dead, s.currentId, st), s.currentId);
        }
        DrainStep(s, events);
        DrainArmsOncePerEvent(e.state, events[1..]);
        var rest := Drain(e.state, events[1..]);
        if rest.exit.None? {
          var all := e.actions + rest.actions;
          forall k | 0 <= k < |events|
            ensures all[2 * k] == AlarmArmed(Quantum) && all[2 * k + 1].Resume?
          {
            if k > 0 {
              var j := k - 1;
              assert all[2 * k] == rest.actions[2 * j];
              assert all[2 * k + 1] == rest.actions[2 * j + 1];
            }
          }
        }
      }
    }
  }

  /** The drain ends the process only on a failed waitpid, with status 1, or
      when every slot is dead, with status 0; Exit is then its last action. */
  lemma {:induction false} DrainExitCodes(s: State, events: seq<WaitResult>)
    requires Valid(s)
    ensures var e := Drain(s, events);
      e.exit.Some? ==>
        e.actions != [] && e.actions[|e.actions| - 1] == Exit(e.exit.value) &&
        (e.exit == Some(0) || e.exit == Some(1)) &&
        (e.exit == Some(1) ==> exists k :: 0 <= k < |events| && events[k] == WaitFailed) &&
        (e.exit == Some(0) ==> AllDead(e.state.dead))
    decreases |events|
  {
    if events != [] && events[0].Reaped? {
      var e := ReapOne(s, events[0].status);
      ReapOneCompletes(s, events[0].status);
      if e.exit.None? {
        DrainExitCodes(e.state, events[1..]);
        var rest := Drain(e.state, events[1..]);
        if rest.exit == Some(1) {
          var k :| 0 <= k < |events[1..]| && events[1..][k] == WaitFailed;
          assert events[k + 1] == WaitFailed;
        }
      }
    }
  }

  /** `k` rotation steps forward from slot `x`. */
  function Advance(x: int, k: nat, n: int): (y: int)
    requires 0 <= x < n
    ensures 0 <= y < n
    decreases k
  {
    if k == 0 then x else Advance(Succ(x, n), k - 1, n)
  }

  /** Within one round Advance walks the circular order slot by slot, and a
      full round of n steps comes back to the start. */
  lemma {:induction false} AdvanceWithinRound(x: int, k: nat, n: int)
    requires 0 <= x < n && k <= n
    ensures Advance(x, k, n) == Offset(x, k, n)
    ensures k == n ==> Advance(x, k, n) == x
    decreases k
  {
    if k > 0 {
      AdvanceWithinRound(Succ(x, n), k - 1, n);
    }
  }

  lemma {:induction false} AdvanceAdd(x: int, a: nat, b: nat, n: int)
    requires 0 <= x < n
    ensures Advance(x, a + b, n) == Advance(Advance(x, a, n), b, n)
    decreases a
  {
    if a > 0 {
      AdvanceAdd(Succ(x, n), a - 1, b, n);
    }
  }

  /** The visiting order repeats with period n. */
  lemma AdvancePeriodic(x: int, k: nat, n: int)
    requires 0 <= x < n
    ensures Advance(x, k + n, n) == Advance(x, k, n)
  {
    AdvanceAdd(x, n, k, n);
    AdvanceWithinRound(x, n, n);
  }

  /** Round robin with nobody dying: a drain of stop events visits the slots
      one after another, the m-th resume (from 0) going to the slot m+1 steps
      after the one current at the start, for any number of rounds. */
  lemma {:induction false} RoundRobinWhenAllLive(s: State, events: seq<WaitResult>)
    requires Valid(s) && forall i :: 0 <= i < |s.dead| ==> !s.dead[i]
    requires forall k :: 0 <= k < |events| ==> events[k].Reaped? && events[k].status.Stopped?
    ensures var e := Drain(s, events); var n := |s.pid|;
      e.exit.None? && e.state.dead == s.dead &&
      e.state.currentId == Advance(s.currentId, |events|, n) &&
      forall m :: 0 <= m < |events| ==>
        e.actions[2 * m + 1] == Resume(s.pid[Advance(s.currentId, m + 1, n)])
    decreases |events|
  {
    var n := |s.pid|;
    if events != [] {
      var st := events[0].status;
      assert st.Stopped?;
      StopAdvancesByOne(s, st.signal);
      var e := ReapOne(s, st);
      var next := e.state.currentId;
      assert next == Advance(s.currentId, 1, n);
      var tail := events[1..];
      assert forall k :: 0 <= k < |tail| ==> tail[k] == events[k + 1];
      RoundRobinWhenAllLive(e.state, tail);
      var rest := Drain(e.state, tail);
      DrainStep(s, events);
      var all := e.actions + rest.actions;
      assert rest.state.currentId == Advance(next, |tail|, n);
      assert Advance(s.currentId, |events|, n) == Advance(next, |tail|, n);
      forall m | 0 <= m < |events|
        ensures all[2 * m + 1] == Resume(s.pid[Advance(s.currentId, m + 1, n)])
      {
        if m > 0 {
          var j := m - 1;
          assert all[2 * m + 1] == rest.actions[2 * j + 1];
          assert Advance(s.currentId, m + 1, n) == Advance(next, j + 1, n);
        }
      }
    }
  }

  /** When only the current child is live, stop events keep handing the CPU
      back to it: every resume goes to its pid and it stays current. */
  lemma {:induction false} SoleSurvivorKeepsCpu(s: State, events: seq<WaitResult>)
    requires Running(s)
    requires forall i :: 0 <= i < |s.dead| && i != s.currentId ==> s.dead[i]
    requires forall k :: 0 <= k < |events| ==> events[k].Reaped? && events[k].status.Stopped?
    ensures var e := Drain(s, events);
      e.exit.None? && e.state == s &&
      forall m :: 0 <= m < |events| ==> e.actions[2 * m + 1] == Resume(s.current)
    decreases |events|
  {
    if events != [] {
      var st := events[0].status;
      ScanOldSlotLast(s.dead, s.currentId);
      var e := ReapOne(s, st);
      assert e.state == s;
      var tail := events[1..];
      assert forall k :: 0 <= k < |tail| ==> tail[k] == events[k + 1];
      SoleSurvivorKeepsCpu(s, tail);
      var rest := Drain(s, tail);
      DrainStep(s, events);
      forall m | 1 <= m < |events|
        ensures Drain(s, events).actions[2 * m + 1] == Resume(s.current)
      {
        var j := m - 1;
        assert Drain(s, events).actions[2 * m + 1] == rest.actions[2 * j + 1];
      }
    }
  }
}
