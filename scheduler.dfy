/** The scheduler's globals and its two signal handlers, in place.

    The pid table and the dead flags are arrays of nproc entries, filled by a
    loop at startup; current_id and current are fields. Each handler is one
    atomic method: the signal mask installed at startup blocks SIGCHLD and
    SIGALRM while either handler runs, so the two never interleave. Each
    handler returns the actions it performed, in order, and the exit code if
    it ended the process; after an exit no handler runs again. */
module RoundRobin {
  import opened Rotation

  class Scheduler {
    var pid: array<int>
    var dead: array<bool>
    var nproc: int
    var currentId: int
    var current: int

    ghost predicate Valid()
      reads this, pid, dead
    {
      nproc == pid.Length == dead.Length && 0 < nproc &&
      0 <= currentId < nproc && current == pid[currentId]
    }

    /** The globals as a value of the model. */
    ghost function Snapshot(): State
      reads this, pid, dead
    {
      State(pid[..], dead[..], currentId, current)
    }

    /** Fill the tables for the children `pids`, as the creation loop of main
        does (every dead flag cleared), and make slot 0 current. */
    constructor Init(pids: seq<int>)
      requires |pids| > 0
      ensures Valid() && fresh(pid) && fresh(dead)
      ensures Snapshot() == Boot(pids).state
    {
      var n := |pids|;
      var p := new int[n];
      var d := new bool[n];
      for i := 0 to n
        invariant forall m :: 0 <= m < i ==> !d[m] && p[m] == pids[m]
      {
        d[i] := false;
        p[i] := pids[i];
      }
      pid, dead, nproc := p, d, n;
      current := p[0];
      currentId := 0;
      new;
      assert pid[..] == pids;
      assert dead[..] == seq(n, _ => false);
    }

    /** The SIGALRM handler: the quantum is over, stop the current child.
        No field changes. */
    method OnAlarm() returns (actions: seq<Action>)
      requires Valid()
      ensures actions == [Stop(current)]
    {
      actions := [Stop(current)];
    }

    /** The SIGCHLD handler. `events` are the results of the successive
        non-blocking waitpid calls; when they run out waitpid reports that
        nothing more is pending and the handler returns. Each reaped child
        gets one classify-and-rotate step; a failed waitpid exits with
        status 1, and a step that finds every slot dead exits with status 0. */
    method OnChildEvents(events: seq<WaitResult>) returns (actions: seq<Action>, exit: Option<int>)
      requires Valid()
      modifies this, dead
      ensures Valid() && pid == old(pid) && dead == old(dead) && nproc == old(nproc)
      ensures Effect(Snapshot(), actions, exit) == Drain(old(Snapshot()), events)
      ensures forall i :: 0 <= i < nproc && old(dead[i]) ==> dead[i]
      ensures exit == Some(0) ==> forall i :: 0 <= i < nproc ==> dead[i]
    {
      actions, exit := [], None;
      var k := 0;
      while true
        invariant Valid() && pid == old(pid) && dead == old(dead) && nproc == old(nproc)
        invariant 0 <= k <= |events| && exit.None?
        invariant var rest := Drain(Snapshot(), events[k..]);
          Drain(old(Snapshot()), events) == Effect(rest.state, actions + rest.actions, rest.exit)
        decreases |events| - k
      {
        if k == |events| {
          break;
        }
        assert events[k..][0] == events[k] && events[k..][1..] == events[k + 1..];
        match events[k]
        case WaitFailed =>
          actions, exit := actions + [Exit(1)], Some(1);
          break;
        case Reaped(p, status) =>
          var step: seq<Action>;
          step, exit := ReapAndAdvance(status);
          actions := actions + step;
          if exit.Some? {
            break;
          }
          k := k + 1;
      }
      DrainMonotone(old(Snapshot()), events);
      DrainExitCodes(old(Snapshot()), events);
    }

    /** One classify-and-rotate step of the SIGCHLD handler's drain loop: mark
        the slot current at that moment dead if the child exited or was
        killed, advance to the next slot and examine at most nproc+1 slots,
        one after another, for one that is not dead; arm the alarm and resume
        it, or give up and exit with status 0. */
    method ReapAndAdvance(status: Status) returns (actions: seq<Action>, exit: Option<int>)
      requires Valid()
      modifies this, dead
      ensures Valid() && pid == old(pid) && dead == old(dead) && nproc == old(nproc)
      ensures Effect(Snapshot(), actions, exit) == ReapOne(old(Snapshot()), status)
    {
      ghost var before := Snapshot();
      ghost var marked := Mark(before.dead, before.currentId, status);
      if status.Died() {
        dead[currentId] := true;
      }
      assert dead[..] == marked;
      ghost var first := Succ(currentId, nproc);
      currentId := Succ(currentId, nproc);
      current := pid[currentId];
      var i := 0;
      while true
        invariant Valid() && pid == old(pid) && dead == old(dead) && nproc == old(nproc)
        invariant dead[..] == marked
        invariant 0 <= i <= nproc
        invariant currentId == Offset(first, i, nproc)
        invariant forall m :: 0 <= m < i ==> marked[Offset(first, m, nproc)]
        decreases nproc - i
      {
        if !dead[currentId] {
          // i == nproc would be the first examined slot again, found dead
          assert i < nproc;
          assert FirstLive(marked, first, 0) == Some(i);
          return [AlarmArmed(Quantum), Resume(current)], None;
        }
        if i < nproc { SuccOffset(first, i, nproc); }
        currentId := Succ(currentId, nproc);
        current := pid[currentId];
        i := i + 1;
        if i > nproc {
          assert FirstLive(marked, first, 0).None?;
          return [Exit(0)], Some(0);
        }
      }
    }
  }

  /** The initialisation part of main, given the pids of the children it has
      created: with no tasks it exits with status 1 and builds nothing;
      otherwise it builds the tables, arms the alarm and resumes slot 0. */
  method Launch(pids: seq<int>) returns (s: Scheduler?, actions: seq<Action>)
    ensures |pids| == 0 <==> s == null
    ensures s == null ==> actions == [Exit(1)] && Boot(pids) == NoTasks(1)
    ensures s != null ==>
      fresh(s) && fresh(s.pid) && fresh(s.dead) && s.Valid() &&
      Boot(pids) == Started(s.Snapshot(), actions)
  {
    if |pids| == 0 {
      return null, [Exit(1)];
    }
    s := new Scheduler.Init(pids);
    actions := [AlarmArmed(Quantum), Resume(s.pid[0])];
  }
}
