/** The ExecMultithread object: its four fields, changed in place by its methods, with
    the operating system's answers passed in as parameters. */
module Multithread {
  import opened Records
  import opened Files
  import opened Polling
  import opened Signals
  import opened Admission
  import opened Lookup

  class ExecMultithread<D> {
    var maxProcesses: int
    var projectRoot: string
    var pendingProcesses: seq<Record<D>>
    var completeProcesses: seq<Record<D>>

    /** The two record lists as one value. */
    function State(): Ledger<D>
      reads this
    {
      Ledger(pendingProcesses, completeProcesses)
    }

    /** The invariant the methods keep: pending records say 'pending', completed ones
        'finished' (the fields are public in PHP, so only this class's own methods keep it). */
    predicate Valid()
      reads this
    {
      WellFormed(State())
    }

    /** `__construct($inMaxProcesses, $projectRoot)`: the root is stored without a check. */
    constructor (inMaxProcesses: int, projectRoot: string)
      ensures maxProcesses == inMaxProcesses && this.projectRoot == projectRoot
      ensures pendingProcesses == [] && completeProcesses == []
      ensures Valid()
    {
      maxProcesses := inMaxProcesses;
      this.projectRoot := projectRoot;
      pendingProcesses := [];
      completeProcesses := [];
    }

    /** `__destruct`: signals every outstanding worker, as killAllProcesses does. */
    method Destruct(alive: set<int>) returns (signals: seq<Signal>)
      ensures signals == SignalsFor(pendingProcesses, alive)
    {
      signals := KillAllProcesses(alive);
    }

    method SetMaxProcesses(inMaxProcesses: int)
      modifies this
      ensures maxProcesses == inMaxProcesses
      ensures projectRoot == old(projectRoot) && State() == old(State())
    {
      maxProcesses := inMaxProcesses;
    }

    /** setProjectRoot: a path that is not a directory throws and keeps the old root. */
    method SetProjectRoot(path: string, fs: FileSystem) returns (r: Outcome)
      modifies this
      ensures r == CheckProjectRoot(path, fs)
      ensures projectRoot == if r.Pass? then path else old(projectRoot)
      ensures maxProcesses == old(maxProcesses) && State() == old(State())
    {
      r := CheckProjectRoot(path, fs);
      if r.Pass? {
        projectRoot := path;
      }
    }

    /** startProcess: waits for room when the bound is positive, checks the worker
        script, records the spawned worker as pending, polls once and returns the PID. */
    method StartProcess(file: string, data: D, env: Environment) returns (r: StartResult)
      modifies this`pendingProcesses, this`completeProcesses
      ensures (State(), r) == Start(old(State()), old(maxProcesses), file, data, env)
      ensures maxProcesses == old(maxProcesses) && projectRoot == old(projectRoot)
      ensures maxProcesses <= 0 ==> !r.StillWaiting?
      ensures r.Spawned? && maxProcesses > 0 ==> |pendingProcesses| <= maxProcesses
      ensures r.Rejected? ==>
        r.error == ErrorException("The file worker " + file + " does not exist") &&
        Content(State()) == Content(old(State()))
      ensures r.Spawned? ==>
        Content(State()) == Content(old(State())) + multiset{NewRecord(file, data, env)}
      ensures r.Spawned? ==> r.returned == ReturnValue(env.spawned)
      ensures old(completeProcesses) <= completeProcesses
      ensures IsSubsequence(pendingProcesses, old(pendingProcesses) + [NewRecord(file, data, env)])
      ensures old(Valid()) ==> Valid()
    {
      ghost var l0, max0 := State(), maxProcesses;
      var admitted := true;
      if maxProcesses > 0 {
        admitted := WaitForOutstandingProcessesToDropBelow(maxProcesses, env.waitSnapshots);
      }
      if !admitted {
        r := StillWaiting;
      } else {
        var check := CheckFileExists(file, env.fs);
        if check.Fail? {
          r := Rejected(check.error);
        } else {
          pendingProcesses := pendingProcesses + [Record(file, data, env.spawned, Pending, env.now)];
          CheckForCompletedProcesses(env.finalSnapshot);
          r := Spawned(ReturnValue(env.spawned));
        }
      }
      StartPromises(l0, max0, file, data, env);
    }

    /** getProcessesInfo() with a falsy argument: the pending records, then the completed. */
    function GetProcessesInfo(): (r: seq<Record<D>>)
      reads this
      ensures |pendingProcesses| <= |r| && r[..|pendingProcesses|] == pendingProcesses
      ensures r[|pendingProcesses|..] == completeProcesses
    {
      pendingProcesses + completeProcesses
    }

    /** getProcessesInfo($pid) for an integer PID, as the method is written: the listing
        for 0, and `[]` for any other PID, whether a record carries it or not. */
    function GetProcessInfo(pid: int): (r: Info<D>)
      reads this
      ensures r == InfoForPidAsWritten(GetProcessesInfo(), pid)
      ensures pid != 0 ==> r == NoRecord
    {
      InfoForPidAsWritten(pendingProcesses + completeProcesses, pid)
    }

    /** killAllProcesses: one `posix_kill` for every pending record whose PID is numeric
        and alive, in pending order; neither list changes. */
    method KillAllProcesses(alive: set<int>) returns (signals: seq<Signal>)
      ensures signals == SignalsFor(pendingProcesses, alive)
      ensures |signals| == |Probed(pendingProcesses, alive)|
      ensures forall k :: 0 <= k < |signals| ==>
        Probeable(Probed(pendingProcesses, alive)[k], alive) &&
        signals[k] == ProbeOf(Probed(pendingProcesses, alive)[k].pid.value)
      ensures forall p ::
        multiset(signals)[ProbeOf(p)] == if p in alive then Occurrences(pendingProcesses, p) else 0
    {
      signals := [];
      var requests := pendingProcesses;
      for key := 0 to |requests|
        invariant signals == SignalsFor(requests[..key], alive)
      {
        var request := requests[key];
        assert requests[..key + 1] == requests[..key] + [request];
        SignalsSnoc(requests[..key], request, alive);
        if request.pid.Numeric? && request.pid.value in alive {
          var signal := KillProcess(request.pid.value);
          signals := signals + [signal];
        }
      }
      assert requests[..|requests|] == requests;
      SignalsFollowProbed(requests, alive);
      forall p
        ensures multiset(signals)[ProbeOf(p)]
          == if p in alive then Occurrences(requests, p) else 0
      {
        SignalCount(requests, alive, p);
      }
    }

    /** killProcess: `posix_kill($pid, 0)`, a probe that terminates nothing. */
    method KillProcess(pid: int) returns (s: Signal)
      ensures s.pid == pid && s.signo == 0
    {
      s := Signal(pid, PROBE_SIGNAL);
    }

    /** checkForCompletedProcesses: walks a copy of the pending list and moves every
        record whose PID is numeric and dead to the end of the completed list, marked
        'finished', removing it from the pending list in place. */
    method CheckForCompletedProcesses(alive: set<int>)
      modifies this`pendingProcesses, this`completeProcesses
      ensures State() == Poll(old(State()), alive)
      ensures maxProcesses == old(maxProcesses) && projectRoot == old(projectRoot)
      ensures old(Valid()) ==> Valid()
    {
      if Valid() {
        PollKeepsWellFormed(State(), alive);
      }
      var requests := pendingProcesses;
      var position := 0;
      PollLoopStart(requests, alive, completeProcesses);
      for i := 0 to |requests|
        invariant PollLoop(requests, i, alive, position, pendingProcesses,
                           old(completeProcesses), completeProcesses)
      {
        var request := requests[i];
        var live, completed := pendingProcesses, completeProcesses;
        PollStep(requests, i, alive, position, live, old(completeProcesses), completed);
        if Reapable(request, alive) {
          completeProcesses := completed + [WithStatus(live[position], Finished)];
          pendingProcesses := live[..position] + live[position + 1..];
        } else {
          position := position + 1;
        }
      }
      PollLoopEnd(requests, alive, position, pendingProcesses, old(completeProcesses), completeProcesses);
    }

    /** waitForOutstandingProcessesToDropBelow: polls once per liveness snapshot and
        leaves as soon as fewer than `max` records are pending. */
    method WaitForOutstandingProcessesToDropBelow(max: int, snapshots: seq<set<int>>)
      returns (dropped: bool)
      modifies this`pendingProcesses, this`completeProcesses
      ensures Wait(State(), dropped) == WaitFor(old(State()), max, snapshots)
      ensures dropped ==> |pendingProcesses| < max
      ensures old(completeProcesses) <= completeProcesses
      ensures IsSubsequence(pendingProcesses, old(pendingProcesses))
      ensures maxProcesses == old(maxProcesses) && projectRoot == old(projectRoot)
      ensures old(Valid()) ==> Valid()
    {
      ghost var l0 := State();
      WaitExitsBelowBound(l0, max, snapshots);
      WaitKeepsCompletedPrefix(l0, max, snapshots);
      WaitKeepsPendingOrder(l0, max, snapshots);
      if Valid() {
        WaitKeepsWellFormed(l0, max, snapshots);
      }
      var i := 0;
      while i < |snapshots|
        invariant 0 <= i <= |snapshots|
        invariant WaitFor(l0, max, snapshots) == WaitFor(State(), max, snapshots[i..])
      {
        CheckForCompletedProcesses(snapshots[i]);
        if |pendingProcesses| < max {
          return true;
        }
        // usleep(10000) between polls: the clock is not modelled.
        assert snapshots[i..][1..] == snapshots[i + 1..];
        i := i + 1;
      }
      return false;
    }
  }
}
