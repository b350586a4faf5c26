/** The admission wait and startProcess as functions of the ledger and of what the
    operating system answers during the call, with the admission bound and the
    error-before-spawn guarantee proved about them. */
module Admission {
  import opened Records
  import opened Files
  import opened Polling

  /** Where the admission wait stands when it leaves: the ledger after its polls, and
      whether it left because the pending count dropped below the bound. */
  datatype Wait<D> = Wait(ledger: Ledger<D>, dropped: bool)

  /** waitForOutstandingProcessesToDropBelow(max), one iteration per liveness snapshot:
      poll, then leave once fewer than `max` records are pending. When the snapshots run
      out first, the source would still be sleeping and polling; here `dropped` is false. */
  function WaitFor<D>(l: Ledger<D>, max: int, snapshots: seq<set<int>>): Wait<D>
    decreases |snapshots|
  {
    if snapshots == [] then Wait(l, false)
    else
      var polled := Poll(l, snapshots[0]);
      if |polled.pending| < max then Wait(polled, true)
      else WaitFor(polled, max, snapshots[1..])
  }

  /** What the operating system answers during one startProcess call: the filesystem,
      one liveness snapshot per iteration of the admission wait, the output of `exec`,
      the `date(...)` text and the liveness snapshot of the poll after the spawn. */
  datatype Environment = Environment(
    fs: FileSystem,
    waitSnapshots: seq<set<int>>,
    spawned: Pid,
    now: string,
    finalSnapshot: set<int>)

  /** How a startProcess call ends: still blocked in the admission wait (the
      snapshots ran out), an `ErrorException`, or a return value (`Some` for
      `(int)$pid`, `None` for `false`). */
  datatype StartResult = StillWaiting | Rejected(error: Error) | Spawned(returned: Option<int>)

  /** `is_numeric($pid) ? (int)$pid : false` */
  function ReturnValue(pid: Pid): (r: Option<int>)
    ensures r.Some? <==> pid.Numeric?
    ensures r.Some? ==> r.value == pid.value
  {
    if pid.Numeric? then Some(pid.value) else None
  }

  /** The admission step of startProcess: the wait, or no wait at all when the bound is
      not positive. */
  function Admit<D>(l: Ledger<D>, max: int, snapshots: seq<set<int>>): Wait<D> {
    if max > 0 then WaitFor(l, max, snapshots) else Wait(l, true)
  }

  /** The record startProcess appends. */
  function NewRecord<D>(file: string, data: D, env: Environment): Record<D> {
    Record(file, data, env.spawned, Pending, env.now)
  }

  /** startProcess: admission, the worker check, the spawn and its record, a poll. */
  function Start<D>(l: Ledger<D>, max: int, file: string, data: D, env: Environment)
    : (Ledger<D>, StartResult)
  {
    var w := Admit(l, max, env.waitSnapshots);
    if !w.dropped then (w.ledger, StillWaiting)
    else
      match CheckFileExists(file, env.fs)
      case Fail(e) => (w.ledger, Rejected(e))
      case Pass =>
        var appended := Ledger(w.ledger.pending + [NewRecord(file, data, env)], w.ledger.completed);
        (Poll(appended, env.finalSnapshot), Spawned(ReturnValue(env.spawned)))
  }

  // ---------------------------------------------------------------------------
  // The admission wait.

  /** When the wait exits, fewer than `max` records are pending. */
  lemma {:induction false} WaitExitsBelowBound<D>(l: Ledger<D>, max: int, snapshots: seq<set<int>>)
    ensures var w := WaitFor(l, max, snapshots);
      w.dropped ==> |w.ledger.pending| < max
    decreases |snapshots|
  {
    if snapshots != [] {
      var polled := Poll(l, snapshots[0]);
      if |polled.pending| >= max {
        WaitExitsBelowBound(polled, max, snapshots[1..]);
      }
    }
  }

  /** While the wait has not exited and has polled at least once, `max` or more records
      are still pending. */
  lemma {:induction false} WaitBlocksOnlyWhenFull<D>(l: Ledger<D>, max: int, snapshots: seq<set<int>>)
    requires snapshots != []
    ensures var w := WaitFor(l, max, snapshots);
      !w.dropped ==> |w.ledger.pending| >= max
    decreases |snapshots|
  {
    var polled := Poll(l, snapshots[0]);
    if |polled.pending| >= max && |snapshots| > 1 {
      WaitBlocksOnlyWhenFull(polled, max, snapshots[1..]);
    }
  }

  /** With a bound that is not positive the wait could never exit; that is why
      startProcess only waits when the bound is positive. */
  lemma {:induction false} NonPositiveBoundNeverExits<D>(l: Ledger<D>, max: int, snapshots: seq<set<int>>)
    requires max <= 0
    ensures !WaitFor(l, max, snapshots).dropped
    decreases |snapshots|
  {
    if snapshots != [] {
      NonPositiveBoundNeverExits(Poll(l, snapshots[0]), max, snapshots[1..]);
    }
  }

  /** When there is room already, the wait exits after its first poll. */
  lemma RoomExitsAfterOnePoll<D>(l: Ledger<D>, max: int, snapshots: seq<set<int>>)
    requires |l.pending| < max && snapshots != []
    ensures WaitFor(l, max, snapshots) == Wait(Poll(l, snapshots[0]), true)
  {
  }

  /** Records whose PID is not numeric are never reaped, so once `max` of them are pending
      no sequence of liveness snapshots lets the wait exit. */
  lemma {:induction false} OrphansBlockAdmission<D>(l: Ledger<D>, max: int, snapshots: seq<set<int>>)
    requires |Orphans(l.pending)| >= max
    ensures !WaitFor(l, max, snapshots).dropped
    ensures Orphans(WaitFor(l, max, snapshots).ledger.pending) == Orphans(l.pending)
    decreases |snapshots|
  {
    if snapshots != [] {
      var polled := Poll(l, snapshots[0]);
      OrphansStay(l.pending, snapshots[0]);
      OrphansBlockAdmission(polled, max, snapshots[1..]);
    }
  }

  /** The wait loses and duplicates no record. */
  lemma {:induction false} WaitLosesNothing<D>(l: Ledger<D>, max: int, snapshots: seq<set<int>>)
    ensures Content(WaitFor(l, max, snapshots).ledger) == Content(l)
    decreases |snapshots|
  {
    if snapshots != [] {
      var polled := Poll(l, snapshots[0]);
      PollLosesNothing(l, snapshots[0]);
      if |polled.pending| >= max {
        WaitLosesNothing(polled, max, snapshots[1..]);
      }
    }
  }

  /** The wait keeps every pending record 'pending' and every completed one 'finished'. */
  lemma {:induction false} WaitKeepsWellFormed<D>(l: Ledger<D>, max: int, snapshots: seq<set<int>>)
    requires WellFormed(l)
    ensures WellFormed(WaitFor(l, max, snapshots).ledger)
    decreases |snapshots|
  {
    if snapshots != [] {
      var polled := Poll(l, snapshots[0]);
      PollKeepsWellFormed(l, snapshots[0]);
      if |polled.pending| >= max {
        WaitKeepsWellFormed(polled, max, snapshots[1..]);
      }
    }
  }

  /** A finished record stays finished: the completed records before the wait are a
      prefix of those after it. */
  lemma {:induction false} WaitKeepsCompletedPrefix<D>(l: Ledger<D>, max: int, snapshots: seq<set<int>>)
    ensures l.completed <= WaitFor(l, max, snapshots).ledger.completed
    decreases |snapshots|
  {
    if snapshots != [] {
      var polled := Poll(l, snapshots[0]);
      if |polled.pending| >= max {
        WaitKeepsCompletedPrefix(polled, max, snapshots[1..]);
      }
    }
  }

  /** The records still pending after the wait keep their launch order. */
  lemma {:induction false} WaitKeepsPendingOrder<D>(l: Ledger<D>, max: int, snapshots: seq<set<int>>)
    ensures IsSubsequence(WaitFor(l, max, snapshots).ledger.pending, l.pending)
    decreases |snapshots|
  {
    if snapshots == [] {
      SubsequenceReflexive(l.pending);
    } else {
      var polled := Poll(l, snapshots[0]);
      RemainingIsSubsequence(l.pending, snapshots[0]);
      if |polled.pending| >= max {
        WaitKeepsPendingOrder(polled, max, snapshots[1..]);
        SubsequenceTransitive(WaitFor(polled, max, snapshots[1..]).ledger.pending,
                              polled.pending, l.pending);
      }
    }
  }

  // ---------------------------------------------------------------------------
  // startProcess.

  /** When startProcess returns with a positive bound, at most `max` records are pending. */
  lemma StartAdmissionBound<D>(l: Ledger<D>, max: int, file: string, data: D, env: Environment)
    requires max > 0
    ensures var (l', r) := Start(l, max, file, data, env);
      r.Spawned? ==> |l'.pending| <= max
  {
    var w := Admit(l, max, env.waitSnapshots);
    WaitExitsBelowBound(l, max, env.waitSnapshots);
    if w.dropped && CheckFileExists(file, env.fs).Pass? {
      var appended := Ledger(w.ledger.pending + [NewRecord(file, data, env)], w.ledger.completed);
      assert |Poll(appended, env.finalSnapshot).pending| <= |appended.pending|;
    }
  }

  /** With a bound that is not positive, startProcess neither waits nor polls before the
      worker check: it ends in the check's exception with the ledger untouched, or spawns. */
  lemma StartUnboundedNeverWaits<D>(l: Ledger<D>, max: int, file: string, data: D, env: Environment)
    requires max <= 0
    ensures var (l', r) := Start(l, max, file, data, env);
      && !r.StillWaiting?
      && (r.Rejected? <==> CheckFileExists(file, env.fs).Fail?)
      && (r.Rejected? ==> l' == l)
  {
  }

  /** A missing or directory worker script makes startProcess throw after the wait and
      before any spawn: no record is added, and the exception names the worker. */
  lemma StartRejectsBeforeSpawn<D>(l: Ledger<D>, max: int, file: string, data: D, env: Environment)
    requires WorkerScript(file) !in env.fs.existing - env.fs.directories
    ensures var (l', r) := Start(l, max, file, data, env);
      && (r.StillWaiting? || r == Rejected(ErrorException("The file worker " + file + " does not exist")))
      && Content(l') == Content(l)
      && l' == Admit(l, max, env.waitSnapshots).ledger
  {
    if max > 0 {
      WaitLosesNothing(l, max, env.waitSnapshots);
    }
  }

  /** Appending a record and polling adds exactly that record, which ends up last in
      pending or, when its PID is already dead, last in completed marked 'finished'. */
  lemma AppendThenPoll<D>(l: Ledger<D>, rec: Record<D>, alive: set<int>)
    requires rec.status == Pending
    ensures var l' := Poll(Ledger(l.pending + [rec], l.completed), alive);
      && Content(l') == Content(l) + multiset{rec}
      && (!Reapable(rec, alive) ==> l'.pending != [] && l'.pending[|l'.pending| - 1] == rec)
      && (Reapable(rec, alive) ==>
            l'.completed != [] && l'.completed[|l'.completed| - 1] == WithStatus(rec, Finished))
  {
    var appended := Ledger(l.pending + [rec], l.completed);
    PollLosesNothing(appended, alive);
    EraseSnoc(l.pending, rec);
    assert WithStatus(rec, Pending) == rec;
    assert Content(appended) == Content(l) + multiset{rec};
    RemainingSnoc(l.pending, rec, alive);
    var moved := Reaped(appended.pending, alive);
    if Reapable(rec, alive) {
      assert moved[|moved| - 1] == rec;
      MarkFinishedAt(moved, |moved| - 1);
    }
  }

  /** A successful startProcess adds exactly one record, with the given file and data, the
      spawn's PID, the date and status 'pending'; the poll after the spawn leaves it
      pending or, when its PID is already dead, moves it to the end of completed. */
  lemma StartAppendsOne<D>(l: Ledger<D>, max: int, file: string, data: D, env: Environment)
    ensures var (l', r) := Start(l, max, file, data, env);
      var rec := Record(file, data, env.spawned, Pending, env.now);
      r.Spawned? ==>
        && Content(l') == Content(l) + multiset{rec}
        && (!Reapable(rec, env.finalSnapshot) ==> l'.pending != [] && l'.pending[|l'.pending| - 1] == rec)
        && (Reapable(rec, env.finalSnapshot) ==>
              l'.completed != [] && l'.completed[|l'.completed| - 1] == WithStatus(rec, Finished))
  {
    var w := Admit(l, max, env.waitSnapshots);
    if w.dropped && CheckFileExists(file, env.fs).Pass? {
      if max > 0 {
        WaitLosesNothing(l, max, env.waitSnapshots);
      }
      AppendThenPoll(w.ledger, NewRecord(file, data, env), env.finalSnapshot);
    }
  }

  /** startProcess never takes a record out of the completed list or reorders it. */
  lemma StartKeepsCompletedPrefix<D>(l: Ledger<D>, max: int, file: string, data: D, env: Environment)
    ensures l.completed <= Start(l, max, file, data, env).0.completed
  {
    if max > 0 {
      WaitKeepsCompletedPrefix(l, max, env.waitSnapshots);
    }
  }

  /** Appending a record to both lists and polling the shorter one keeps it a
      subsequence of the longer one. */
  lemma AppendPollKeepsOrder<D>(p: seq<Record<D>>, q: seq<Record<D>>, rec: Record<D>, alive: set<int>)
    requires IsSubsequence(p, q)
    ensures IsSubsequence(Remaining(p + [rec], alive), q + [rec])
  {
    SubsequenceSnoc(p, q, rec);
    RemainingIsSubsequence(p + [rec], alive);
    SubsequenceTransitive(Remaining(p + [rec], alive), p + [rec], q + [rec]);
  }

  /** After startProcess the pending records keep launch order: they are a subsequence of
      the old pending records followed by the new one. */
  lemma StartKeepsLaunchOrder<D>(l: Ledger<D>, max: int, file: string, data: D, env: Environment)
    ensures IsSubsequence(Start(l, max, file, data, env).0.pending, l.pending + [NewRecord(file, data, env)])
  {
    var rec := NewRecord(file, data, env);
    var w := Admit(l, max, env.waitSnapshots);
    if max > 0 {
      WaitKeepsPendingOrder(l, max, env.waitSnapshots);
    } else {
      SubsequenceReflexive(l.pending);
    }
    var after := Start(l, max, file, data, env).0.pending;
    if w.dropped && CheckFileExists(file, env.fs).Pass? {
      assert after == Remaining(w.ledger.pending + [rec], env.finalSnapshot);
      AppendPollKeepsOrder(w.ledger.pending, l.pending, rec, env.finalSnapshot);
    } else {
      assert after == w.ledger.pending;
      SubsequenceExtend(w.ledger.pending, l.pending, rec);
    }
  }

  /** startProcess keeps every pending record 'pending' and every completed one 'finished'. */
  lemma StartKeepsWellFormed<D>(l: Ledger<D>, max: int, file: string, data: D, env: Environment)
    requires WellFormed(l)
    ensures WellFormed(Start(l, max, file, data, env).0)
  {
    var w := Admit(l, max, env.waitSnapshots);
    if max > 0 {
      WaitKeepsWellFormed(l, max, env.waitSnapshots);
    }
    if w.dropped && CheckFileExists(file, env.fs).Pass? {
      var appended := Ledger(w.ledger.pending + [NewRecord(file, data, env)], w.ledger.completed);
      assert WellFormed(appended);
      PollKeepsWellFormed(appended, env.finalSnapshot);
    }
  }

  /** Everything startProcess promises, stated about one call of `Start`. */
  lemma StartPromises<D>(l: Ledger<D>, max: int, file: string, data: D, env: Environment)
    ensures var (l', r) := Start(l, max, file, data, env);
      && (max <= 0 ==> !r.StillWaiting?)
      && (r.Spawned? && max > 0 ==> |l'.pending| <= max)
      && (r.Rejected? ==>
            r.error == ErrorException("The file worker " + file + " does not exist") &&
            Content(l') == Content(l))
      && (r.Spawned? ==> Content(l') == Content(l) + multiset{NewRecord(file, data, env)})
      && (r.Spawned? ==> r.returned == ReturnValue(env.spawned))
      && l.completed <= l'.completed
      && IsSubsequence(l'.pending, l.pending + [NewRecord(file, data, env)])
      && (WellFormed(l) ==> WellFormed(l'))
  {
    if max > 0 {
      StartAdmissionBound(l, max, file, data, env);
    } else {
      StartUnboundedNeverWaits(l, max, file, data, env);
    }
    if WorkerScript(file) !in env.fs.existing - env.fs.directories {
      StartRejectsBeforeSpawn(l, max, file, data, env);
    }
    StartAppendsOne(l, max, file, data, env);
    StartKeepsCompletedPrefix(l, max, file, data, env);
    StartKeepsLaunchOrder(l, max, file, data, env);
    if WellFormed(l) {
      StartKeepsWellFormed(l, max, file, data, env);
    }
  }
}
