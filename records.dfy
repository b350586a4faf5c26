/** The values ExecMultithread keeps about its worker processes. */
module Records {

  datatype Option<T> = None | Some(value: T)

  /** What `exec(...)` hands back for a spawned worker, as far as the bookkeeping cares:
      output that PHP's `is_numeric` accepts, carried as the integer `(int)` turns it into,
      or anything else (an empty last line, an error text, `false`). */
  datatype Pid = Numeric(value: int) | NonNumeric

  datatype Status = Pending | Finished

  /** One entry of `pendingProcesses` or `completeProcesses`: the keys file, data, pid,
      status and date of the PHP array. `D` is the caller's payload, opaque here. */
  datatype Record<D> = Record(file: string, data: D, pid: Pid, status: Status, date: string)

  /** The record with its status field replaced, everything else kept. */
  function WithStatus<D>(r: Record<D>, status: Status): Record<D> {
    Record(r.file, r.data, r.pid, status, r.date)
  }

  /** The two record lists, each in insertion order. */
  datatype Ledger<D> = Ledger(pending: seq<Record<D>>, completed: seq<Record<D>>)

  /** PHP's `ErrorException`, with its message. */
  datatype Error = ErrorException(message: string)

  /** A call that either returns normally or throws. */
  datatype Outcome = Pass | Fail(error: Error)

  /** One call of `posix_kill(pid, signo)`. */
  datatype Signal = Signal(pid: int, signo: int)

  /** The signal number killProcess passes: 0 only tests whether the process exists. */
  const PROBE_SIGNAL: int := 0

  /** The poll's test: the PID is numeric and `posix_getpgid` fails, because no process
      with that PID exists any more. */
  predicate Reapable<D>(r: Record<D>, alive: set<int>) {
    r.pid.Numeric? && r.pid.value !in alive
  }

  /** killAllProcesses' test: the PID is numeric and `posix_getpgid` succeeds, because the
      process with that PID still exists. */
  predicate Probeable<D>(r: Record<D>, alive: set<int>) {
    r.pid.Numeric? && r.pid.value in alive
  }

  /** Every pending record says 'pending', every completed one says 'finished'. */
  predicate WellFormed<D>(l: Ledger<D>) {
    (forall i :: 0 <= i < |l.pending| ==> l.pending[i].status == Pending) &&
    (forall i :: 0 <= i < |l.completed| ==> l.completed[i].status == Finished)
  }

  /** In a well-formed ledger no record is both pending and completed. */
  lemma WellFormedIsDisjoint<D>(l: Ledger<D>, r: Record<D>)
    requires WellFormed(l)
    ensures !(r in l.pending && r in l.completed)
  {
    if r in l.pending {
      var i :| 0 <= i < |l.pending| && l.pending[i] == r;
      assert r.status == Pending;
    }
  }
}
