/** getProcessesInfo over the merged record list: the listing for a falsy argument, and
    the lookup by PID, both as the source writes it and as its documentation means it. */
module Lookup {
  import opened Records

  /** What getProcessesInfo hands back: the whole list, one record, or `[]`. */
  datatype Info<D> = Listing(records: seq<Record<D>>) | Single(record: Record<D>) | NoRecord

  /** In a well-formed ledger the merged list `array_merge($this->pendingProcesses,
      $this->completeProcesses)` shows where each record comes from: the pending records
      first, each saying 'pending', then the completed ones, each saying 'finished'. */
  lemma MergedStatusMarksOrigin<D>(l: Ledger<D>)
    requires WellFormed(l)
    ensures forall i :: 0 <= i < |l.pending + l.completed| ==>
      ((l.pending + l.completed)[i].status == Pending <==> i < |l.pending|)
  {
    var m := l.pending + l.completed;
    forall i | 0 <= i < |m|
      ensures m[i].status == Pending <==> i < |l.pending|
    {
      if i < |l.pending| {
        assert m[i] == l.pending[i];
      } else {
        assert m[i] == l.completed[i - |l.pending|];
      }
    }
  }

  /** Position `i` holds the last record of `records` carrying the numeric PID `pid`. */
  predicate LastMatchAt<D>(records: seq<Record<D>>, pid: int, i: int) {
    0 <= i < |records| && records[i].pid == Numeric(pid) &&
    forall j :: i < j < |records| ==> records[j].pid != Numeric(pid)
  }

  /** `array_combine(array_column($processes, 'pid'), $processes)[$pid]`: records keyed
      by their PID, a later record overwriting an earlier one with the same PID, looked up
      by `pid`; the answer is the position of the record found. */
  function LastMatch<D>(records: seq<Record<D>>, pid: int): (r: Option<nat>)
    ensures r.None? ==> forall i :: 0 <= i < |records| ==> records[i].pid != Numeric(pid)
    ensures r.Some? ==> LastMatchAt(records, pid, r.value)
  {
    if records == [] then None
    else if records[|records| - 1].pid == Numeric(pid) then Some(|records| - 1)
    else LastMatch(records[..|records| - 1], pid)
  }

  /** `$record[$pid] ?? []` for an integer `$pid`: a record's keys are the strings file,
      data, pid, status and date, none of which PHP reads as an integer key, so the
      access finds nothing and the `??` yields `[]`. */
  function IndexRecordByInt<D>(rec: Record<D>, key: int): Info<D> {
    NoRecord
  }

  /** getProcessesInfo($pid) as written, for an integer argument: 0 is falsy and returns
      the listing; any other value looks the record up and then indexes that record by
      the PID a second time. */
  function InfoForPidAsWritten<D>(records: seq<Record<D>>, pid: int): (r: Info<D>)
    ensures pid == 0 ==> r == Listing(records)
    ensures pid != 0 ==> r == NoRecord
  {
    if pid == 0 then Listing(records)
    else
      match LastMatch(records, pid)
      case None => NoRecord
      case Some(i) => IndexRecordByInt(records[i], pid)
  }

  /** The record the documentation means: the last record carrying the PID, or `[]`. */
  function InfoForPid<D>(records: seq<Record<D>>, pid: int): (r: Info<D>)
    ensures pid == 0 ==> r == Listing(records)
    ensures pid != 0 ==> !r.Listing?
    ensures pid != 0 ==>
      (r.Single? <==> exists i :: 0 <= i < |records| && records[i].pid == Numeric(pid))
    ensures r.Single? ==> r.record.pid == Numeric(pid)
    ensures r.Single? ==> exists i :: LastMatchAt(records, pid, i) && records[i] == r.record
  {
    if pid == 0 then Listing(records)
    else
      match LastMatch(records, pid)
      case None => NoRecord
      case Some(i) => Single(records[i])
  }

  /** One pending record with PID 123: the lookup as written answers `[]`, the intended
      lookup answers that record. */
  lemma AsWrittenMissesMatchingRecord()
    ensures var rec := Record("worker", 0, Numeric(123), Pending, "2024-01-01 00:00:00");
      InfoForPidAsWritten([rec], 123) == NoRecord &&
      InfoForPid([rec], 123) == Single(rec)
  {
  }
}
