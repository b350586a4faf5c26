/** killAllProcesses as a function of the pending list and one liveness snapshot: the
    sequence of `posix_kill` calls it makes, and what that sequence is promised to be. */
module Signals {
  import opened Records
  import opened Polling

  /** The pending records killAllProcesses signals, in their order. */
  function Probed<D>(ps: seq<Record<D>>, alive: set<int>): (r: seq<Record<D>>)
    ensures |r| <= |ps|
  {
    if ps == [] then []
    else
      var last := ps[|ps| - 1];
      Probed(ps[..|ps| - 1], alive) + (if Probeable(last, alive) then [last] else [])
  }

  /** killProcess: `posix_kill($pid, 0)`. */
  function ProbeOf(pid: int): Signal {
    Signal(pid, PROBE_SIGNAL)
  }

  /** The signals killAllProcesses sends, in the order it sends them. */
  function SignalsFor<D>(ps: seq<Record<D>>, alive: set<int>): (r: seq<Signal>)
    ensures |r| <= |ps|
  {
    if ps == [] then []
    else
      var last := ps[|ps| - 1];
      SignalsFor(ps[..|ps| - 1], alive)
        + (if Probeable(last, alive) then [ProbeOf(last.pid.value)] else [])
  }

  /** How many records carry the numeric PID `p`. */
  function Occurrences<D>(ps: seq<Record<D>>, p: int): nat {
    if ps == [] then 0
    else Occurrences(ps[..|ps| - 1], p) + (if ps[|ps| - 1].pid == Numeric(p) then 1 else 0)
  }

  lemma SignalsSnoc<D>(ps: seq<Record<D>>, x: Record<D>, alive: set<int>)
    ensures Probeable(x, alive) ==>
      SignalsFor(ps + [x], alive) == SignalsFor(ps, alive) + [ProbeOf(x.pid.value)] &&
      Probed(ps + [x], alive) == Probed(ps, alive) + [x]
    ensures !Probeable(x, alive) ==>
      SignalsFor(ps + [x], alive) == SignalsFor(ps, alive) &&
      Probed(ps + [x], alive) == Probed(ps, alive)
  {
    SplitLast(ps, x);
    assert SignalsFor(ps, alive) + [] == SignalsFor(ps, alive);
    assert Probed(ps, alive) + [] == Probed(ps, alive);
  }

  /** The k-th signal goes to the k-th probed record: one signal per record, in order. */
  lemma {:induction false} SignalsFollowProbed<D>(ps: seq<Record<D>>, alive: set<int>)
    ensures |SignalsFor(ps, alive)| == |Probed(ps, alive)|
    ensures forall k :: 0 <= k < |Probed(ps, alive)| ==>
      Probeable(Probed(ps, alive)[k], alive) &&
      SignalsFor(ps, alive)[k] == ProbeOf(Probed(ps, alive)[k].pid.value)
  {
    if ps != [] {
      var init, last := ps[..|ps| - 1], ps[|ps| - 1];
      assert ps == init + [last];
      SignalsFollowProbed(init, alive);
      SignalsSnoc(init, last, alive);
    }
  }

  /** The records signalled are exactly the pending ones with a numeric, alive PID. */
  lemma {:induction false} ProbedMembers<D>(ps: seq<Record<D>>, alive: set<int>, r: Record<D>)
    ensures r in Probed(ps, alive) <==> r in ps && Probeable(r, alive)
  {
    if ps != [] {
      var init, last := ps[..|ps| - 1], ps[|ps| - 1];
      assert ps == init + [last];
      ProbedMembers(init, alive, r);
      SignalsSnoc(init, last, alive);
    }
  }

  /** The records signalled keep their pending order. */
  lemma {:induction false} ProbedIsSubsequence<D>(ps: seq<Record<D>>, alive: set<int>)
    ensures IsSubsequence(Probed(ps, alive), ps)
  {
    if ps != [] {
      var init, last := ps[..|ps| - 1], ps[|ps| - 1];
      assert ps == init + [last];
      ProbedIsSubsequence(init, alive);
      SignalsSnoc(init, last, alive);
      var r := Probed(ps, alive);
      if Probeable(last, alive) {
        assert r[..|r| - 1] == Probed(init, alive);
      } else if r != [] {
        ProbedMembers(init, alive, r[|r| - 1]);
      }
    }
  }

  /** A PID that is alive is signalled once for every pending record carrying it; a PID
      that is dead is never signalled. */
  lemma {:induction false} SignalCount<D>(ps: seq<Record<D>>, alive: set<int>, p: int)
    ensures multiset(SignalsFor(ps, alive))[ProbeOf(p)]
         == if p in alive then Occurrences(ps, p) else 0
  {
    if ps != [] {
      var init, last := ps[..|ps| - 1], ps[|ps| - 1];
      assert ps == init + [last];
      SignalCount(init, alive, p);
      SignalsSnoc(init, last, alive);
      assert Occurrences(ps, p)
          == Occurrences(init, p) + (if last.pid == Numeric(p) then 1 else 0);
    }
  }

  /** With one liveness snapshot, every pending record is signalled by killAllProcesses,
      reaped by a poll, or has a non-numeric PID, and exactly one of the three. */
  lemma {:induction false} KillAndPollPartition<D>(ps: seq<Record<D>>, alive: set<int>)
    ensures |Probed(ps, alive)| + |Reaped(ps, alive)| + |Orphans(ps)| == |ps|
  {
    if ps != [] {
      var init, last := ps[..|ps| - 1], ps[|ps| - 1];
      assert ps == init + [last];
      KillAndPollPartition(init, alive);
      SignalsSnoc(init, last, alive);
      RemainingSnoc(init, last, alive);
      OrphansSnoc(init, last);
    }
  }
}
