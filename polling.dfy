/** checkForCompletedProcesses as a function of the ledger and one liveness snapshot,
    with what it promises: it moves exactly the reapable records, in order, marks them
    finished, loses and duplicates nothing, and a second poll changes nothing. */
module Polling {
  import opened Records

  /** The pending records a poll leaves in place, in their order. */
  function Remaining<D>(ps: seq<Record<D>>, alive: set<int>): (r: seq<Record<D>>)
    ensures |r| <= |ps|
  {
    if ps == [] then []
    else
      var last := ps[|ps| - 1];
      Remaining(ps[..|ps| - 1], alive) + (if Reapable(last, alive) then [] else [last])
  }

  /** The pending records a poll takes out, in their order. */
  function Reaped<D>(ps: seq<Record<D>>, alive: set<int>): (r: seq<Record<D>>)
    ensures |r| <= |ps|
  {
    if ps == [] then []
    else
      var last := ps[|ps| - 1];
      Reaped(ps[..|ps| - 1], alive) + (if Reapable(last, alive) then [last] else [])
  }

  /** `array_merge($record, ['status' => 'finished'])` applied to each record. */
  function MarkFinished<D>(s: seq<Record<D>>): (r: seq<Record<D>>)
    ensures |r| == |s|
  {
    if s == [] then [] else MarkFinished(s[..|s| - 1]) + [WithStatus(s[|s| - 1], Finished)]
  }

  /** One run of checkForCompletedProcesses against the liveness snapshot `alive`. */
  function Poll<D>(l: Ledger<D>, alive: set<int>): Ledger<D> {
    Ledger(Remaining(l.pending, alive), l.completed + MarkFinished(Reaped(l.pending, alive)))
  }

  /** The records with the status field ignored (every status read as 'pending'). */
  function Erase<D>(s: seq<Record<D>>): (r: seq<Record<D>>)
    ensures |r| == |s|
  {
    if s == [] then [] else Erase(s[..|s| - 1]) + [WithStatus(s[|s| - 1], Pending)]
  }

  /** Both lists' records with the status field ignored, counted with multiplicity. */
  ghost function Content<D>(l: Ledger<D>): multiset<Record<D>> {
    multiset(Erase(l.pending)) + multiset(Erase(l.completed))
  }

  /** The records whose PID is not numeric: no poll can ever move them. */
  function Orphans<D>(ps: seq<Record<D>>): (r: seq<Record<D>>)
    ensures |r| <= |ps|
  {
    if ps == [] then []
    else
      var last := ps[|ps| - 1];
      Orphans(ps[..|ps| - 1]) + (if last.pid.NonNumeric? then [last] else [])
  }

  /** `a` is `b` with some elements left out and the rest in their order. */
  predicate IsSubsequence<T(==)>(a: seq<T>, b: seq<T>)
    decreases |b|
  {
    if a == [] then true
    else if b == [] then false
    else if a[|a| - 1] == b[|b| - 1] then IsSubsequence(a[..|a| - 1], b[..|b| - 1])
    else IsSubsequence(a, b[..|b| - 1])
  }

  /** Every list is a subsequence of itself. */
  lemma {:induction false} SubsequenceReflexive<T>(s: seq<T>)
    ensures IsSubsequence(s, s)
  {
    if s != [] {
      SubsequenceReflexive(s[..|s| - 1]);
    }
  }

  /** A subsequence stays one when the longer list grows at the end. */
  lemma {:induction false} SubsequenceExtend<T>(a: seq<T>, b: seq<T>, x: T)
    requires IsSubsequence(a, b)
    ensures IsSubsequence(a, b + [x])
    decreases |b|, 1
  {
    var c := b + [x];
    assert c[..|c| - 1] == b;
    if a != [] && a[|a| - 1] == x {
      SubsequenceDropLast(a, b);
    }
  }

  /** A subsequence stays one when its last element is dropped. */
  lemma {:induction false} SubsequenceDropLast<T>(a: seq<T>, c: seq<T>)
    requires a != [] && IsSubsequence(a, c)
    ensures IsSubsequence(a[..|a| - 1], c)
    decreases |c|, 0
  {
    var c', z := c[..|c| - 1], c[|c| - 1];
    assert c == c' + [z];
    if a[|a| - 1] != z {
      SubsequenceDropLast(a, c');
    }
    SubsequenceExtend(a[..|a| - 1], c', z);
  }

  /** Appending the same element to both lists keeps a subsequence. */
  lemma SubsequenceSnoc<T>(a: seq<T>, b: seq<T>, x: T)
    requires IsSubsequence(a, b)
    ensures IsSubsequence(a + [x], b + [x])
  {
    assert (a + [x])[..|a|] == a;
    assert (b + [x])[..|b|] == b;
  }

  /** A subsequence of a subsequence is a subsequence. */
  lemma {:induction false} SubsequenceTransitive<T>(a: seq<T>, b: seq<T>, c: seq<T>)
    requires IsSubsequence(a, b) && IsSubsequence(b, c)
    ensures IsSubsequence(a, c)
    decreases |c|
  {
    if a != [] {
      var a', x := a[..|a| - 1], a[|a| - 1];
      var b', y := b[..|b| - 1], b[|b| - 1];
      var c', z := c[..|c| - 1], c[|c| - 1];
      if y != z {
        SubsequenceTransitive(a, b, c');
        if x == z {
          SubsequenceDropLast(a, c');
        }
      } else if x == y {
        SubsequenceTransitive(a', b', c');
      } else {
        SubsequenceTransitive(a, b', c');
      }
    }
  }

  // ---------------------------------------------------------------------------
  // Unfolding on a trailing element, used by the loops that build these lists.

  lemma SplitLast<T>(s: seq<T>, x: T)
    ensures (s + [x])[..|s|] == s && (s + [x])[|s|] == x
  {
  }

  lemma SplitAt<T>(a: seq<T>, x: T, b: seq<T>)
    ensures var s := a + [x] + b;
      s[..|a|] == a && s[|a|] == x && s[|a| + 1..] == b
  {
    var s := a + [x] + b;
    assert s[|a| + 1..] == b;
  }

  lemma RemainingSnoc<D>(ps: seq<Record<D>>, x: Record<D>, alive: set<int>)
    ensures Reapable(x, alive) ==>
      Remaining(ps + [x], alive) == Remaining(ps, alive) &&
      Reaped(ps + [x], alive) == Reaped(ps, alive) + [x]
    ensures !Reapable(x, alive) ==>
      Remaining(ps + [x], alive) == Remaining(ps, alive) + [x] &&
      Reaped(ps + [x], alive) == Reaped(ps, alive)
  {
    SplitLast(ps, x);
    assert Remaining(ps, alive) + [] == Remaining(ps, alive);
    assert Reaped(ps, alive) + [] == Reaped(ps, alive);
  }

  lemma OrphansSnoc<D>(ps: seq<Record<D>>, x: Record<D>)
    ensures Orphans(ps + [x]) == if x.pid.NonNumeric? then Orphans(ps) + [x] else Orphans(ps)
  {
    SplitLast(ps, x);
    assert Orphans(ps) + [] == Orphans(ps);
  }

  lemma EraseSnoc<D>(ps: seq<Record<D>>, x: Record<D>)
    ensures Erase(ps + [x]) == Erase(ps) + [WithStatus(x, Pending)]
  {
    SplitLast(ps, x);
  }

  /** Where the poll loop over a copy `requests` of the pending list stands before
      iteration `i`: the live pending list is what stays of `requests[..i]` followed by the
      rest, `position` is where record `i` sits in it, and the completed list has grown
      by what was reaped so far, marked finished. */
  ghost predicate PollLoop<D>(requests: seq<Record<D>>, i: nat, alive: set<int>, position: nat,
                              live: seq<Record<D>>, completed0: seq<Record<D>>, completed: seq<Record<D>>)
  {
    && i <= |requests|
    && position == |Remaining(requests[..i], alive)|
    && live == Remaining(requests[..i], alive) + requests[i..]
    && completed == completed0 + MarkFinished(Reaped(requests[..i], alive))
  }

  /** Before the first iteration nothing has been visited. */
  lemma PollLoopStart<D>(requests: seq<Record<D>>, alive: set<int>, completed0: seq<Record<D>>)
    ensures PollLoop(requests, 0, alive, 0, requests, completed0, completed0)
  {
    assert requests[..0] == [];
    assert completed0 + [] == completed0;
  }

  /** One iteration keeps the loop's facts: a reapable record is taken out of the live
      list at `position` and appended, marked finished, to completed; any other record
      stays and `position` moves past it. */
  lemma PollStep<D>(requests: seq<Record<D>>, i: nat, alive: set<int>, position: nat,
                    live: seq<Record<D>>, completed0: seq<Record<D>>, completed: seq<Record<D>>)
    requires i < |requests|
    requires PollLoop(requests, i, alive, position, live, completed0, completed)
    ensures position < |live| && live[position] == requests[i]
    ensures Reapable(requests[i], alive) ==>
      PollLoop(requests, i + 1, alive, position, live[..position] + live[position + 1..],
               completed0, completed + [WithStatus(live[position], Finished)])
    ensures !Reapable(requests[i], alive) ==>
      PollLoop(requests, i + 1, alive, position + 1, live, completed0, completed)
  {
    var done, x, rest := requests[..i], requests[i], requests[i + 1..];
    var kept, moved := Remaining(done, alive), Reaped(done, alive);
    assert requests[..i + 1] == done + [x];
    assert requests[i..] == [x] + rest;
    assert live == kept + [x] + rest;
    SplitAt(kept, x, rest);
    RemainingSnoc(done, x, alive);
    if Reapable(x, alive) {
      MarkFinishedSnoc(moved, x);
    } else {
      assert kept + [x] + rest == (kept + [x]) + rest;
    }
  }

  /** After the last iteration the two lists are those of one poll. */
  lemma PollLoopEnd<D>(requests: seq<Record<D>>, alive: set<int>, position: nat,
                       live: seq<Record<D>>, completed0: seq<Record<D>>, completed: seq<Record<D>>)
    requires PollLoop(requests, |requests|, alive, position, live, completed0, completed)
    ensures Ledger(live, completed) == Poll(Ledger(requests, completed0), alive)
  {
    assert requests[..|requests|] == requests;
    assert requests[|requests|..] == [];
    assert live == Remaining(requests, alive) + [];
  }

  /** Position `i` of the marked list is record `i` marked finished. */
  lemma {:induction false} MarkFinishedAt<D>(s: seq<Record<D>>, i: nat)
    requires i < |s|
    ensures MarkFinished(s)[i] == WithStatus(s[i], Finished)
  {
    if i < |s| - 1 {
      MarkFinishedAt(s[..|s| - 1], i);
    }
  }

  lemma MarkFinishedSnoc<D>(s: seq<Record<D>>, x: Record<D>)
    ensures MarkFinished(s + [x]) == MarkFinished(s) + [WithStatus(x, Finished)]
  {
    SplitLast(s, x);
  }

  lemma {:induction false} MarkFinishedAppend<D>(a: seq<Record<D>>, b: seq<Record<D>>)
    ensures MarkFinished(a + b) == MarkFinished(a) + MarkFinished(b)
    decreases |b|
  {
    if b == [] {
      assert a + b == a;
      assert MarkFinished(a) + [] == MarkFinished(a);
    } else {
      var b', y := b[..|b| - 1], b[|b| - 1];
      assert b == b' + [y];
      assert a + b == (a + b') + [y];
      var front, back, e := MarkFinished(a), MarkFinished(b'), WithStatus(y, Finished);
      calc {
        MarkFinished(a + b);
        MarkFinished((a + b') + [y]);
        { MarkFinishedSnoc(a + b', y); }
        MarkFinished(a + b') + [e];
        { MarkFinishedAppend(a, b'); }
        (front + back) + [e];
        front + (back + [e]);
        { MarkFinishedSnoc(b', y); }
        front + MarkFinished(b);
      }
    }
  }

  lemma {:induction false} EraseAppend<D>(a: seq<Record<D>>, b: seq<Record<D>>)
    ensures Erase(a + b) == Erase(a) + Erase(b)
    decreases |b|
  {
    if b == [] {
      assert a + b == a;
      assert Erase(a) + [] == Erase(a);
    } else {
      var b', y := b[..|b| - 1], b[|b| - 1];
      assert b == b' + [y];
      assert a + b == (a + b') + [y];
      var front, back, e := Erase(a), Erase(b'), WithStatus(y, Pending);
      calc {
        Erase(a + b);
        Erase((a + b') + [y]);
        { EraseSnoc(a + b', y); }
        Erase(a + b') + [e];
        { EraseAppend(a, b'); }
        (front + back) + [e];
        front + (back + [e]);
        { EraseSnoc(b', y); }
        front + Erase(b);
      }
    }
  }

  // ---------------------------------------------------------------------------
  // What one poll does to the pending list.

  /** A record stays pending exactly when it was pending and is not reapable. */
  lemma {:induction false} RemainingMembers<D>(ps: seq<Record<D>>, alive: set<int>, r: Record<D>)
    ensures r in Remaining(ps, alive) <==> r in ps && !Reapable(r, alive)
  {
    if ps != [] {
      var init := ps[..|ps| - 1];
      assert ps == init + [ps[|ps| - 1]];
      RemainingMembers(init, alive, r);
    }
  }

  /** A record is moved exactly when it was pending and is reapable. */
  lemma {:induction false} ReapedMembers<D>(ps: seq<Record<D>>, alive: set<int>, r: Record<D>)
    ensures r in Reaped(ps, alive) <==> r in ps && Reapable(r, alive)
  {
    if ps != [] {
      var init := ps[..|ps| - 1];
      assert ps == init + [ps[|ps| - 1]];
      ReapedMembers(init, alive, r);
    }
  }

  /** Every pending record either stays or is moved, and none is both or neither. */
  lemma {:induction false} SplitIsPermutation<D>(ps: seq<Record<D>>, alive: set<int>)
    ensures multiset(Remaining(ps, alive)) + multiset(Reaped(ps, alive)) == multiset(ps)
  {
    if ps != [] {
      var init, last := ps[..|ps| - 1], ps[|ps| - 1];
      assert ps == init + [last];
      SplitIsPermutation(init, alive);
      RemainingSnoc(init, last, alive);
    }
  }

  lemma ErasedBagSnoc<D>(ps: seq<Record<D>>, x: Record<D>)
    ensures multiset(Erase(ps + [x])) == multiset(Erase(ps)) + multiset{WithStatus(x, Pending)}
  {
    EraseSnoc(ps, x);
  }

  /** Ignoring status, the same split holds: what is moved and what stays make up the list. */
  lemma {:induction false} SplitErased<D>(ps: seq<Record<D>>, alive: set<int>)
    ensures multiset(Erase(Remaining(ps, alive))) + multiset(Erase(Reaped(ps, alive)))
         == multiset(Erase(ps))
  {
    if ps != [] {
      var init, last := ps[..|ps| - 1], ps[|ps| - 1];
      assert ps == init + [last];
      SplitErased(init, alive);
      RemainingSnoc(init, last, alive);
      ErasedBagSnoc(init, last);
      var kept, moved := Remaining(init, alive), Reaped(init, alive);
      if Reapable(last, alive) {
        ErasedBagSnoc(moved, last);
      } else {
        ErasedBagSnoc(kept, last);
      }
    }
  }

  /** Marking records finished changes nothing but their status. */
  lemma {:induction false} EraseMarkFinished<D>(s: seq<Record<D>>)
    ensures Erase(MarkFinished(s)) == Erase(s)
  {
    if s != [] {
      var init, last := s[..|s| - 1], s[|s| - 1];
      assert s == init + [last];
      EraseMarkFinished(init);
      assert MarkFinished(s) == MarkFinished(init) + [WithStatus(last, Finished)];
      EraseSnoc(MarkFinished(init), WithStatus(last, Finished));
      EraseSnoc(init, last);
    }
  }

  /** The records left pending keep their relative order. */
  lemma {:induction false} RemainingIsSubsequence<D>(ps: seq<Record<D>>, alive: set<int>)
    ensures IsSubsequence(Remaining(ps, alive), ps)
  {
    if ps != [] {
      var init, last := ps[..|ps| - 1], ps[|ps| - 1];
      assert ps == init + [last];
      RemainingIsSubsequence(init, alive);
      RemainingSnoc(init, last, alive);
      var r := Remaining(ps, alive);
      if !Reapable(last, alive) {
        assert r[..|r| - 1] == Remaining(init, alive);
      } else if r != [] {
        RemainingMembers(init, alive, r[|r| - 1]);
      }
    }
  }

  /** The records moved to completed keep their relative order. */
  lemma {:induction false} ReapedIsSubsequence<D>(ps: seq<Record<D>>, alive: set<int>)
    ensures IsSubsequence(Reaped(ps, alive), ps)
  {
    if ps != [] {
      var init, last := ps[..|ps| - 1], ps[|ps| - 1];
      assert ps == init + [last];
      ReapedIsSubsequence(init, alive);
      RemainingSnoc(init, last, alive);
      var r := Reaped(ps, alive);
      if Reapable(last, alive) {
        assert r[..|r| - 1] == Reaped(init, alive);
      } else if r != [] {
        ReapedMembers(init, alive, r[|r| - 1]);
      }
    }
  }

  /** Records with a non-numeric PID all stay pending, untouched and in their order. */
  lemma {:induction false} OrphansStay<D>(ps: seq<Record<D>>, alive: set<int>)
    ensures Orphans(Remaining(ps, alive)) == Orphans(ps)
  {
    if ps != [] {
      var init, last := ps[..|ps| - 1], ps[|ps| - 1];
      assert ps == init + [last];
      OrphansStay(init, alive);
      RemainingSnoc(init, last, alive);
      OrphansSnoc(init, last);
      if !Reapable(last, alive) {
        OrphansSnoc(Remaining(init, alive), last);
      }
    }
  }

  /** Polling what a poll left behind takes nothing more. */
  lemma {:induction false} RemainingIsStable<D>(ps: seq<Record<D>>, alive: set<int>)
    ensures Remaining(Remaining(ps, alive), alive) == Remaining(ps, alive)
    ensures Reaped(Remaining(ps, alive), alive) == []
  {
    if ps != [] {
      var init, last := ps[..|ps| - 1], ps[|ps| - 1];
      assert ps == init + [last];
      RemainingIsStable(init, alive);
      RemainingSnoc(init, last, alive);
      if !Reapable(last, alive) {
        RemainingSnoc(Remaining(init, alive), last, alive);
      }
    }
  }

  // ---------------------------------------------------------------------------
  // What one poll does to the whole ledger.

  /** A second poll against the same snapshot changes neither list. */
  lemma PollIsIdempotent<D>(l: Ledger<D>, alive: set<int>)
    ensures Poll(Poll(l, alive), alive) == Poll(l, alive)
  {
    RemainingIsStable(l.pending, alive);
    assert MarkFinished<D>([]) == [];
    var p := Poll(l, alive);
    assert p.completed + [] == p.completed;
  }

  /** A poll loses and duplicates no record: ignoring status, the records of both lists
      together are the same multiset before and after. */
  lemma PollLosesNothing<D>(l: Ledger<D>, alive: set<int>)
    ensures Content(Poll(l, alive)) == Content(l)
  {
    var moved := Reaped(l.pending, alive);
    EraseAppend(l.completed, MarkFinished(moved));
    EraseMarkFinished(moved);
    SplitErased(l.pending, alive);
  }

  /** A poll appends to completed, after the records already there, exactly the reapable
      pending records, each marked finished. */
  lemma PollMovesReapable<D>(l: Ledger<D>, alive: set<int>, r: Record<D>)
    ensures var p := Poll(l, alive);
      && p.completed[..|l.completed|] == l.completed
      && (r in p.completed[|l.completed|..] <==>
            exists q :: q in l.pending && Reapable(q, alive) && r == WithStatus(q, Finished))
  {
    var moved := Reaped(l.pending, alive);
    var added := MarkFinished(moved);
    assert Poll(l, alive).completed == l.completed + added;
    if r in added {
      var i :| 0 <= i < |moved| && added[i] == r;
      MarkFinishedAt(moved, i);
      ReapedMembers(l.pending, alive, moved[i]);
    }
    if exists q :: q in l.pending && Reapable(q, alive) && r == WithStatus(q, Finished) {
      var q :| q in l.pending && Reapable(q, alive) && r == WithStatus(q, Finished);
      ReapedMembers(l.pending, alive, q);
      var i :| 0 <= i < |moved| && moved[i] == q;
      MarkFinishedAt(moved, i);
      assert added[i] == r;
    }
  }

  /** The list sizes add up: no record is created or dropped. */
  lemma {:induction false} PollCounts<D>(ps: seq<Record<D>>, alive: set<int>)
    ensures |Remaining(ps, alive)| + |Reaped(ps, alive)| == |ps|
  {
    if ps != [] {
      PollCounts(ps[..|ps| - 1], alive);
    }
  }

  /** A poll keeps every pending record 'pending' and every completed one 'finished'. */
  lemma PollKeepsWellFormed<D>(l: Ledger<D>, alive: set<int>)
    requires WellFormed(l)
    ensures WellFormed(Poll(l, alive))
  {
    var p := Poll(l, alive);
    forall i | 0 <= i < |p.pending|
      ensures p.pending[i].status == Pending
    {
      RemainingMembers(l.pending, alive, p.pending[i]);
    }
    var added := MarkFinished(Reaped(l.pending, alive));
    forall i | |l.completed| <= i < |p.completed|
      ensures p.completed[i].status == Finished
    {
      MarkFinishedAt(Reaped(l.pending, alive), i - |l.completed|);
      assert p.completed[i] == added[i - |l.completed|];
    }
  }
}
