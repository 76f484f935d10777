/**
 Non-preemptive Shortest-Job-First with dynamic selection (`sjf`).

 The scheduler keeps the not-yet-run processes in a list that starts sorted by
 arrival and only ever loses elements, so survivors keep their relative order.
 Each iteration of its loop is one `Step`: either the shortest arrived process
 (the first one in list order on equal bursts) runs to completion, or, when
 nothing has arrived, the clock jumps to the earliest remaining arrival. `Run`
 repeats steps until the list is empty.
 */
module ShortestJobFirst {
  import opened Processes
  import opened ArrivalSort

  /** The scheduler's loop variables: the remaining list, the clock and the
      records emitted so far. */
  datatype State = State(remaining: seq<Process>, clock: int, log: seq<Record>)

  /** The outcome of scanning the remaining list: nothing has arrived, or the
      position of the process to run. */
  datatype Choice = Idle | Pick(index: nat)

  /** Some process of `rem` has arrived by time `t`. */
  predicate HasArrived(rem: seq<Process>, t: int) {
    exists i :: 0 <= i < |rem| && rem[i].arrival <= t
  }

  /** Among the first `n` processes of `rem`, the one at `i` has arrived by `t`,
      has the shortest burst of all arrived ones, and every arrived one before it
      has a strictly longer burst. */
  predicate IsShortestArrived(rem: seq<Process>, t: int, n: int, i: int) {
    && 0 <= i < n <= |rem|
    && rem[i].arrival <= t
    && (forall j :: 0 <= j < n && rem[j].arrival <= t ==> rem[i].duration <= rem[j].duration)
    && (forall j :: 0 <= j < i && rem[j].arrival <= t ==> rem[i].duration < rem[j].duration)
  }

  /** `min([p for p in rem[..n] if p.arrival <= t], key=duration)`, scanning left
      to right and replacing the current best only by a strictly shorter burst. */
  function Choose(rem: seq<Process>, t: int, n: nat): (c: Choice)
    requires n <= |rem|
    ensures c.Idle? <==> forall j :: 0 <= j < n ==> t < rem[j].arrival
    ensures c.Pick? ==> IsShortestArrived(rem, t, n, c.index)
  {
    if n == 0 then Idle
    else
      var c := Choose(rem, t, n - 1);
      if t < rem[n - 1].arrival then c
      else if c.Idle? || rem[n - 1].duration < rem[c.index].duration then Pick(n - 1)
      else c
  }

  /** `min(rem, key=arrival)[2]`: the earliest arrival time in `rem`. */
  function EarliestArrival(rem: seq<Process>): (a: int)
    requires rem != []
    ensures forall j :: 0 <= j < |rem| ==> a <= rem[j].arrival
    ensures exists i :: 0 <= i < |rem| && rem[i].arrival == a
  {
    if |rem| == 1 then rem[0].arrival
    else
      var a := EarliestArrival(rem[1..]);
      assert forall j :: 1 <= j < |rem| ==> rem[j] == rem[1..][j - 1];
      if rem[0].arrival <= a then rem[0].arrival else a
  }

  /** `list.remove(x)`: drops the first element equal to `x`. */
  function RemoveFirst<T(==)>(s: seq<T>, x: T): (r: seq<T>)
    requires x in s
    ensures multiset(r) == multiset(s) - multiset{x}
    ensures |r| == |s| - 1
  {
    if s[0] == x then
      assert s == [s[0]] + s[1..];
      s[1..]
    else
      assert s == [s[0]] + s[1..];
      [s[0]] + RemoveFirst(s[1..], x)
  }

  lemma DropAfterHead<T>(s: seq<T>, i: int)
    requires 0 < i < |s|
    ensures [s[0]] + (s[1..][..i - 1] + s[1..][i..]) == s[..i] + s[i + 1..]
  {
    assert s[1..][..i - 1] == s[1..i];
    assert s[1..][i..] == s[i + 1..];
    assert s[..i] == [s[0]] + s[1..i];
  }

  /** Removing the first element equal to `s[i]` removes position `i` when no
      earlier element equals it. */
  lemma {:induction false} RemoveFirstAt<T>(s: seq<T>, i: int)
    requires 0 <= i < |s|
    requires forall j :: 0 <= j < i ==> s[j] != s[i]
    ensures RemoveFirst(s, s[i]) == s[..i] + s[i + 1..]
  {
    var x := s[i];
    if i == 0 {
      assert s[..0] + s[1..] == s[1..];
    } else {
      var tail := s[1..];
      assert tail[i - 1] == x && s[0] != x;
      assert forall j :: 0 <= j < i - 1 ==> tail[j] != tail[i - 1] by {
        forall j | 0 <= j < i - 1 ensures tail[j] != tail[i - 1] {
          assert tail[j] == s[j + 1];
        }
      }
      RemoveFirstAt(tail, i - 1);
      assert RemoveFirst(s, x) == [s[0]] + (tail[..i - 1] + tail[i..]);
      DropAfterHead(s, i);
    }
  }

  /** `r` is `s` after running the process at position `i` from the current
      clock: it leaves the list, the clock moves to its end, and its record is
      appended. */
  predicate Dispatches(s: State, r: State, i: int) {
    && 0 <= i < |s.remaining|
    && r.remaining == s.remaining[..i] + s.remaining[i + 1..]
    && r.clock == s.clock + s.remaining[i].duration
    && r.log == s.log + [Dispatch(s.remaining[i], s.clock)]
  }

  /** `r` is `s` after an idle jump: list and records unchanged, the clock moved
      strictly forward to the earliest remaining arrival. */
  predicate JumpsToNextArrival(s: State, r: State) {
    && r.remaining == s.remaining
    && r.log == s.log
    && s.clock < r.clock
    && (forall j :: 0 <= j < |s.remaining| ==> r.clock <= s.remaining[j].arrival)
    && (exists i :: 0 <= i < |s.remaining| && s.remaining[i].arrival == r.clock)
  }

  /** One iteration of the scheduling loop. */
  function Step(s: State): (r: State)
    requires s.remaining != []
    ensures HasArrived(s.remaining, s.clock) ==>
      exists i :: IsShortestArrived(s.remaining, s.clock, |s.remaining|, i) && Dispatches(s, r, i)
    ensures !HasArrived(s.remaining, s.clock) ==> JumpsToNextArrival(s, r)
  {
    var rem := s.remaining;
    match Choose(rem, s.clock, |rem|)
    case Idle => State(rem, EarliestArrival(rem), s.log)
    case Pick(i) =>
      var p := rem[i];
      RemoveFirstAt(rem, i);
      var r := State(RemoveFirst(rem, p), s.clock + p.duration, s.log + [Dispatch(p, s.clock)]);
      assert Dispatches(s, r, i);
      r
  }

  /** The step count measure: one step either shortens the list or makes the
      head of the earliest arrivals eligible. */
  function Waiting(s: State): nat {
    if HasArrived(s.remaining, s.clock) then 0 else 1
  }

  lemma StepDecreases(s: State)
    requires s.remaining != []
    ensures |Step(s).remaining| < |s.remaining|
         || (|Step(s).remaining| == |s.remaining| && Waiting(Step(s)) < Waiting(s))
  {
    var r := Step(s);
    if !HasArrived(s.remaining, s.clock) {
      var i :| 0 <= i < |s.remaining| && s.remaining[i].arrival == r.clock;
      assert r.remaining[i].arrival <= r.clock;
    }
  }

  /** `while procesos_restantes: ...`: steps until nothing remains. */
  function Run(s: State): (r: State)
    ensures r.remaining == []
    decreases |s.remaining|, Waiting(s)
  {
    if s.remaining == [] then s
    else
      StepDecreases(s);
      Run(Step(s))
  }

  /** What holds at the top of every iteration, for input `ps`: every process is
      either still remaining or has exactly one record, the remaining list is
      sorted by arrival, and the records are well timed, one after the other,
      and all finished by the current clock. */
  predicate Consistent(ps: seq<Process>, s: State) {
    && multiset(s.remaining) + multiset(ProcessesOf(s.log)) == multiset(ps)
    && SortedByArrival(s.remaining)
    && Timed(s.log)
    && Sequential(s.log)
    && (s.log != [] ==> s.log[|s.log| - 1].end <= s.clock)
  }

  lemma SortedRemove(s: seq<Process>, i: int)
    requires SortedByArrival(s) && 0 <= i < |s|
    ensures SortedByArrival(s[..i] + s[i + 1..])
  {
    var t := s[..i] + s[i + 1..];
    forall a, b | 0 <= a < b < |t|
      ensures t[a].arrival <= t[b].arrival
    {
      var a' := if a < i then a else a + 1;
      var b' := if b < i then b else b + 1;
      assert t[a] == s[a'] && t[b] == s[b'];
    }
  }

  lemma RemoveAtMultiset<T>(s: seq<T>, i: int)
    requires 0 <= i < |s|
    ensures multiset(s) == multiset(s[..i] + s[i + 1..]) + multiset{s[i]}
  {
    assert s == s[..i] + [s[i]] + s[i + 1..];
  }

  /** Appending a record that starts at the clock keeps the log well timed and
      sequential. */
  lemma AppendRecord(log: seq<Record>, clock: int, p: Process)
    requires Timed(log) && Sequential(log)
    requires log != [] ==> log[|log| - 1].end <= clock
    requires p.arrival <= clock
    ensures Timed(log + [Dispatch(p, clock)]) && Sequential(log + [Dispatch(p, clock)])
  {
    var log' := log + [Dispatch(p, clock)];
    assert forall k :: 0 <= k < |log| ==> log'[k] == log[k];
  }

  /** Running the chosen process keeps every part of `Consistent`. */
  lemma DispatchConsistent(ps: seq<Process>, s: State, i: int)
    requires Consistent(ps, s)
    requires IsShortestArrived(s.remaining, s.clock, |s.remaining|, i)
    ensures Consistent(ps, State(s.remaining[..i] + s.remaining[i + 1..],
                                 s.clock + s.remaining[i].duration,
                                 s.log + [Dispatch(s.remaining[i], s.clock)]))
  {
    var rem, p := s.remaining, s.remaining[i];
    RemoveAtMultiset(rem, i);
    ProcessesOfAppend(s.log, Dispatch(p, s.clock));
    SortedRemove(rem, i);
    AppendRecord(s.log, s.clock, p);
  }

  lemma StepConsistent(ps: seq<Process>, s: State)
    requires Consistent(ps, s) && s.remaining != []
    ensures Consistent(ps, Step(s))
  {
    var rem := s.remaining;
    match Choose(rem, s.clock, |rem|)
    case Idle =>
      IdleConsistent(ps, s, EarliestArrival(rem));
    case Pick(i) =>
      RemoveFirstAt(rem, i);
      DispatchConsistent(ps, s, i);
  }

  /** Moving the clock forward keeps every part of `Consistent`. */
  lemma IdleConsistent(ps: seq<Process>, s: State, clock: int)
    requires Consistent(ps, s) && s.clock <= clock
    ensures Consistent(ps, State(s.remaining, clock, s.log))
  {
  }

  lemma {:induction false} RunConsistent(ps: seq<Process>, s: State)
    requires Consistent(ps, s)
    ensures Consistent(ps, Run(s))
    decreases |s.remaining|, Waiting(s)
  {
    if s.remaining != [] {
      StepConsistent(ps, s);
      StepDecreases(s);
      RunConsistent(ps, Step(s));
    }
  }

  /** The loop's starting state: the list sorted by arrival, the clock at 0,
      no records. */
  function Start(ps: seq<Process>): (s: State)
    ensures Consistent(ps, s)
  {
    State(SortByArrival(ps), 0, [])
  }

  /** `sjf`: one record per process, each started no earlier than its arrival,
      ended one burst later, and started no earlier than the previous record
      ended. With non-negative bursts the records never overlap. */
  function Sjf(ps: seq<Process>): (log: seq<Record>)
    ensures |log| == |ps|
    ensures multiset(ProcessesOf(log)) == multiset(ps)
    ensures Timed(log) && Sequential(log)
    ensures NonNegative(ps) ==> Disjoint(log) && StartsAscending(log)
  {
    var s := Run(Start(ps));
    RunConsistent(ps, Start(ps));
    assert |ProcessesOf(s.log)| == |multiset(ps)|;
    assert NonNegative(ps) ==> Disjoint(s.log) && StartsAscending(s.log) by {
      if NonNegative(ps) {
        NonNegativePermutation(ps, ProcessesOf(s.log));
        SequentialIsDisjoint(s.log);
      }
    }
    s.log
  }

  /** On an arrival-sorted list the idle jump lands on the head's arrival, which
      makes the head eligible. */
  lemma IdleJumpsToHead(s: State)
    requires s.remaining != [] && SortedByArrival(s.remaining)
    requires !HasArrived(s.remaining, s.clock)
    ensures Step(s).clock == s.remaining[0].arrival
    ensures HasArrived(Step(s).remaining, Step(s).clock)
  {
    var r := Step(s);
    var i :| 0 <= i < |s.remaining| && s.remaining[i].arrival == r.clock;
    assert r.clock <= s.remaining[0].arrival;
  }

  /** Because the list stays sorted by arrival, a tie on burst length goes to the
      process that arrived first. */
  lemma TieGoesToEarliestArrival(rem: seq<Process>, t: int, i: int, j: int)
    requires SortedByArrival(rem)
    requires IsShortestArrived(rem, t, |rem|, i)
    requires 0 <= j < |rem| && rem[j].arrival <= t && rem[j].duration == rem[i].duration
    ensures rem[i].arrival <= rem[j].arrival
  {
  }
}
