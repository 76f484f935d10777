/**
 The data shared by both scheduling disciplines: the process descriptor read from
 the input (name, burst duration, arrival time), the execution record emitted for
 it, and the timing predicates both simulators are proved to respect.
 */
module Processes {

  datatype Option<T> = None | Some(value: T)

  /** A process descriptor `(name, duration, arrival)`. Durations are not checked
      by the loader, so nothing here forces them to be non-negative. */
  datatype Process = Process(name: string, duration: int, arrival: int)

  /** An execution record `(name, duration, arrival, start, end)`. */
  datatype Record = Record(name: string, duration: int, arrival: int, start: int, end: int)

  /** The record of running `p` to completion from time `start`. */
  function Dispatch(p: Process, start: int): Record {
    Record(p.name, p.duration, p.arrival, start, start + p.duration)
  }

  /** The descriptor a record was made from. */
  function ProcessOf(r: Record): Process {
    Process(r.name, r.duration, r.arrival)
  }

  /** The descriptors of a whole log, in log order. */
  function ProcessesOf(log: seq<Record>): (ps: seq<Process>)
    ensures |ps| == |log|
    ensures forall i :: 0 <= i < |log| ==> ps[i] == ProcessOf(log[i])
  {
    seq(|log|, i requires 0 <= i < |log| => ProcessOf(log[i]))
  }

  lemma ProcessesOfAppend(log: seq<Record>, r: Record)
    ensures ProcessesOf(log + [r]) == ProcessesOf(log) + [ProcessOf(r)]
  {
  }

  lemma ProcessesOfPrepend(r: Record, log: seq<Record>)
    ensures ProcessesOf([r] + log) == [ProcessOf(r)] + ProcessesOf(log)
  {
  }

  /** Every burst is non-negative. */
  predicate NonNegative(ps: seq<Process>) {
    forall i :: 0 <= i < |ps| ==> ps[i].duration >= 0
  }

  /** Every record ends `duration` after it starts and starts no earlier than it arrives. */
  predicate Timed(log: seq<Record>) {
    forall i :: 0 <= i < |log| ==> log[i].end == log[i].start + log[i].duration && log[i].arrival <= log[i].start
  }

  /** Each record starts no earlier than the previous one ended. */
  predicate Sequential(log: seq<Record>) {
    forall i :: 0 < i < |log| ==> log[i - 1].end <= log[i].start
  }

  /** No two records overlap: every later record starts after every earlier one ended. */
  predicate Disjoint(log: seq<Record>) {
    forall i, j :: 0 <= i < j < |log| ==> log[i].end <= log[j].start
  }

  /** Starts never move backwards along the log. */
  predicate StartsAscending(log: seq<Record>) {
    forall i, j :: 0 <= i < j < |log| ==> log[i].start <= log[j].start
  }

  /** Each element of a permutation of non-negative bursts has a non-negative burst. */
  lemma NonNegativePermutation(ps: seq<Process>, qs: seq<Process>)
    requires multiset(ps) == multiset(qs)
    requires NonNegative(ps)
    ensures NonNegative(qs)
  {
    forall i | 0 <= i < |qs|
      ensures qs[i].duration >= 0
    {
      assert qs[i] in multiset(ps);
    }
  }

  lemma {:induction false} ChainedEnds(log: seq<Record>, i: int, j: int)
    requires Sequential(log)
    requires forall k :: 0 <= k < |log| ==> log[k].start <= log[k].end
    requires 0 <= i < j < |log|
    ensures log[i].end <= log[j].start
    decreases j - i
  {
    if i + 1 < j {
      ChainedEnds(log, i + 1, j);
    }
  }

  /** A sequential log of non-negative bursts never overlaps, and its clock never goes back. */
  lemma SequentialIsDisjoint(log: seq<Record>)
    requires Sequential(log) && Timed(log)
    requires NonNegative(ProcessesOf(log))
    ensures Disjoint(log)
    ensures StartsAscending(log)
  {
    forall i, j | 0 <= i < j < |log|
      ensures log[i].end <= log[j].start
    {
      assert ProcessesOf(log)[i].duration >= 0;
      forall k | 0 <= k < |log| ensures log[k].start <= log[k].end {
        assert ProcessesOf(log)[k].duration >= 0;
      }
      ChainedEnds(log, i, j);
    }
    forall i, j | 0 <= i < j < |log|
      ensures log[i].start <= log[j].start
    {
      assert ProcessesOf(log)[i].duration >= 0;
    }
  }
}
