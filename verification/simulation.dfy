/**
 The sequential clock-stepping simulator (`simular`): processes run one after the
 other in the order given, each starting when both the processor is free and the
 process has arrived.
 */
module Simulation {
  import opened Processes

  function Later(a: int, b: int): int {
    if a < b then b else a
  }

  /** The clock a record of `log` finds when its turn comes: `clock` for the
      first record, the end of the previous record for the others. */
  function ClockBefore(log: seq<Record>, clock: int, i: int): int
    requires 0 <= i < |log|
  {
    if i == 0 then clock else log[i - 1].end
  }

  /** Every record starts at the later of the clock it finds and its own arrival. */
  predicate StartsWhenReady(log: seq<Record>, clock: int) {
    forall i :: 0 <= i < |log| ==> log[i].start == Later(ClockBefore(log, clock, i), log[i].arrival)
  }

  /** Runs `ps` in order from time `clock`: the clock waits for an arrival it is
      behind, then advances by each burst. */
  function SimulateFrom(ps: seq<Process>, clock: int): (log: seq<Record>)
    ensures ProcessesOf(log) == ps
    ensures Timed(log)
    ensures Sequential(log)
    ensures StartsWhenReady(log, clock)
    decreases |ps|
  {
    if ps == [] then []
    else
      var start := Later(clock, ps[0].arrival);
      var first := Dispatch(ps[0], start);
      var rest := SimulateFrom(ps[1..], first.end);
      PrependReady(first, rest, clock);
      PrependTimed(first, rest);
      ReadyIsSequential([first] + rest, clock);
      ProcessesOfPrepend(first, rest);
      [first] + rest
  }

  /** A record started when ready, in front of a log that is ready from its
      end, gives a log that is ready from `clock`. */
  lemma PrependReady(first: Record, rest: seq<Record>, clock: int)
    requires first.start == Later(clock, first.arrival)
    requires StartsWhenReady(rest, first.end)
    ensures StartsWhenReady([first] + rest, clock)
  {
    var log := [first] + rest;
    forall i | 0 < i < |log|
      ensures log[i].start == Later(ClockBefore(log, clock, i), log[i].arrival)
    {
      assert log[i] == rest[i - 1];
      if i == 1 {
        assert ClockBefore(log, clock, i) == first.end;
      } else {
        assert log[i - 1] == rest[i - 2];
      }
    }
  }

  lemma PrependTimed(first: Record, rest: seq<Record>)
    requires first.end == first.start + first.duration && first.arrival <= first.start
    requires Timed(rest)
    ensures Timed([first] + rest)
  {
    assert forall i :: 0 < i < |[first] + rest| ==> ([first] + rest)[i] == rest[i - 1];
  }

  /** Starting when ready means starting no earlier than the previous end. */
  lemma ReadyIsSequential(log: seq<Record>, clock: int)
    requires StartsWhenReady(log, clock)
    ensures Sequential(log)
  {
    forall i | 0 < i < |log|
      ensures log[i - 1].end <= log[i].start
    {
      assert ClockBefore(log, clock, i) == log[i - 1].end;
    }
  }

  /** The rules of `SimulateFrom` leave no freedom: a log that copies `ps` in
      order, ends every record a burst after its start and starts every record
      when it is ready is the simulation of `ps`. */
  lemma {:induction false} SimulateCharacterized(ps: seq<Process>, clock: int, log: seq<Record>)
    requires ProcessesOf(log) == ps
    requires Timed(log)
    requires StartsWhenReady(log, clock)
    ensures log == SimulateFrom(ps, clock)
    decreases |ps|
  {
    if ps != [] {
      var tail := log[1..];
      assert ProcessesOf(tail) == ps[1..];
      assert StartsWhenReady(tail, log[0].end) by {
        forall i | 0 <= i < |tail|
          ensures tail[i].start == Later(ClockBefore(tail, log[0].end, i), tail[i].arrival)
        {
          assert tail[i] == log[i + 1];
          assert ClockBefore(log, clock, i + 1) == ClockBefore(tail, log[0].end, i);
        }
      }
      SimulateCharacterized(ps[1..], log[0].end, tail);
      assert log[0] == Dispatch(ps[0], log[0].start) by {
        assert ProcessOf(log[0]) == ps[0];
      }
      assert log == [log[0]] + tail;
    }
  }

  /** `simular`: the simulation starts with the clock at 0. With non-negative
      bursts the records never overlap and the clock never goes back. */
  function Simulate(ps: seq<Process>): (log: seq<Record>)
    ensures ProcessesOf(log) == ps
    ensures Timed(log) && Sequential(log)
    ensures StartsWhenReady(log, 0)
    ensures NonNegative(ps) ==> Disjoint(log) && StartsAscending(log)
  {
    var log := SimulateFrom(ps, 0);
    assert NonNegative(ps) ==> Disjoint(log) && StartsAscending(log) by {
      if NonNegative(ps) {
        SequentialIsDisjoint(log);
      }
    }
    log
  }
}
