/**
 First-In-First-Out: sort the processes stably by arrival and run them in that
 order with the sequential simulator.
 */
module FirstInFirstOut {
  import opened Processes
  import opened ArrivalSort
  import opened Simulation

  /** `fifo`: one record per process, in order of arrival with ties kept in input
      order, each started as soon as the processor is free and the process has
      arrived. */
  function Fifo(ps: seq<Process>): (log: seq<Record>)
    ensures |log| == |ps|
    ensures multiset(ProcessesOf(log)) == multiset(ps)
    ensures SortedByArrival(ProcessesOf(log))
    ensures SameArrivalOrder(ProcessesOf(log), ps)
    ensures Timed(log) && Sequential(log)
    ensures StartsWhenReady(log, 0)
  {
    Simulate(SortByArrival(ps))
  }

  /** With non-negative bursts, FIFO records never overlap and start in order. */
  lemma FifoNoOverlap(ps: seq<Process>)
    requires NonNegative(ps)
    ensures Disjoint(Fifo(ps)) && StartsAscending(Fifo(ps))
  {
    NonNegativePermutation(ps, SortByArrival(ps));
  }

  /** The order FIFO runs processes in is the stable sort by arrival: any other
      arrangement that is sorted by arrival and keeps ties in input order is the
      same sequence. */
  lemma FifoOrderIsStableSort(ps: seq<Process>, order: seq<Process>)
    requires SortedByArrival(order)
    requires SameArrivalOrder(order, ps)
    ensures ProcessesOf(Fifo(ps)) == order
  {
    StableSortReference(ps, order);
  }
}
