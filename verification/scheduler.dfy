/**
 The entry point that runs the discipline picked in the selector on the loaded
 processes (`ejecutar_simulacion`), and worked examples of both disciplines.
 */
module Scheduler {
  import opened Processes
  import opened ArrivalSort
  import opened Simulation
  import opened FirstInFirstOut
  import opened ShortestJobFirst

  /** The outcome of one click: `NothingLoaded` when no process is loaded, in
      which case no new table is drawn and the previous one stays on screen;
      otherwise the rows of the newly drawn table. */
  datatype Display = NothingLoaded | Table(rows: seq<Record>)

  /** `ejecutar_simulacion` after loading: returns early on an empty process
      list, otherwise runs FIFO or SJF as tagged. The selector offers only these
      two tags. */
  function Execute(tag: string, ps: seq<Process>): (d: Display)
    requires tag == "FIFO" || tag == "SJF"
    ensures d.NothingLoaded? <==> ps == []
    ensures d.Table? && tag == "FIFO" ==> d.rows == Fifo(ps)
    ensures d.Table? && tag == "SJF" ==> d.rows == Sjf(ps)
    ensures d.Table? ==> |d.rows| == |ps| && multiset(ProcessesOf(d.rows)) == multiset(ps)
    ensures d.Table? ==> Timed(d.rows) && Sequential(d.rows)
    ensures d.Table? && tag == "FIFO" ==>
      SortedByArrival(ProcessesOf(d.rows)) && SameArrivalOrder(ProcessesOf(d.rows), ps)
      && StartsWhenReady(d.rows, 0)
    ensures d.Table? && NonNegative(ps) ==> Disjoint(d.rows)
  {
    if ps == [] then NothingLoaded
    else if tag == "FIFO" then
      assert NonNegative(ps) ==> Disjoint(Fifo(ps)) by {
        if NonNegative(ps) {
          FifoNoOverlap(ps);
        }
      }
      Table(Fifo(ps))
    else Table(Sjf(ps))
  }

  /** The tag decides the discipline: on A(5, arrives 0), B(3, arrives 2),
      C(2, arrives 4) FIFO runs B second, SJF runs C second. */
  lemma TagSelectsDiscipline()
    ensures Execute("FIFO", [A, B, C])
         == Table([Record("A", 5, 0, 0, 5), Record("B", 3, 2, 5, 8), Record("C", 2, 4, 8, 10)])
    ensures Execute("SJF", [A, B, C])
         == Table([Record("A", 5, 0, 0, 5), Record("C", 2, 4, 5, 7), Record("B", 3, 2, 7, 10)])
    ensures Execute("FIFO", [A, B, C]) != Execute("SJF", [A, B, C])
  {
    SjfExampleSorted();
    FifoTagExampleRun();
    SjfExample();
    assert Execute("FIFO", [A, B, C]).rows[1].name == "B";
    assert Execute("SJF", [A, B, C]).rows[1].name == "C";
  }

  lemma FifoTagExampleRun()
    ensures Simulate([A, B, C])
         == [Record("A", 5, 0, 0, 5), Record("B", 3, 2, 5, 8), Record("C", 2, 4, 8, 10)]
  {
    assert [A, B, C][1..] == [B, C];
    assert [B, C][1..] == [C];
    assert SimulateFrom([C], 8) == [Record("C", 2, 4, 8, 10)] by {
      assert [C][1..] == [];
    }
    assert SimulateFrom([B, C], 5) == [Record("B", 3, 2, 5, 8), Record("C", 2, 4, 8, 10)];
  }

  /** `cargar_procesos` as written: when the file is missing it reports the
      error and returns before clearing the list, so the processes of the
      previous run stay loaded. `file` is the file's converted lines, or `None`
      when the file does not exist. */
  function ReloadAsWritten<T>(previous: seq<T>, file: Option<seq<T>>): seq<T> {
    match file
    case None => previous
    case Some(lines) => lines
  }

  /** `ejecutar_simulacion` as written: reload the tagged discipline's file,
      keeping the previous list when the file is missing, then run. */
  function ClickAsWritten(tag: string, previous: seq<Process>, file: Option<seq<Process>>): (d: Display)
    requires tag == "FIFO" || tag == "SJF"
    ensures file.Some? ==> d == Execute(tag, file.value)
    ensures d.NothingLoaded? <==> ReloadAsWritten(previous, file) == []
  {
    Execute(tag, ReloadAsWritten(previous, file))
  }

  /** With a previous run loaded and the tagged file missing, the as-written
      click schedules the previous run's processes again and draws a table for
      them, while the corrected click draws nothing. */
  lemma MissingFileReusesPreviousRun(tag: string, previous: seq<Process>)
    requires tag == "FIFO" || tag == "SJF"
    requires previous != []
    ensures ClickAsWritten(tag, previous, None) == Execute(tag, previous)
    ensures ClickAsWritten(tag, previous, None).Table?
    ensures Click(tag, previous, None).NothingLoaded?
  {
  }

  /** The two clicks differ only when the file is missing. */
  lemma ClicksAgreeOnExistingFile(tag: string, previous: seq<Process>, ps: seq<Process>)
    requires tag == "FIFO" || tag == "SJF"
    ensures ClickAsWritten(tag, previous, Some(ps)) == Click(tag, previous, Some(ps))
  {
  }

  /** Loading as evidently intended: a missing file yields no processes, and
      nothing of the previous run survives. */
  function Reload<T>(previous: seq<T>, file: Option<seq<T>>): seq<T> {
    match file
    case None => []
    case Some(lines) => lines
  }

  /** A run never reads state left by a previous run. */
  lemma ReloadForgetsPrevious<T>(previous: seq<T>, other: seq<T>, file: Option<seq<T>>)
    ensures Reload(previous, file) == Reload(other, file)
  {
  }

  /** The corrected `ejecutar_simulacion`: reload the tagged discipline's file,
      then run it. A missing file draws no new table; otherwise the result
      depends on the file alone, whatever was loaded before. */
  function Click(tag: string, previous: seq<Process>, file: Option<seq<Process>>): (d: Display)
    requires tag == "FIFO" || tag == "SJF"
    ensures file.None? ==> d.NothingLoaded?
    ensures file.Some? ==> d == Execute(tag, file.value)
  {
    Execute(tag, Reload(previous, file))
  }

  /** What the corrected click shows never depends on the previous run. */
  lemma ClickIgnoresPreviousRun(tag: string, previous: seq<Process>, other: seq<Process>,
                                file: Option<seq<Process>>)
    requires tag == "FIFO" || tag == "SJF"
    ensures Click(tag, previous, file) == Click(tag, other, file)
  {
    ReloadForgetsPrevious(previous, other, file);
  }

  const A := Process("A", 5, 0)
  const B := Process("B", 3, 2)
  const C := Process("C", 2, 4)

  const D := Process("D", 2, 1)

  /** FIFO on A(5, arrives 0), B(3, arrives 2), D(2, arrives 1): D arrived
      before B, so it runs second, as soon as A is done. */
  lemma FifoExample()
    ensures Fifo([A, B, D])
         == [Record("A", 5, 0, 0, 5), Record("D", 2, 1, 5, 7), Record("B", 3, 2, 7, 10)]
  {
    FifoExampleSorted();
    FifoExampleRun();
  }

  lemma FifoExampleSorted()
    ensures SortByArrival([A, B, D]) == [A, D, B]
  {
    assert [A, B, D][1..] == [B, D];
    assert [B, D][1..] == [D];
    assert SortByArrival([D]) == [D] by {
      assert [D][1..] == [];
    }
    assert Insert(B, [D]) == [D, B];
    assert SortByArrival([B, D]) == [D, B];
    assert Insert(A, [D, B]) == [A, D, B];
  }

  lemma FifoExampleRun()
    ensures Simulate([A, D, B])
         == [Record("A", 5, 0, 0, 5), Record("D", 2, 1, 5, 7), Record("B", 3, 2, 7, 10)]
  {
    assert [A, D, B][1..] == [D, B];
    assert [D, B][1..] == [B];
    assert SimulateFrom([B], 7) == [Record("B", 3, 2, 7, 10)] by {
      assert [B][1..] == [];
    }
    assert SimulateFrom([D, B], 5) == [Record("D", 2, 1, 5, 7), Record("B", 3, 2, 7, 10)];
  }

  /** SJF on A(5, arrives 0), B(3, arrives 2), C(2, arrives 4): at 0 only A has
      arrived; at 5 both B and C have, and C is shorter; then B. */
  lemma SjfExample()
    ensures Sjf([A, B, C])
         == [Record("A", 5, 0, 0, 5), Record("C", 2, 4, 5, 7), Record("B", 3, 2, 7, 10)]
  {
    var s0 := State([A, B, C], 0, []);
    var s1 := State([B, C], 5, [Dispatch(A, 0)]);
    var s2 := State([B], 7, [Dispatch(A, 0), Dispatch(C, 5)]);
    var s3 := State([], 10, [Dispatch(A, 0), Dispatch(C, 5), Dispatch(B, 7)]);
    SjfExampleSorted();
    assert Start([A, B, C]) == s0;
    SjfExampleFirst();
    SjfExampleSecond();
    SjfExampleThird();
    assert Run(s2) == Run(s3) == s3;
    assert Run(s1) == Run(s2);
    assert Run(s0) == Run(s1);
  }

  lemma SjfExampleSorted()
    ensures SortByArrival([A, B, C]) == [A, B, C]
  {
    assert [A, B, C][1..] == [B, C];
    assert [B, C][1..] == [C];
    assert SortByArrival([C]) == [C] by {
      assert [C][1..] == [];
    }
    assert Insert(B, [C]) == [B, C];
    assert Insert(A, [B, C]) == [A, B, C];
  }

  lemma SjfExampleFirst()
    ensures Step(State([A, B, C], 0, [])) == State([B, C], 5, [Dispatch(A, 0)])
  {
    assert Choose([A, B, C], 0, 1) == Pick(0);
    assert Choose([A, B, C], 0, 2) == Pick(0);
    assert Choose([A, B, C], 0, 3) == Pick(0);
  }

  lemma SjfExampleSecond()
    ensures Step(State([B, C], 5, [Dispatch(A, 0)]))
         == State([B], 7, [Dispatch(A, 0), Dispatch(C, 5)])
  {
    assert Choose([B, C], 5, 2) == Pick(1);
    assert RemoveFirst([B, C], C) == [B];
  }

  lemma SjfExampleThird()
    ensures Step(State([B], 7, [Dispatch(A, 0), Dispatch(C, 5)]))
         == State([], 10, [Dispatch(A, 0), Dispatch(C, 5), Dispatch(B, 7)])
  {
    assert Choose([B], 7, 1) == Pick(0);
    assert RemoveFirst([B], B) == [];
  }

  const E := Process("E", 4, 3)

  /** SJF on E(4, arrives 3) alone: nothing has arrived at 0, so the clock jumps
      to 3 and E runs from there. */
  lemma SjfIdleExample()
    ensures Sjf([E]) == [Record("E", 4, 3, 3, 7)]
  {
    assert SortByArrival([E]) == [E] by {
      assert [E][1..] == [];
    }
    assert Start([E]) == State([E], 0, []);
    assert Choose([E], 0, 1) == Idle;
    assert EarliestArrival([E]) == 3;
    assert Step(State([E], 0, [])) == State([E], 3, []);
    assert Choose([E], 3, 1) == Pick(0);
    assert RemoveFirst([E], E) == [];
    assert Step(State([E], 3, [])) == State([], 7, [Dispatch(E, 3)]);
    assert Run(State([E], 3, [])) == State([], 7, [Dispatch(E, 3)]);
  }
}
