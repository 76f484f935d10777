# Process scheduling simulator: a Dafny model

This project models the scheduling engine of a small process-scheduling simulator. The engine is `SimuladorDeProcesos` in `Practica03_GonzalezMaldonadoPedro.py`. Each process descriptor is a triple `(name, duration, arrival)`. For each one the engine produces an execution record `(name, duration, arrival, start, end)` under one of two non-preemptive disciplines:

- **FIFO** (`fifo`): sort the processes stably by arrival, then run them in that order with the sequential simulator `simular`. The simulator waits for a process that has not arrived yet, and each process runs for its whole burst.
- **SJF** (`sjf`): keep the remaining processes in a list that starts sorted by arrival. At each step, run the arrived process with the shortest burst. On equal bursts, the first one in the list wins. If nothing has arrived, jump the clock to the earliest remaining arrival.

Files and modules:

| file | module | models |
|---|---|---|
| `processes.dfy` | `Processes` | descriptor and record datatypes; the timing predicates `Timed`, `Sequential` and `Disjoint` |
| `arrival_sort.dfy` | `ArrivalSort` | `sorted(..., key=arrival)`, a stable insertion sort |
| `simulation.dfy` | `Simulation` | `simular` |
| `fifo.dfy` | `FirstInFirstOut` | `fifo` |
| `sjf.dfy` | `ShortestJobFirst` | `sjf`: one loop iteration (`Step`), the loop (`Run`) and its invariant |
| `scheduler.dfy` | `Scheduler` | `ejecutar_simulacion` (reload, then dispatch on the tag); worked examples |
| `loader.dfy` | `Loader` | the text side of `cargar_procesos`: `strip`, `split(',')`, skipping lines that do not have 3 fields |

Modelling choices:

- Python integers are unbounded, so durations, arrivals and clocks are `int`. Nothing in the source rejects a negative duration, and the model does not reject one either. Properties that need non-negative bursts have `NonNegative(ps)` as a hypothesis.
- Stability is stated per arrival time: `ArrivingAt(s, k)` is the subsequence of `s` that arrives at `k`. A stable sort keeps every such subsequence unchanged. `StableSortIsUnique` shows that this, together with sortedness, fixes the output.
- In `sjf`, the list comprehension of arrived processes and `min(..., key=duration)` are fused into one left-to-right scan, `Choose`. Like Python's `min`, the scan replaces its current best only with a strictly shorter burst. `list.remove` is modelled literally as `RemoveFirst`. `RemoveFirstAt` proves that this removes exactly the chosen position.
- SJF termination uses the lexicographic measure `(|remaining|, Waiting)`. `Waiting` is 0 when some remaining process has arrived and 1 otherwise. An idle jump keeps the list and makes `Waiting` drop to 0.
- The clock is not monotone in general: a negative burst moves it back (`tiempo_actual += duracion` at line 94, `tiempo += duracion` at line 113), so `[(A, -3, 0)]` takes it from 0 to -3. What holds for any bursts, in both disciplines, is `Sequential`: each record starts no earlier than the previous one ended. Non-negative bursts are needed for `end >= start`, and so for pairwise disjointness (`Disjoint`) and non-decreasing start times.
- `str.strip()` removes the characters `str.isspace()` accepts: TAB to CR, U+001C to U+001F, SPACE, U+0085, U+00A0, U+1680, U+2000 to U+200A, U+2028, U+2029, U+202F, U+205F and U+3000 in current Python 3 releases. `Loader.IsSpace` lists exactly these.
- Where the code is looser than one might expect, the model follows the code:
  - The code never checks that durations or arrivals are non-negative.
  - A line whose duration or arrival is not an integer makes `int()` raise an error, which ends the load. It is not skipped.
  - A missing file leaves the previous run's processes loaded. See Findings.

## Model

| member | source | states |
|---|---|---|
| `ArrivalSort.SortByArrival` | Practica03_GonzalezMaldonadoPedro.py:74 | the output is sorted by arrival, is a permutation of the input, and lists the processes of every arrival time in input order (stability) |
| `ArrivalSort.StableSortIsUnique` | Practica03_GonzalezMaldonadoPedro.py:74 | two arrival-sorted sequences that agree, for every arrival time, on the processes arriving then and their order are equal |
| `ArrivalSort.StableSortReference` | Practica03_GonzalezMaldonadoPedro.py:74 | every arrangement of the input that is sorted by arrival and keeps equal arrivals in input order is `SortByArrival` of the input |
| `Simulation.SimulateFrom` | Practica03_GonzalezMaldonadoPedro.py:109-115 | one record per process, in input order, with name, duration and arrival copied; each record ends one burst after it starts; each starts at the later of the clock it finds (the start clock or the previous end) and its arrival, so never before it arrives and never before the previous record ended |
| `Simulation.SimulateCharacterized` | Practica03_GonzalezMaldonadoPedro.py:109-115 | those per-record rules determine the log: any log that satisfies them is the simulation |
| `Simulation.Simulate` | Practica03_GonzalezMaldonadoPedro.py:105-117 | `simular` starting from clock 0, with the same per-record rules; with non-negative bursts the records are pairwise disjoint and start times never decrease |
| `Processes.SequentialIsDisjoint` | Practica03_GonzalezMaldonadoPedro.py:109-114 | a log whose records each start after the previous end and whose bursts are non-negative has no two overlapping records, and its starts never go back |
| `FirstInFirstOut.Fifo` | Practica03_GonzalezMaldonadoPedro.py:73-75 | one record per process; the processes run in non-decreasing arrival order, equal arrivals in input order; records are well timed and sequential, each starting at the later of the previous end (0 first) and its arrival |
| `FirstInFirstOut.FifoNoOverlap` | Practica03_GonzalezMaldonadoPedro.py:73-75 | with non-negative bursts, FIFO records never overlap and start in order |
| `FirstInFirstOut.FifoOrderIsStableSort` | Practica03_GonzalezMaldonadoPedro.py:74-75 | the order FIFO runs processes in is the unique arrival-sorted arrangement that keeps ties in input order |
| `ShortestJobFirst.Choose` | Practica03_GonzalezMaldonadoPedro.py:85-89 | reports idle exactly when no process has arrived; otherwise picks an arrived process with the shortest burst, with every earlier arrived process strictly longer (the first minimum in list order) |
| `ShortestJobFirst.EarliestArrival` | Practica03_GonzalezMaldonadoPedro.py:100 | the result is the arrival time of some remaining process and no remaining process arrives earlier |
| `ShortestJobFirst.RemoveFirst` | Practica03_GonzalezMaldonadoPedro.py:90 | removing one occurrence takes exactly one copy of it out of the multiset and shortens the list by one |
| `ShortestJobFirst.RemoveFirstAt` | Practica03_GonzalezMaldonadoPedro.py:90 | when no earlier element equals `s[i]`, `list.remove(s[i])` deletes position `i` and keeps the order of the rest |
| `ShortestJobFirst.Step` | Practica03_GonzalezMaldonadoPedro.py:84-100 | if some process has arrived, the shortest arrived one (the first one on ties) is removed from its position, run from the current clock, and the clock moves to its end; otherwise the list and records are unchanged and the clock jumps strictly forward to the earliest remaining arrival |
| `ShortestJobFirst.StepDecreases` | Practica03_GonzalezMaldonadoPedro.py:83-100 | each iteration shortens the list, or keeps it and turns "nothing arrived" into "something arrived": the loop terminates |
| `ShortestJobFirst.Run` | Practica03_GonzalezMaldonadoPedro.py:83-101 | the loop ends only when no process remains |
| `ShortestJobFirst.Start` | Practica03_GonzalezMaldonadoPedro.py:79-81 | the initial state (arrival-sorted list, clock 0, no records) satisfies the loop invariant |
| `ShortestJobFirst.DispatchConsistent` | Practica03_GonzalezMaldonadoPedro.py:89-97 | running the chosen process keeps every process either remaining or recorded exactly once, keeps the list sorted and keeps the records well timed and sequential |
| `ShortestJobFirst.StepConsistent` | Practica03_GonzalezMaldonadoPedro.py:83-100 | every iteration, dispatch or idle jump, preserves the loop invariant |
| `ShortestJobFirst.RunConsistent` | Practica03_GonzalezMaldonadoPedro.py:83-101 | the invariant holds when the loop exits |
| `ShortestJobFirst.Sjf` | Practica03_GonzalezMaldonadoPedro.py:78-102 | the records are a permutation of the input processes, one per process; each starts no earlier than its arrival, ends one burst later, and starts no earlier than the previous record ended; with non-negative bursts no two records overlap and starts never decrease |
| `ShortestJobFirst.IdleJumpsToHead` | Practica03_GonzalezMaldonadoPedro.py:98-100 | on the arrival-sorted list an idle jump lands exactly on the head's arrival, which makes the head eligible |
| `ShortestJobFirst.TieGoesToEarliestArrival` | Practica03_GonzalezMaldonadoPedro.py:81-89 | since the list stays sorted by arrival, among arrived processes with the shortest burst the chosen one arrived earliest |
| `Scheduler.Execute` | Practica03_GonzalezMaldonadoPedro.py:62-70 | no new table exactly when no process is loaded; otherwise the rows are those of `fifo` under the FIFO tag and of `sjf` under the SJF tag: one row per process, a permutation of the input, well timed and sequential; under FIFO sorted by arrival with ties in input order and each started at the later of the previous end and its arrival; without overlap when bursts are non-negative |
| `Scheduler.TagSelectsDiscipline` | Practica03_GonzalezMaldonadoPedro.py:65-68 | the tag decides the discipline: on one input FIFO and SJF draw different tables, each the schedule of its own discipline |
| `Scheduler.ClickAsWritten` | Practica03_GonzalezMaldonadoPedro.py:57-70 | `ejecutar_simulacion` as written (see Findings): with an existing file, the run on that file; a run takes place exactly when the reloaded list, which is the previous list when the file is missing, is non-empty |
| `Scheduler.MissingFileReusesPreviousRun` | Practica03_GonzalezMaldonadoPedro.py:42-63 | for every tag and every non-empty previous list, a missing file makes the as-written click run the previous list again and draw a table for it, while the corrected click draws nothing |
| `Scheduler.ClicksAgreeOnExistingFile` | Practica03_GonzalezMaldonadoPedro.py:40-63 | the as-written and corrected clicks agree whenever the file exists |
| `Scheduler.ReloadForgetsPrevious` | Practica03_GonzalezMaldonadoPedro.py:40-46 | with the corrected reload, what was loaded before never influences what is loaded now |
| `Scheduler.Click` | Practica03_GonzalezMaldonadoPedro.py:57-70 | the corrected `ejecutar_simulacion` (see Findings): a missing file draws no new table; otherwise the result is the run on the file's processes |
| `Scheduler.ClickIgnoresPreviousRun` | Practica03_GonzalezMaldonadoPedro.py:57-70 | the corrected click's result never depends on what the previous run loaded |
| `Scheduler.FifoExample` | Practica03_GonzalezMaldonadoPedro.py:73-75 | A(5,0), B(3,2), D(2,1) run as A 0-5, D 5-7, B 7-10: D arrived before B |
| `Scheduler.SjfExample` | Practica03_GonzalezMaldonadoPedro.py:78-102 | A(5,0), B(3,2), C(2,4) run as A 0-5, C 5-7, B 7-10 |
| `Scheduler.SjfIdleExample` | Practica03_GonzalezMaldonadoPedro.py:98-100 | E(4,3) alone: the clock jumps from 0 to 3, so E runs 3-7 |
| `Loader.Strip` | Practica03_GonzalezMaldonadoPedro.py:49 | the result is `s` with whitespace-only margins removed and neither starts nor ends with whitespace, whitespace being the 29 characters Python's `str.isspace()` accepts |
| `Loader.StripExample` | Practica03_GonzalezMaldonadoPedro.py:49-53 | a line padded with U+001C and U+00A0 strips to its text and parses into its three fields |
| `Loader.Split` | Practica03_GonzalezMaldonadoPedro.py:49 | at least one field, and no field contains the separator |
| `Loader.JoinSplit` | Practica03_GonzalezMaldonadoPedro.py:49 | joining the fields of a split with the separator gives the line back |
| `Loader.SplitJoin` | Practica03_GonzalezMaldonadoPedro.py:49 | splitting the join of separator-free fields gives the fields back |
| `Loader.ParseLine` | Practica03_GonzalezMaldonadoPedro.py:49-53 | a line is accepted exactly when its stripped text splits into 3 fields; the accepted fields are comma-free and join back to the stripped line |
| `Loader.Load` | Practica03_GonzalezMaldonadoPedro.py:48-54 | the loop over the file's lines keeps at most one entry per line; which entries, and in what order, is stated by `LoadKeepsWellShaped`, `MalformedLineSkipped` and `LoadedFromLines` |
| `Loader.LoadAround` | Practica03_GonzalezMaldonadoPedro.py:48-54 | a line contributes exactly what it keeps, between what the lines before it and after it load |
| `Loader.LoadKeepsWellShaped` | Practica03_GonzalezMaldonadoPedro.py:48-54 | every line with exactly 3 fields is loaded, as its parsed fields, after the entries of the lines before it and before those of the lines after it |
| `Loader.LoadAppend` | Practica03_GonzalezMaldonadoPedro.py:48-54 | loading a file is loading its first part, then its second part |
| `Loader.MalformedLineSkipped` | Practica03_GonzalezMaldonadoPedro.py:50-52 | a line without exactly 3 fields contributes nothing, and the lines after it still load |
| `Loader.LoadedFromLines` | Practica03_GonzalezMaldonadoPedro.py:48-54 | every loaded entry is the parse of some line of the file |

## Left out

- The PyQt window, combo box, button wiring and results table (lines 9-37, 120-137) are presentation only. `Execute` returns the rows of the newly drawn table, or `NothingLoaded` when `ejecutar_simulacion` returns early at line 63; then no new table is drawn and the previous one stays on screen, which the model does not track.
- Reading the file `"{algorithm}.txt"` and checking that it exists (lines 41-47) are file I/O. A file is given as its lines, or as `None` when it does not exist.
- The `print` diagnostics for a missing file or a malformed line (lines 43, 51) are console output and are not modelled.
- `int()` on the duration and arrival fields (line 54) is a foreign conversion and is not modelled. It raises on non-integer text, which aborts the load. `Loader` stops at the three text fields, and `Click` takes the file's processes already converted.
- Unknown discipline tags (lines 65-70): any other tag leaves `resultado` unbound and raises at run time. The selector offers only `FIFO` and `SJF`, so `Execute`, `Click` and `ClickAsWritten` require one of those.

## Findings

| source | as written | input that shows it | evidently intended | confidence | as-written member | corrected member |
|---|---|---|---|---|---|---|
| Practica03_GonzalezMaldonadoPedro.py:42-46 | when `"{algorithm}.txt"` does not exist, `cargar_procesos` returns before `self.procesos = []`, so the previous run's processes stay loaded and `if not self.procesos` (line 62) does not stop the run | run FIFO with `FIFO.txt` holding `A,4,3`, delete `SJF.txt`, run SJF: the table shows an SJF schedule of `A` | a missing file yields no processes, so no run takes place | medium, not executed | `Scheduler.ClickAsWritten` (`Scheduler.MissingFileReusesPreviousRun`) | `Scheduler.Click` (`Scheduler.ClickIgnoresPreviousRun`; `Scheduler.MissingFileReusesPreviousRun` shows it draws nothing) |
