/**
 The parallel executor as a state machine: the main thread spawns workers one by one and
 then the reporter, workers process and count their items, the reporter reads the counters
 one at a time, and after joining every thread the main thread merges the storages.
 */
module Executor {
  import opened Batches

  datatype Config<!I, O> = Config(items: seq<I>, task: I -> seq<O>, batches: seq<nat>, out: seq<O>)

  /** `pending` is the moment between processing an item and counting it. */
  datatype Worker<O> = Worker(begin: nat, end: nat, pos: nat, pending: bool, storage: seq<O>, counter: nat)

  /**
   A scan remembers the values it has read and, for stating its accuracy, the counters as
   they were when it began.
   */
  datatype Reporter =
    | Waiting
    | Scanning(seen: seq<nat>, atStart: seq<nat>)
    | Exited

  datatype State<O> = State(
    workers: seq<Worker<O>>,
    reporter: Reporter,
    previous: nat,
    printed: seq<nat>,
    merged: bool,
    out: seq<O>)

  /** The outputs of items begin to end - 1, in order. */
  function OutputsOf<I, O>(items: seq<I>, task: I -> seq<O>, begin: nat, end: nat): seq<O>
    requires begin <= end <= |items|
    decreases end
  {
    if begin == end then [] else OutputsOf(items, task, begin, end - 1) + task(items[end - 1])
  }

  function Outputs<I, O>(items: seq<I>, task: I -> seq<O>): seq<O> {
    OutputsOf(items, task, 0, |items|)
  }

  lemma {:induction false} OutputsJoin<I, O>(items: seq<I>, task: I -> seq<O>, a: nat, b: nat, c: nat)
    requires a <= b <= c <= |items|
    ensures OutputsOf(items, task, a, b) + OutputsOf(items, task, b, c) == OutputsOf(items, task, a, c)
    decreases c
  {
    if b < c {
      OutputsJoin(items, task, a, b, c - 1);
    }
  }

  /** What the sequential executor computes: the items in order, into the same output. */
  method ExecuteSequentially<I, O>(c: Config<I, O>) returns (out: seq<O>, counter: nat)
    ensures out == c.out + Outputs(c.items, c.task) && counter == |c.items|
  {
    out, counter := c.out, 0;
    for i := 0 to |c.items|
      invariant out == c.out + OutputsOf(c.items, c.task, 0, i) && counter == i
    {
      out := out + c.task(c.items[i]);
      counter := counter + 1;
    }
  }

  /** The storages of the first k workers, one after the other. */
  function StoragesTo<O>(workers: seq<Worker<O>>, k: nat): seq<O>
    requires k <= |workers|
  {
    if k == 0 then [] else StoragesTo(workers, k - 1) + workers[k - 1].storage
  }

  function Storages<O>(workers: seq<Worker<O>>): seq<O> {
    StoragesTo(workers, |workers|)
  }

  method AppendStorage<O>(before: seq<O>, storage: seq<O>) returns (out: seq<O>)
    ensures out == before + storage
  {
    out := before;
    for j := 0 to |storage|
      invariant out == before + storage[..j]
    {
      out := out + [storage[j]];
    }
    assert storage[..|storage|] == storage;
  }

  /** The merge after the join: every storage in order, every element in order. */
  method MergeStorages<O>(workers: seq<Worker<O>>, before: seq<O>) returns (out: seq<O>)
    ensures out == before + Storages(workers)
  {
    out := before;
    for i := 0 to |workers|
      invariant out == before + StoragesTo(workers, i)
    {
      out := AppendStorage(out, workers[i].storage);
    }
  }

  function Counters<O>(workers: seq<Worker<O>>): seq<nat> {
    seq(|workers|, i requires 0 <= i < |workers| => workers[i].counter)
  }

  predicate Finished<O>(w: Worker<O>) {
    w.pos == w.end && !w.pending
  }

  predicate AllFinished<O>(workers: seq<Worker<O>>) {
    forall w: int | 0 <= w < |workers| :: Finished(workers[w])
  }

  predicate ValidConfig<I, O>(c: Config<I, O>) {
    c.items != [] && c.batches != [] && Sum(c.batches) == |c.items|
  }

  /** executeInParallel's setup: never more workers than items. */
  method Configure<I, O>(items: seq<I>, task: I -> seq<O>, tasks: nat, out: seq<O>) returns (c: Config<I, O>)
    requires tasks > 1 && |items| > 1
    ensures ValidConfig(c) && c.items == items && c.task == task && c.out == out
    ensures |c.batches| == if |items| < tasks then |items| else tasks
  {
    var workers := if |items| < tasks then |items| else tasks;
    var batches := TaskBatches(|items|, workers);
    c := Config(items, task, batches, out);
  }

  function Initial<I, O>(c: Config<I, O>): State<O> {
    State([], Waiting, 0, [], false, c.out)
  }

  // --- Steps of the main thread.

  ghost predicate Spawn<I, O>(c: Config<I, O>, s: State<O>, s': State<O>) {
    && s.reporter.Waiting? && |s.workers| < |c.batches|
    && var begin := SumTo(c.batches, |s.workers|);
       s' == s.(workers := s.workers + [Worker(begin, begin + c.batches[|s.workers|], begin, false, [], 0)])
  }

  ghost predicate StartReporter<I, O>(c: Config<I, O>, s: State<O>, s': State<O>) {
    && s.reporter.Waiting? && |s.workers| == |c.batches|
    && s' == s.(reporter := Scanning([], Counters(s.workers)))
  }

  ghost predicate Merge<I, O>(c: Config<I, O>, s: State<O>, s': State<O>) {
    && s.reporter.Exited? && AllFinished(s.workers) && !s.merged
    && s' == s.(merged := true, out := s.out + Storages(s.workers))
  }

  // --- Steps of worker i.

  ghost predicate Process<I, O>(c: Config<I, O>, s: State<O>, s': State<O>, i: nat) {
    && i < |s.workers|
    && var w := s.workers[i];
       && !w.pending && w.pos < w.end && w.pos < |c.items|
       && s' == s.(workers := s.workers[i := w.(pending := true, storage := w.storage + c.task(c.items[w.pos]))])
  }

  ghost predicate Count<O>(s: State<O>, s': State<O>, i: nat) {
    && i < |s.workers|
    && var w := s.workers[i];
       && w.pending
       && s' == s.(workers := s.workers[i := w.(pending := false, pos := w.pos + 1, counter := w.counter + 1)])
  }

  // --- Steps of the reporter.

  ghost predicate Read<O>(s: State<O>, s': State<O>) {
    && s.reporter.Scanning? && |s.reporter.seen| < |s.workers|
    && s' == s.(reporter := s.reporter.(seen := s.reporter.seen + [s.workers[|s.reporter.seen|].counter]))
  }

  /** The end of a scan: sleep and scan again, or print what changed and, at the total, leave. */
  ghost predicate EndScan<I, O>(c: Config<I, O>, s: State<O>, s': State<O>) {
    && s.reporter.Scanning? && |s.reporter.seen| == |s.workers|
    && var current := Sum(s.reporter.seen);
       var again := Scanning([], Counters(s.workers));
       if current == 0 then s' == s.(reporter := again)
       else
         s' == s.(reporter := if current == |c.items| then Exited else again,
                  previous := current,
                  printed := if current == s.previous then s.printed else s.printed + [current])
  }

  ghost predicate Next<I, O>(c: Config<I, O>, s: State<O>, s': State<O>) {
    || Spawn(c, s, s') || StartReporter(c, s, s') || Merge(c, s, s')
    || (exists i: nat :: Process(c, s, s', i)) || (exists i: nat :: Count(s, s', i))
    || Read(s, s') || EndScan(c, s, s')
  }

  /** Any interleaving of steps. */
  ghost predicate Run<I, O>(c: Config<I, O>, run: seq<State<O>>) {
    && run != [] && run[0] == Initial(c)
    && forall k | 0 <= k < |run| - 1 :: Next(c, run[k], run[k + 1])
  }

  // --- The invariant.

  ghost predicate WorkerInv<I, O>(c: Config<I, O>, w: Worker<O>, i: nat)
    requires i < |c.batches|
  {
    && w.begin == SumTo(c.batches, i) && w.end == w.begin + c.batches[i]
    && w.begin <= w.pos <= w.end <= |c.items|
    && (w.pending ==> w.pos < w.end)
    && w.counter == w.pos - w.begin
    && w.storage == OutputsOf(c.items, c.task, w.begin, if w.pending then w.pos + 1 else w.pos)
  }

  ghost predicate WorkersInv<I, O>(c: Config<I, O>, workers: seq<Worker<O>>) {
    && |workers| <= |c.batches|
    && forall i: nat | i < |workers| :: WorkerInv(c, workers[i], i)
  }

  predicate Below(a: seq<nat>, b: seq<nat>) {
    |a| <= |b| && forall i | 0 <= i < |a| :: a[i] <= b[i]
  }

  ghost predicate ReporterInv<I, O>(c: Config<I, O>, s: State<O>) {
    match s.reporter
    case Waiting => s.previous == 0
    case Exited => |s.workers| == |c.batches| && AllFinished(s.workers) && s.previous == |c.items|
    case Scanning(seen, atStart) =>
      && |s.workers| == |c.batches| == |atStart| && |seen| <= |atStart|
      && (forall i | 0 <= i < |seen| :: atStart[i] <= seen[i])
      && Below(seen, Counters(s.workers)) && Below(atStart, Counters(s.workers))
      && s.previous <= Sum(atStart) && s.previous < |c.items|
  }

  ghost predicate PrintedInv<I, O>(c: Config<I, O>, s: State<O>) {
    && (forall i, j | 0 <= i < j < |s.printed| :: s.printed[i] < s.printed[j])
    && (forall i | 0 <= i < |s.printed| :: 0 < s.printed[i] <= |c.items|)
    && s.previous == if s.printed == [] then 0 else s.printed[|s.printed| - 1]
  }

  ghost predicate Inv<I, O>(c: Config<I, O>, s: State<O>) {
    && WorkersInv(c, s.workers)
    && ReporterInv(c, s)
    && PrintedInv(c, s)
    && (s.merged ==> s.reporter.Exited?)
    && s.out == c.out + if s.merged then Outputs(c.items, c.task) else []
  }

  lemma {:induction false} SumToIsMonotone(a: seq<nat>, b: seq<nat>, k: nat)
    requires k <= |a| <= |b| && Below(a, b)
    ensures SumTo(a, k) <= SumTo(b, k)
    ensures SumTo(a, k) == SumTo(b, k) ==> forall i | 0 <= i < k :: a[i] == b[i]
  {
    if k > 0 {
      SumToIsMonotone(a, b, k - 1);
    }
  }

  lemma SumIsMonotone(a: seq<nat>, b: seq<nat>)
    requires |a| == |b| && Below(a, b)
    ensures Sum(a) <= Sum(b)
    ensures Sum(a) == Sum(b) ==> a == b
  {
    SumToIsMonotone(a, b, |a|);
  }

  lemma {:induction false} SumPrefix(s: seq<nat>, i: nat, k: nat)
    requires i <= k <= |s|
    ensures SumTo(s, i) <= SumTo(s, k)
    decreases k
  {
    if i < k {
      SumPrefix(s, i, k - 1);
    }
  }

  lemma SpawnKeepsInv<I, O>(c: Config<I, O>, s: State<O>, s': State<O>)
    requires ValidConfig(c) && Inv(c, s) && Spawn(c, s, s')
    ensures Inv(c, s')
  {
    var k := |s.workers|;
    SumPrefix(c.batches, k + 1, |c.batches|);
    forall i: nat | i < |s'.workers| ensures WorkerInv(c, s'.workers[i], i) {
      if i < k {
        assert s'.workers[i] == s.workers[i] && WorkerInv(c, s.workers[i], i);
      }
    }
  }

  lemma ProcessedWorker<I, O>(c: Config<I, O>, w: Worker<O>, i: nat)
    requires i < |c.batches| && WorkerInv(c, w, i) && !w.pending && w.pos < w.end
    ensures WorkerInv(c, w.(pending := true, storage := w.storage + c.task(c.items[w.pos])), i)
  {}

  lemma ReplacedWorker<I, O>(c: Config<I, O>, s: State<O>, i: nat, w: Worker<O>)
    requires ValidConfig(c) && Inv(c, s) && i < |s.workers| && !Finished(s.workers[i])
    requires WorkerInv(c, w, i) && s.workers[i].counter <= w.counter
    ensures Inv(c, s.(workers := s.workers[i := w]))
  {
    var s' := s.(workers := s.workers[i := w]);
    forall j: nat | j < |s'.workers| ensures WorkerInv(c, s'.workers[j], j) {
      assert WorkerInv(c, s.workers[j], j);
    }
    assert Below(Counters(s.workers), Counters(s'.workers));
    assert !s.reporter.Exited?;
  }

  /** What a completed scan has seen, against the true counts at its start and at its end. */
  lemma ScanIsAccurate<I, O>(c: Config<I, O>, s: State<O>)
    requires ValidConfig(c) && Inv(c, s) && s.reporter.Scanning? && |s.reporter.seen| == |s.workers|
    ensures Sum(s.reporter.atStart) <= Sum(s.reporter.seen) <= Sum(Counters(s.workers)) <= |c.items|
    ensures s.previous <= Sum(s.reporter.seen)
    ensures Sum(s.reporter.seen) == |c.items| ==> AllFinished(s.workers)
    ensures Sum(s.reporter.atStart) == |c.items| ==> Sum(s.reporter.seen) == |c.items|
  {
    SumIsMonotone(s.reporter.atStart, s.reporter.seen);
    SumIsMonotone(s.reporter.seen, Counters(s.workers));
    SumIsMonotone(Counters(s.workers), c.batches);
  }

  lemma ReporterAfterScan<I, O>(c: Config<I, O>, s: State<O>, s': State<O>)
    requires ValidConfig(c) && Inv(c, s) && EndScan(c, s, s')
    ensures ReporterInv(c, s')
  {
    ScanIsAccurate(c, s);
    assert s'.reporter.Scanning? ==> s'.reporter == Scanning([], Counters(s.workers));
  }

  lemma PrintedAfterScan<I, O>(c: Config<I, O>, s: State<O>, s': State<O>)
    requires ValidConfig(c) && Inv(c, s) && EndScan(c, s, s')
    ensures PrintedInv(c, s')
  {
    ScanIsAccurate(c, s);
  }

  lemma FinishedStorage<I, O>(c: Config<I, O>, w: Worker<O>, i: nat)
    requires i < |c.batches| && WorkerInv(c, w, i) && Finished(w)
    ensures SumTo(c.batches, i) <= SumTo(c.batches, i + 1) <= |c.items|
    ensures w.storage == OutputsOf(c.items, c.task, SumTo(c.batches, i), SumTo(c.batches, i + 1))
  {}

  /** All storages together hold the outputs of all items, in order. */
  lemma {:induction false} StoragesAreOutputs<I, O>(c: Config<I, O>, workers: seq<Worker<O>>, k: nat)
    requires WorkersInv(c, workers) && AllFinished(workers) && k <= |workers|
    ensures SumTo(c.batches, k) <= |c.items|
    ensures StoragesTo(workers, k) == OutputsOf(c.items, c.task, 0, SumTo(c.batches, k))
  {
    if k > 0 {
      StoragesAreOutputs(c, workers, k - 1);
      FinishedStorage(c, workers[k - 1], k - 1);
      OutputsJoin(c.items, c.task, 0, SumTo(c.batches, k - 1), SumTo(c.batches, k));
    }
  }

  lemma AllStorages<I, O>(c: Config<I, O>, workers: seq<Worker<O>>)
    requires ValidConfig(c) && WorkersInv(c, workers) && AllFinished(workers) && |workers| == |c.batches|
    ensures Storages(workers) == Outputs(c.items, c.task)
  {
    StoragesAreOutputs(c, workers, |workers|);
  }

  lemma MergeKeepsInv<I, O>(c: Config<I, O>, s: State<O>, s': State<O>)
    requires ValidConfig(c) && Inv(c, s) && Merge(c, s, s')
    ensures Inv(c, s')
  {
    AllStorages(c, s.workers);
    assert s'.workers == s.workers && s'.reporter == s.reporter && s'.out == s.out + Storages(s.workers);
  }

  lemma ReadKeepsInv<I, O>(c: Config<I, O>, s: State<O>, s': State<O>)
    requires ValidConfig(c) && Inv(c, s) && Read(s, s')
    ensures Inv(c, s')
  {}

  lemma InvIsInductive<I, O>(c: Config<I, O>, s: State<O>, s': State<O>)
    requires ValidConfig(c) && Inv(c, s) && Next(c, s, s')
    ensures Inv(c, s')
  {
    if Spawn(c, s, s') {
      SpawnKeepsInv(c, s, s');
    } else if Merge(c, s, s') {
      MergeKeepsInv(c, s, s');
    } else if i: nat :| Process(c, s, s', i) {
      assert WorkerInv(c, s.workers[i], i);
      ProcessedWorker(c, s.workers[i], i);
      ReplacedWorker(c, s, i, s'.workers[i]);
    } else if i: nat :| Count(s, s', i) {
      assert WorkerInv(c, s.workers[i], i);
      ReplacedWorker(c, s, i, s'.workers[i]);
    } else if Read(s, s') {
      ReadKeepsInv(c, s, s');
    } else if EndScan(c, s, s') {
      ReporterAfterScan(c, s, s');
      PrintedAfterScan(c, s, s');
    }
  }

  lemma {:induction false} RunKeepsInv<I, O>(c: Config<I, O>, run: seq<State<O>>, k: nat)
    requires ValidConfig(c) && Run(c, run) && k < |run|
    ensures Inv(c, run[k])
  {
    if k > 0 {
      RunKeepsInv(c, run, k - 1);
      assert Next(c, run[k - 1], run[k]);
      InvIsInductive(c, run[k - 1], run[k]);
    }
  }

  // --- What every interleaving guarantees.

  /** Parallel refines sequential: once merged, the output is that of the sequential executor. */
  lemma ParallelRefinesSequential<I, O>(c: Config<I, O>, run: seq<State<O>>, k: nat)
    requires ValidConfig(c) && Run(c, run) && k < |run|
    ensures run[k].out == c.out + if run[k].merged then Outputs(c.items, c.task) else []
  {
    RunKeepsInv(c, run, k);
  }

  /** The reporter leaves only after every worker has counted its last item. */
  lemma ReporterLeavesLast<I, O>(c: Config<I, O>, run: seq<State<O>>, k: nat)
    requires ValidConfig(c) && Run(c, run) && k < |run| && run[k].reporter.Exited?
    ensures |run[k].workers| == |c.batches| && AllFinished(run[k].workers)
    ensures Sum(Counters(run[k].workers)) == |c.items|
  {
    RunKeepsInv(c, run, k);
    assert Counters(run[k].workers) == c.batches;
  }

  /** A scan that begins after that is the last one. */
  lemma FullScanLeaves<I, O>(c: Config<I, O>, run: seq<State<O>>, k: nat)
    requires ValidConfig(c) && Run(c, run) && k + 1 < |run|
    requires run[k].reporter.Scanning? && EndScan(c, run[k], run[k + 1])
    requires Sum(run[k].reporter.atStart) == |c.items|
    ensures run[k + 1].reporter.Exited?
  {
    RunKeepsInv(c, run, k);
    ScanIsAccurate(c, run[k]);
  }

  /** What is printed grows strictly, never exceeds the total, and ends with it. */
  lemma PrintedProgress<I, O>(c: Config<I, O>, run: seq<State<O>>, k: nat)
    requires ValidConfig(c) && Run(c, run) && k < |run|
    ensures var printed := run[k].printed;
            && (forall i, j | 0 <= i < j < |printed| :: printed[i] < printed[j])
            && (forall i | 0 <= i < |printed| :: 0 < printed[i] <= |c.items|)
            && (run[k].reporter.Exited? ==> printed != [] && printed[|printed| - 1] == |c.items|)
  {
    RunKeepsInv(c, run, k);
  }

  // --- The sequential mode.

  /** The main thread is the only worker; a reporter is started all the same, and joined. */
  predicate Sequential<I, O>(c: Config<I, O>) {
    c.items != [] && c.batches == [|c.items|]
  }

  /**
   The task writes to the output directly, which then is what it was and the worker's storage: at any
   time the outputs of the items so far. When the reporter is joined, all items are counted and printed.
   */
  lemma SequentialMode<I, O>(c: Config<I, O>, run: seq<State<O>>, k: nat)
    requires Sequential(c) && Run(c, run) && k < |run|
    ensures ValidConfig(c) && |run[k].workers| <= 1
    ensures run[k].workers != [] ==>
              var w := run[k].workers[0];
              && w.counter == w.pos <= |c.items| && (w.pending ==> w.pos < |c.items|)
              && w.storage == OutputsOf(c.items, c.task, 0, if w.pending then w.pos + 1 else w.pos)
    ensures run[k].reporter.Exited? ==>
              && run[k].workers != [] && run[k].workers[0].counter == |c.items|
              && run[k].workers[0].storage == Outputs(c.items, c.task)
              && run[k].printed != [] && run[k].printed[|run[k].printed| - 1] == |c.items|
  {
    assert SumTo(c.batches, 1) == SumTo(c.batches, 0) + c.batches[0];
    RunKeepsInv(c, run, k);
    if run[k].workers != [] {
      assert WorkerInv(c, run[k].workers[0], 0);
    }
    if run[k].reporter.Exited? {
      assert Finished(run[k].workers[0]);
    }
  }

  // --- No run gets stuck.

  function Done<O>(workers: seq<Worker<O>>): seq<nat> {
    seq(|workers|, i requires 0 <= i < |workers| =>
      (if workers[i].pos >= workers[i].begin then 2 * (workers[i].pos - workers[i].begin) else 0)
      + if workers[i].pending then 1 else 0)
  }

  lemma {:induction false} SumUpdate(s: seq<nat>, i: nat, v: nat, k: nat)
    requires i < |s| && k <= |s|
    ensures SumTo(s[i := v], k) == if i < k then SumTo(s, k) - s[i] + v else SumTo(s, k)
  {
    if k > 0 {
      SumUpdate(s, i, v, k - 1);
    }
  }

  lemma {:induction false} SumDouble(s: seq<nat>, d: seq<nat>, k: nat)
    requires k <= |d| <= |s| && forall i | 0 <= i < |d| :: d[i] <= 2 * s[i]
    ensures SumTo(d, k) <= 2 * SumTo(s, k)
  {
    if k > 0 {
      SumDouble(s, d, k - 1);
    }
  }

  lemma DoneIsBounded<I, O>(c: Config<I, O>, s: State<O>)
    requires ValidConfig(c) && Inv(c, s)
    ensures Sum(Done(s.workers)) <= 2 * |c.items|
  {
    forall i: nat | i < |s.workers| ensures Done(s.workers)[i] <= 2 * c.batches[i] {
      assert WorkerInv(c, s.workers[i], i);
    }
    SumDouble(c.batches, Done(s.workers), |s.workers|);
    SumPrefix(c.batches, |s.workers|, |c.batches|);
  }

  /** Spawning, processing and counting that is still to be done. */
  function Work<I, O>(c: Config<I, O>, s: State<O>): int {
    |c.batches| - |s.workers| + 2 * |c.items| - Sum(Done(s.workers))
  }

  /** With all workers finished, at most two more scans lead to the merge. */
  function Rank<I, O>(c: Config<I, O>, s: State<O>): int {
    if s.merged then 0
    else match s.reporter
      case Exited => 1
      case Scanning(seen, atStart) => |c.batches| - |seen| + if Sum(atStart) == |c.items| then 2 else |c.batches| + 3
      case Waiting => 2 * |c.batches| + 4
  }

  lemma SomeStep<I, O>(c: Config<I, O>, s: State<O>) returns (s': State<O>)
    requires ValidConfig(c) && Inv(c, s) && !s.merged
    ensures Next(c, s, s') && Inv(c, s')
    ensures 0 <= Work(c, s') && 0 <= Rank(c, s')
    ensures Work(c, s') < Work(c, s) || (Work(c, s') == Work(c, s) && Rank(c, s') < Rank(c, s))
  {
    if |s.workers| < |c.batches| {
      var begin := SumTo(c.batches, |s.workers|);
      var w: Worker<O> := Worker(begin, begin + c.batches[|s.workers|], begin, false, [], 0);
      s' := s.(workers := s.workers + [w]);
      assert Spawn(c, s, s');
      assert Done(s'.workers) == Done(s.workers) + [0];
      SumAppend(Done(s.workers), 0);
    } else if !AllFinished(s.workers) {
      s' := WorkerStep(c, s);
    } else {
      s' := ReporterStep(c, s);
    }
    InvIsInductive(c, s, s');
    DoneIsBounded(c, s');
  }

  lemma OneMoreDone<O>(workers: seq<Worker<O>>, i: nat, w: Worker<O>)
    requires i < |workers| && workers[i].begin <= workers[i].pos && w.begin == workers[i].begin
    requires if w.pending then !workers[i].pending && w.pos == workers[i].pos
             else workers[i].pending && w.pos == workers[i].pos + 1
    ensures Sum(Done(workers[i := w])) == Sum(Done(workers)) + 1
  {
    assert Done(workers[i := w]) == Done(workers)[i := Done(workers)[i] + 1];
    SumUpdate(Done(workers), i, Done(workers)[i] + 1, |workers|);
  }

  lemma WorkerStep<I, O>(c: Config<I, O>, s: State<O>) returns (s': State<O>)
    requires ValidConfig(c) && Inv(c, s) && !AllFinished(s.workers)
    ensures Next(c, s, s') && Work(c, s') < Work(c, s)
  {
    var i: nat :| i < |s.workers| && !Finished(s.workers[i]);
    var w := s.workers[i];
    assert WorkerInv(c, w, i);
    if w.pending {
      var w' := w.(pending := false, pos := w.pos + 1, counter := w.counter + 1);
      s' := s.(workers := s.workers[i := w']);
      OneMoreDone(s.workers, i, w');
      assert Count(s, s', i);
    } else {
      var w' := w.(pending := true, storage := w.storage + c.task(c.items[w.pos]));
      s' := s.(workers := s.workers[i := w']);
      OneMoreDone(s.workers, i, w');
      assert Process(c, s, s', i);
    }
  }

  lemma ReporterStep<I, O>(c: Config<I, O>, s: State<O>) returns (s': State<O>)
    requires ValidConfig(c) && Inv(c, s) && !s.merged && |s.workers| == |c.batches| && AllFinished(s.workers)
    ensures Next(c, s, s') && s'.workers == s.workers && Rank(c, s') < Rank(c, s)
  {
    assert Counters(s.workers) == c.batches;
    match s.reporter
    case Waiting =>
      s' := s.(reporter := Scanning([], Counters(s.workers)));
      assert StartReporter(c, s, s');
    case Exited =>
      s' := s.(merged := true, out := s.out + Storages(s.workers));
      assert Merge(c, s, s');
    case Scanning(seen, atStart) =>
      if |seen| < |s.workers| {
        s' := s.(reporter := Scanning(seen + [s.workers[|seen|].counter], atStart));
        assert Read(s, s');
      } else {
        ScanIsAccurate(c, s);
        var current := Sum(seen);
        var again := Scanning([], Counters(s.workers));
        s' := if current == 0 then s.(reporter := again)
              else s.(reporter := if current == |c.items| then Exited else again,
                      previous := current,
                      printed := if current == s.previous then s.printed else s.printed + [current]);
        assert EndScan(c, s, s');
      }
  }

  /** From wherever an interleaving has led, the execution can be completed. */
  lemma {:induction false} CanComplete<I, O>(c: Config<I, O>, s: State<O>) returns (rest: seq<State<O>>)
    requires ValidConfig(c) && Inv(c, s)
    requires 0 <= Work(c, s) && 0 <= Rank(c, s)
    ensures rest != [] && rest[0] == s && rest[|rest| - 1].merged
    ensures forall k | 0 <= k < |rest| - 1 :: Next(c, rest[k], rest[k + 1])
    decreases Work(c, s), Rank(c, s)
  {
    if s.merged {
      rest := [s];
    } else {
      var s' := SomeStep(c, s);
      var tail := CanComplete(c, s');
      rest := [s] + tail;
    }
  }

  lemma EveryRunCanComplete<I, O>(c: Config<I, O>, run: seq<State<O>>) returns (more: seq<State<O>>)
    requires ValidConfig(c) && Run(c, run)
    ensures Run(c, more) && run <= more
    ensures more[|more| - 1].merged && more[|more| - 1].out == c.out + Outputs(c.items, c.task)
  {
    var n := |run| - 1;
    RunKeepsInv(c, run, n);
    DoneIsBounded(c, run[n]);
    assert 0 <= Rank(c, run[n]);
    var rest := CanComplete(c, run[n]);
    more := run[..n] + rest;
    forall k | 0 <= k < |more| - 1 ensures Next(c, more[k], more[k + 1]) {
      if k < n {
        assert Next(c, run[k], run[k + 1]);
      } else {
        assert Next(c, rest[k - n], rest[k - n + 1]);
      }
    }
    ParallelRefinesSequential(c, more, |more| - 1);
  }
}
