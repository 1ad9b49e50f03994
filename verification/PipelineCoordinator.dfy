/** The coordinator's own code: cutting the work into batches, the submit loop, the in-order write
    loop and shutting down, proved to be a run of the protocol in Pipeline that returns, whatever the
    other goroutines and the environment do in between. */
module PipelineCoordinator {
  import opened Wrappers
  import opened Pipeline
  import opened PipelineProgress
  import opened PipelineErrors

  // ---------------------------------------------------------------- batches

  function Min(a: int, b: int): int { if a <= b then a else b }

  function Max(a: int, b: int): int { if a >= b then a else b }

  /** Records of a list of items; a worker may keep no record for an item. */
  function Render<I, R>(render: I -> seq<R>, items: seq<I>): seq<R> {
    if items == [] then [] else Render(render, items[..|items| - 1]) + render(items[|items| - 1])
  }

  function BatchCount(n: nat, size: nat): nat
    requires size > 0
  {
    (n + size - 1) / size
  }

  function Batch<I>(items: seq<I>, size: nat, k: nat): seq<I>
    requires size > 0 && k < BatchCount(|items|, size)
  {
    assert k * size <= |items| by { BatchStarts(|items|, size, k); }
    items[k * size..Min(k * size + size, |items|)]
  }

  lemma {:induction false} QuotientBounds(a: nat, b: nat)
    requires b > 0
    ensures (a / b) * b <= a < (a / b) * b + b
  {
  }

  lemma {:induction false} ProductGap(k: nat, q: nat, b: nat)
    requires k < q
    ensures k * b + b <= q * b
  {
    if k + 1 < q {
      ProductGap(k, q - 1, b);
    }
    assert q * b == (q - 1) * b + b;
  }

  lemma {:induction false} BatchStarts(n: nat, size: nat, k: nat)
    requires size > 0 && k <= BatchCount(n, size)
    ensures k < BatchCount(n, size) ==> k * size < n
    ensures k == BatchCount(n, size) ==> n <= k * size
  {
    var q := BatchCount(n, size);
    QuotientBounds(n + size - 1, size);
    if k < q {
      ProductGap(k, q, size);
    }
  }

  /** The configuration a run uses: worker and batch counts clamped as the source does. */
  function Configure<I, R>(items: seq<I>, render: I -> seq<R>, workers: int, batchSize: int): (c: Config<R>)
    ensures c.Valid()
    ensures workers < 1 ==> c.workers == 1
    ensures 1 <= workers && (items == [] || workers <= |items|) ==> c.workers == workers
    ensures 1 <= |items| < workers ==> c.workers == |items|
  {
    var w := Max(workers, 1);
    var w := if w > |items| && |items| > 0 then |items| else w;
    var size := if batchSize <= 0 then 256 else batchSize;
    Config(w, seq(BatchCount(|items|, size), k requires 0 <= k < BatchCount(|items|, size) =>
        Render(render, Batch(items, size, k))))
  }

  lemma {:induction false} RenderAppend<I, R>(render: I -> seq<R>, a: seq<I>, b: seq<I>)
    ensures Render(render, a + b) == Render(render, a) + Render(render, b)
  {
    if b == [] {
      assert a + b == a;
    } else {
      var front := b[..|b| - 1];
      assert (a + b)[..|a + b| - 1] == a + front;
      RenderAppend(render, a, front);
    }
  }

  lemma {:induction false} FlattenLast<R>(parts: seq<seq<R>>, k: nat)
    requires 0 < k <= |parts|
    ensures Flatten(parts[..k]) == Flatten(parts[..k - 1]) + parts[k - 1]
  {
    assert parts[..k][..k - 1] == parts[..k - 1];
  }

  lemma {:induction false} Cut<T>(s: seq<T>, i: nat, j: nat)
    requires i <= j <= |s|
    ensures s[..j] == s[..i] + s[i..j]
  {
  }

  /** Batch k - 1 continues the items of the batches before it. */
  lemma {:induction false} BatchContinues<I>(items: seq<I>, size: nat, k: nat)
    requires size > 0 && 0 < k <= BatchCount(|items|, size)
    ensures (k - 1) * size < |items|
    ensures items[..Min(k * size, |items|)] == items[..(k - 1) * size] + Batch(items, size, k - 1)
  {
    hide BatchCount;
    BatchStarts(|items|, size, k - 1);
    assert k * size == (k - 1) * size + size;
    Cut(items, (k - 1) * size, Min(k * size, |items|));
  }

  /** The first k batches render to what their items render to. */
  lemma {:induction false} FirstBatches<I, R>(items: seq<I>, render: I -> seq<R>, size: nat, outputs: seq<seq<R>>,
      k: nat)
    requires size > 0 && |outputs| == BatchCount(|items|, size) && k <= |outputs|
    requires forall j :: 0 <= j < |outputs| ==> outputs[j] == Render(render, Batch(items, size, j))
    ensures Flatten(outputs[..k]) == Render(render, items[..Min(k * size, |items|)])
  {
    hide BatchCount, Batch;
    if k > 0 {
      FirstBatches(items, render, size, outputs, k - 1);
      FlattenLast(outputs, k);
      BatchContinues(items, size, k);
      RenderAppend(render, items[..(k - 1) * size], Batch(items, size, k - 1));
    }
  }

  lemma {:induction false} BatchesCover<I, R>(items: seq<I>, render: I -> seq<R>, workers: int, batchSize: int, k: nat)
    requires k <= Configure(items, render, workers, batchSize).Total()
    ensures var size := if batchSize <= 0 then 256 else batchSize;
            Flatten(Configure(items, render, workers, batchSize).outputs[..k])
            == Render(render, items[..Min(k * size, |items|)])
  {
    hide Flatten, Render, Batch, BatchCount;
    var size := if batchSize <= 0 then 256 else batchSize;
    FirstBatches(items, render, size, Configure(items, render, workers, batchSize).outputs, k);
  }

  /** A run over any items that returns without error has written exactly the records of
      all items, once each and in item order, however the workers were scheduled. */
  lemma {:induction false} RunWritesAllItems<I, R(!new)>(items: seq<I>, render: I -> seq<R>, workers: int,
      batchSize: int, s: State<R>)
    requires Reachable(Configure(items, render, workers, batchSize), s)
    ensures s.written <= Render(render, items)
    ensures s.phase == Returned(None) ==> s.written == Render(render, items)
  {
    var c := Configure(items, render, workers, batchSize);
    var size := if batchSize <= 0 then 256 else batchSize;
    BatchesCover(items, render, workers, batchSize, c.Total());
    BatchStarts(|items|, size, c.Total());
    assert c.outputs[..c.Total()] == c.outputs;
    assert items[..Min(c.Total() * size, |items|)] == items;
    WrittenIsPrefix(c, s);
    if s.phase.Returned? { SuccessIsComplete(c, s); }
  }

  // ---------------------------------------------------------------- one step of the coordinator

  /** s can be reached from the initial state. */
  ghost predicate Reached<R(!new)>(c: Config<R>, s: State<R>) { c.Valid() && Reachable(c, s) }

  lemma {:induction false} StartIsReached<R(!new)>(c: Config<R>)
    requires c.Valid()
    ensures Reached(c, Init(c))
  {
    var steps: seq<Step>, states := [], [Init(c)];
    assert IsRun(c, steps, states);
  }

  lemma {:induction false} ReachedMore<R(!new)>(c: Config<R>, s: State<R>, steps: seq<Step>, states: seq<State<R>>)
    requires Reached(c, s) && IsRun(c, steps, states) && states[0] == s
    ensures Reached(c, states[|steps|])
  {
    var before, path :| IsRun(c, before, path) && path[0] == Init(c) && path[|path| - 1] == s;
    Joined(c, before, path, steps, states);
  }

  lemma {:induction false} Joined<R(!new)>(c: Config<R>, before: seq<Step>, path: seq<State<R>>, steps: seq<Step>,
      states: seq<State<R>>)
    requires IsRun(c, before, path) && IsRun(c, steps, states) && states[0] == path[|path| - 1] && path[0] == Init(c)
    ensures Reachable(c, states[|steps|])
  {
    var all, through := before + steps, path + states[1..];
    forall k | 0 <= k < |all| ensures Enabled(c, through[k], all[k]) && through[k + 1] == Apply(c, through[k], all[k]) {
      if k < |before| { assert through[k] == path[k] && through[k + 1] == path[k + 1]; }
      else { assert through[k] == states[k - |before|] && through[k + 1] == states[k - |before| + 1]; }
    }
    assert IsRun(c, all, through);
    assert through[|through| - 1] == states[|steps|];
  }

  /** The step leads to t, which is reached as well, and nearer to the end. */
  ghost predicate Nearer<R(!new)>(c: Config<R>, s: State<R>, step: Step, t: State<R>) {
    Enabled(c, s, step) && t == Apply(c, s, step) && Reached(c, t) && Measure(c, t) < Measure(c, s)
  }

  lemma {:induction false} Took<R(!new)>(c: Config<R>, s: State<R>, step: Step)
    requires Reached(c, s) && Enabled(c, s, step)
    ensures Nearer(c, s, step, Apply(c, s, step))
  {
    var steps, states := [step], [s, Apply(c, s, step)];
    assert IsRun(c, steps, states);
    ReachedMore(c, s, steps, states);
    ReachableInv(c, s);
    MeasureDecreases(c, s, step);
  }

  lemma {:induction false} SubmitOnce<R(!new)>(c: Config<R>, s: State<R>)
    requires Reached(c, s) && s.phase == Submitting && MoreToSubmit(c, s)
    ensures Nearer(c, s, Submit, s.(jobs := s.jobs + [s.nextSubmit], nextSubmit := s.nextSubmit + 1))
  {
    ReachableInv(c, s);
    SendsNeverBlock(c, s);
    Took(c, s, Submit);
  }

  lemma {:induction false} SubmitStops<R(!new)>(c: Config<R>, s: State<R>)
    requires Reached(c, s) && s.phase == Submitting && MoreToSubmit(c, s) && WorkersStopped(s)
    ensures Nearer(c, s, SubmitAbort, Stop(s, Cancelled, true))
  {
    Took(c, s, SubmitAbort);
  }

  lemma {:induction false} WindowIs<R(!new)>(c: Config<R>, s: State<R>)
    requires Reached(c, s)
    ensures c.Window() == 2 * c.workers
  {
  }

  /** What the coordinator does next when the window is full. */
  function AfterSubmitting<R>(c: Config<R>, s: State<R>): Phase {
    if s.nextBatch < c.Total() then Receiving else Finishing
  }

  lemma {:induction false} SubmitEnds<R(!new)>(c: Config<R>, s: State<R>)
    requires Reached(c, s) && s.phase == Submitting && !MoreToSubmit(c, s)
    ensures Nearer(c, s, SubmitDone, s.(jobsClosed := s.nextSubmit == c.Total(), phase := AfterSubmitting(c, s)))
    ensures s.jobsClosed ==> s.nextSubmit == c.Total()
  {
    ReachableInv(c, s);
    Took(c, s, SubmitDone);
  }

  lemma {:induction false} ReceiveOnce<R(!new)>(c: Config<R>, s: State<R>)
    requires Reached(c, s) && s.phase == Receiving && s.results != []
    ensures s.offset == 0
    ensures var a := s.results[0];
      Nearer(c, s, ReceiveResult,
             s.(results := s.results[1..], pending := s.pending[a.index := a.records], phase := Draining))
  {
    ReachableInv(c, s);
    Took(c, s, ReceiveResult);
  }

  lemma {:induction false} ReceiveStops<R(!new)>(c: Config<R>, s: State<R>)
    requires Reached(c, s) && s.phase == Receiving
    ensures s.cancelled ==> Nearer(c, s, ReceiveCancelled, Stop(s, Cancelled, true))
    ensures s.results == [] && s.resultsClosed ==>
      Nearer(c, s, ReceiveClosed, s.(phase := Stopping(StoppedEarly, true)))
  {
    if s.cancelled { Took(c, s, ReceiveCancelled); }
    if s.results == [] && s.resultsClosed { Took(c, s, ReceiveClosed); }
  }

  lemma {:induction false} WriteOnce<R(!new)>(c: Config<R>, s: State<R>)
    requires Reached(c, s) && Writing(s) && !s.cancelled
    ensures Nearer(c, s, WriteRecord,
                   s.(written := s.written + [s.pending[s.nextBatch][s.offset]], offset := s.offset + 1))
  {
    Took(c, s, WriteRecord);
  }

  lemma {:induction false} WriteStops<R(!new)>(c: Config<R>, s: State<R>)
    requires Reached(c, s) && Writing(s)
    ensures if s.cancelled then Nearer(c, s, WriteCancelled, Stop(s, Cancelled, false))
            else Nearer(c, s, WriteFail, Stop(s, WriteFailed, false).(fault := true))
  {
    if s.cancelled { Took(c, s, WriteCancelled); } else { Took(c, s, WriteFail); }
  }

  lemma {:induction false} AdvanceOnce<R(!new)>(c: Config<R>, s: State<R>)
    requires Reached(c, s) && s.phase == Draining && s.nextBatch in s.pending && s.offset == |s.pending[s.nextBatch]|
    ensures Nearer(c, s, Advance,
                   s.(pending := s.pending - {s.nextBatch}, nextBatch := s.nextBatch + 1, offset := 0))
  {
    Took(c, s, Advance);
  }

  lemma {:induction false} DrainOnce<R(!new)>(c: Config<R>, s: State<R>)
    requires Reached(c, s) && s.phase == Draining && s.nextBatch !in s.pending
    ensures Nearer(c, s, DrainDone, s.(phase := Submitting)) && s.offset == 0
  {
    ReachableInv(c, s);
    Took(c, s, DrainDone);
  }

  /** What the coordinator returns when the workers are gone. */
  function ResultOf<R>(s: State<R>): Option<Error> {
    if s.phase.Stopping? && (s.groupErr.None? || !s.phase.workersFirst) then Some(s.phase.err) else s.groupErr
  }

  lemma {:induction false} ReturnOnce<R(!new)>(c: Config<R>, s: State<R>)
    requires Reached(c, s) && (s.phase.Stopping? || s.phase.Finishing?) && s.resultsClosed
    ensures Nearer(c, s, Return, s.(jobsClosed := true, phase := Returned(ResultOf(s))))
  {
    Took(c, s, Return);
  }

  // ---------------------------------------------------------------- what the others do in between

  ghost predicate OthersRun<R(!new)>(c: Config<R>, s: State<R>, t: State<R>) {
    exists steps: seq<Step>, states: seq<State<R>> ::
      && IsRun(c, steps, states) && states[0] == s && states[|steps|] == t
      && forall k :: 0 <= k < |steps| ==> IsOther(steps[k])
  }

  ghost predicate OthersCanMove<R>(c: Config<R>, s: State<R>) {
    exists step: Step :: IsOther(step) && !IsFault(step) && Enabled(c, s, step)
  }

  /** What happens between two actions of the coordinator: any steps of the others. Only when it waits
      for them something has to happen, if anything can. */
  ghost predicate Fair<R(!new)>(c: Config<R>, moves: (State<R>, bool) -> State<R>) {
    forall s, waiting :: Inv(c, s) ==>
      && OthersRun(c, s, moves(s, waiting))
      && (waiting && moves(s, waiting) == s ==> !OthersCanMove(c, s))
  }

  /** One such way: each time something can move it does. */
  ghost function MoveOn<R(!new)>(c: Config<R>, s: State<R>): State<R> {
    if OthersCanMove(c, s) then
      var step: Step :| IsOther(step) && !IsFault(step) && Enabled(c, s, step);
      Apply(c, s, step)
    else s
  }

  lemma {:induction false} ChosenMove<R(!new)>(c: Config<R>, s: State<R>) returns (step: Step)
    requires OthersCanMove(c, s)
    ensures IsOther(step) && Enabled(c, s, step) && MoveOn(c, s) == Apply(c, s, step)
  {
    step :| IsOther(step) && !IsFault(step) && Enabled(c, s, step) && MoveOn(c, s) == Apply(c, s, step);
  }

  lemma {:induction false} OneMove<R(!new)>(c: Config<R>, s: State<R>, step: Step)
    requires IsOther(step) && Enabled(c, s, step)
    ensures OthersRun(c, s, Apply(c, s, step))
  {
    var steps, states := [step], [s, Apply(c, s, step)];
    assert IsRun(c, steps, states);
    assert states[0] == s && states[|steps|] == Apply(c, s, step);
  }

  lemma {:induction false} NoMove<R(!new)>(c: Config<R>, s: State<R>)
    ensures OthersRun(c, s, s)
  {
    var steps: seq<Step>, states := [], [s];
    assert IsRun(c, steps, states);
    assert states[0] == s && states[|steps|] == s;
  }

  lemma {:induction false} MovedOn<R(!new)>(c: Config<R>, s: State<R>)
    requires c.Valid() && Inv(c, s)
    ensures OthersRun(c, s, MoveOn(c, s)) && (MoveOn(c, s) == s ==> !OthersCanMove(c, s))
  {
    if OthersCanMove(c, s) {
      var step := ChosenMove(c, s);
      OneMove(c, s, step);
      MeasureDecreases(c, s, step);
    } else {
      NoMove(c, s);
    }
  }

  lemma {:induction false} FairExists<R(!new)>(c: Config<R>) returns (moves: (State<R>, bool) -> State<R>)
    requires c.Valid()
    ensures Fair(c, moves)
  {
    moves := (s, waiting) => MoveOn(c, s);
    forall s, waiting: bool | Inv(c, s)
      ensures OthersRun(c, s, moves(s, waiting)) && (waiting && moves(s, waiting) == s ==> !OthersCanMove(c, s))
    {
      MovedOn(c, s);
    }
  }

  /** The others leave the coordinator's variables alone. */
  ghost predicate SameOwn<R>(s: State<R>, t: State<R>) {
    && t.jobsClosed == s.jobsClosed && t.pending == s.pending
    && t.nextSubmit == s.nextSubmit && t.nextBatch == s.nextBatch && t.offset == s.offset
    && t.written == s.written && t.phase == s.phase
  }

  lemma {:induction false} OtherIsSafe<R>(c: Config<R>, s: State<R>, step: Step)
    requires c.Valid() && Inv(c, s) && Enabled(c, s, step)
    ensures step.Send? ==> !s.resultsClosed
  {
    if step.Send? { WorkerIsListed(s, step.i); }
  }

  lemma {:induction false} SameOwnTwice<R>(s: State<R>, t: State<R>, u: State<R>)
    requires SameOwn(s, t) && SameOwn(t, u)
    ensures SameOwn(s, u)
  {
  }

  lemma {:induction false} OtherStepsKeep<R>(c: Config<R>, steps: seq<Step>, states: seq<State<R>>, k: nat)
    requires c.Valid() && IsRun(c, steps, states) && Inv(c, states[0]) && k < |states|
    requires forall j :: 0 <= j < |steps| ==> IsOther(steps[j])
    ensures SameOwn(states[0], states[k])
  {
    hide Inv, Enabled, Apply, IsOther;
    if k > 0 {
      OtherStepsKeep(c, steps, states, k - 1);
      RunKeepsInv(c, steps, states, k - 1);
      OtherIsSafe(c, states[k - 1], steps[k - 1]);
      OtherFrame(c, states[k - 1], steps[k - 1]);
      SameOwnTwice(states[0], states[k - 1], states[k]);
    }
  }

  /** Whatever the others do leaves a reached state with the coordinator where it was. */
  lemma {:induction false} OthersKeep<R(!new)>(c: Config<R>, s: State<R>, t: State<R>)
    requires Reached(c, s) && OthersRun(c, s, t)
    ensures Reached(c, t) && SameOwn(s, t) && Measure(c, t) <= Measure(c, s)
    ensures t != s ==> Measure(c, t) < Measure(c, s)
  {
    ReachableInv(c, s);
    var steps, states :| IsRun(c, steps, states) && states[0] == s && states[|steps|] == t
                         && forall k :: 0 <= k < |steps| ==> IsOther(steps[k]);
    OtherStepsKeep(c, steps, states, |steps|);
    ReachedMore(c, s, steps, states);
    RunSpendsMeasure(c, steps, states, |steps|);
  }

  /** While the coordinator waits for an answer or for the workers to end, somebody else can move. */
  lemma {:induction false} OthersMoveOn<R(!new)>(c: Config<R>, s: State<R>)
    requires Reached(c, s) && !s.resultsClosed
    requires (s.phase.Receiving? && s.results == [] && !s.cancelled) || s.phase.Stopping? || s.phase.Finishing?
    ensures OthersCanMove(c, s)
  {
    ReachableInv(c, s);
    var step := WorkersProgress(c, s);
    assert IsOther(step);
  }

  lemma {:induction false} OneMoreOf<R>(before: seq<R>, records: seq<R>, offset: nat)
    requires offset < |records|
    ensures before + records[..offset] + [records[offset]] == before + records[..offset + 1]
  {
  }

  // ---------------------------------------------------------------- the coordinator

  /** What the select statements and the sink decide: a sink that fails makes the write fail, and of several cases
      that are ready the one picked is taken. */
  predicate Decided<R>(picks: State<R> -> bool, sinkFails: State<R> -> bool, s: State<R>, step: Step) {
    match step
    case Submit => WorkersStopped(s) ==> !picks(s)
    case SubmitAbort => picks(s)
    case ReceiveCancelled => picks(s) || (s.results == [] && !s.resultsClosed)
    case ReceiveResult => s.cancelled ==> !picks(s)
    case ReceiveClosed => s.cancelled ==> !picks(s)
    case WriteRecord => !sinkFails(s)
    case WriteFail => sinkFails(s)
    case _ => true
  }

  /** The steps of a run from its start to s, in which everything went as it was decided. */
  ghost predicate RunTo<R>(c: Config<R>, picks: State<R> -> bool, sinkFails: State<R> -> bool, steps: seq<Step>,
      states: seq<State<R>>, s: State<R>)
  {
    && IsRun(c, steps, states) && states[0] == Init(c) && states[|steps|] == s
    && forall k :: 0 <= k < |steps| ==> Decided(picks, sinkFails, states[k], steps[k])
  }

  lemma {:induction false} RunGoesOn<R>(c: Config<R>, picks: State<R> -> bool, sinkFails: State<R> -> bool,
      steps: seq<Step>, states: seq<State<R>>, s: State<R>, step: Step, t: State<R>)
    requires RunTo(c, picks, sinkFails, steps, states, s)
    requires Enabled(c, s, step) && t == Apply(c, s, step) && Decided(picks, sinkFails, s, step)
    ensures RunTo(c, picks, sinkFails, steps + [step], states + [t], t)
  {
    hide Enabled, Apply, Decided, Init;
    var all, through := steps + [step], states + [t];
    forall k | 0 <= k < |all|
      ensures Enabled(c, through[k], all[k]) && through[k + 1] == Apply(c, through[k], all[k])
      ensures Decided(picks, sinkFails, through[k], all[k])
    {
      if k < |steps| { assert through[k] == states[k] && through[k + 1] == states[k + 1] && all[k] == steps[k]; }
    }
  }

  lemma {:induction false} RunGoesOnByOthers<R>(c: Config<R>, picks: State<R> -> bool, sinkFails: State<R> -> bool,
      steps: seq<Step>, states: seq<State<R>>, s: State<R>, more: seq<Step>, path: seq<State<R>>, n: nat)
    requires RunTo(c, picks, sinkFails, steps, states, s)
    requires IsRun(c, more, path) && path[0] == s && forall k :: 0 <= k < |more| ==> IsOther(more[k])
    requires n <= |more|
    ensures RunTo(c, picks, sinkFails, steps + more[..n], states + path[1..n + 1], path[n])
  {
    hide RunTo, Enabled, Apply;
    if n == 0 {
      assert steps + more[..0] == steps && states + path[1..1] == states;
    } else {
      RunGoesOnByOthers(c, picks, sinkFails, steps, states, s, more, path, n - 1);
      RunGoesOn(c, picks, sinkFails, steps + more[..n - 1], states + path[1..n], path[n - 1], more[n - 1], path[n]);
      assert steps + more[..n - 1] + [more[n - 1]] == steps + more[..n];
      assert states + path[1..n] + [path[n]] == states + path[1..n + 1];
    }
  }

  /** The coordinator's variables, and the channels, workers and contexts it shares with the others. */
  class Coordinator<R(!new)> {
    const config: Config<R>
    const moves: (State<R>, bool) -> State<R>   // what happens between two actions
    const picks: State<R> -> bool               // which case a select with several ready ones takes
    const sinkFails: State<R> -> bool
    var shared: State<R>
    var jobsClosed: bool
    var pending: map<nat, seq<R>>
    var nextSubmit: nat
    var nextBatch: nat
    var offset: nat
    var written: seq<R>
    ghost var steps: seq<Step>                  // the run so far
    ghost var states: seq<State<R>>

    /** The state of the protocol when the coordinator is in a phase. */
    function View(phase: Phase): State<R>
      reads this`shared, this`jobsClosed, this`pending, this`nextSubmit, this`nextBatch, this`offset, this`written
    {
      shared.(jobsClosed := jobsClosed, pending := pending, nextSubmit := nextSubmit, nextBatch := nextBatch,
      offset := offset, written := written, phase := phase)
    }

    ghost predicate At(phase: Phase)
      reads this
    {
      Reached(config, View(phase)) && Fair(config, moves) && Traced(View(phase))
    }

    /** The steps recorded lead to s. */
    ghost predicate Traced(s: State<R>)
      reads this`steps, this`states
    {
      RunTo(config, picks, sinkFails, steps, states, s)
    }

    ghost method Record(step: Step, before: State<R>)
      requires Traced(before) && Enabled(config, before, step) && Decided(picks, sinkFails, before, step)
      modifies this`steps, this`states
      ensures Traced(Apply(config, before, step)) && steps == old(steps) + [step]
    {
      hide Apply, Enabled, Decided;
      RunGoesOn(config, picks, sinkFails, steps, states, before, step, Apply(config, before, step));
      steps, states := steps + [step], states + [Apply(config, before, step)];
    }

    ghost method RecordOthers(before: State<R>, after: State<R>)
      requires Traced(before) && OthersRun(config, before, after)
      modifies this`steps, this`states
      ensures Traced(after)
    {
      hide RunTo;
      var more, path :| IsRun(config, more, path) && path[0] == before && path[|more|] == after
                        && forall k :: 0 <= k < |more| ==> IsOther(more[k]);
      RunGoesOnByOthers(config, picks, sinkFails, steps, states, before, more, path, |more|);
      assert more[..|more|] == more && path[1..|more| + 1] == path[1..];
      steps, states := steps + more, states + path[1..];
    }

    ghost function Left(phase: Phase): int
      reads this
    {
      Measure(config, View(phase))
    }

    constructor (config: Config<R>, moves: (State<R>, bool) -> State<R>, picks: State<R> -> bool,
        sinkFails: State<R> -> bool)
      requires config.Valid() && Fair(config, moves)
      ensures this.config == config && this.moves == moves && this.picks == picks && this.sinkFails == sinkFails
      ensures At(Submitting)
    {
      this.config, this.moves, this.picks, this.sinkFails := config, moves, picks, sinkFails;
      shared := Init(config);
      jobsClosed, pending := false, map[];
      nextSubmit, nextBatch, offset, written := 0, 0, 0, [];
      steps, states := [], [Init(config)];
      new;
      assert View(Submitting) == Init(config);
      StartIsReached(config);
    }

    /** The others move; with `waiting` they have to, if they can. */
    method Yield(phase: Phase, waiting: bool)
      requires At(phase)
      modifies this`shared, this`steps, this`states
      ensures At(phase) && Left(phase) <= old(Left(phase))
      ensures waiting && old(OthersCanMove(config, View(phase))) ==> Left(phase) < old(Left(phase))
    {
      hide RunTo, Measure, Enabled, Apply, OthersRun, OthersCanMove;
      ghost var before := View(phase);
      ReachableInv(config, before);
      shared := moves(View(phase), waiting);
      OthersKeep(config, before, shared);
      RecordOthers(before, shared);
      assert pending == shared.pending;
      assert View(phase) == shared;
    }

    /** cancel() and closeJobs(). */
    method StopWorkers()
      modifies this`shared, this`jobsClosed
      ensures forall phase, err, first :: View(Stopping(err, first)) == Stop(old(View(phase)), err, first)
    {
      shared := shared.(cancelled := true);
      jobsClosed := true;
    }

    /** Send the next batch to the workers. */
    method Enqueue()
      requires At(Submitting) && MoreToSubmit(config, View(Submitting))
      requires WorkersStopped(View(Submitting)) ==> !picks(View(Submitting))
      modifies this`shared, this`nextSubmit, this`steps, this`states
      ensures At(Submitting) && Left(Submitting) < old(Left(Submitting)) && nextSubmit == old(nextSubmit) + 1
    {
      hide Fair, Reached, RunTo, Measure, MoreToSubmit;
      ghost var before := View(Submitting);
      SubmitOnce(config, before);
      Record(Submit, before);
      shared := shared.(jobs := shared.jobs + [nextSubmit]);
      nextSubmit := nextSubmit + 1;
      assert View(Submitting) == before.(jobs := before.jobs + [before.nextSubmit],
                                         nextSubmit := before.nextSubmit + 1);
    }

    /** Submit one batch, unless the workers have stopped. */
    method SubmitOne() returns (err: Option<Error>)
      requires At(Submitting) && MoreToSubmit(config, View(Submitting))
      modifies this`shared, this`nextSubmit, this`jobsClosed, this`steps, this`states
      ensures err.None? ==> At(Submitting) && Left(Submitting) < old(Left(Submitting))
      ensures err.None? ==> nextSubmit == old(nextSubmit) + 1 && jobsClosed == old(jobsClosed)
      ensures err.Some? ==> err.value == Cancelled && At(Stopping(Cancelled, true))
    {
      hide Fair, Reached, RunTo, Measure, Stop, WorkersStopped;
      Yield(Submitting, false);
      ghost var before := View(Submitting);
      if WorkersStopped(View(Submitting)) && picks(View(Submitting)) {
        SubmitStops(config, before);
        StopWorkers();
        Record(SubmitAbort, before);
        return Some(Cancelled);
      }
      Enqueue();
      err := None;
    }

    /** Fill the window; fails when the workers have stopped. */
    method FillWindow() returns (err: Option<Error>)
      requires At(Submitting)
      modifies this`shared, this`nextSubmit, this`jobsClosed, this`steps, this`states
      ensures err.None? ==> At(Submitting) && Left(Submitting) <= old(Left(Submitting)) && jobsClosed == old(jobsClosed)
      ensures err.None? ==> nextSubmit == Max(old(nextSubmit), Min(config.Total(), nextBatch + config.Window()))
      ensures err.Some? ==> err.value == Cancelled && At(Stopping(Cancelled, true))
    {
      hide Fair, Reached, RunTo, Measure;
      while nextSubmit < config.Total() && nextSubmit - nextBatch < config.Window()
        invariant At(Submitting) && Left(Submitting) <= old(Left(Submitting)) && jobsClosed == old(jobsClosed)
        invariant old(nextSubmit) <= nextSubmit <=
          Max(old(nextSubmit), Min(config.Total(), nextBatch + config.Window()))
        decreases config.Total() - nextSubmit
      {
        err := SubmitOne();
        if err.Some? { return; }
      }
      err := None;
    }

    /** Fill the window and close the queue after the last batch, never twice. */
    method SubmitBatches() returns (err: Option<Error>)
      requires At(Submitting)
      modifies this`shared, this`nextSubmit, this`jobsClosed, this`steps, this`states
      ensures err.None? ==> nextSubmit == Max(old(nextSubmit), Min(config.Total(), nextBatch + 2 * config.workers))
      ensures err.None? ==>
        jobsClosed == (nextSubmit == config.Total()) && At(Next()) && Left(Next()) < old(Left(Submitting))
      ensures err.Some? ==> err.value == Cancelled && At(Stopping(Cancelled, true))
    {
      hide Fair, Reached, RunTo, Measure, Enabled, Apply;
      WindowIs(config, View(Submitting));
      err := FillWindow();
      if err.Some? { return; }
      ghost var before := View(Submitting);
      SubmitEnds(config, before);
      Record(SubmitDone, before);
      if nextSubmit == config.Total() && !jobsClosed { jobsClosed := true; }
      assert View(Next()) == before.(jobsClosed := before.nextSubmit == config.Total(),
                                     phase := AfterSubmitting(config, before));
    }

    /** The phase after submitting. */
    function Next(): Phase
      reads this
    {
      if nextBatch < config.Total() then Receiving else Finishing
    }

    /** Wait until an answer, the end of the workers or the end of the context can be seen. */
    method Await()
      requires At(Receiving)
      modifies this`shared, this`steps, this`states
      ensures At(Receiving) && Left(Receiving) <= old(Left(Receiving))
      ensures shared.results != [] || shared.resultsClosed || shared.cancelled
    {
      while shared.results == [] && !shared.resultsClosed && !shared.cancelled
        invariant At(Receiving) && Left(Receiving) <= old(Left(Receiving))
        decreases Left(Receiving)
      {
        OthersMoveOn(config, View(Receiving));
        LeftIsNatural(Receiving);
        Yield(Receiving, true);
      }
    }

    lemma {:induction false} LeftIsNatural(phase: Phase)
      requires At(phase)
      ensures Left(phase) >= 0
    {
      ReachableInv(config, View(phase));
      MeasureIsNatural(config, View(phase));
    }

    /** The sink takes the next record of the batch. */
    method Put()
      requires At(Draining) && Writing(View(Draining)) && !shared.cancelled && !sinkFails(View(Draining))
      modifies this`offset, this`written, this`steps, this`states
      ensures At(Draining) && Left(Draining) < old(Left(Draining)) && offset == old(offset) + 1
      ensures written == old(written) + [pending[nextBatch][old(offset)]]
    {
      hide Fair, Reached, RunTo, Measure;
      ghost var before := View(Draining);
      WriteOnce(config, before);
      Record(Step.WriteRecord, before);
      written, offset := written + [pending[nextBatch][offset]], offset + 1;
      assert View(Draining) == before.(written := written, offset := offset);
    }

    /** Write one record, unless the context is done or the sink fails. */
    method WriteRecord() returns (err: Option<Error>)
      requires At(Draining) && nextBatch in pending && offset < |pending[nextBatch]|
      modifies this`shared, this`offset, this`written, this`jobsClosed, this`steps, this`states
      ensures err.None? ==> At(Draining) && Left(Draining) < old(Left(Draining))
      ensures err.None? ==> offset == old(offset) + 1 && written == old(written) + [pending[nextBatch][old(offset)]]
      ensures err.Some? ==> At(Stopping(err.value, false)) && offset == old(offset) && written == old(written)
    {
      hide Fair, Reached, RunTo, Measure, Stop, Enabled, Apply;
      Yield(Draining, false);
      ghost var before := View(Draining);
      if shared.cancelled {
        WriteStops(config, before);
        StopWorkers();
        Record(WriteCancelled, before);
        return Some(Cancelled);
      }
      if sinkFails(View(Draining)) {
        WriteStops(config, before);
        StopWorkers();
        Record(WriteFail, before);
        shared := shared.(fault := true);
        assert View(Stopping(WriteFailed, false)) == Stop(before, WriteFailed, false).(fault := true);
        return Some(WriteFailed);
      }
      Put();
      err := None;
    }

    /** Write the records of the next batch until done, until the sink fails, or until cancelled. */
    method WriteBatch() returns (err: Option<Error>)
      requires At(Draining) && nextBatch in pending && offset == 0
      modifies this`shared, this`offset, this`written, this`jobsClosed, this`steps, this`states
      ensures offset <= |pending[nextBatch]| && written == old(written) + pending[nextBatch][..offset]
      ensures err.None? ==> At(Draining) && Left(Draining) <= old(Left(Draining)) && offset == |pending[nextBatch]|
      ensures err.Some? ==> At(Stopping(err.value, false)) && offset < |pending[nextBatch]|
    {
      hide Fair, Reached, RunTo, Measure, Stop;
      ghost var records := pending[nextBatch];
      while offset < |pending[nextBatch]|
        invariant offset <= |records|
        invariant At(Draining) && Left(Draining) <= old(Left(Draining))
        invariant written == old(written) + records[..offset]
        decreases |records| - offset
      {
        OneMoreOf(old(written), records, offset);
        err := WriteRecord();
        if err.Some? { return; }
      }
      err := None;
    }

    /** Write the next batch, which has been answered, and drop it from the pending ones. */
    method WriteNext() returns (err: Option<Error>)
      requires At(Draining) && nextBatch in pending && offset == 0
      modifies this
      ensures old(written) <= written
      ensures err.None? ==> At(Draining) && Left(Draining) < old(Left(Draining)) && offset == 0
      ensures err.None? ==> pending == old(pending) - {old(nextBatch)} && nextBatch == old(nextBatch) + 1
      ensures err.Some? ==> At(Stopping(err.value, false))
    {
      hide Fair, Reached, RunTo, Measure, Stop, Enabled, Apply;
      err := WriteBatch();
      if err.Some? { return; }
      ghost var before := View(Draining);
      AdvanceOnce(config, before);
      Record(Step.Advance, before);
      pending := pending - {nextBatch};
      nextBatch, offset := nextBatch + 1, 0;
      assert View(Draining) == before.(pending := pending, nextBatch := nextBatch, offset := 0);
    }

    /** Write every batch that is next in order and has been answered. */
    method DrainReady() returns (err: Option<Error>)
      requires At(Draining) && offset == 0
      modifies this
      ensures old(written) <= written
      ensures err.None? ==> At(Submitting) && Left(Submitting) < old(Left(Draining)) && offset == 0
      ensures err.None? ==> nextBatch >= old(nextBatch) && nextBatch !in old(pending.Keys)
      ensures err.None? ==> forall k :: old(nextBatch) <= k < nextBatch ==> k in old(pending.Keys)
      ensures err.Some? ==> At(Stopping(err.value, false))
    {
      hide Fair, Reached, RunTo, Measure;
      while nextBatch in pending
        invariant At(Draining) && Left(Draining) <= old(Left(Draining)) && offset == 0
        invariant nextBatch >= old(nextBatch) && pending.Keys <= old(pending.Keys) && old(written) <= written
        invariant forall k :: k >= nextBatch && k in old(pending.Keys) ==> k in pending
        invariant forall k :: old(nextBatch) <= k < nextBatch ==> k in old(pending.Keys)
        decreases pending.Keys
      {
        err := WriteNext();
        if err.Some? { return; }
      }
      ghost var before := View(Draining);
      DrainOnce(config, before);
      Record(DrainDone, before);
      assert View(Submitting) == before.(phase := Submitting);
      err := None;
    }

    /** Wait for the workers and return: their error comes first where the code looks at it first. */
    method End(phase: Phase) returns (result: Option<Error>)
      requires At(phase) && (phase.Stopping? || phase.Finishing?)
      modifies this`shared, this`jobsClosed, this`steps, this`states
      ensures At(Returned(result))
    {
      hide Fair, Reached, RunTo, Measure, Enabled, Apply;
      while !shared.resultsClosed
        invariant At(phase)
        decreases Left(phase)
      {
        OthersMoveOn(config, View(phase));
        LeftIsNatural(phase);
        Yield(phase, true);
      }
      ReturnOnce(config, View(phase));
      Record(Return, View(phase));
      result := ResultOf(View(phase));
      jobsClosed := true;
    }

    /** Take the answer that has come. */
    method Receive()
      requires At(Receiving) && shared.results != [] && (shared.cancelled ==> !picks(View(Receiving)))
      modifies this`shared, this`pending, this`steps, this`states
      ensures At(Draining) && Left(Draining) < old(Left(Receiving)) && offset == 0
      ensures var a := old(shared.results[0]); pending == old(pending)[a.index := a.records]
    {
      hide Fair, Reached, RunTo, Measure, Enabled, Apply;
      ghost var before := View(Receiving);
      ReceiveOnce(config, before);
      Record(ReceiveResult, before);
      var answer := shared.results[0];
      shared := shared.(results := shared.results[1..]);
      pending := pending[answer.index := answer.records];
      assert View(Draining) == before.(results := before.results[1..], pending := pending, phase := Draining);
    }

    /** Take one answer and write what can be written then; fails on cancellation, when the workers have
        stopped early, or when a write fails. */
    method ReceiveAndWrite() returns (stop: Option<Phase>)
      requires At(Receiving)
      modifies this
      ensures old(written) <= written
      ensures stop.None? ==> At(Submitting) && Left(Submitting) < old(Left(Receiving))
      ensures stop.Some? ==> At(stop.value) && stop.value.Stopping?
    {
      hide Fair, Reached, RunTo, Measure, Enabled, Apply;
      Await();
      ReceiveStops(config, View(Receiving));
      if shared.cancelled && ((shared.results == [] && !shared.resultsClosed) || picks(View(Receiving))) {
        ghost var before := View(Receiving);
        StopWorkers();
        Record(ReceiveCancelled, before);
        return Some(Stopping(Cancelled, true));
      }
      if shared.results == [] {
        Record(ReceiveClosed, View(Receiving));
        return Some(Stopping(StoppedEarly, true));
      }
      Receive();
      var err := DrainReady();
      if err.Some? { return Some(Stopping(err.value, false)); }
      return None;
    }

    /** One round of the main loop. */
    method Round() returns (stop: Option<Phase>)
      requires At(Receiving)
      modifies this
      ensures stop.None? ==> At(Next()) && Left(Next()) < old(Left(Receiving))
      ensures stop.Some? ==> At(stop.value) && stop.value.Stopping?
    {
      stop := ReceiveAndWrite();
      if stop.None? {
        var err := SubmitBatches();
        if err.Some? { stop := Some(Stopping(Cancelled, true)); }
      }
    }

    /** The main loop, after the first batches have been submitted. */
    method Loop() returns (stop: Phase)
      requires At(Next())
      modifies this
      ensures At(stop) && (stop.Stopping? || stop.Finishing?)
    {
      while nextBatch < config.Total()
        invariant At(Next())
        decreases Left(Next())
      {
        LeftIsNatural(Next());
        var early := Round();
        if early.Some? { return early.value; }
      }
      stop := Finishing;
    }

    /** The coordinator from start to return. It always returns, and then what is written is a prefix of
        the outputs in index order: all of them if there is no error, and there is none without a fault.
        The error is the one the steps taken call for. */
    method Run() returns (result: Option<Error>)
      requires At(Submitting)
      modifies this
      ensures At(Returned(result))
      ensures written <= Flatten(config.outputs)
      ensures result == None ==> written == Flatten(config.outputs)
      ensures !shared.fault ==> result == None
      ensures jobsClosed && forall w <- shared.workers :: w.Exited?
      ensures Explained(steps, result)
    {
      var err := SubmitBatches();
      var stop := Stopping(Cancelled, true);
      if err.None? { stop := Loop(); }
      result := End(stop);
      ReturnedIsComplete(result);
    }

    lemma {:induction false} ReturnedIsComplete(result: Option<Error>)
      requires At(Returned(result))
      ensures written <= Flatten(config.outputs)
      ensures result == None ==> written == Flatten(config.outputs)
      ensures !shared.fault ==> result == None
      ensures jobsClosed && forall w <- shared.workers :: w.Exited?
      ensures Explained(steps, result)
    {
      var s := View(Returned(result));
      ErrorOfRun(config, steps, states);
      WrittenIsPrefix(config, s);
      SuccessIsComplete(config, s);
      ReachableInv(config, s);
    }
  }

  lemma {:induction false} EndOfRun<R>(c: Config<R>, picks: State<R> -> bool, sinkFails: State<R> -> bool,
      steps: seq<Step>, states: seq<State<R>>, s: State<R>)
    requires RunTo(c, picks, sinkFails, steps, states, s)
    ensures |states| == |steps| + 1 && states[|steps|] == s && IsRun(c, steps, states) && states[0] == Init(c)
  {
  }

  /** Processing a list of items with any number of workers and any batch size: for every schedule, every
      failure and every cancellation it returns, having written the records of the first items in item
      order, of all of them when it reports no error. `steps` and `states` are the run it took: what is written when
      it has returned, and how the sink and the select statements decided on the way, explain what it reports. */
  method Process<I, R(!new)>(items: seq<I>, render: I -> seq<R>, workers: int, batchSize: int,
      moves: (State<R>, bool) -> State<R>, picks: State<R> -> bool, sinkFails: State<R> -> bool)
    returns (written: seq<R>, result: Option<Error>, ghost steps: seq<Step>, ghost states: seq<State<R>>)
    requires Fair(Configure(items, render, workers, batchSize), moves)
    ensures written <= Render(render, items)
    ensures result == None ==> written == Render(render, items)
    ensures |states| == |steps| + 1 && states[|steps|].written == written && states[|steps|].phase == Returned(result)
    ensures RunTo(Configure(items, render, workers, batchSize), picks, sinkFails, steps, states, states[|steps|])
    ensures Explained(steps, result) && ((forall step <- steps :: !IsFault(step)) ==> result == None)
  {
    hide Fair, RunTo, Explained, Render;
    var config := Configure(items, render, workers, batchSize);
    var coordinator := new Coordinator(config, moves, picks, sinkFails);
    result := coordinator.Run();
    written, steps, states := coordinator.written, coordinator.steps, coordinator.states;
    EndOfRun(config, picks, sinkFails, steps, states, coordinator.View(Returned(result)));
    if forall step <- steps :: !IsFault(step) { UndisturbedRun(config, steps, states); }
    RunWritesAllItems(items, render, workers, batchSize, coordinator.View(Returned(result)));
  }
}
