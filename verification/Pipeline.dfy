/** The ordered worker pipeline shared by ProcessDatabase and processArchive.

    A coordinator feeds batch numbers to W workers through a bounded channel `jobs`,
    the workers answer through a bounded channel `results` in any order, and the
    coordinator writes the batches strictly in index order inside a sliding window of 2W.
    The protocol is a transition system: `Step` names one atomic action of one goroutine,
    `Enabled` says when it may fire and `Apply` gives its effect, so a run is any
    interleaving of coordinator, workers, waiter, failures and cancellation. */
module Pipeline {
  import opened Wrappers

  datatype Error = WorkerFailed | Cancelled | WriteFailed | StoppedEarly

  datatype Worker = Idle | Busy(batch: nat) | Exited

  datatype Answer<R> = Answer(index: nat, records: seq<R>)

  /** Where the coordinator is. `Panicked` stands for a Go run-time panic:
      a send on a closed channel. */
  datatype Phase =
    | Submitting
    | Receiving
    | Draining
    | Stopping(err: Error, workersFirst: bool)   // workersFirst: a worker's error takes precedence
    | Finishing
    | Returned(result: Option<Error>)
    | Panicked

  /** The number of workers, and what a worker computes for each batch. */
  datatype Config<R> = Config(workers: nat, outputs: seq<seq<R>>) {
    ghost predicate Valid() { workers >= 1 }

    function Total(): nat { |outputs| }

    function Capacity(): nat { workers * 2 }

    function Window(): (w: nat)
      ensures workers >= 1 ==> w == Capacity()
      ensures w >= 1
    {
      if workers * 2 >= 1 then workers * 2 else 1
    }
  }

  datatype State<R> = State(
    jobs: seq<nat>,
    jobsClosed: bool,
    workers: seq<Worker>,
    results: seq<Answer<R>>,
    resultsClosed: bool,
    groupErr: Option<Error>,   // first error a worker returned; it cancels the workers' context
    cancelled: bool,           // processCtx
    fault: bool,               // some environment fault happened: cancellation, worker or write failure
    lost: seq<nat>,            // batches dropped by workers that returned an error
    pending: map<nat, seq<R>>,
    nextSubmit: nat,
    nextBatch: nat,
    offset: nat,               // records of batch nextBatch written so far
    written: seq<R>,
    phase: Phase
  )

  datatype Step =
    // coordinator
    | Submit | SubmitAbort | SubmitDone
    | ReceiveResult | ReceiveCancelled | ReceiveClosed
    | WriteRecord | WriteFail | WriteCancelled | Advance | DrainDone
    | Return
    // worker i
    | Take(i: nat) | Send(i: nat) | Fail(i: nat) | ExitClosed(i: nat) | ExitCancelled(i: nat)
    // goroutine that waits for the group, and the outside world
    | CloseResults
    | Cancel

  function Init<R>(c: Config<R>): State<R> {
    State([], false, seq(c.workers, _ => Idle), [], false, None, false, false, [], map[], 0, 0, 0, [], Submitting)
  }

  predicate WorkersStopped<R>(s: State<R>) {
    s.cancelled || s.groupErr.Some? || s.resultsClosed
  }

  predicate MoreToSubmit<R>(c: Config<R>, s: State<R>) {
    s.nextSubmit < c.Total() && s.nextSubmit - s.nextBatch < c.Window()
  }

  predicate HasIdle<R>(s: State<R>, i: nat) { i < |s.workers| && s.workers[i].Idle? }

  predicate HasBusy<R>(s: State<R>, i: nat) { i < |s.workers| && s.workers[i].Busy? }

  /** A step of a worker, of the goroutine that waits for them, or of the outside world. */
  predicate IsOther(step: Step) {
    step.Take? || step.Send? || step.Fail? || step.ExitClosed?
    || step.ExitCancelled? || step.CloseResults? || step.Cancel?
  }

  /** Steps the environment decides on: a worker fails, a write fails, or the run is cancelled from outside. */
  predicate IsFault(step: Step) { step.Cancel? || step.Fail? || step.WriteFail? }

  /** When a step of the others may fire. */
  predicate OtherEnabled<R>(c: Config<R>, s: State<R>, step: Step)
    requires IsOther(step)
  {
    match step
    case Take(i) => HasIdle(s, i) && |s.jobs| > 0
    case Send(i) => HasBusy(s, i) && s.workers[i].batch < c.Total() && |s.results| < c.Capacity()
    case Fail(i) => HasBusy(s, i)
    case ExitClosed(i) => HasIdle(s, i) && |s.jobs| == 0 && s.jobsClosed
    case ExitCancelled(i) => (HasIdle(s, i) || HasBusy(s, i)) && WorkersStopped(s)
    case CloseResults => !s.resultsClosed && forall w <- s.workers :: w.Exited?
    case Cancel => !s.cancelled && !s.phase.Returned?
  }

  predicate Writing<R>(s: State<R>) {
    s.phase.Draining? && s.nextBatch in s.pending && s.offset < |s.pending[s.nextBatch]|
  }

  /** When a step of the coordinator may fire. */
  predicate CoordinatorEnabled<R>(c: Config<R>, s: State<R>, step: Step)
    requires !IsOther(step)
  {
    match step
    case Submit => s.phase.Submitting? && MoreToSubmit(c, s) && |s.jobs| < c.Capacity()
    case SubmitAbort => s.phase.Submitting? && MoreToSubmit(c, s) && WorkersStopped(s)
    case SubmitDone => s.phase.Submitting? && !MoreToSubmit(c, s)
    case ReceiveResult => s.phase.Receiving? && |s.results| > 0
    case ReceiveCancelled => s.phase.Receiving? && s.cancelled
    case ReceiveClosed => s.phase.Receiving? && |s.results| == 0 && s.resultsClosed
    case WriteRecord => Writing(s) && !s.cancelled
    case WriteFail => Writing(s) && !s.cancelled
    case WriteCancelled => Writing(s) && s.cancelled
    case Advance => s.phase.Draining? && s.nextBatch in s.pending && s.offset >= |s.pending[s.nextBatch]|
    case DrainDone => s.phase.Draining? && s.nextBatch !in s.pending
    case Return => (s.phase.Stopping? || s.phase.Finishing?) && s.resultsClosed
  }

  predicate Enabled<R>(c: Config<R>, s: State<R>, step: Step) {
    if IsOther(step) then OtherEnabled(c, s, step) else CoordinatorEnabled(c, s, step)
  }

  function WorkerReturns<R>(s: State<R>, i: nat, err: Error): State<R>
    requires i < |s.workers|
  {
    s.(workers := s.workers[i := Exited],
    groupErr := if s.groupErr.Some? then s.groupErr else Some(err),
    lost := if s.workers[i].Busy? then s.lost + [s.workers[i].batch] else s.lost)
  }

  /** cancel() and closeJobs(), then wait for the workers. */
  function Stop<R>(s: State<R>, err: Error, workersFirst: bool): State<R> {
    s.(cancelled := true, jobsClosed := true, phase := Stopping(err, workersFirst))
  }

  function ApplyOther<R>(c: Config<R>, s: State<R>, step: Step): State<R>
    requires IsOther(step) && OtherEnabled(c, s, step)
  {
    match step
    case Take(i) => s.(jobs := s.jobs[1..], workers := s.workers[i := Busy(s.jobs[0])])
    case Send(i) =>
      if s.resultsClosed then s.(phase := Panicked)
      else
        var b := s.workers[i].batch;
        s.(results := s.results + [Answer(b, c.outputs[b])], workers := s.workers[i := Idle])
    case Fail(i) => WorkerReturns(s, i, WorkerFailed).(fault := true)
    case ExitClosed(i) => s.(workers := s.workers[i := Exited])
    case ExitCancelled(i) => WorkerReturns(s, i, Cancelled)
    case CloseResults => s.(resultsClosed := true)
    case Cancel => s.(cancelled := true, fault := true)
  }

  function ApplyCoordinator<R>(c: Config<R>, s: State<R>, step: Step): State<R>
    requires !IsOther(step) && CoordinatorEnabled(c, s, step)
  {
    match step
    case Submit =>
      if s.jobsClosed then s.(phase := Panicked)
      else s.(jobs := s.jobs + [s.nextSubmit], nextSubmit := s.nextSubmit + 1)
    case SubmitAbort => Stop(s, Cancelled, true)
    case SubmitDone =>
      s.(jobsClosed := s.jobsClosed || s.nextSubmit == c.Total(),
      phase := if s.nextBatch < c.Total() then Receiving else Finishing)
    case ReceiveResult =>
      s.(results := s.results[1..],
      pending := s.pending[s.results[0].index := s.results[0].records],
      phase := Draining)
    case ReceiveCancelled => Stop(s, Cancelled, true)
    case ReceiveClosed => s.(phase := Stopping(StoppedEarly, true))
    case WriteRecord =>
      s.(written := s.written + [s.pending[s.nextBatch][s.offset]], offset := s.offset + 1)
    case WriteFail => Stop(s, WriteFailed, false).(fault := true)
    case WriteCancelled => Stop(s, Cancelled, false)
    case Advance => s.(pending := s.pending - {s.nextBatch}, nextBatch := s.nextBatch + 1, offset := 0)
    case DrainDone => s.(phase := Submitting)
    case Return =>
      s.(jobsClosed := true,
      phase := Returned(
        if s.phase.Stopping? && (s.groupErr.None? || !s.phase.workersFirst) then Some(s.phase.err)
        else s.groupErr))
  }

  function Apply<R>(c: Config<R>, s: State<R>, step: Step): State<R>
    requires Enabled(c, s, step)
  {
    if IsOther(step) then ApplyOther(c, s, step) else ApplyCoordinator(c, s, step)
  }

  /** A run is a sequence of steps, each enabled where it fires. */
  ghost predicate IsRun<R>(c: Config<R>, steps: seq<Step>, states: seq<State<R>>) {
    && |states| == |steps| + 1
    && (forall k :: 0 <= k < |steps| ==>
          Enabled(c, states[k], steps[k]) && states[k + 1] == Apply(c, states[k], steps[k]))
  }

  ghost predicate Reachable<R(!new)>(c: Config<R>, s: State<R>) {
    exists steps: seq<Step>, states: seq<State<R>> ::
      IsRun(c, steps, states) && states[0] == Init(c) && states[|states| - 1] == s
  }

  // ---------------------------------------------------------------- accounting

  function Tally(hit: bool): nat { if hit then 1 else 0 }

  /** How many workers hold batch k, and how many hold any batch. */
  function BusyWith(ws: seq<Worker>, k: nat): nat {
    if ws == [] then 0 else Tally(ws[0] == Busy(k)) + BusyWith(ws[1..], k)
  }

  function BusyCount(ws: seq<Worker>): nat {
    if ws == [] then 0 else Tally(ws[0].Busy?) + BusyCount(ws[1..])
  }

  function Occurrences(xs: seq<nat>, k: nat): nat {
    if xs == [] then 0 else Tally(xs[0] == k) + Occurrences(xs[1..], k)
  }

  function AnswersFor<R>(answers: seq<Answer<R>>, k: nat): nat {
    if answers == [] then 0 else Tally(answers[0].index == k) + AnswersFor(answers[1..], k)
  }

  /** In how many places batch k is: queued, with a worker, answered, pending or lost. */
  function Places<R>(s: State<R>, k: nat): nat {
    Occurrences(s.jobs, k) + BusyWith(s.workers, k) + AnswersFor(s.results, k)
    + Tally(k in s.pending) + Occurrences(s.lost, k)
  }

  lemma {:induction false} BusyUpdate(ws: seq<Worker>, i: nat, w: Worker, k: nat)
    requires i < |ws|
    ensures BusyWith(ws[i := w], k) + Tally(ws[i] == Busy(k)) == BusyWith(ws, k) + Tally(w == Busy(k))
    ensures BusyCount(ws[i := w]) + Tally(ws[i].Busy?) == BusyCount(ws) + Tally(w.Busy?)
  {
    if i == 0 {
      assert ws[i := w][1..] == ws[1..];
    } else {
      BusyUpdate(ws[1..], i - 1, w, k);
      assert ws[i := w][1..] == ws[1..][i - 1 := w];
    }
  }

  lemma {:induction false} NoneBusy(ws: seq<Worker>, k: nat)
    requires forall w <- ws :: !w.Busy?
    ensures BusyCount(ws) == BusyWith(ws, k) == 0
  {
    if ws != [] {
      NoneBusy(ws[1..], k);
    }
  }

  lemma {:induction false} OccurrencesAppend(xs: seq<nat>, x: nat, k: nat)
    ensures Occurrences(xs + [x], k) == Occurrences(xs, k) + Tally(x == k)
  {
    if xs != [] {
      OccurrencesAppend(xs[1..], x, k);
      assert (xs + [x])[1..] == xs[1..] + [x];
    }
  }

  lemma {:induction false} AnswersAppend<R>(xs: seq<Answer<R>>, x: Answer<R>, k: nat)
    ensures AnswersFor(xs + [x], k) == AnswersFor(xs, k) + Tally(x.index == k)
  {
    if xs != [] {
      AnswersAppend(xs[1..], x, k);
      assert (xs + [x])[1..] == xs[1..] + [x];
    }
  }

  function Flatten<R>(parts: seq<seq<R>>): seq<R> {
    if parts == [] then [] else Flatten(parts[..|parts| - 1]) + parts[|parts| - 1]
  }

  lemma {:induction false} FlattenPrefix<R>(parts: seq<seq<R>>, n: nat)
    requires n <= |parts|
    ensures Flatten(parts[..n]) <= Flatten(parts)
    ensures n < |parts| ==> Flatten(parts[..n]) + parts[n] <= Flatten(parts)
    decreases |parts|
  {
    if n == |parts| {
      assert parts[..n] == parts;
    } else {
      var init := parts[..|parts| - 1];
      FlattenPrefix(init, n);
      assert init[..n] == parts[..n];
      if n == |parts| - 1 {
        assert init[..n] == init;
      }
    }
  }

  // ---------------------------------------------------------------- the invariant

  /** What has been written: whole batches before nextBatch, then `offset` records of it. */
  ghost predicate WrittenInOrder<R>(c: Config<R>, s: State<R>) {
    && s.nextBatch <= s.nextSubmit <= c.Total()
    && (s.offset > 0 ==> s.nextBatch < c.Total() && s.offset <= |c.outputs[s.nextBatch]|)
    && s.written ==
       Flatten(c.outputs[..s.nextBatch]) + (if s.offset > 0 then c.outputs[s.nextBatch][..s.offset] else [])
  }

  /** Whatever travels with a batch number is what that batch computes to. */
  ghost predicate AnswersRight<R>(c: Config<R>, s: State<R>) {
    && (forall a <- s.results :: a.index < c.Total() && a.records == c.outputs[a.index])
    && (forall k <- s.pending.Keys :: k < c.Total() && s.pending[k] == c.outputs[k])
  }

  /** Every submitted and unwritten batch is in exactly one place. */
  ghost predicate Conserved<R>(c: Config<R>, s: State<R>) {
    && (forall k: nat :: Places(s, k) == Tally(s.nextBatch <= k < s.nextSubmit))
    && |s.jobs| + BusyCount(s.workers) + |s.results| + |s.pending| + |s.lost| == s.nextSubmit - s.nextBatch
    && s.nextSubmit - s.nextBatch <= c.Window()
    && |s.workers| == c.workers
  }

  ghost predicate Shutdown<R>(c: Config<R>, s: State<R>) {
    && (s.groupErr.None? ==> s.lost == [])
    && (s.resultsClosed ==> forall w <- s.workers :: w.Exited?)
    && (s.groupErr.None? && (exists w <- s.workers :: w.Exited?) ==> s.jobsClosed && s.jobs == [])
    && (!s.fault ==> !s.cancelled && s.groupErr.None?)
  }

  ghost predicate PhaseOk<R>(c: Config<R>, s: State<R>) {
    match s.phase
    case Submitting =>
      && s.offset == 0 && s.nextBatch !in s.pending
      && (s.jobsClosed ==> s.nextSubmit == c.Total())
    case Receiving =>
      && s.offset == 0 && s.nextBatch !in s.pending && s.nextBatch < c.Total()
      && !MoreToSubmit(c, s)
      && (s.jobsClosed <==> s.nextSubmit == c.Total())
    case Draining =>
      && (s.jobsClosed ==> s.nextSubmit == c.Total())
      && (s.offset > 0 ==> s.nextBatch in s.pending)
    case Stopping(_, _) =>
      && ((s.cancelled && s.jobsClosed) || s.resultsClosed)
      && s.fault
    case Finishing =>
      && s.offset == 0 && s.nextBatch == c.Total() && s.jobsClosed
    case Returned(r) =>
      && s.jobsClosed && s.resultsClosed
      && (r.None? ==> s.offset == 0 && s.nextBatch == c.Total())
      && (r.Some? ==> s.fault)
    case Panicked => false
  }

  ghost predicate Inv<R>(c: Config<R>, s: State<R>) {
    WrittenInOrder(c, s) && AnswersRight(c, s) && Conserved(c, s) && Shutdown(c, s) && PhaseOk(c, s)
  }

  lemma {:induction false} InvInit<R>(c: Config<R>)
    requires c.Valid()
    ensures Inv(c, Init(c))
  {
    var s := Init(c);
    forall k: nat ensures Places(s, k) == 0 && BusyCount(s.workers) == 0 {
      NoneBusy(s.workers, k);
    }
    assert BusyCount(s.workers) == 0 by { NoneBusy(s.workers, 0); }
    assert c.outputs[..0] == [];
  }

  lemma {:induction false} BusyIsHeld<R>(c: Config<R>, s: State<R>, i: nat)
    requires Conserved(c, s) && s.nextBatch <= s.nextSubmit && HasBusy(s, i)
    ensures s.nextBatch <= s.workers[i].batch < s.nextSubmit
    ensures |s.results| < s.nextSubmit - s.nextBatch
  {
    var b := s.workers[i].batch;
    BusyUpdate(s.workers, i, Idle, b);
    assert Places(s, b) >= 1;
  }

  /** No send ever blocks: there is always room for what the protocol may send. */
  lemma {:induction false} SendsNeverBlock<R>(c: Config<R>, s: State<R>)
    requires c.Valid() && Inv(c, s)
    ensures s.phase.Submitting? && MoreToSubmit(c, s) ==> |s.jobs| < c.Capacity()
    ensures forall i: nat :: HasBusy(s, i) ==> |s.results| < c.Capacity() && s.workers[i].batch < c.Total()
  {
    forall i: nat | HasBusy(s, i)
      ensures |s.results| < c.Capacity() && s.workers[i].batch < c.Total()
    {
      BusyIsHeld(c, s, i);
    }
  }

  // ---------------------------------------------------------------- what steps leave alone

  /** What the others leave alone. */
  lemma {:induction false} OtherFrame<R>(c: Config<R>, s: State<R>, step: Step)
    requires IsOther(step) && Enabled(c, s, step) && (step.Send? ==> !s.resultsClosed)
    ensures var t := Apply(c, s, step);
            && t.phase == s.phase && t.offset == s.offset && t.nextBatch == s.nextBatch && t.nextSubmit == s.nextSubmit
            && t.pending == s.pending && t.jobsClosed == s.jobsClosed && t.written == s.written
  {
    match step
    case Take(i) =>
    case Send(i) =>
    case Fail(i) =>
    case ExitClosed(i) =>
    case ExitCancelled(i) =>
    case CloseResults =>
    case Cancel =>
  }

  lemma {:induction false} OthersAnswer<R>(c: Config<R>, s: State<R>, step: Step)
    requires IsOther(step) && Enabled(c, s, step) && !step.Send?
    ensures Apply(c, s, step).results == s.results
  {
    match step
    case Take(i) =>
    case Fail(i) =>
    case ExitClosed(i) =>
    case ExitCancelled(i) =>
    case CloseResults =>
    case Cancel =>
  }

  /** What the others only turn on. */
  lemma {:induction false} OtherOnly<R>(c: Config<R>, s: State<R>, step: Step)
    requires IsOther(step) && Enabled(c, s, step)
    ensures var t := Apply(c, s, step);
            (s.cancelled ==> t.cancelled) && (s.resultsClosed ==> t.resultsClosed) && (s.fault ==> t.fault)
  {
    match step
    case Take(i) =>
    case Send(i) =>
    case Fail(i) =>
    case ExitClosed(i) =>
    case ExitCancelled(i) =>
    case CloseResults =>
    case Cancel =>
  }

  /** What the coordinator leaves alone. */
  lemma {:induction false} CoordinatorFrame<R>(c: Config<R>, s: State<R>, step: Step)
    requires !IsOther(step) && Enabled(c, s, step)
    ensures var t := Apply(c, s, step);
            t.workers == s.workers && t.resultsClosed == s.resultsClosed && t.groupErr == s.groupErr && t.lost == s.lost
  {
    match step
    case Submit =>
    case SubmitAbort =>
    case SubmitDone =>
    case ReceiveResult =>
    case ReceiveCancelled =>
    case ReceiveClosed =>
    case WriteRecord =>
    case WriteFail =>
    case WriteCancelled =>
    case Advance =>
    case DrainDone =>
    case Return =>
  }

  lemma {:induction false} ChannelsFrame<R>(c: Config<R>, s: State<R>, step: Step)
    requires !IsOther(step) && Enabled(c, s, step)
    ensures !step.ReceiveResult? ==> Apply(c, s, step).results == s.results
    ensures !step.Submit? ==> Apply(c, s, step).jobs == s.jobs
  {
  }

  lemma {:induction false} WritingFrame<R>(c: Config<R>, s: State<R>, step: Step)
    requires !IsOther(step) && Enabled(c, s, step) && !step.Advance? && !step.WriteRecord?
    ensures var t := Apply(c, s, step);
            && t.written == s.written && t.nextBatch == s.nextBatch && t.offset == s.offset
            && (!step.ReceiveResult? ==> t.pending == s.pending) && (!step.Submit? ==> t.nextSubmit == s.nextSubmit)
  {
    match step
    case Submit =>
    case SubmitAbort =>
    case SubmitDone =>
    case ReceiveResult =>
    case ReceiveCancelled =>
    case ReceiveClosed =>
    case WriteFail =>
    case WriteCancelled =>
    case DrainDone =>
    case Return =>
  }

  // ---------------------------------------------------------------- each step, on the account of batches

  predicate IsWorkerStep(step: Step, i: nat) {
    step == Take(i) || step == Send(i) || step == Fail(i) || step == ExitClosed(i) || step == ExitCancelled(i)
  }

  /** A worker takes a batch, answers with it, drops it, or ends without one: it stays in one place. */
  lemma {:induction false} PlacesTake<R>(c: Config<R>, s: State<R>, i: nat, k: nat)
    requires Enabled(c, s, Take(i))
    ensures var t := Apply(c, s, Take(i)); Places(t, k) == Places(s, k) && InFlight(t) == InFlight(s)
  {
    BusyUpdate(s.workers, i, Busy(s.jobs[0]), k);
  }

  lemma {:induction false} PlacesSend<R>(c: Config<R>, s: State<R>, i: nat, k: nat)
    requires Enabled(c, s, Send(i)) && !s.resultsClosed
    ensures var t := Apply(c, s, Send(i)); Places(t, k) == Places(s, k) && InFlight(t) == InFlight(s)
  {
    var b := s.workers[i].batch;
    BusyUpdate(s.workers, i, Idle, k);
    AnswersAppend(s.results, Answer(b, c.outputs[b]), k);
  }

  lemma {:induction false} PlacesReturn<R>(s: State<R>, i: nat, err: Error, k: nat)
    requires i < |s.workers|
    ensures var t := WorkerReturns(s, i, err); Places(t, k) == Places(s, k) && InFlight(t) == InFlight(s)
  {
    BusyUpdate(s.workers, i, Exited, k);
    var t := WorkerReturns(s, i, err);
    assert t.workers == s.workers[i := Exited] && t.jobs == s.jobs && t.results == s.results && t.pending == s.pending;
    if s.workers[i].Busy? {
      OccurrencesAppend(s.lost, s.workers[i].batch, k);
      assert t.lost == s.lost + [s.workers[i].batch];
    } else {
      assert t.lost == s.lost;
    }
  }

  lemma {:induction false} PlacesExit<R>(c: Config<R>, s: State<R>, i: nat, k: nat)
    requires Enabled(c, s, ExitClosed(i))
    ensures var t := Apply(c, s, ExitClosed(i)); Places(t, k) == Places(s, k) && InFlight(t) == InFlight(s)
  {
    BusyUpdate(s.workers, i, Exited, k);
  }

  function InFlight<R>(s: State<R>): nat { |s.jobs| + BusyCount(s.workers) + |s.results| + |s.lost| }

  lemma {:induction false} PlacesWorker<R>(c: Config<R>, s: State<R>, i: nat, step: Step, k: nat)
    requires IsWorkerStep(step, i) && Enabled(c, s, step) && (step.Send? ==> !s.resultsClosed)
    ensures var t := Apply(c, s, step); Places(t, k) == Places(s, k) && InFlight(t) == InFlight(s)
  {
    match step
    case Take(_) => PlacesTake(c, s, i, k);
    case Send(_) => PlacesSend(c, s, i, k);
    case Fail(_) =>
      PlacesReturn(s, i, WorkerFailed, k);
      SamePlaces(WorkerReturns(s, i, WorkerFailed), Apply(c, s, step), k);
    case ExitClosed(_) => PlacesExit(c, s, i, k);
    case ExitCancelled(_) => PlacesReturn(s, i, Cancelled, k);
  }

  lemma {:induction false} SamePlaces<R>(s: State<R>, t: State<R>, k: nat)
    requires t.jobs == s.jobs && t.workers == s.workers && t.results == s.results && t.pending == s.pending
             && t.lost == s.lost
    ensures Places(t, k) == Places(s, k) && InFlight(t) == InFlight(s)
  {
  }

  lemma {:induction false} WorkerFrame<R>(c: Config<R>, s: State<R>, i: nat, step: Step)
    requires IsWorkerStep(step, i) && Enabled(c, s, step)
    ensures var t := Apply(c, s, step);
            t.pending == s.pending && t.nextSubmit == s.nextSubmit && t.nextBatch == s.nextBatch
            && |t.workers| == |s.workers|
  {
    match step
    case Take(_) =>
    case Send(_) =>
    case Fail(_) =>
    case ExitClosed(_) =>
    case ExitCancelled(_) =>
  }

  lemma {:induction false} ConservedWorker<R>(c: Config<R>, s: State<R>, i: nat, step: Step)
    requires IsWorkerStep(step, i) && Enabled(c, s, step) && (step.Send? ==> !s.resultsClosed)
    requires Conserved(c, s)
    ensures Conserved(c, Apply(c, s, step))
  {
    var t := Apply(c, s, step);
    WorkerFrame(c, s, i, step);
    PlacesWorker(c, s, i, step, 0);
    forall k: nat ensures Places(t, k) == Places(s, k) { PlacesWorker(c, s, i, step, k); }
    AccountsKept(c, s, t);
  }

  lemma {:induction false} SubmitQueues<R>(c: Config<R>, s: State<R>, k: nat)
    requires Enabled(c, s, Submit)
    ensures Places(Apply(c, s, Submit), k) == Places(s, k) + Tally(!s.jobsClosed && k == s.nextSubmit)
  {
    OccurrencesAppend(s.jobs, s.nextSubmit, k);
  }

  lemma {:induction false} ConservedSubmit<R>(c: Config<R>, s: State<R>)
    requires Conserved(c, s) && s.nextBatch <= s.nextSubmit && Enabled(c, s, Submit)
    ensures Conserved(c, Apply(c, s, Submit))
  {
    var t := Apply(c, s, Submit);
    forall k: nat ensures Places(t, k) == Tally(t.nextBatch <= k < t.nextSubmit) {
      assert Places(s, k) == Tally(s.nextBatch <= k < s.nextSubmit);
      SubmitQueues(c, s, k);
    }
  }

  lemma {:induction false} ReceiveMoves<R>(c: Config<R>, s: State<R>, k: nat)
    requires Enabled(c, s, ReceiveResult) && s.results[0].index !in s.pending
    ensures Places(Apply(c, s, ReceiveResult), k) == Places(s, k)
  {
  }

  lemma {:induction false} OneMore(pending: set<nat>, k: nat)
    requires k !in pending
    ensures |pending + {k}| == |pending| + 1
  {
  }

  lemma {:induction false} ReceiveCounts<R>(c: Config<R>, s: State<R>)
    requires Enabled(c, s, ReceiveResult) && s.results[0].index !in s.pending
    ensures var t := Apply(c, s, ReceiveResult);
            && |t.pending| == |s.pending| + 1 && |t.results| == |s.results| - 1
            && t.jobs == s.jobs && t.workers == s.workers && t.lost == s.lost
            && t.nextSubmit == s.nextSubmit && t.nextBatch == s.nextBatch
  {
    OneMore(s.pending.Keys, s.results[0].index);
    assert Apply(c, s, ReceiveResult).pending.Keys == s.pending.Keys + {s.results[0].index};
  }

  lemma {:induction false} ConservedReceive<R>(c: Config<R>, s: State<R>)
    requires Conserved(c, s) && Enabled(c, s, ReceiveResult)
    ensures Conserved(c, Apply(c, s, ReceiveResult))
  {
    assert s.results[0].index !in s.pending by { assert Places(s, s.results[0].index) <= 1; }
    var t := Apply(c, s, ReceiveResult);
    ReceiveCounts(c, s);
    forall k: nat ensures Places(t, k) == Tally(t.nextBatch <= k < t.nextSubmit) { ReceiveMoves(c, s, k); }
  }

  lemma {:induction false} AdvanceFrees<R>(c: Config<R>, s: State<R>, k: nat)
    requires Enabled(c, s, Advance)
    ensures Places(Apply(c, s, Advance), k) == Places(s, k) - Tally(k == s.nextBatch)
  {
  }

  lemma {:induction false} OneLess(pending: set<nat>, k: nat)
    requires k in pending
    ensures |pending - {k}| == |pending| - 1
  {
  }

  lemma {:induction false} ConservedAdvance<R>(c: Config<R>, s: State<R>)
    requires Conserved(c, s) && Enabled(c, s, Advance)
    ensures Conserved(c, Apply(c, s, Advance)) && s.nextBatch < s.nextSubmit
  {
    var t := Apply(c, s, Advance);
    PendingIsHeld(c, s);
    OneLess(s.pending.Keys, s.nextBatch);
    assert t.pending.Keys == s.pending.Keys - {s.nextBatch};
    forall k: nat ensures Places(t, k) == Tally(t.nextBatch <= k < t.nextSubmit) {
      AdvanceFrees(c, s, k);
      assert Places(s, k) == Tally(s.nextBatch <= k < s.nextSubmit);
    }
  }

  lemma {:induction false} AccountsKept<R>(c: Config<R>, s: State<R>, t: State<R>)
    requires Conserved(c, s) && InFlight(t) == InFlight(s) && forall k: nat :: Places(t, k) == Places(s, k)
    requires t.pending == s.pending && |t.workers| == |s.workers| && t.nextSubmit == s.nextSubmit
             && t.nextBatch == s.nextBatch
    ensures Conserved(c, t)
  {
  }

  lemma {:induction false} SameAccounts<R>(c: Config<R>, s: State<R>, t: State<R>)
    requires Conserved(c, s)
    requires t.jobs == s.jobs && t.workers == s.workers && t.results == s.results && t.pending == s.pending
    requires t.lost == s.lost && t.nextSubmit == s.nextSubmit && t.nextBatch == s.nextBatch
    ensures Conserved(c, t)
  {
    forall k: nat ensures Places(t, k) == Places(s, k) { SamePlaces(s, t, k); }
    SamePlaces(s, t, 0);
    AccountsKept(c, s, t);
  }

  /** A step of the coordinator that moves no batch. */
  predicate MovesNothing(step: Step) {
    !IsOther(step) && !step.Submit? && !step.ReceiveResult? && !step.Advance?
  }

  lemma {:induction false} QuietEnvironment<R>(c: Config<R>, s: State<R>, step: Step)
    requires Enabled(c, s, step) && (step.CloseResults? || step.Cancel?)
    ensures var t := Apply(c, s, step);
            && t.jobs == s.jobs && t.workers == s.workers && t.results == s.results && t.pending == s.pending
            && t.lost == s.lost && t.nextSubmit == s.nextSubmit && t.nextBatch == s.nextBatch
  {
  }

  lemma {:induction false} ConservedQuiet<R>(c: Config<R>, s: State<R>, step: Step)
    requires Conserved(c, s) && Enabled(c, s, step) && (MovesNothing(step) || step.CloseResults? || step.Cancel?)
    ensures Conserved(c, Apply(c, s, step))
  {
    if IsOther(step) {
      QuietEnvironment(c, s, step);
    } else {
      CoordinatorFrame(c, s, step);
      ChannelsFrame(c, s, step);
      if !step.WriteRecord? { WritingFrame(c, s, step); }
    }
    SameAccounts(c, s, Apply(c, s, step));
  }

  lemma {:induction false} ConservedStep<R>(c: Config<R>, s: State<R>, step: Step)
    requires Conserved(c, s) && s.nextBatch <= s.nextSubmit && Enabled(c, s, step)
    requires step.Send? ==> !s.resultsClosed
    ensures Conserved(c, Apply(c, s, step))
  {
    hide Conserved, Enabled, Apply;
    match step
    case Submit => ConservedSubmit(c, s);
    case ReceiveResult => ConservedReceive(c, s);
    case Advance => ConservedAdvance(c, s);
    case Take(i) => ConservedWorker(c, s, i, step);
    case Send(i) => ConservedWorker(c, s, i, step);
    case Fail(i) => ConservedWorker(c, s, i, step);
    case ExitClosed(i) => ConservedWorker(c, s, i, step);
    case ExitCancelled(i) => ConservedWorker(c, s, i, step);
    case _ => ConservedQuiet(c, s, step);
  }

  // ---------------------------------------------------------------- each step, on the other parts

  lemma {:induction false} PendingIsHeld<R>(c: Config<R>, s: State<R>)
    requires Conserved(c, s) && s.nextBatch in s.pending
    ensures s.nextBatch < s.nextSubmit
  {
    assert Places(s, s.nextBatch) >= 1;
  }

  lemma {:induction false} WrittenRecord<R>(c: Config<R>, s: State<R>)
    requires WrittenInOrder(c, s) && AnswersRight(c, s) && s.nextBatch < s.nextSubmit && Enabled(c, s, WriteRecord)
    ensures WrittenInOrder(c, Apply(c, s, WriteRecord))
  {
    var o := c.outputs[s.nextBatch];
    assert o[..s.offset + 1] == o[..s.offset] + [o[s.offset]];
  }

  lemma {:induction false} WrittenAdvance<R>(c: Config<R>, s: State<R>)
    requires WrittenInOrder(c, s) && AnswersRight(c, s) && s.nextBatch < s.nextSubmit && Enabled(c, s, Advance)
    ensures WrittenInOrder(c, Apply(c, s, Advance))
  {
    var o := c.outputs[s.nextBatch];
    assert c.outputs[..s.nextBatch + 1][..s.nextBatch] == c.outputs[..s.nextBatch];
    assert o == if s.offset > 0 then o[..s.offset] else [];
  }

  lemma {:induction false} WrittenSubmit<R>(c: Config<R>, s: State<R>)
    requires WrittenInOrder(c, s) && Enabled(c, s, Submit)
    ensures WrittenInOrder(c, Apply(c, s, Submit))
  {
  }

  lemma {:induction false} WrittenKept<R>(c: Config<R>, s: State<R>, t: State<R>)
    requires WrittenInOrder(c, s)
    requires t.written == s.written && t.nextBatch == s.nextBatch && t.nextSubmit == s.nextSubmit
             && t.offset == s.offset
    ensures WrittenInOrder(c, t)
  {
  }

  lemma {:induction false} WrittenQuiet<R>(c: Config<R>, s: State<R>, step: Step)
    requires WrittenInOrder(c, s) && Enabled(c, s, step) && (step.Send? ==> !s.resultsClosed)
    requires !step.Submit? && !step.WriteRecord? && !step.Advance?
    ensures WrittenInOrder(c, Apply(c, s, step))
  {
    if IsOther(step) { OtherFrame(c, s, step); } else { WritingFrame(c, s, step); }
    WrittenKept(c, s, Apply(c, s, step));
  }

  lemma {:induction false} WrittenStep<R>(c: Config<R>, s: State<R>, step: Step)
    requires WrittenInOrder(c, s) && AnswersRight(c, s) && Conserved(c, s) && Enabled(c, s, step)
    requires step.Send? ==> !s.resultsClosed
    ensures WrittenInOrder(c, Apply(c, s, step))
  {
    hide WrittenInOrder, AnswersRight, Conserved, Apply;
    match step
    case Submit => WrittenSubmit(c, s);
    case WriteRecord =>
      PendingIsHeld(c, s);
      WrittenRecord(c, s);
    case Advance =>
      PendingIsHeld(c, s);
      WrittenAdvance(c, s);
    case _ => WrittenQuiet(c, s, step);
  }

  lemma {:induction false} AnswersSend<R>(c: Config<R>, s: State<R>, i: nat)
    requires AnswersRight(c, s) && Enabled(c, s, Send(i))
    ensures AnswersRight(c, Apply(c, s, Send(i)))
  {
  }

  lemma {:induction false} AnswersReceive<R>(c: Config<R>, s: State<R>)
    requires AnswersRight(c, s) && Enabled(c, s, ReceiveResult)
    ensures AnswersRight(c, Apply(c, s, ReceiveResult))
  {
    assert s.results[0] in s.results;
  }

  lemma {:induction false} AnswersAdvance<R>(c: Config<R>, s: State<R>)
    requires AnswersRight(c, s) && Enabled(c, s, Advance)
    ensures AnswersRight(c, Apply(c, s, Advance))
  {
  }

  lemma {:induction false} AnswersKept<R>(c: Config<R>, s: State<R>, t: State<R>)
    requires AnswersRight(c, s) && t.results == s.results && t.pending == s.pending
    ensures AnswersRight(c, t)
  {
  }

  lemma {:induction false} AnswersQuiet<R>(c: Config<R>, s: State<R>, step: Step)
    requires AnswersRight(c, s) && Enabled(c, s, step) && !step.Send? && !step.ReceiveResult? && !step.Advance?
    ensures AnswersRight(c, Apply(c, s, step))
  {
    if IsOther(step) {
      OtherFrame(c, s, step);
      OthersAnswer(c, s, step);
    } else {
      ChannelsFrame(c, s, step);
      if !step.WriteRecord? { WritingFrame(c, s, step); }
    }
    AnswersKept(c, s, Apply(c, s, step));
  }

  lemma {:induction false} AnswersStep<R>(c: Config<R>, s: State<R>, step: Step)
    requires AnswersRight(c, s) && Enabled(c, s, step)
    ensures AnswersRight(c, Apply(c, s, step))
  {
    hide AnswersRight, Enabled, Apply;
    match step
    case Send(i) => AnswersSend(c, s, i);
    case ReceiveResult => AnswersReceive(c, s);
    case Advance => AnswersAdvance(c, s);
    case _ => AnswersQuiet(c, s, step);
  }

  lemma {:induction false} WorkerIsListed<R>(s: State<R>, i: nat)
    requires i < |s.workers|
    ensures s.workers[i] in s.workers
  {
  }

  /** Without a fault the workers' context is only done once every batch has been submitted. */
  lemma {:induction false} AbortMeansFault<R>(c: Config<R>, s: State<R>)
    requires c.Valid() && Shutdown(c, s) && PhaseOk(c, s) && |s.workers| == c.workers && Enabled(c, s, SubmitAbort)
    ensures s.fault
  {
    WorkerIsListed(s, 0);
  }

  /** A worker that has not exited tells that the results channel is open. */
  lemma {:induction false} StillOpen<R>(c: Config<R>, s: State<R>, i: nat)
    requires Shutdown(c, s) && i < |s.workers| && !s.workers[i].Exited?
    ensures !s.resultsClosed
  {
    WorkerIsListed(s, i);
  }

  lemma {:induction false} ShutdownTake<R>(c: Config<R>, s: State<R>, i: nat)
    requires Shutdown(c, s) && Enabled(c, s, Take(i))
    ensures Shutdown(c, Apply(c, s, Take(i)))
  {
    StillOpen(c, s, i);
    ExitedBefore(s.workers, i, Busy(s.jobs[0]));
  }

  lemma {:induction false} ShutdownSend<R>(c: Config<R>, s: State<R>, i: nat)
    requires Shutdown(c, s) && Enabled(c, s, Send(i))
    ensures Shutdown(c, Apply(c, s, Send(i)))
  {
    StillOpen(c, s, i);
    ExitedBefore(s.workers, i, Idle);
  }

  lemma {:induction false} ExitedBefore(ws: seq<Worker>, i: nat, w: Worker)
    requires i < |ws| && !w.Exited?
    ensures (exists v <- ws[i := w] :: v.Exited?) ==> exists v <- ws :: v.Exited?
  {
    var t := ws[i := w];
    if v :| v in t && v.Exited? {
      var j :| 0 <= j < |t| && t[j] == v;
      assert ws[j] in ws;
    }
  }

  lemma {:induction false} ShutdownReturns<R>(c: Config<R>, s: State<R>, i: nat, err: Error)
    requires Shutdown(c, s) && i < |s.workers| && !s.workers[i].Exited?
    ensures var t := WorkerReturns(s, i, err); t.groupErr.Some? && !t.resultsClosed && (s.fault ==> Shutdown(c, t))
    ensures Shutdown(c, WorkerReturns(s, i, err).(fault := true))
  {
    StillOpen(c, s, i);
  }

  lemma {:induction false} ShutdownExit<R>(c: Config<R>, s: State<R>, i: nat)
    requires Shutdown(c, s) && Enabled(c, s, ExitClosed(i))
    ensures Shutdown(c, Apply(c, s, ExitClosed(i)))
  {
    StillOpen(c, s, i);
  }

  /** An idle or busy worker is cancelled only after some fault. */
  lemma {:induction false} ShutdownCancelled<R>(c: Config<R>, s: State<R>, i: nat)
    requires Shutdown(c, s) && Enabled(c, s, ExitCancelled(i))
    ensures Shutdown(c, Apply(c, s, ExitCancelled(i)))
  {
    StillOpen(c, s, i);
    ShutdownReturns(c, s, i, Cancelled);
  }

  lemma {:induction false} ShutdownSubmit<R>(c: Config<R>, s: State<R>)
    requires Shutdown(c, s) && Enabled(c, s, Submit)
    ensures Shutdown(c, Apply(c, s, Submit))
  {
  }

  lemma {:induction false} ShutdownStop<R>(c: Config<R>, s: State<R>, err: Error, workersFirst: bool)
    requires Shutdown(c, s)
    ensures s.fault ==> Shutdown(c, Stop(s, err, workersFirst))
    ensures Shutdown(c, Stop(s, err, workersFirst).(fault := true))
  {
  }

  /** Coordinator steps that neither submit nor stop. */
  predicate GoesOn(step: Step) {
    && !IsOther(step) && !step.Submit? && !step.SubmitAbort? && !step.ReceiveCancelled?
    && !step.WriteFail? && !step.WriteCancelled?
  }

  lemma {:induction false} StaysOn<R>(c: Config<R>, s: State<R>, step: Step)
    requires Enabled(c, s, step) && GoesOn(step)
    ensures var t := Apply(c, s, step);
            t.fault == s.fault && t.cancelled == s.cancelled && (s.jobsClosed ==> t.jobsClosed)
  {
  }

  lemma {:induction false} ShutdownGoesOn<R>(c: Config<R>, s: State<R>, step: Step)
    requires Shutdown(c, s) && Enabled(c, s, step) && GoesOn(step)
    ensures Shutdown(c, Apply(c, s, step))
  {
    CoordinatorFrame(c, s, step);
    ChannelsFrame(c, s, step);
    StaysOn(c, s, step);
  }

  lemma {:induction false} ShutdownEnvironment<R>(c: Config<R>, s: State<R>, step: Step)
    requires Shutdown(c, s) && Enabled(c, s, step) && (step.CloseResults? || step.Cancel?)
    ensures Shutdown(c, Apply(c, s, step))
  {
  }

  lemma {:induction false} ShutdownAborts<R>(c: Config<R>, s: State<R>, step: Step)
    requires c.Valid() && Shutdown(c, s) && PhaseOk(c, s) && |s.workers| == c.workers && Enabled(c, s, step)
    requires step.SubmitAbort? || step.ReceiveCancelled? || step.WriteCancelled?
    ensures Shutdown(c, Apply(c, s, step))
  {
    hide PhaseOk;
    if step.SubmitAbort? { AbortMeansFault(c, s); }
    ShutdownStop(c, s, Cancelled, !step.WriteCancelled?);
  }

  lemma {:induction false} ShutdownStep<R>(c: Config<R>, s: State<R>, step: Step)
    requires c.Valid() && Shutdown(c, s) && PhaseOk(c, s) && |s.workers| == c.workers && Enabled(c, s, step)
    ensures Shutdown(c, Apply(c, s, step))
  {
    hide Shutdown, PhaseOk;
    match step
    case Submit => ShutdownSubmit(c, s);
    case SubmitAbort => ShutdownAborts(c, s, step);
    case ReceiveCancelled => ShutdownAborts(c, s, step);
    case WriteFail => ShutdownStop(c, s, WriteFailed, false);
    case WriteCancelled => ShutdownAborts(c, s, step);
    case Take(i) => ShutdownTake(c, s, i);
    case Send(i) => ShutdownSend(c, s, i);
    case Fail(i) => ShutdownReturns(c, s, i, WorkerFailed);
    case ExitClosed(i) => ShutdownExit(c, s, i);
    case ExitCancelled(i) => ShutdownCancelled(c, s, i);
    case CloseResults => ShutdownEnvironment(c, s, step);
    case Cancel => ShutdownEnvironment(c, s, step);
    case _ => ShutdownGoesOn(c, s, step);
  }

  /** With no fault, the results channel cannot be closed while a batch is missing. */
  lemma {:induction false} ClosedEarlyMeansFault<R>(c: Config<R>, s: State<R>)
    requires c.Valid() && Inv(c, s) && s.phase.Receiving? && s.results == [] && s.resultsClosed
    ensures s.fault
  {
    NoneBusy(s.workers, s.nextBatch);
    WorkerIsListed(s, 0);
    assert Places(s, s.nextBatch) == Tally(s.nextBatch < s.nextSubmit);
  }

  lemma {:induction false} PhaseSubmitting<R>(c: Config<R>, s: State<R>, step: Step)
    requires s.phase.Submitting? && !IsOther(step) && Enabled(c, s, step) && PhaseOk(c, s)
    requires s.nextBatch <= s.nextSubmit <= c.Total() && (step.SubmitAbort? ==> s.fault)
    ensures PhaseOk(c, Apply(c, s, step))
  {
  }

  lemma {:induction false} PhaseReceiving<R>(c: Config<R>, s: State<R>, step: Step)
    requires s.phase.Receiving? && !IsOther(step) && Enabled(c, s, step) && PhaseOk(c, s)
    requires (s.cancelled || step.ReceiveClosed?) ==> s.fault
    ensures PhaseOk(c, Apply(c, s, step))
  {
  }

  lemma {:induction false} PhaseDraining<R>(c: Config<R>, s: State<R>, step: Step)
    requires s.phase.Draining? && !IsOther(step) && Enabled(c, s, step) && PhaseOk(c, s)
    requires s.cancelled ==> s.fault
    ensures PhaseOk(c, Apply(c, s, step))
  {
    match step
    case WriteRecord =>
    case WriteFail =>
    case WriteCancelled =>
    case Advance =>
    case DrainDone =>
  }

  lemma {:induction false} PhaseReturning<R>(c: Config<R>, s: State<R>)
    requires Enabled(c, s, Return) && PhaseOk(c, s) && (s.groupErr.Some? ==> s.fault)
    ensures PhaseOk(c, Apply(c, s, Return))
  {
  }

  lemma {:induction false} PhaseKept<R>(c: Config<R>, s: State<R>, t: State<R>)
    requires PhaseOk(c, s) && t.phase == s.phase && t.offset == s.offset && t.nextBatch == s.nextBatch
    requires t.nextSubmit == s.nextSubmit && t.pending == s.pending && t.jobsClosed == s.jobsClosed
    requires (s.cancelled ==> t.cancelled) && (s.resultsClosed ==> t.resultsClosed) && (s.fault ==> t.fault)
    ensures PhaseOk(c, t)
  {
  }

  lemma {:induction false} PhaseStep<R>(c: Config<R>, s: State<R>, step: Step)
    requires c.Valid() && Inv(c, s) && Enabled(c, s, step)
    ensures PhaseOk(c, Apply(c, s, step))
  {
    if IsOther(step) {
      if step.Send? { StillOpen(c, s, step.i); }
      OtherFrame(c, s, step);
      OtherOnly(c, s, step);
      PhaseKept(c, s, Apply(c, s, step));
    } else {
      match s.phase
      case Submitting =>
        if step.SubmitAbort? { AbortMeansFault(c, s); }
        PhaseSubmitting(c, s, step);
      case Receiving =>
        if step.ReceiveClosed? { ClosedEarlyMeansFault(c, s); }
        PhaseReceiving(c, s, step);
      case Draining => PhaseDraining(c, s, step);
      case _ => PhaseReturning(c, s);
    }
  }

  /** Every step of every goroutine keeps the invariant. */
  lemma {:induction false} InvStep<R>(c: Config<R>, s: State<R>, step: Step)
    requires c.Valid() && Inv(c, s) && Enabled(c, s, step)
    ensures Inv(c, Apply(c, s, step))
  {
    hide AnswersRight, Apply, PhaseOk;
    if step.Send? { StillOpen(c, s, step.i); }
    ConservedStep(c, s, step);
    WrittenStep(c, s, step);
    AnswersStep(c, s, step);
    ShutdownStep(c, s, step);
    PhaseStep(c, s, step);
  }

  // ---------------------------------------------------------------- whole runs

  lemma {:induction false} RunKeepsInv<R>(c: Config<R>, steps: seq<Step>, states: seq<State<R>>, k: nat)
    requires c.Valid() && IsRun(c, steps, states) && Inv(c, states[0]) && k < |states|
    ensures Inv(c, states[k])
  {
    if k > 0 {
      RunKeepsInv(c, steps, states, k - 1);
      InvStep(c, states[k - 1], steps[k - 1]);
    }
  }

  lemma {:induction false} ReachableInv<R(!new)>(c: Config<R>, s: State<R>)
    requires c.Valid() && Reachable(c, s)
    ensures Inv(c, s)
  {
    var steps, states :| IsRun(c, steps, states) && states[0] == Init(c) && states[|states| - 1] == s;
    InvInit(c);
    RunKeepsInv(c, steps, states, |states| - 1);
  }

  /** Safety on every interleaving: what is written is a prefix of the batch outputs
      concatenated in index order. */
  lemma {:induction false} WrittenIsPrefix<R(!new)>(c: Config<R>, s: State<R>)
    requires c.Valid() && Reachable(c, s)
    ensures s.written <= Flatten(c.outputs)
  {
    ReachableInv(c, s);
    InvWrittenIsPrefix(c, s);
  }

  lemma {:induction false} InvWrittenIsPrefix<R>(c: Config<R>, s: State<R>)
    requires WrittenInOrder(c, s)
    ensures s.written <= Flatten(c.outputs)
  {
    FlattenPrefix(c.outputs, s.nextBatch);
    if s.offset > 0 {
      var o := c.outputs[s.nextBatch];
      assert Flatten(c.outputs[..s.nextBatch]) + o[..s.offset] <= Flatten(c.outputs[..s.nextBatch]) + o;
    }
  }

  /** A run that returns without error has written every batch exactly once, and a run in
      which nothing failed and nobody cancelled can only return without error. */
  lemma {:induction false} SuccessIsComplete<R(!new)>(c: Config<R>, s: State<R>)
    requires c.Valid() && Reachable(c, s) && s.phase.Returned?
    ensures s.phase.result.None? ==> s.written == Flatten(c.outputs)
    ensures !s.fault ==> s.phase.result.None?
  {
    ReachableInv(c, s);
    assert c.outputs[..c.Total()] == c.outputs;
  }

  /** Bounded window: a submitted batch is in exactly one place until it is written, at most
      2W are outstanding, and none is lost before some worker has returned an error. */
  lemma {:induction false} WindowIsBounded<R(!new)>(c: Config<R>, s: State<R>)
    requires c.Valid() && Reachable(c, s)
    ensures |s.jobs| + BusyCount(s.workers) + |s.results| + |s.pending| + |s.lost| == s.nextSubmit - s.nextBatch
    ensures s.nextSubmit - s.nextBatch <= 2 * c.workers
    ensures forall k: nat :: Places(s, k) == Tally(s.nextBatch <= k < s.nextSubmit)
    ensures s.groupErr.None? ==> s.lost == []
  {
    ReachableInv(c, s);
  }

  /** No send on a closed channel and no blocked send in any reachable state. */
  lemma {:induction false} SendsAreSafe<R(!new)>(c: Config<R>, s: State<R>)
    requires c.Valid() && Reachable(c, s)
    ensures !s.phase.Panicked?
    ensures s.phase.Submitting? && MoreToSubmit(c, s) ==> !s.jobsClosed && |s.jobs| < 2 * c.workers
    ensures forall i: nat :: HasBusy(s, i) ==> !s.resultsClosed && |s.results| < 2 * c.workers
  {
    ReachableInv(c, s);
    SendsNeverBlock(c, s);
    forall i: nat | HasBusy(s, i) ensures !s.resultsClosed {
      WorkerIsListed(s, i);
    }
  }

  /** A closed queue is never written or opened again. */
  lemma {:induction false} ClosedStays<R>(c: Config<R>, s: State<R>, step: Step)
    requires Enabled(c, s, step) && s.jobsClosed
    ensures var t := Apply(c, s, step); t.jobsClosed && |t.jobs| <= |s.jobs| && t.nextSubmit == s.nextSubmit
  {
    if IsOther(step) { ClosedByOthers(c, s, step); } else { ClosedByCoordinator(c, s, step); }
  }

  lemma {:induction false} ClosedByOthers<R>(c: Config<R>, s: State<R>, step: Step)
    requires IsOther(step) && Enabled(c, s, step) && s.jobsClosed
    ensures var t := Apply(c, s, step); t.jobsClosed && |t.jobs| <= |s.jobs| && t.nextSubmit == s.nextSubmit
  {
    match step
    case Take(i) =>
    case Send(i) =>
    case Fail(i) =>
    case ExitClosed(i) =>
    case ExitCancelled(i) =>
    case CloseResults =>
    case Cancel =>
  }

  lemma {:induction false} ClosedByCoordinator<R>(c: Config<R>, s: State<R>, step: Step)
    requires !IsOther(step) && Enabled(c, s, step) && s.jobsClosed
    ensures var t := Apply(c, s, step); t.jobsClosed && |t.jobs| <= |s.jobs| && t.nextSubmit == s.nextSubmit
  {
    match step
    case Submit =>
    case SubmitAbort =>
    case SubmitDone =>
    case ReceiveResult =>
    case ReceiveCancelled =>
    case ReceiveClosed =>
    case WriteRecord =>
    case WriteFail =>
    case WriteCancelled =>
    case Advance =>
    case DrainDone =>
    case Return =>
  }

  /** After the return nothing can happen to the coordinator. */
  lemma {:induction false} ReturnedStays<R>(c: Config<R>, s: State<R>, step: Step)
    requires Inv(c, s) && Enabled(c, s, step) && s.phase.Returned?
    ensures Apply(c, s, step).phase == s.phase
  {
    if step.Send? { StillOpen(c, s, step.i); }
    OtherFrame(c, s, step);
  }

  /** Clean shutdown: on return the channels are closed and every worker has exited;
      a closed jobs channel is never written again. */
  lemma {:induction false} ShutdownIsClean<R(!new)>(c: Config<R>, s: State<R>, step: Step)
    requires c.Valid() && Reachable(c, s) && Enabled(c, s, step)
    ensures s.phase.Returned? ==> s.jobsClosed && s.resultsClosed && forall w <- s.workers :: w.Exited?
    ensures s.jobsClosed ==>
              var t := Apply(c, s, step);
              t.jobsClosed && |t.jobs| <= |s.jobs| && t.nextSubmit == s.nextSubmit
    ensures s.phase.Returned? ==> Apply(c, s, step).phase == s.phase
  {
    ReachableInv(c, s);
    if s.jobsClosed { ClosedStays(c, s, step); }
    if s.phase.Returned? { ReturnedStays(c, s, step); }
  }
}
