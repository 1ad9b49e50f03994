/** Progress and termination of the worker pipeline: no reachable state is stuck, and
    every step of every goroutine makes a measure smaller, so every run returns. */
module PipelineProgress {
  import opened Wrappers
  import opened Pipeline

  function WorkerLoad(w: Worker): nat {
    match w case Idle => 1 case Busy(_) => 7 case Exited => 0
  }

  function Load(ws: seq<Worker>): nat {
    if ws == [] then 0 else WorkerLoad(ws[0]) + Load(ws[1..])
  }

  function PhaseRank(p: Phase): nat {
    match p
    case Draining => 5
    case Submitting => 4
    case Receiving => 3
    case Stopping(_, _) => 2
    case Finishing => 2
    case Returned(_) => 0
    case Panicked => 0
  }

  /** An upper bound on the number of steps still possible. */
  function Measure<R>(c: Config<R>, s: State<R>): int {
    12 * (c.Total() - s.nextSubmit) + 8 * |s.jobs| + Load(s.workers) + 4 * |s.results|
    + (|Flatten(c.outputs)| - |s.written|) + (c.Total() - s.nextBatch) + PhaseRank(s.phase)
    + Tally(!s.resultsClosed) + Tally(!s.cancelled)
  }

  lemma {:induction false} LoadUpdate(ws: seq<Worker>, i: nat, w: Worker)
    requires i < |ws|
    ensures Load(ws[i := w]) + WorkerLoad(ws[i]) == Load(ws) + WorkerLoad(w)
  {
    if i == 0 {
      assert ws[i := w][1..] == ws[1..];
    } else {
      LoadUpdate(ws[1..], i - 1, w);
      assert ws[i := w][1..] == ws[1..][i - 1 := w];
    }
  }

  lemma {:induction false} MeasureIsNatural<R>(c: Config<R>, s: State<R>)
    requires Inv(c, s)
    ensures Measure(c, s) >= 0
  {
    InvWrittenIsPrefix(c, s);
  }

  lemma {:induction false} TakeSpends<R>(c: Config<R>, s: State<R>, i: nat)
    requires Enabled(c, s, Take(i))
    ensures Measure(c, Apply(c, s, Take(i))) < Measure(c, s)
  {
    LoadUpdate(s.workers, i, Busy(s.jobs[0]));
  }

  lemma {:induction false} SendSpends<R>(c: Config<R>, s: State<R>, i: nat)
    requires Enabled(c, s, Send(i)) && !s.resultsClosed
    ensures Measure(c, Apply(c, s, Send(i))) < Measure(c, s)
  {
    LoadUpdate(s.workers, i, Idle);
  }

  lemma {:induction false} ReturnSpends<R>(c: Config<R>, s: State<R>, i: nat, err: Error)
    requires i < |s.workers| && !s.workers[i].Exited?
    ensures Measure(c, WorkerReturns(s, i, err)) < Measure(c, s)
  {
    LoadUpdate(s.workers, i, Exited);
  }

  lemma {:induction false} ExitSpends<R>(c: Config<R>, s: State<R>, i: nat)
    requires Enabled(c, s, ExitClosed(i))
    ensures Measure(c, Apply(c, s, ExitClosed(i))) < Measure(c, s)
  {
    LoadUpdate(s.workers, i, Exited);
  }

  lemma {:induction false} EnvironmentSpends<R>(c: Config<R>, s: State<R>, step: Step)
    requires Enabled(c, s, step) && (step.CloseResults? || step.Cancel?)
    ensures Measure(c, Apply(c, s, step)) < Measure(c, s)
  {
  }

  lemma {:induction false} OtherSpends<R>(c: Config<R>, s: State<R>, step: Step)
    requires c.Valid() && Inv(c, s) && IsOther(step) && Enabled(c, s, step)
    ensures Measure(c, Apply(c, s, step)) < Measure(c, s)
  {
    match step
    case Take(i) => TakeSpends(c, s, i);
    case Send(i) =>
      StillOpen(c, s, i);
      SendSpends(c, s, i);
    case Fail(i) => ReturnSpends(c, s, i, WorkerFailed);
    case ExitClosed(i) => ExitSpends(c, s, i);
    case ExitCancelled(i) => ReturnSpends(c, s, i, Cancelled);
    case CloseResults => EnvironmentSpends(c, s, step);
    case Cancel => EnvironmentSpends(c, s, step);
  }

  lemma {:induction false} SubmittingSpends<R>(c: Config<R>, s: State<R>, step: Step)
    requires Enabled(c, s, step) && (step.Submit? || step.SubmitAbort? || step.SubmitDone?)
    ensures Measure(c, Apply(c, s, step)) < Measure(c, s)
  {
  }

  lemma {:induction false} ReceivingSpends<R>(c: Config<R>, s: State<R>, step: Step)
    requires Enabled(c, s, step) && (step.ReceiveResult? || step.ReceiveCancelled? || step.ReceiveClosed?)
    ensures Measure(c, Apply(c, s, step)) < Measure(c, s)
  {
  }

  lemma {:induction false} WritingSpends<R>(c: Config<R>, s: State<R>, step: Step)
    requires Enabled(c, s, step) && (step.WriteRecord? || step.WriteFail? || step.WriteCancelled?)
    ensures Measure(c, Apply(c, s, step)) < Measure(c, s)
  {
  }

  lemma {:induction false} MovingSpends<R>(c: Config<R>, s: State<R>, step: Step)
    requires Enabled(c, s, step) && (step.Advance? || step.DrainDone? || step.Return?)
    ensures Measure(c, Apply(c, s, step)) < Measure(c, s)
  {
  }

  /** Every step, faults included, makes the measure smaller. */
  lemma {:induction false} MeasureDecreases<R>(c: Config<R>, s: State<R>, step: Step)
    requires c.Valid() && Inv(c, s) && Enabled(c, s, step)
    ensures Measure(c, Apply(c, s, step)) < Measure(c, s)
  {
    if IsOther(step) {
      OtherSpends(c, s, step);
    } else if step.Submit? || step.SubmitAbort? || step.SubmitDone? {
      SubmittingSpends(c, s, step);
    } else if step.ReceiveResult? || step.ReceiveCancelled? || step.ReceiveClosed? {
      ReceivingSpends(c, s, step);
    } else if step.WriteRecord? || step.WriteFail? || step.WriteCancelled? {
      WritingSpends(c, s, step);
    } else {
      MovingSpends(c, s, step);
    }
  }

  lemma {:induction false} RunSteps<R>(c: Config<R>, steps: seq<Step>, states: seq<State<R>>, k: nat)
    requires IsRun(c, steps, states) && k < |steps|
    ensures Enabled(c, states[k], steps[k]) && states[k + 1] == Apply(c, states[k], steps[k])
  {
    hide Enabled, Apply;
  }

  lemma {:induction false} RunSpendsMeasure<R>(c: Config<R>, steps: seq<Step>, states: seq<State<R>>, k: nat)
    requires c.Valid() && IsRun(c, steps, states) && Inv(c, states[0]) && k < |states|
    ensures Measure(c, states[k]) + k <= Measure(c, states[0])
  {
    hide Inv, Enabled, Apply, Measure;
    if k > 0 {
      RunSpendsMeasure(c, steps, states, k - 1);
      RunKeepsInv(c, steps, states, k - 1);
      RunSteps(c, steps, states, k - 1);
      MeasureDecreases(c, states[k - 1], steps[k - 1]);
    }
  }

  lemma {:induction false} LoadOfIdle(n: nat)
    ensures Load(seq(n, _ => Idle)) == n
  {
    if n > 0 {
      LoadOfIdle(n - 1);
      assert seq(n, _ => Idle)[1..] == seq(n - 1, _ => Idle);
    }
  }

  /** No run, whatever fails, is longer than this. */
  lemma {:induction false} RunsAreBounded<R>(c: Config<R>, steps: seq<Step>, states: seq<State<R>>)
    requires c.Valid() && IsRun(c, steps, states) && states[0] == Init(c)
    ensures |steps| <= 13 * c.Total() + |Flatten(c.outputs)| + c.workers + 6
  {
    InvInit(c);
    RunSpendsMeasure(c, steps, states, |steps|);
    RunKeepsInv(c, steps, states, |steps|);
    MeasureIsNatural(c, states[|steps|]);
    LoadOfIdle(c.workers);
  }

  /** A worker that has not exited can move when the coordinator waits for results. */
  lemma {:induction false} SomeWorkerMoves<R>(c: Config<R>, s: State<R>, i: nat) returns (step: Step)
    requires c.Valid() && Inv(c, s) && i < |s.workers| && !s.workers[i].Exited?
    requires s.jobs != [] || s.jobsClosed || WorkersStopped(s) || s.workers[i].Busy?
    ensures Enabled(c, s, step) && !IsFault(step)
  {
    SendsNeverBlock(c, s);
    if s.workers[i].Busy? {
      assert HasBusy(s, i);
      step := Send(i);
    } else if s.jobs != [] {
      step := Take(i);
    } else if s.jobsClosed {
      step := ExitClosed(i);
    } else {
      step := ExitCancelled(i);
    }
  }

  /** While the coordinator waits for a result, either some worker is busy, a job is queued,
      an answer is ready, or the queue has been closed or abandoned. */
  lemma {:induction false} WaitingMeansWork<R>(c: Config<R>, s: State<R>)
    requires c.Valid() && Inv(c, s) && s.phase.Receiving? && s.results == []
    requires !s.jobsClosed && !WorkersStopped(s) && s.jobs == []
    ensures exists w <- s.workers :: w.Busy?
  {
    assert Places(s, s.nextBatch) == Tally(s.nextBatch < s.nextSubmit);
    if forall w <- s.workers :: !w.Busy? {
      NoneBusy(s.workers, s.nextBatch);
    }
  }

  lemma {:induction false} UnfinishedWorker(ws: seq<Worker>) returns (i: nat)
    requires exists w <- ws :: !w.Exited?
    ensures i < |ws| && !ws[i].Exited?
    ensures (exists w <- ws :: w.Busy?) ==> ws[i].Busy?
  {
    if w :| w in ws && w.Busy? {
      i :| 0 <= i < |ws| && ws[i].Busy?;
    } else {
      i :| 0 <= i < |ws| && !ws[i].Exited?;
    }
  }

  lemma {:induction false} DrainingProgress<R>(c: Config<R>, s: State<R>) returns (step: Step)
    requires s.phase.Draining?
    ensures Enabled(c, s, step) && !IsFault(step)
  {
    if s.nextBatch !in s.pending {
      step := DrainDone;
    } else if s.offset >= |s.pending[s.nextBatch]| {
      step := Advance;
    } else {
      step := if s.cancelled then WriteCancelled else WriteRecord;
    }
  }

  lemma {:induction false} ReceivingProgress<R>(c: Config<R>, s: State<R>) returns (step: Step)
    requires c.Valid() && Inv(c, s) && s.phase.Receiving?
    ensures Enabled(c, s, step) && !IsFault(step)
  {
    if s.results != [] {
      step := ReceiveResult;
    } else if s.resultsClosed {
      step := ReceiveClosed;
    } else {
      step := WorkersProgress(c, s);
    }
  }

  lemma {:induction false} EndingProgress<R>(c: Config<R>, s: State<R>) returns (step: Step)
    requires c.Valid() && Inv(c, s) && (s.phase.Stopping? || s.phase.Finishing?)
    ensures Enabled(c, s, step) && !IsFault(step)
  {
    if s.resultsClosed {
      step := Return;
    } else {
      step := WorkersProgress(c, s);
    }
  }

  /** No deadlock: in every state short of returning, some step that is not a fault can fire. */
  lemma {:induction false} Progress<R>(c: Config<R>, s: State<R>) returns (step: Step)
    requires c.Valid() && Inv(c, s) && !s.phase.Returned?
    ensures Enabled(c, s, step) && !IsFault(step)
  {
    match s.phase
    case Submitting =>
      SendsNeverBlock(c, s);
      step := if MoreToSubmit(c, s) then Submit else SubmitDone;
    case Draining => step := DrainingProgress(c, s);
    case Receiving => step := ReceivingProgress(c, s);
    case _ => step := EndingProgress(c, s);
  }

  lemma {:induction false} WorkersProgress<R>(c: Config<R>, s: State<R>) returns (step: Step)
    requires c.Valid() && Inv(c, s) && !s.resultsClosed
    requires (s.phase.Receiving? && s.results == []) || s.phase.Stopping? || s.phase.Finishing?
    ensures Enabled(c, s, step) && !IsFault(step)
  {
    if forall w <- s.workers :: w.Exited? {
      step := CloseResults;
    } else {
      if s.phase.Receiving? && s.results == [] && !s.jobsClosed && !WorkersStopped(s) && s.jobs == [] {
        WaitingMeansWork(c, s);
      }
      var i := UnfinishedWorker(s.workers);
      step := SomeWorkerMoves(c, s, i);
    }
  }

  lemma {:induction false} Prepended<R>(c: Config<R>, s: State<R>, step: Step, steps: seq<Step>, states: seq<State<R>>)
    requires Enabled(c, s, step) && IsRun(c, steps, states) && states[0] == Apply(c, s, step)
    ensures IsRun(c, [step] + steps, [s] + states)
  {
    var all, through := [step] + steps, [s] + states;
    forall k | 0 <= k < |all| ensures Enabled(c, through[k], all[k]) && through[k + 1] == Apply(c, through[k], all[k]) {
      if k > 0 { assert through[k] == states[k - 1] && through[k + 1] == states[k] && all[k] == steps[k - 1]; }
    }
  }

  /** Every unfinished run can be carried on, without any fault, until the coordinator returns. */
  lemma {:induction false} RunsReturn<R>(c: Config<R>, s: State<R>) returns (steps: seq<Step>, states: seq<State<R>>)
    requires c.Valid() && Inv(c, s)
    ensures IsRun(c, steps, states) && states[0] == s && states[|steps|].phase.Returned?
    ensures forall k :: 0 <= k < |steps| ==> !IsFault(steps[k])
    decreases Measure(c, s)
  {
    hide Inv, Enabled, Apply, Measure, IsFault;
    if s.phase.Returned? {
      steps, states := [], [s];
    } else {
      var step := Progress(c, s);
      InvStep(c, s, step);
      MeasureDecreases(c, s, step);
      MeasureIsNatural(c, s);
      var rest, tail := RunsReturn(c, Apply(c, s, step));
      Prepended(c, s, step, rest, tail);
      steps, states := [step] + rest, [s] + tail;
    }
  }

  /** A run that cannot be continued, except perhaps by a fault, has returned. */
  lemma {:induction false} StuckMeansReturned<R(!new)>(c: Config<R>, s: State<R>)
    requires c.Valid() && Reachable(c, s)
    requires forall step: Step :: Enabled(c, s, step) ==> IsFault(step)
    ensures s.phase.Returned?
  {
    ReachableInv(c, s);
    if !s.phase.Returned? {
      var step := Progress(c, s);
    }
  }
}
