/** Which error a run returns: a matter of what made the coordinator stop and of which worker failed first. */
module PipelineErrors {
  import opened Wrappers
  import opened Pipeline

  /** The first error a worker returned. */
  function FirstError(steps: seq<Step>): Option<Error> {
    if steps == [] then None
    else
      match steps[0]
      case Fail(_) => Some(WorkerFailed)
      case ExitCancelled(_) => Some(Cancelled)
      case _ => FirstError(steps[1..])
  }

  /** The coordinator gives up. */
  predicate Stops(step: Step) {
    step.SubmitAbort? || step.ReceiveCancelled? || step.ReceiveClosed? || step.WriteFail? || step.WriteCancelled?
  }

  /** A failed write is what a run returns, and so is a cancellation seen between two writes, whatever the workers
      returned. Otherwise their first error comes first; there is one if they stopped early. */
  ghost predicate Explained(steps: seq<Step>, result: Option<Error>) {
    && (WriteFail in steps <==> result == Some(WriteFailed))
    && (WriteCancelled in steps ==> result == Some(Cancelled))
    && (SubmitAbort in steps || ReceiveCancelled in steps ==>
          result == if FirstError(steps).Some? then FirstError(steps) else Some(Cancelled))
    && (ReceiveClosed in steps ==> FirstError(steps).Some? && result == FirstError(steps))
    && ((forall step <- steps :: !Stops(step)) ==> result == FirstError(steps))
  }

  /** The error the coordinator stops with. */
  function Cause(step: Step): Error
    requires Stops(step)
  {
    if step.WriteFail? then WriteFailed else if step.ReceiveClosed? then StoppedEarly else Cancelled
  }

  predicate AtWrite(step: Step) { step.WriteFail? || step.WriteCancelled? }

  /** The coordinator has stopped for this one reason. */
  ghost predicate StoppedFor(steps: seq<Step>, stop: Step) {
    stop in steps && Stops(stop) && forall step <- steps :: Stops(step) ==> step == stop
  }

  ghost predicate StoppedBy<R>(steps: seq<Step>, s: State<R>, stop: Step) {
    && s.phase.Stopping? && StoppedFor(steps, stop)
    && s.phase.err == Cause(stop) && s.phase.workersFirst == !AtWrite(stop)
    && (stop.ReceiveClosed? ==> s.groupErr.Some?)
  }

  /** What the state knows of the steps taken. */
  ghost predicate Recorded<R>(steps: seq<Step>, s: State<R>) {
    && s.groupErr == FirstError(steps)
    && match s.phase
       case Stopping(_, _) => exists stop :: StoppedBy(steps, s, stop)
       case Returned(r) => Explained(steps, r)
       case _ => forall step <- steps :: !Stops(step)
  }

  lemma {:induction false} FirstErrorSnoc(steps: seq<Step>, step: Step)
    ensures FirstError(steps + [step])
         == if FirstError(steps).Some? then FirstError(steps) else FirstError([step])
  {
    if steps == [] {
      assert steps + [step] == [step];
    } else {
      FirstErrorSnoc(steps[1..], step);
      assert (steps + [step])[1..] == steps[1..] + [step];
    }
  }

  lemma {:induction false} OneError(step: Step)
    ensures FirstError([step])
         == if step.Fail? then Some(WorkerFailed) else if step.ExitCancelled? then Some(Cancelled) else None
  {
    assert [step][1..] == [];
  }

  /** The group keeps the first error. */
  lemma {:induction false} GroupStep<R>(c: Config<R>, s: State<R>, step: Step, steps: seq<Step>)
    requires Enabled(c, s, step) && s.groupErr == FirstError(steps)
    ensures Apply(c, s, step).groupErr == FirstError(steps + [step])
  {
    hide Apply, Enabled;
    FirstErrorSnoc(steps, step);
    OneError(step);
    if IsOther(step) { OtherGroup(c, s, step); } else { CoordinatorGroup(c, s, step); }
  }

  lemma {:induction false} OtherGroup<R>(c: Config<R>, s: State<R>, step: Step)
    requires IsOther(step) && Enabled(c, s, step)
    ensures Apply(c, s, step).groupErr
         == if s.groupErr.Some? then s.groupErr
            else if step.Fail? then Some(WorkerFailed) else if step.ExitCancelled? then Some(Cancelled) else None
  {
    match step
    case Take(i) =>
    case Send(i) =>
    case Fail(i) =>
    case ExitClosed(i) =>
    case ExitCancelled(i) =>
    case CloseResults =>
    case Cancel =>
  }

  lemma {:induction false} CoordinatorGroup<R>(c: Config<R>, s: State<R>, step: Step)
    requires !IsOther(step) && Enabled(c, s, step)
    ensures Apply(c, s, step).groupErr == s.groupErr
  {
  }

  /** The results channel closes with a batch missing only if a worker has returned an error. */
  lemma {:induction false} ClosedEarlyMeansError<R>(c: Config<R>, s: State<R>)
    requires c.Valid() && Inv(c, s) && s.phase.Receiving? && s.results == [] && s.resultsClosed
    ensures s.groupErr.Some?
  {
    NoneBusy(s.workers, s.nextBatch);
    WorkerIsListed(s, 0);
    assert Places(s, s.nextBatch) == Tally(s.nextBatch < s.nextSubmit);
  }

  lemma {:induction false} StopIsTheOne(steps: seq<Step>, stop: Step)
    requires Stops(stop) && forall step <- steps :: !Stops(step)
    ensures StoppedFor(steps + [stop], stop)
  {
  }

  lemma {:induction false} StopStays(steps: seq<Step>, stop: Step, step: Step)
    requires StoppedFor(steps, stop) && !Stops(step)
    ensures StoppedFor(steps + [step], stop)
  {
  }

  lemma {:induction false} StopRecorded<R>(c: Config<R>, s: State<R>, step: Step, steps: seq<Step>)
    requires c.Valid() && Inv(c, s) && Enabled(c, s, step) && Recorded(steps, s) && Stops(step)
    ensures Recorded(steps + [step], Apply(c, s, step))
  {
    hide Inv, FirstError, StoppedFor;
    GroupStep(c, s, step, steps);
    StopIsTheOne(steps, step);
    if step.ReceiveClosed? { ClosedEarlyMeansError(c, s); }
    assert StoppedBy(steps + [step], Apply(c, s, step), step);
  }

  lemma {:induction false} ReturnExplained(steps: seq<Step>, stop: Step, result: Option<Error>)
    requires StoppedFor(steps, stop) && (stop.ReceiveClosed? ==> FirstError(steps).Some?)
    requires result == if AtWrite(stop) || FirstError(steps).None? then Some(Cause(stop)) else FirstError(steps)
    ensures Explained(steps, result)
  {
    FirstErrorIs(steps);
  }

  lemma {:induction false} FirstErrorIs(steps: seq<Step>)
    ensures FirstError(steps) in {None, Some(WorkerFailed), Some(Cancelled)}
  {
    if steps != [] { FirstErrorIs(steps[1..]); }
  }

  lemma {:induction false} NoStopExplained(steps: seq<Step>)
    requires forall step <- steps :: !Stops(step)
    ensures Explained(steps, FirstError(steps))
  {
    FirstErrorIs(steps);
  }

  lemma {:induction false} ReturnRecorded<R>(c: Config<R>, s: State<R>, steps: seq<Step>)
    requires c.Valid() && Inv(c, s) && Enabled(c, s, Return) && Recorded(steps, s)
    ensures Recorded(steps + [Return], Apply(c, s, Return))
  {
    hide Inv, FirstError, StoppedFor;
    GroupStep(c, s, Return, steps);
    if s.phase.Stopping? {
      var stop :| StoppedBy(steps, s, stop);
      StopStays(steps, stop, Return);
      ReturnExplained(steps + [Return], stop, Apply(c, s, Return).phase.result);
    } else {
      NoStopExplained(steps + [Return]);
    }
  }

  /** A step after which the coordinator is where it was. */
  lemma {:induction false} QuietRecorded<R>(s: State<R>, t: State<R>, step: Step, steps: seq<Step>)
    requires Recorded(steps, s) && t.phase == s.phase && !s.phase.Returned? && !Stops(step)
    requires t.groupErr == FirstError(steps + [step])
    ensures Recorded(steps + [step], t)
  {
    FirstErrorSnoc(steps, step);
    if s.phase.Stopping? {
      var stop :| StoppedBy(steps, s, stop);
      StopStays(steps, stop, step);
      assert StoppedBy(steps + [step], t, stop);
    }
  }

  lemma {:induction false} OtherRecorded<R>(c: Config<R>, s: State<R>, step: Step, steps: seq<Step>)
    requires c.Valid() && Inv(c, s) && Enabled(c, s, step) && Recorded(steps, s) && IsOther(step)
    requires !s.phase.Returned?
    ensures Recorded(steps + [step], Apply(c, s, step))
  {
    hide Inv, FirstError, Explained, StoppedBy, Enabled, Apply;
    GroupStep(c, s, step, steps);
    if step.Send? { OpenForSend(c, s, step.i); }
    OtherFrame(c, s, step);
    QuietRecorded(s, Apply(c, s, step), step, steps);
  }

  lemma {:induction false} OpenForSend<R>(c: Config<R>, s: State<R>, i: nat)
    requires Inv(c, s) && Enabled(c, s, Send(i))
    ensures !s.resultsClosed
  {
    StillOpen(c, s, i);
  }

  /** After the return no worker is left to fail. */
  lemma {:induction false} NothingAfterReturn<R>(c: Config<R>, s: State<R>, step: Step)
    requires c.Valid() && Inv(c, s) && s.phase.Returned?
    ensures !Enabled(c, s, step)
  {
    if (step.Take? || step.Send? || step.Fail? || step.ExitClosed? || step.ExitCancelled?) && step.i < |s.workers| {
      WorkerIsListed(s, step.i);
    }
  }

  lemma {:induction false} StepRecorded<R>(c: Config<R>, s: State<R>, step: Step, steps: seq<Step>)
    requires c.Valid() && Inv(c, s) && Enabled(c, s, step) && Recorded(steps, s)
    ensures Recorded(steps + [step], Apply(c, s, step))
  {
    hide Inv;
    if s.phase.Returned? {
      NothingAfterReturn(c, s, step);
    } else if IsOther(step) {
      OtherRecorded(c, s, step, steps);
    } else if Stops(step) {
      StopRecorded(c, s, step, steps);
    } else if step.Return? {
      ReturnRecorded(c, s, steps);
    } else {
      GoesOnRecorded(c, s, step, steps);
    }
  }

  lemma {:induction false} GoesOnRecorded<R>(c: Config<R>, s: State<R>, step: Step, steps: seq<Step>)
    requires c.Valid() && Inv(c, s) && Enabled(c, s, step) && Recorded(steps, s)
    requires !IsOther(step) && !Stops(step) && !step.Return?
    ensures Recorded(steps + [step], Apply(c, s, step))
  {
    hide Inv, FirstError;
    GroupStep(c, s, step, steps);
  }

  lemma {:induction false} InitRecorded<R>(c: Config<R>)
    ensures Recorded([], Init(c))
  {
  }

  lemma {:induction false} RunRecorded<R>(c: Config<R>, steps: seq<Step>, states: seq<State<R>>, k: nat)
    requires c.Valid() && IsRun(c, steps, states) && states[0] == Init(c) && k <= |steps|
    ensures Inv(c, states[k]) && Recorded(steps[..k], states[k])
  {
    hide Inv, Recorded, Enabled, Apply, Init;
    InvInit(c);
    RunKeepsInv(c, steps, states, k);
    InitRecorded(c);
    if k == 0 {
      assert steps[..0] == [];
    } else {
      RunRecorded(c, steps, states, k - 1);
      StepRecorded(c, states[k - 1], steps[k - 1], steps[..k - 1]);
      assert steps[..k] == steps[..k - 1] + [steps[k - 1]];
    }
  }

  /** In every run, on every interleaving, the error returned is the one the steps taken call for. */
  lemma {:induction false} ErrorOfRun<R>(c: Config<R>, steps: seq<Step>, states: seq<State<R>>)
    requires c.Valid() && IsRun(c, steps, states) && states[0] == Init(c) && states[|steps|].phase.Returned?
    ensures Explained(steps, states[|steps|].phase.result)
  {
    RunRecorded(c, steps, states, |steps|);
    assert steps[..|steps|] == steps;
  }

  // ---------------------------------------------------------------- runs in which nothing fails

  lemma {:induction false} FaultStep<R>(c: Config<R>, s: State<R>, step: Step)
    requires Enabled(c, s, step)
    ensures Apply(c, s, step).fault == (s.fault || IsFault(step))
  {
    if IsOther(step) { OtherFault(c, s, step); } else { CoordinatorFault(c, s, step); }
  }

  lemma {:induction false} OtherFault<R>(c: Config<R>, s: State<R>, step: Step)
    requires IsOther(step) && Enabled(c, s, step)
    ensures Apply(c, s, step).fault == (s.fault || IsFault(step))
  {
    match step
    case Take(i) =>
    case Send(i) =>
    case Fail(i) =>
    case ExitClosed(i) =>
    case ExitCancelled(i) =>
    case CloseResults =>
    case Cancel =>
  }

  lemma {:induction false} CoordinatorFault<R>(c: Config<R>, s: State<R>, step: Step)
    requires !IsOther(step) && Enabled(c, s, step)
    ensures Apply(c, s, step).fault == (s.fault || IsFault(step))
  {
  }

  lemma {:induction false} FaultIs<R>(c: Config<R>, steps: seq<Step>, states: seq<State<R>>, k: nat)
    requires IsRun(c, steps, states) && states[0] == Init(c) && k <= |steps|
    ensures states[k].fault <==> exists step <- steps[..k] :: IsFault(step)
  {
    hide Apply, Enabled, IsFault;
    if k > 0 {
      FaultIs(c, steps, states, k - 1);
      FaultStep(c, states[k - 1], steps[k - 1]);
      assert steps[..k] == steps[..k - 1] + [steps[k - 1]];
    }
  }

  /** If no worker fails, no write fails and nobody cancels, a run that has returned has written everything, and
      reports no error. */
  lemma {:induction false} UndisturbedRun<R(!new)>(c: Config<R>, steps: seq<Step>, states: seq<State<R>>)
    requires c.Valid() && IsRun(c, steps, states) && states[0] == Init(c) && states[|steps|].phase.Returned?
    requires forall step <- steps :: !IsFault(step)
    ensures states[|steps|].phase == Returned(None) && states[|steps|].written == Flatten(c.outputs)
  {
    FaultIs(c, steps, states, |steps|);
    assert steps[..|steps|] == steps && Reachable(c, states[|steps|]);
    SuccessIsComplete(c, states[|steps|]);
  }
}
