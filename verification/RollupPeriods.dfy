/** Books over any sequence of runs under a period policy, runs that finalize an ended period included. */
module RollupPeriods {
  import opened Wrappers
  import opened RollupEntries
  import opened RollupPass
  import opened RollupConservation
  import opened RollupDisk
  import opened RollupKeys
  import opened RollupSound
  import opened RollupRun
  import RollupBooks
  import opened RollupState
  import Calendar
  import RollingDuration

  /** The directory a run updates, which is the one it finds unless the period of the merge archive has ended. */
  function Base(w: World, setup: Setup, input: Input): World {
    if setup.merge.Some? && w.lineage.Some? && Expired(w.lineage.value, input.checked) then
      Finalized(w, setup.merge.value)
    else w
  }

  function BaseSetup(w: World, setup: Setup, input: Input): Setup {
    if setup.merge.Some? && w.lineage.Some? && Expired(w.lineage.value, input.checked) then
      Setup(Some(Final(setup.merge.value.first, setup.merge.value.last)), None)
    else setup
  }

  lemma {:induction false} AdvanceRuns(w: World, setup: Setup, active: Option<Lineage>, input: Input, opts: Options)
    requires ValidOptions(opts) && SetupIn(w.disk, setup)
    ensures Advance(w, setup, active, input, opts).disk
         == ApplyAll(w.disk, RunOps(w.disk, setup, input.updates, ByPeriod, input.sizes))
  {
  }

  /** A run is the file operations of RollupRun on that directory, whose end is the one the run finds. */
  lemma {:induction false} RunIs(w: World, input: Input, opts: Options, family: Family)
    returns (base: Disk, setup: Setup)
    requires ValidOptions(opts) && TextAgrees(opts) && Agrees(w, opts, family)
    requires Lists(input.files, w.disk) && UpdatesMade(input.updates, family)
    ensures Inspect(input.files).Ok? && End(setup) == End(Inspect(input.files).value)
    ensures Sound(base, family) && Sees(base, setup) && SetupIn(base, setup) && KeepsBooks(w.disk, base)
    ensures RunFamily(w, input, opts).Ok?
    ensures RunFamily(w, input, opts).value.disk
         == ApplyAll(base, RunOps(base, setup, input.updates, ByPeriod, input.sizes))
  {
    hide Inspect, Lists, Sound, UpdatesMade, TextAgrees, Advance, Expired, RunOps, KeepsBooks;
    InspectSound(w.disk, input.files, family);
    RunAgrees(w, input, opts, family);
    var found := Inspect(input.files).value;
    LineageIsMerge(w, found, opts, family);
    base, setup := Base(w, found, input).disk, BaseSetup(w, found, input);
    KeepsItself(w.disk);
    if found.merge.Some? && Expired(w.lineage.value, input.checked) {
      FinalizedAgrees(w, found, opts, family);
      RenameKeeps(w.disk, found.merge.value, Final(found.merge.value.first, found.merge.value.last));
      AdvanceRuns(Finalized(w, found.merge.value), setup, None, input, opts);
    } else {
      AdvanceRuns(w, setup, w.lineage, input, opts);
    }
  }

  /** One run loses no book. */
  lemma {:induction false} RunKeeps(w: World, input: Input, opts: Options, family: Family)
    requires ValidOptions(opts) && TextAgrees(opts) && Agrees(w, opts, family)
    requires Lists(input.files, w.disk) && UpdatesMade(input.updates, family)
    ensures RunFamily(w, input, opts).Ok? && KeepsBooks(w.disk, RunFamily(w, input, opts).value.disk)
  {
    hide Lists, UpdatesMade, RunFamily, Agrees, Sound, Sees, RunOps, KeepsBooks;
    var base, setup := RunIs(w, input, opts, family);
    var ops := RunOps(base, setup, input.updates, ByPeriod, input.sizes);
    RunIsSafe(base, setup, input.updates, ByPeriod, input.sizes, family, |ops|);
    assert ops[..|ops|] == ops;
    KeepsTrans(w.disk, base, ApplyAll(base, ops));
  }

  /** One run stores every book beyond the end that an update holds whose name reaches beyond it, in one
      archive, once. */
  lemma {:induction false} RunDeliversBook(w: World, input: Input, opts: Options, family: Family, u: nat, e: Entry)
    requires ValidOptions(opts) && TextAgrees(opts) && Agrees(w, opts, family)
    requires Lists(input.files, w.disk) && UpdatesMade(input.updates, family) && Inspect(input.files).Ok?
    requires u < |input.updates| && e in input.updates[u].entries
    requires var end := End(Inspect(input.files).value); Eligible(e, end) && end < input.updates[u].last
    ensures RunFamily(w, input, opts).Ok? && StoredOnce(RunFamily(w, input, opts).value.disk, e.key)
  {
    hide Lists, UpdatesMade, RunFamily, Agrees, Sound, Sees, RunOps, StoredOnce, Eligible, Inspect;
    var base, setup := RunIs(w, input, opts, family);
    EndIsNatural(base, setup, family);
    BookReachesPass(input.updates, End(setup), u, e);
    RunDelivers(base, setup, input.updates, ByPeriod, input.sizes, family, e.key);
  }

  // ---------------------------------------------------------------- sequences of runs

  /** Over any sequence of runs no book that was ever stored is lost. */
  lemma {:induction false} RunsKeep(worlds: seq<World>, inputs: seq<Input>, opts: Options, family: Family, i: nat,
      j: nat)
    requires Runs(worlds, inputs, opts, family) && TextAgrees(opts) && Agrees(worlds[0], opts, family)
    requires i <= j <= |inputs|
    ensures Sound(worlds[j].disk, family) && KeepsBooks(worlds[i].disk, worlds[j].disk)
    decreases j
  {
    hide KeepsBooks, Sound, RunFamily, TextAgrees, Lists, UpdatesMade;
    RunsAgree(worlds, inputs, opts, family, j);
    if i < j {
      RunsKeep(worlds, inputs, opts, family, i, j - 1);
      RunsAgree(worlds, inputs, opts, family, j - 1);
      assert IsRun(worlds, inputs, opts, family, j - 1);
      RunKeeps(worlds[j - 1], inputs[j - 1], opts, family);
      KeepsTrans(worlds[i].disk, worlds[j - 1].disk, worlds[j].disk);
    } else {
      KeepsItself(worlds[i].disk);
    }
  }

  /** In any order of ids: a book beyond the end of the directory a run finds, in an update whose name reaches beyond
      it, is stored from then on in exactly one archive, once, under a name of the same book. */
  lemma {:induction false} RunsDeliver(worlds: seq<World>, inputs: seq<Input>, opts: Options, family: Family,
      i: nat, j: nat, u: nat, e: Entry)
    requires Runs(worlds, inputs, opts, family) && TextAgrees(opts) && Agrees(worlds[0], opts, family)
    requires i < j <= |inputs| && u < |inputs[i].updates| && e in inputs[i].updates[u].entries
    requires Inspect(inputs[i].files).Ok?
    requires var end := End(Inspect(inputs[i].files).value); Eligible(e, end) && end < inputs[i].updates[u].last
    ensures StoredOnce(worlds[j].disk, e.key) && RollupBooks.BookStoredOnce(worlds[j].disk, e, family)
  {
    hide KeepsBooks, Sound, RunFamily, TextAgrees, Lists, StoredOnce, Eligible, Agrees, Inspect;
    hide RollupBooks.BookStoredOnce, Made;
    RunsAgree(worlds, inputs, opts, family, i);
    RunsKeep(worlds, inputs, opts, family, i + 1, j);
    assert IsRun(worlds, inputs, opts, family, i);
    RunDeliversBook(worlds[i], inputs[i], opts, family, u, e);
    StaysStored(worlds[i + 1].disk, worlds[j].disk, family, e.key);
    assert AllMade(inputs[i].updates[u].entries, family);
    RollupBooks.StoredOnceIsBook(worlds[j].disk, e, family);
  }

  // ---------------------------------------------------------------- when a period ends

  lemma {:induction false} AcceptedIsSaved(saved: Option<Lineage>, merge: Name, opts: Options)
    requires Validate(saved, merge, opts).Ok?
    ensures Validate(saved, merge, opts).value == saved.value
  {
  }

  /** Which of its branches a run takes. */
  lemma {:induction false} BranchIs(w: World, input: Input, opts: Options, family: Family) returns (setup: Setup)
    requires ValidOptions(opts) && TextAgrees(opts) && Agrees(w, opts, family)
    requires Lists(input.files, w.disk) && UpdatesMade(input.updates, family)
    ensures Sees(w.disk, setup) && setup.merge == if w.lineage.Some? then Some(w.lineage.value.activeMerge) else None
    ensures SetupIn(w.disk, setup)
    ensures if Ends(w.lineage, input.checked) then
              var m := setup.merge.value; var f := Final(m.first, m.last);
              && SetupIn(Finalized(w, m).disk, Setup(Some(f), None))
              && RunFamily(w, input, opts) == Ok(Advance(Finalized(w, m), Setup(Some(f), None), None, input, opts))
            else RunFamily(w, input, opts) == Ok(Advance(w, setup, w.lineage, input, opts))
  {
    hide Inspect, Lists, Sound, UpdatesMade, TextAgrees, Advance, Expired, Validate;
    InspectSound(w.disk, input.files, family);
    setup := Inspect(input.files).value;
    LineageIsMerge(w, setup, opts, family);
    if w.lineage.Some? {
      AcceptedIsSaved(w.lineage, setup.merge.value, opts);
      FinalizedAgrees(w, setup, opts, family);
    }
  }

  /** A run that finds its period ended finalizes the merge archive as it is, and starts a new period, if it copies
      anything, at the time it copies it. */
  lemma {:induction false} RunFinalizes(w: World, input: Input, opts: Options, family: Family)
    requires ValidOptions(opts) && TextAgrees(opts) && Agrees(w, opts, family)
    requires Lists(input.files, w.disk) && UpdatesMade(input.updates, family)
    requires w.lineage.Some? && Expired(w.lineage.value, input.checked)
    ensures RunFamily(w, input, opts).Ok?
    ensures var r := RunFamily(w, input, opts).value;
            var m := w.lineage.value.activeMerge; var f := Final(m.first, m.last);
            && m in w.disk && f !in w.disk && f in r.disk && r.disk[f] == w.disk[m]
            && (forall n: Name :: n.Final? && n != f ==> (n in r.disk <==> n in w.disk))
            && (forall n: Name :: n.Final? && n in w.disk ==> r.disk[n] == w.disk[n])
            && (r.lineage.Some? ==> r.lineage.value
                                    == Create(r.lineage.value.activeMerge, opts, input.copied, input.wall))
  {
    hide Lists, Sound, UpdatesMade, TextAgrees, RunFamily, Advance, Expired, Validate;
    var setup := BranchIs(w, input, opts, family);
    var m := setup.merge.value;
    var f := Final(m.first, m.last);
    FinalizedAgrees(w, setup, opts, family);
    AdvanceAgrees(Finalized(w, m), Setup(Some(f), None), None, input, opts, family);
  }

  /** Any other run leaves the final archives alone; it keeps the period, and if there was none starts one at the time
      it copies the first new book. */
  lemma {:induction false} RunGoesOn(w: World, input: Input, opts: Options, family: Family)
    requires ValidOptions(opts) && TextAgrees(opts) && Agrees(w, opts, family)
    requires Lists(input.files, w.disk) && UpdatesMade(input.updates, family)
    requires w.lineage.Some? ==> !Expired(w.lineage.value, input.checked)
    ensures RunFamily(w, input, opts).Ok?
    ensures var r := RunFamily(w, input, opts).value;
            && SameFinals(w.disk, r.disk)
            && (w.lineage.Some? ==> SamePeriod(w.lineage, r.lineage))
            && (w.lineage.None? && r.lineage.Some? ==>
                  r.lineage.value == Create(r.lineage.value.activeMerge, opts, input.copied, input.wall))
  {
    hide Lists, Sound, UpdatesMade, TextAgrees, RunFamily, Advance, Expired, Validate;
    var setup := BranchIs(w, input, opts, family);
    AdvanceAgrees(w, setup, w.lineage, input, opts, family);
  }

  /** What a new period is: from the given time on, or from the clock if that is the zero time, for the duration or to
      the end of the bucket. */
  lemma {:induction false} CreatedIs(name: Name, opts: Options, started: Instant, wall: Instant)
    requires ValidOptions(opts)
    ensures var l := Create(name, opts, started, wall);
            var at := if started.day == 0 && started.nanos == 0 then wall else started;
            && l.activeMerge == name && l.firstBook == name.first && l.lastBook == name.last
            && match opts
               case Rolling(duration, text) =>
                 && l.kind == RollingKind && l.startedAt == Some(at) && l.deadline == Some(Later(at, duration))
                 && (text != "" ==> l.rolling == text)
               case ByCalendar(bucket) =>
                 l.kind == CalendarKind && l.calendar == Some(bucket)
                 && l.bucketStart.Some? && l.bucketEnd.Some?
                 && (l.bucketStart.value, l.bucketEnd.value) == Calendar.BucketRange(at, bucket)
  {
  }

  /** Which saved lineages a run accepts for a merge archive. */
  lemma {:induction false} AcceptedIs(saved: Option<Lineage>, merge: Name, opts: Options)
    ensures Validate(saved, merge, opts).Ok?
       <==> && saved.Some?
            && var l := saved.value;
            && l.activeMerge == merge && l.firstBook == merge.first && l.lastBook == merge.last
            && match opts
               case Rolling(duration, _) =>
                 && l.kind == RollingKind && l.rolling != "" && RollingDuration.Parse(l.rolling) == Ok(duration)
                 && l.startedAt.Some? && l.deadline == Some(Later(l.startedAt.value, duration))
               case ByCalendar(bucket) =>
                 && l.kind == CalendarKind && l.calendar == Some(bucket)
                 && l.bucketStart.Some? && l.bucketEnd.Some?
                 && Calendar.BucketRange(l.bucketStart.value, bucket) == (l.bucketStart.value, l.bucketEnd.value)
  {
  }
}
