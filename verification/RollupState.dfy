/** Runs under a period policy: the saved state and the archive directory stay in agreement. */
module RollupState {
  import opened Wrappers
  import opened RollupEntries
  import opened RollupPass
  import opened RollupConservation
  import opened RollupRanges
  import opened RollupDisk
  import opened RollupKeys
  import opened RollupSound
  import opened RollupRun
  import Calendar
  import RollingDuration
  import Decimal

  type Instant = Calendar.Instant

  datatype Options = Rolling(duration: int, text: string) | ByCalendar(bucket: Calendar.Bucket)

  datatype Kind = RollingKind | CalendarKind

  function KindOf(opts: Options): Kind { if opts.Rolling? then RollingKind else CalendarKind }

  /** `validateFinalizationOptions` for the period policies; the duration is a 64-bit number. */
  predicate ValidOptions(opts: Options) {
    opts.Rolling? ==> 0 < opts.duration <= Decimal.MAX_INT64 && opts.duration % RollingDuration.DAY == 0
  }

  /** The configuration reads the duration from the text, or gives no text. */
  predicate TextAgrees(opts: Options) {
    opts.Rolling? && opts.text != "" ==> RollingDuration.Parse(opts.text) == Ok(opts.duration)
  }

  /** `rollupLineageState`. */
  datatype Lineage = Lineage(
    activeMerge: Name, firstBook: int, lastBook: int, kind: Kind,
    rolling: string, startedAt: Option<Instant>, deadline: Option<Instant>,
    calendar: Option<Calendar.Bucket>, bucketStart: Option<Instant>, bucketEnd: Option<Instant>)

  datatype StateError =
    | Directory(error: Error)
    | NoLineage
    | WrongMerge
    | WrongRange
    | WrongPolicy
    | Incomplete
    | BadDuration
    | WrongDuration
    | WrongDeadline
    | WrongBucket

  function Later(t: Instant, nanos: int): Instant {
    var total := t.nanos + nanos;
    Calendar.Instant(t.day + total / Calendar.DAY, total % Calendar.DAY)
  }

  function ValidateRolling(l: Lineage, opts: Options): Result<Lineage, StateError>
    requires opts.Rolling?
  {
    if l.rolling == "" || l.startedAt.None? || l.deadline.None? then Err(Incomplete)
    else
      match RollingDuration.Parse(l.rolling)
      case Err(_) => Err(BadDuration)
      case Ok(duration) =>
        if duration != opts.duration then Err(WrongDuration)
        else if l.deadline.value != Later(l.startedAt.value, duration) then Err(WrongDeadline)
        else Ok(l)
  }

  function ValidateCalendar(l: Lineage, opts: Options): Result<Lineage, StateError>
    requires opts.ByCalendar?
  {
    if l.calendar != Some(opts.bucket) || l.bucketStart.None? || l.bucketEnd.None? then Err(Incomplete)
    else if (l.bucketStart.value, l.bucketEnd.value) != Calendar.BucketRange(l.bucketStart.value, opts.bucket)
    then Err(WrongBucket)
    else Ok(l)
  }

  /** `validatePeriodState` when there is a merge archive. */
  function Validate(saved: Option<Lineage>, merge: Name, opts: Options): Result<Lineage, StateError> {
    if saved.None? then Err(NoLineage)
    else
      var l := saved.value;
      if l.activeMerge != merge then Err(WrongMerge)
      else if l.firstBook != merge.first || l.lastBook != merge.last then Err(WrongRange)
      else if l.kind != KindOf(opts) then Err(WrongPolicy)
      else if opts.Rolling? then ValidateRolling(l, opts)
      else ValidateCalendar(l, opts)
  }

  /** `createRollupLineageState`; a zero start time is replaced by the wall clock. */
  function Create(name: Name, opts: Options, started: Instant, wall: Instant): Lineage
    requires ValidOptions(opts)
  {
    var at := if started == Calendar.Instant(0, 0) then wall else started;
    var blank := Lineage(name, name.first, name.last, KindOf(opts), "", None, None, None, None, None);
    match opts
    case Rolling(duration, text) =>
      blank.(rolling := if text == "" then RollingDuration.FormatDuration(duration) else text,
             startedAt := Some(at), deadline := Some(Later(at, duration)))
    case ByCalendar(bucket) =>
      var (start, end) := Calendar.BucketRange(at, bucket);
      blank.(calendar := Some(bucket), bucketStart := Some(start), bucketEnd := Some(end))
  }

  /** `periodExpired`. */
  predicate Expired(l: Lineage, now: Instant) {
    match l.kind
    case RollingKind => l.deadline.Some? && !Calendar.Before(now, l.deadline.value)
    case CalendarKind => l.bucketEnd.Some? && !Calendar.Before(now, l.bucketEnd.value)
  }

  /** A fresh lineage passes the checks of the next run. */
  lemma {:induction false} CreatedIsValid(name: Name, opts: Options, started: Instant, wall: Instant)
    requires ValidOptions(opts) && TextAgrees(opts)
    ensures Validate(Some(Create(name, opts, started, wall)), name, opts).Ok?
  {
    match opts
    case Rolling(duration, text) =>
      if text == "" { RollingDuration.ParseOfFormatted(duration); }
      NotEmpty(duration);
    case ByCalendar(bucket) =>
      var at := if started == Calendar.Instant(0, 0) then wall else started;
      Calendar.BucketsAbut(at, bucket, Calendar.BucketRange(at, bucket));
  }

  lemma {:induction false} NotEmpty(duration: int)
    requires duration > 0
    ensures RollingDuration.FormatDuration(duration) != ""
  {
  }

  /** Moving a lineage to a grown merge archive keeps its period. */
  function Moved(l: Lineage, name: Name): Lineage {
    l.(activeMerge := name, firstBook := name.first, lastBook := name.last)
  }

  lemma {:induction false} MovedIsValid(l: Lineage, name: Name, opts: Options)
    requires Validate(Some(l), l.activeMerge, opts).Ok?
    ensures Validate(Some(Moved(l, name)), name, opts).Ok?
  {
  }

  /** An accepted calendar lineage ends exactly when the clock has left its bucket: from the bucket's
      start on, the merge archive is due when the current instant has another bucket. */
  lemma {:induction false} DueWhenBucketIsLeft(l: Lineage, merge: Name, opts: Options, now: Instant)
    requires Validate(Some(l), merge, opts).Ok? && opts.ByCalendar?
    requires !Calendar.Before(now, l.bucketStart.value)
    ensures Expired(l, now) <==> Calendar.BucketRange(now, opts.bucket) != (l.bucketStart.value, l.bucketEnd.value)
  {
    Calendar.BucketsPartitionTime(l.bucketStart.value, now, opts.bucket);
  }

  /** An accepted rolling lineage is due from its start plus the configured duration on. */
  lemma {:induction false} DueAfterDuration(l: Lineage, merge: Name, opts: Options, now: Instant)
    requires Validate(Some(l), merge, opts).Ok? && opts.Rolling?
    ensures l.startedAt.Some?
    ensures Expired(l, now) <==> !Calendar.Before(now, Later(l.startedAt.value, opts.duration))
  {
  }

  /** A whole number of days later is the same time of day, that many days on. */
  lemma {:induction false} LaterByDays(t: Instant, days: nat)
    ensures Later(t, days * Calendar.DAY) == Calendar.Instant(t.day + days, t.nanos)
  {
    DivideDays(t.nanos, days, Calendar.DAY);
  }

  lemma {:induction false} DivideDays(nanos: nat, days: nat, day: nat)
    requires nanos < day
    ensures (nanos + days * day) / day == days && (nanos + days * day) % day == nanos
  {
    var total := nanos + days * day;
    var q, r := total / day, total % day;
    assert total == q * day + r;
    assert (q - days) * day == nanos - r;
    if q > days { assert (q - days) * day >= day by { GrowsBy(q - days, day); } }
    if q < days { assert (days - q) * day >= day by { GrowsBy(days - q, day); } }
  }

  lemma {:induction false} GrowsBy(k: int, day: nat)
    requires k >= 1
    ensures k * day >= day
  {
    assert (k - 1) * day >= 0;
  }

  // ---------------------------------------------------------------- runs

  datatype World = World(disk: Disk, lineage: Option<Lineage>)

  /** What a run is given: the directory listing, the updates, file sizes, and the clock when the
      deadline is checked, when the first entry is copied, and when the lineage is written. */
  datatype Input = Input(
    files: seq<Name>, updates: seq<Update>, sizes: Sizes, checked: Instant, copied: Instant, wall: Instant)

  /** `processUpdates` and saving the state. */
  function Advance(w: World, setup: Setup, active: Option<Lineage>, input: Input, opts: Options): World
    requires ValidOptions(opts) && SetupIn(w.disk, setup)
  {
    var selected := Select(input.updates, End(setup));
    if selected == [] then w
    else
      var s := PassState(w.disk, setup, selected, ByPeriod, input.sizes);
      var disk := ApplyAll(w.disk, Close(s));
      if s.first == 0 || !s.copied then World(disk, w.lineage)
      else
        var name := Merging(s.first, s.last);
        World(disk, Some(if active.Some? then Moved(active.value, name)
                         else Create(name, opts, input.copied, input.wall)))
  }

  /** Finalizing the merge archive whose period has ended. */
  function Finalized(w: World, m: Name): World {
    World(Apply(w.disk, Rename(m, Final(m.first, m.last))), None)
  }

  /** `runFamily` under a period policy. */
  function RunFamily(w: World, input: Input, opts: Options): Result<World, StateError>
    requires ValidOptions(opts) && Lists(input.files, w.disk)
  {
    match Inspect(input.files)
    case Err(e) => Err(Directory(e))
    case Ok(setup) =>
      MergesAreListed(input.files);
      if setup.merge.None? then
        Ok(Advance(World(w.disk, None), setup, None, input, opts))
      else
        var m := setup.merge.value;
        match Validate(w.lineage, m, opts)
        case Err(e) => Err(e)
        case Ok(l) =>
          if Expired(l, input.checked) then
            Ok(Advance(Finalized(w, m), Setup(Some(Final(m.first, m.last)), None), None, input, opts))
          else
            Ok(Advance(w, setup, Some(l), input, opts))
  }

  /** The saved lineage describes the merge archive on disk, and there is one exactly when there
      is the other; the next run accepts it. */
  ghost predicate Agrees(w: World, opts: Options, family: Family) {
    && Sound(w.disk, family)
    && (forall n :: n in w.disk && n.Merging? <==> w.lineage.Some? && w.lineage.value.activeMerge == n)
    && (w.lineage.Some? ==> Validate(w.lineage, w.lineage.value.activeMerge, opts).Ok?)
  }

  // ---------------------------------------------------------------- one pass under a period policy

  /** The final archives are the same ones, with the same entries. */
  ghost predicate SameFinals(d: Disk, r: Disk) {
    forall n: Name :: n.Final? ==> (n in r <==> n in d) && (n in d ==> r[n] == d[n])
  }

  lemma {:induction false} PeriodState(d: Disk, setup: Setup, updates: seq<Update>, sizes: Sizes, family: Family)
    returns (start: State, s: State)
    requires Sound(d, family) && Sees(d, setup) && UpdatesMade(updates, family)
    ensures s == PassState(d, setup, Select(updates, End(setup)), ByPeriod, sizes)
    ensures start.prior == setup.merge
    ensures Passed(d, start, s, family) && s.done == []
  {
    start, s := PassIsPassed(d, setup, updates, ByPeriod, sizes, family);
    PeriodConserves(start, InOrder(Select(updates, End(setup))));
  }

  lemma {:induction false} PeriodPublications(start: State, s: State)
    requires Logged(start, s) && s.done == []
    ensures s.ops == []
    ensures Publications(s) == if s.first == 0 || !s.copied then []
            else [Publication(Merging(s.first, s.last), s.entries)]
  {
  }

  lemma {:induction false} OnlyMerge(d: Disk, merge: Option<Name>, pubs: seq<Publication>, r: Disk)
    requires forall n :: n in d && n.Merging? ==> merge == Some(n)
    requires |pubs| == 1 && pubs[0].name.Merging? && After(d, merge, pubs, r)
    ensures forall n :: n in r && n.Merging? <==> n == pubs[0].name
  {
    assert Published(pubs, pubs[0].name);
  }

  lemma {:induction false} PeriodPass(d: Disk, start: State, s: State, family: Family)
    requires Sound(d, family) && Passed(d, start, s, family) && s.done == []
    requires forall n :: n in d && n.Merging? ==> start.prior == Some(n)
    requires start.prior.Some? ==> start.prior.value.Merging?
    ensures var r := ApplyAll(d, Close(s));
            && Sound(r, family)
            && (if s.first == 0 || !s.copied then r == d
                else forall n :: n in r && n.Merging? <==> n == Merging(s.first, s.last))
            && SameFinals(d, r)
  {
    hide Sound, ApplyAll, Continues, PubSound, OpsOf, Close, Ranges, Single, Prefixed, Logged, NewNames, Inherits,
      Publications;
    PublicationsFit(d, start, s, family);
    PeriodPublications(start, s);
    PublishedMerge(d, start, Publications(s), family);
  }

  lemma {:induction false} FinalsStay(d: Disk, prior: Option<Name>, pubs: seq<Publication>, r: Disk)
    requires After(d, prior, pubs, r) && |pubs| == 1 && pubs[0].name.Merging? && (prior.Some? ==> prior.value.Merging?)
    ensures SameFinals(d, r)
  {
  }

  /** A period pass that copies nothing leaves the directory alone; one that does leaves exactly
      the archive it names as merge archive. */
  lemma {:induction false} PeriodDisk(d: Disk, setup: Setup, updates: seq<Update>, sizes: Sizes, family: Family)
    requires Sound(d, family) && Sees(d, setup) && UpdatesMade(updates, family)
    ensures var s := PassState(d, setup, Select(updates, End(setup)), ByPeriod, sizes);
            var r := ApplyAll(d, Close(s));
            && Sound(r, family)
            && (if s.first == 0 || !s.copied then r == d
                else forall n :: n in r && n.Merging? <==> n == Merging(s.first, s.last))
            && SameFinals(d, r)
  {
    hide Sound, Select, UpdatesMade, ApplyAll, Close, PassState, Passed;
    var start, s := PeriodState(d, setup, updates, sizes, family);
    PeriodPass(d, start, s, family);
  }

  lemma {:induction false} PublishedMerge(d: Disk, start: State, pubs: seq<Publication>, family: Family)
    requires Sound(d, family) && Continues(d, start, family)
    requires forall n :: n in d && n.Merging? ==> start.prior == Some(n)
    requires PubSound(start, pubs, family) && NewNames(d, pubs)
    requires |pubs| <= 1 && (pubs != [] ==> pubs[0].name.Merging?) && (start.prior.Some? ==> start.prior.value.Merging?)
    ensures var r := ApplyAll(d, OpsOf(start.prior, pubs));
            && Sound(r, family)
            && (if pubs == [] then r == d else forall n :: n in r && n.Merging? <==> n == pubs[0].name)
            && SameFinals(d, r)
  {
    var r := ApplyAll(d, OpsOf(start.prior, pubs));
    OpsPublish(d, start.prior, pubs);
    AfterSound(d, start, pubs, r, family);
    if pubs != [] {
      OnlyMerge(d, start.prior, pubs, r);
      FinalsStay(d, start.prior, pubs, r);
    }
  }

  lemma {:induction false} AdvanceAgrees(w: World, setup: Setup, active: Option<Lineage>, input: Input, opts: Options,
      family: Family)
    requires ValidOptions(opts) && TextAgrees(opts) && Agrees(w, opts, family) && Sees(w.disk, setup)
    requires UpdatesMade(input.updates, family)
    requires active == w.lineage
    ensures Agrees(Advance(w, setup, active, input, opts), opts, family)
    ensures var w' := Advance(w, setup, active, input, opts);
            && SameFinals(w.disk, w'.disk)
            && (active.Some? ==>
                  w'.lineage.Some? && w'.lineage.value == Moved(active.value, w'.lineage.value.activeMerge))
            && (active.None? && w'.lineage.Some? ==>
                  w'.lineage.value == Create(w'.lineage.value.activeMerge, opts, input.copied, input.wall))
  {
    var selected := Select(input.updates, End(setup));
    if selected != [] {
      PeriodDisk(w.disk, setup, input.updates, input.sizes, family);
      var s := PassState(w.disk, setup, selected, ByPeriod, input.sizes);
      var name := Merging(s.first, s.last);
      if active.Some? { MovedIsValid(active.value, name, opts); }
      else { CreatedIsValid(name, opts, input.copied, input.wall); }
    }
  }

  lemma {:induction false} FinalizedSound(d: Disk, m: Name, family: Family)
    requires Sound(d, family) && m in d && m.Merging?
    ensures var f := Final(m.first, m.last);
            && f !in d && Sound(Apply(d, Rename(m, f)), family)
            && Apply(d, Rename(m, f)) == (d - {m})[f := d[m]]
  {
    var f := Final(m.first, m.last);
    assert SoundArchive(m, d[m], family);
    assert f in d ==> Apart(f, m);
    var r := Apply(d, Rename(m, f));
    assert r == (d - {m})[f := d[m]];
    forall n | n in r ensures SoundArchive(n, r[n], family) {
      if n != f { assert SoundArchive(n, d[n], family); }
    }
    forall n, k | n in r && k in r && n != k ensures Apart(n, k) {
      assert n != f ==> n in d && Apart(n, m);
      assert k != f ==> k in d && Apart(k, m);
      if n != f && k != f { assert Apart(n, k); }
    }
  }

  lemma {:induction false} FinalizedAgrees(w: World, setup: Setup, opts: Options, family: Family)
    requires Agrees(w, opts, family) && Sees(w.disk, setup) && setup.merge.Some?
    ensures var m := setup.merge.value; var f := Final(m.first, m.last);
            && Agrees(Finalized(w, m), opts, family)
            && Sees(Finalized(w, m).disk, Setup(Some(f), None))
            && f !in w.disk && Finalized(w, m).disk[f] == w.disk[m]
  {
    var m := setup.merge.value;
    var f := Final(m.first, m.last);
    FinalizedSound(w.disk, m, family);
    forall n | n in w.disk && n != m ensures Below(n, f) && !n.Merging? {
      assert Apart(n, m);
    }
  }

  lemma {:induction false} LineageIsMerge(w: World, setup: Setup, opts: Options, family: Family)
    requires Agrees(w, opts, family) && Sees(w.disk, setup)
    ensures setup.merge == if w.lineage.Some? then Some(w.lineage.value.activeMerge) else None
  {
    hide Sound, Validate;
    if w.lineage.Some? {
      var n := w.lineage.value.activeMerge;
      assert n in w.disk && n.Merging?;
    }
  }

  /** One run from an agreeing world: it never fails on the directory or the state, leaves them in
      agreement, and unless it finalizes the merge archive keeps the whole period of the lineage. */
  lemma {:induction false} RunAgrees(w: World, input: Input, opts: Options, family: Family)
    requires ValidOptions(opts) && TextAgrees(opts) && Agrees(w, opts, family)
    requires Lists(input.files, w.disk) && UpdatesMade(input.updates, family)
    ensures RunFamily(w, input, opts).Ok?
    ensures var w' := RunFamily(w, input, opts).value;
            && Agrees(w', opts, family)
            && (w.lineage.Some? && !Expired(w.lineage.value, input.checked) ==>
                  w'.lineage.Some? && w'.lineage.value == Moved(w.lineage.value, w'.lineage.value.activeMerge))
  {
    hide Inspect, Lists, Sound, UpdatesMade, TextAgrees, Advance, Expired, Select;
    InspectSound(w.disk, input.files, family);
    var setup := Inspect(input.files).value;
    LineageIsMerge(w, setup, opts, family);
    if setup.merge.None? {
      AdvanceAgrees(w, setup, None, input, opts, family);
    } else if Expired(w.lineage.value, input.checked) {
      var m := setup.merge.value;
      FinalizedAgrees(w, setup, opts, family);
      AdvanceAgrees(Finalized(w, m), Setup(Some(Final(m.first, m.last)), None), None, input, opts, family);
    } else {
      AdvanceAgrees(w, setup, w.lineage, input, opts, family);
    }
  }

  ghost predicate IsRun(worlds: seq<World>, inputs: seq<Input>, opts: Options, family: Family, i: nat)
    requires ValidOptions(opts) && |worlds| == |inputs| + 1 && i < |inputs|
  {
    && Lists(inputs[i].files, worlds[i].disk) && UpdatesMade(inputs[i].updates, family)
    && RunFamily(worlds[i], inputs[i], opts) == Ok(worlds[i + 1])
  }

  /** A sequence of runs: each starts from the directory and the state the one before left. */
  ghost predicate Runs(worlds: seq<World>, inputs: seq<Input>, opts: Options, family: Family) {
    && ValidOptions(opts) && |worlds| == |inputs| + 1
    && forall i :: 0 <= i < |inputs| ==> IsRun(worlds, inputs, opts, family, i)
  }

  /** The lineages differ at most in the merge archive they name. */
  predicate SamePeriod(before: Option<Lineage>, after: Option<Lineage>) {
    before.Some? && after.Some? && after.value == Moved(before.value, after.value.activeMerge)
  }

  predicate Ends(l: Option<Lineage>, now: Instant) { l.Some? && Expired(l.value, now) }

  lemma {:induction false} OneOfRuns(worlds: seq<World>, inputs: seq<Input>, opts: Options, family: Family, n: nat)
    requires Runs(worlds, inputs, opts, family) && TextAgrees(opts) && n < |inputs|
    requires Agrees(worlds[n], opts, family)
    ensures Agrees(worlds[n + 1], opts, family)
    ensures worlds[n].lineage.Some? && !Ends(worlds[n].lineage, inputs[n].checked) ==>
              SamePeriod(worlds[n].lineage, worlds[n + 1].lineage)
  {
    assert IsRun(worlds, inputs, opts, family, n);
    RunAgrees(worlds[n], inputs[n], opts, family);
  }

  /** Over any sequence of runs with the same options the state agrees with the directory. */
  lemma {:induction false} RunsAgree(worlds: seq<World>, inputs: seq<Input>, opts: Options, family: Family, n: nat)
    requires Runs(worlds, inputs, opts, family) && TextAgrees(opts) && Agrees(worlds[0], opts, family)
    requires n <= |inputs|
    ensures Agrees(worlds[n], opts, family)
  {
    if n > 0 {
      RunsAgree(worlds, inputs, opts, family, n - 1);
      OneOfRuns(worlds, inputs, opts, family, n - 1);
    }
  }

  /** An empty directory and no saved state: where every history starts. */
  lemma {:induction false} StartAgrees(opts: Options, family: Family)
    ensures Agrees(World(map[], None), opts, family)
  {
  }

  /** From an empty directory on, no sequence of runs ever fails on the directory or the state, and
      after each of them there is a lineage exactly when there is a merge archive, which it describes. */
  lemma {:induction false} HistoriesAgree(worlds: seq<World>, inputs: seq<Input>, opts: Options, family: Family, n: nat)
    requires Runs(worlds, inputs, opts, family) && TextAgrees(opts) && worlds[0] == World(map[], None) && n <= |inputs|
    ensures Agrees(worlds[n], opts, family)
    ensures forall input: Input :: Lists(input.files, worlds[n].disk) && UpdatesMade(input.updates, family) ==>
      RunFamily(worlds[n], input, opts).Ok?
  {
    StartAgrees(opts, family);
    RunsAgree(worlds, inputs, opts, family, n);
    forall input: Input | Lists(input.files, worlds[n].disk) && UpdatesMade(input.updates, family)
      ensures RunFamily(worlds[n], input, opts).Ok?
    {
      RunAgrees(worlds[n], input, opts, family);
    }
  }

  /** A period's start, deadline and bucket do not change until its merge archive is finalized. */
  lemma {:induction false} PeriodIsConstant(worlds: seq<World>, inputs: seq<Input>, opts: Options, family: Family,
      i: nat, j: nat)
    requires Runs(worlds, inputs, opts, family) && TextAgrees(opts) && Agrees(worlds[0], opts, family)
    requires i <= j <= |inputs| && worlds[i].lineage.Some?
    requires forall k :: i <= k < j ==> !Ends(worlds[k].lineage, inputs[k].checked)
    ensures SamePeriod(worlds[i].lineage, worlds[j].lineage)
    decreases j
  {
    hide Agrees, IsRun, TextAgrees, Ends;
    if i < j {
      PeriodIsConstant(worlds, inputs, opts, family, i, j - 1);
      RunsAgree(worlds, inputs, opts, family, j - 1);
      OneOfRuns(worlds, inputs, opts, family, j - 1);
    } else {
      RunsAgree(worlds, inputs, opts, family, i);
      LineageNamesIts(worlds[i], opts, family);
    }
  }

  lemma {:induction false} LineageNamesIts(w: World, opts: Options, family: Family)
    requires Agrees(w, opts, family) && w.lineage.Some?
    ensures SamePeriod(w.lineage, w.lineage)
  {
  }
}
