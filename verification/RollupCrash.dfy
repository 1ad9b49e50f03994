/** What the run after a crash does, under a period policy. The state file is written after the
    files have been moved, so a crash in between leaves it behind the directory. */
module RollupCrash {
  import opened Wrappers
  import opened RollupEntries
  import opened RollupPass
  import opened RollupConservation
  import opened RollupRanges
  import opened RollupDisk
  import opened RollupKeys
  import opened RollupSound
  import opened RollupRun
  import opened RollupState

  /** The operations of a period pass that has copied something. */
  lemma {:induction false} PeriodOps(start: State, s: State)
    requires Logged(start, s) && s.done == []
    ensures Close(s) == if s.first == 0 || !s.copied then []
            else FinishAs(start.prior, Merging(s.first, s.last), s.entries)
  {
    PeriodPublications(start, s);
    CloseLogged(start, s);
    var pub := Publication(Merging(s.first, s.last), s.entries);
    assert [pub][..0] == [];
    assert OpsOf(start.prior, []) == [];
  }

  ghost predicate Publishes(d: Disk, ops: seq<Op>, prior: Option<Name>, name: Name, entries: seq<Entry>) {
    name.Merging? && name !in d && prior != Some(name) && ops == FinishAs(prior, name, entries)
  }

  /** A grown merge archive never keeps its name. */
  lemma {:induction false} NameMovesOn(d: Disk, setup: Setup, updates: seq<Update>, sizes: Sizes, family: Family)
    returns (prior: Option<Name>, name: Name, entries: seq<Entry>)
    requires Sound(d, family) && Sees(d, setup) && UpdatesMade(updates, family)
    requires RunOps(d, setup, updates, ByPeriod, sizes) != []
    ensures Publishes(d, RunOps(d, setup, updates, ByPeriod, sizes), prior, name, entries)
  {
    var start, s := PeriodState(d, setup, updates, sizes, family);
    assert EndOf(start, s.done) == start.end;
    PeriodOps(start, s);
    prior, name, entries := start.prior, Merging(s.first, s.last), s.entries;
    assert forall n :: n in d ==> n.last <= start.end < s.last;
  }

  /** The directory once the new merge archive is published and, with `removed`, the old one removed. */
  function Interrupted(d: Disk, prior: Option<Name>, name: Name, entries: seq<Entry>, removed: bool): Disk {
    var published := d[name := entries];
    if removed && prior.Some? then published - {prior.value} else published
  }

  lemma {:induction false} OpsInterrupted(d: Disk, prior: Option<Name>, name: Name, entries: seq<Entry>, k: nat)
    requires 0 < k <= |FinishAs(prior, name, entries)| && prior != Some(name)
    ensures ApplyAll(d, FinishAs(prior, name, entries)[..k])
         == Interrupted(d, prior, name, entries, k == |FinishAs(prior, name, entries)|)
  {
    var ops := FinishAs(prior, name, entries);
    var one := ops[..1];
    assert one == [Publish(name, entries)] && one[..0] == [];
    assert ApplyAll(d, one) == d[name := entries];
    if k == 2 {
      assert ops[..2] == one + [Remove(prior.value)] && ops[..2][..1] == one;
    }
  }

  /** A run that finds a merge archive the state does not describe stops. */
  lemma {:induction false} StaleStateStops(w: World, next: Input, opts: Options, m: Name)
    requires ValidOptions(opts) && Lists(next.files, w.disk) && m in w.disk && m.Merging?
    requires w.lineage.Some? ==> w.lineage.value.activeMerge != m
    ensures RunFamily(w, next, opts).Err?
  {
    MergesHolds(next.files, m);
    MergesAreListed(next.files);
    if Inspect(next.files).Ok? {
      OneMergeIs(next.files, m);
    }
  }

  lemma {:induction false} OneMergeIs(files: seq<Name>, m: Name)
    requires m in Merges(files) && Inspect(files).Ok?
    ensures Inspect(files).value.merge == Some(m)
  {
    var i :| 0 <= i < |Merges(files)| && Merges(files)[i] == m;
  }

  /** A run that does not finalize is cut off after k of its file operations. If that was before the
      first, nothing has changed; otherwise the next run stops with an error before it touches
      anything. */
  lemma {:induction false} CrashedRunStops(
    w: World, setup: Setup, input: Input, opts: Options, family: Family, k: nat, next: Input)
    requires ValidOptions(opts) && Agrees(w, opts, family) && Sees(w.disk, setup) && UpdatesMade(input.updates, family)
    requires k <= |RunOps(w.disk, setup, input.updates, ByPeriod, input.sizes)|
    requires Lists(next.files, ApplyAll(w.disk, RunOps(w.disk, setup, input.updates, ByPeriod, input.sizes)[..k]))
    ensures var d := ApplyAll(w.disk, RunOps(w.disk, setup, input.updates, ByPeriod, input.sizes)[..k]);
            if k == 0 then d == w.disk else RunFamily(World(d, w.lineage), next, opts).Err?
  {
    var ops := RunOps(w.disk, setup, input.updates, ByPeriod, input.sizes);
    if k > 0 {
      var prior, name, entries := NameMovesOn(w.disk, setup, input.updates, input.sizes, family);
      OpsInterrupted(w.disk, prior, name, entries, k);
      StateIsBehind(w, opts, family, name);
      StaleStateStops(World(ApplyAll(w.disk, ops[..k]), w.lineage), next, opts, name);
    }
  }

  lemma {:induction false} StateIsBehind(w: World, opts: Options, family: Family, name: Name)
    requires Agrees(w, opts, family) && name !in w.disk
    ensures w.lineage.Some? ==> w.lineage.value.activeMerge != name
  {
  }

  /** A crash right after an ended merge archive was renamed, before the state was cleared, does no
      harm: the next run clears the state and goes on, and leaves both in agreement. */
  lemma {:induction false} RenamedIsRecovered(w: World, setup: Setup, opts: Options, family: Family, next: Input)
    requires ValidOptions(opts) && TextAgrees(opts) && Agrees(w, opts, family)
    requires Sees(w.disk, setup) && setup.merge.Some? && UpdatesMade(next.updates, family)
    requires Lists(next.files, Finalized(w, setup.merge.value).disk)
    ensures var crashed := World(Finalized(w, setup.merge.value).disk, w.lineage);
            && RunFamily(crashed, next, opts) == RunFamily(Finalized(w, setup.merge.value), next, opts)
            && RunFamily(crashed, next, opts).Ok? && Agrees(RunFamily(crashed, next, opts).value, opts, family)
  {
    var m := setup.merge.value;
    FinalizedAgrees(w, setup, opts, family);
    InspectSound(Finalized(w, m).disk, next.files, family);
    MergesAreListed(next.files);
    RunAgrees(Finalized(w, m), next, opts, family);
  }
}
