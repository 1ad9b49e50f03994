/** `runFamily` as it runs, for all policies, and crashes anywhere in a run that finalizes a period. */
module RollupRunner {
  import opened Wrappers
  import opened RollupEntries
  import opened RollupPass
  import opened RollupConservation
  import opened RollupDisk
  import opened RollupKeys
  import opened RollupSound
  import opened RollupRun
  import opened RollupState
  import RollupSize

  method GetLastArchive(files: seq<Name>) returns (res: Option<Name>)
    ensures res == LastOf(files)
    ensures forall f :: f in files && f.Final? ==> f.last <= EndOfName(res)
  {
    res := None;
    var i := 0;
    while i < |files|
      invariant i <= |files| && res == LastOf(files[..i])
    {
      assert files[..i + 1][..i] == files[..i];
      if files[i].Final? && EndOfName(res) < files[i].last { res := Some(files[i]); }
      i := i + 1;
    }
    assert files[..i] == files;
  }

  method GetMergeArchive(files: seq<Name>) returns (res: Option<Name>, count: nat)
    ensures count == |Merges(files)|
    ensures count == 0 ==> res == None
    ensures count > 0 ==> res == Some(Merges(files)[count - 1])
  {
    res, count := None, 0;
    var i := 0;
    while i < |files|
      invariant i <= |files| && count == |Merges(files[..i])|
      invariant count == 0 ==> res == None
      invariant count > 0 ==> res == Some(Merges(files[..i])[count - 1])
    {
      if files[i].Merging? { res, count := Some(files[i]), count + 1; }
      i := i + 1;
      assert files[..i][..i - 1] == files[..i - 1];
    }
    assert files[..i] == files;
  }

  method InspectDirectory(files: seq<Name>) returns (r: Result<Setup, Error>)
    ensures r == Inspect(files)
  {
    var last := GetLastArchive(files);
    var merge, count := GetMergeArchive(files);
    if count > 1 { return Err(TwoMerges); }
    if merge.Some? {
      var begin := if last.Some? then last.value.first else 0;
      var m := merge.value;
      if m.first < begin || (m.first > begin && m.first <= EndOfName(last)) || m.last < EndOfName(last) {
        return Err(MergeDoesNotMatch);
      }
    }
    return Ok(Setup(last, merge));
  }

  /** `processUpdates` under either kind of policy. */
  method CopyUpdates(d: Disk, setup: Setup, updates: seq<Update>, policy: Policy, sizes: Sizes)
    returns (ops: seq<Op>, merge: Option<Name>)
    requires SetupIn(d, setup)
    ensures ops == RunOps(d, setup, updates, policy, sizes)
    ensures merge == var selected := Select(updates, End(setup));
                     if selected == [] then None
                     else
                       var s := PassState(d, setup, selected, policy, sizes);
                       if s.first == 0 || !s.copied then None else Some(Merging(s.first, s.last))
  {
    var selected := Select(updates, End(setup));
    if selected == [] { return [], None; }
    var reopened := Reopens(setup, policy, sizes.last);
    var worker := new Worker(Open(d, setup, policy, sizes.merge, sizes.last), policy);
    worker.ProcessUpdates(if reopened then [d[setup.last.value]] + selected else selected, reopened);
    merge := worker.Finish();
    ops := worker.ops;
  }

  /** One family's directory under the size policy, which keeps no state. */
  class Directory {
    var disk: Disk

    constructor (disk: Disk)
      ensures this.disk == disk
    {
      this.disk := disk;
    }

    method RunOnce(input: RollupSize.Input) returns (r: Result<bool, Error>)
      requires Lists(input.files, disk)
      modifies this
      ensures match RollupSize.RunBySize(old(disk), input)
              case Ok(d) => r.Ok? && disk == d
              case Err(e) => r == Err(e) && disk == old(disk)
    {
      var inspected := InspectDirectory(input.files);
      if inspected.Err? { return Err(inspected.error); }
      RollupSize.SetupIsListed(input.files);
      var ops, _ := CopyUpdates(disk, inspected.value, input.updates, BySize(input.target), input.sizes);
      disk := ApplyAll(disk, ops);
      return Ok(true);
    }
  }

  /** One family's directory with its entry in the state file. */
  class Lineages {
    const opts: Options
    var disk: Disk
    var lineage: Option<Lineage>

    constructor (disk: Disk, lineage: Option<Lineage>, opts: Options)
      ensures Now() == World(disk, lineage) && this.opts == opts
    {
      this.disk, this.lineage, this.opts := disk, lineage, opts;
    }

    function Now(): World
      reads this
    {
      World(disk, lineage)
    }

    method ProcessUpdates(setup: Setup, active: Option<Lineage>, input: Input)
      requires ValidOptions(opts) && SetupIn(disk, setup)
      modifies this
      ensures Now() == Advance(old(Now()), setup, active, input, opts)
    {
      var ops, merge := CopyUpdates(disk, setup, input.updates, ByPeriod, input.sizes);
      disk := ApplyAll(disk, ops);
      if merge.Some? {
        if active.Some? { lineage := Some(Moved(active.value, merge.value)); }
        else { lineage := Some(Create(merge.value, opts, input.copied, input.wall)); }
      }
    }

    method RunOnce(input: Input) returns (r: Result<bool, StateError>)
      requires ValidOptions(opts) && Lists(input.files, disk)
      modifies this
      ensures match RunFamily(old(Now()), input, opts)
              case Ok(w) => r.Ok? && Now() == w
              case Err(e) => r == Err(e) && Now() == old(Now())
    {
      var inspected := InspectDirectory(input.files);
      if inspected.Err? { return Err(Directory(inspected.error)); }
      var setup := inspected.value;
      MergesAreListed(input.files);
      if setup.merge.None? {
        lineage := None;
        ProcessUpdates(setup, None, input);
        return Ok(true);
      }
      var m := setup.merge.value;
      var valid := Validate(lineage, m, opts);
      if valid.Err? { return Err(valid.error); }
      if Expired(valid.value, input.checked) {
        disk := Apply(disk, Rename(m, Final(m.first, m.last)));
        lineage := None;
        ProcessUpdates(Setup(Some(Final(m.first, m.last)), None), None, input);
      } else {
        ProcessUpdates(setup, Some(valid.value), input);
      }
      return Ok(true);
    }
  }

  // ---------------------------------------------------------------- crashes

  /** All file operations of a run that finds the period of its merge archive ended. */
  function ExpiredOps(d: Disk, m: Name, updates: seq<Update>, sizes: Sizes): seq<Op>
    requires m in d
  {
    var f := Final(m.first, m.last);
    [Rename(m, f)] + RunOps(Apply(d, Rename(m, f)), Setup(Some(f), None), updates, ByPeriod, sizes)
  }

  lemma {:induction false} ApplyAllAfter(d: Disk, op: Op, ops: seq<Op>)
    ensures ApplyAll(d, [op] + ops) == ApplyAll(Apply(d, op), ops)
  {
    var all := [op] + ops;
    if ops == [] {
      assert all == [op] && all[..0] == [];
    } else {
      ApplyAllAfter(d, op, ops[..|ops| - 1]);
      assert all[..|all| - 1] == [op] + ops[..|ops| - 1];
    }
  }

  /** A run that finalizes an ended period first is as safe as one that does not: cut off after
      any number of operations it has lost no book, and it leaves the directory sound. */
  lemma {:induction false} ExpiredRunIsSafe(w: World, setup: Setup, updates: seq<Update>, sizes: Sizes, opts: Options,
      family: Family, k: nat)
    requires Agrees(w, opts, family) && Sees(w.disk, setup) && setup.merge.Some? && UpdatesMade(updates, family)
    requires k <= |ExpiredOps(w.disk, setup.merge.value, updates, sizes)|
    ensures KeepsBooks(w.disk, ApplyAll(w.disk, ExpiredOps(w.disk, setup.merge.value, updates, sizes)[..k]))
    ensures Sound(ApplyAll(w.disk, ExpiredOps(w.disk, setup.merge.value, updates, sizes)), family)
  {
    hide Sound, UpdatesMade, RunOps, Agrees, Sees;
    var m := setup.merge.value;
    var f := Final(m.first, m.last);
    FinalizedAgrees(w, setup, opts, family);
    var d := Apply(w.disk, Rename(m, f));
    var rest := RunOps(d, Setup(Some(f), None), updates, ByPeriod, sizes);
    RenameKeeps(w.disk, m, f);
    ApplyAllAfter(w.disk, Rename(m, f), rest);
    if k == 0 {
      RunIsSafe(d, Setup(Some(f), None), updates, ByPeriod, sizes, family, 0);
    } else {
      RunIsSafe(d, Setup(Some(f), None), updates, ByPeriod, sizes, family, k - 1);
      ApplyAllAfter(w.disk, Rename(m, f), rest[..k - 1]);
      assert ExpiredOps(w.disk, m, updates, sizes)[..k] == [Rename(m, f)] + rest[..k - 1];
    }
  }
}
