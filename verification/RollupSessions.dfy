/** Runs and crashes in any order. A crash can leave two archives that start at the same book, and later runs may go
    on from there; whatever happens, no book that was ever stored is lost. */
module RollupSessions {
  import opened Wrappers
  import opened RollupEntries
  import opened RollupPass
  import opened RollupRanges
  import opened RollupDisk
  import opened RollupKeys
  import opened RollupSound
  import opened RollupRun
  import opened RollupSize

  /** A run under a policy that is cut off after `cut` file operations, if it gets that far. */
  datatype Session = Session(files: seq<Name>, updates: seq<Update>, policy: Policy, sizes: Sizes, cut: nat)

  /** What it leaves: if the start checks fail nothing has been touched. */
  function Interrupted(d: Disk, s: Session): Disk
    requires Lists(s.files, d)
  {
    SetupIsListed(s.files);
    match Inspect(s.files)
    case Err(_) => d
    case Ok(setup) =>
      var ops := RunOps(d, setup, s.updates, s.policy, s.sizes);
      ApplyAll(d, if s.cut < |ops| then ops[..s.cut] else ops)
  }

  /** Each archive by itself is fine. */
  ghost predicate EachSound(d: Disk, family: Family) { forall n :: n in d ==> SoundArchive(n, d[n], family) }

  // ---------------------------------------------------------------- one run

  lemma {:induction false} StartInherits(d: Disk, setup: Setup, policy: Policy, sizes: Sizes, family: Family)
    requires EachSound(d, family) && Sees(d, setup)
    ensures var start := Reopened(d, setup, policy, sizes.merge, sizes.last);
            && start.done == []
            && (start.prior.Some? ==> start.prior.value in d
                                      && forall e :: e in d[start.prior.value] && Usable(e) ==> e in start.entries)
  {
    if setup.merge.None? && Reopens(setup, policy, sizes.last) {
      var l := setup.last.value;
      assert SoundArchive(l, d[l], family);
      OrderedWithin(d[l], l.first, l.last);
      ReopenKeeps(Open(d, setup, policy, sizes.merge, sizes.last), Ordered(d[l]), policy);
      ReopenedContent(d[l], l.first, l.last, family);
      var u := UsableOf(Ordered(d[l]));
      assert [] + u == u;
    }
  }

  lemma {:induction false} FirstInherits(d: Disk, start: State, s: State)
    requires Prefixed(start, s)
    requires start.prior.Some? ==> start.prior.value in d
                                   && forall e :: e in d[start.prior.value] && Usable(e) ==> e in start.entries
    ensures Inherits(d, start.prior, Publications(s))
  {
    FinalsAt(s.done);
    var pubs := Publications(s);
    if pubs != [] {
      assert start.entries <= pubs[0].entries;
      forall e | e in start.entries ensures e in pubs[0].entries {
        var i :| 0 <= i < |start.entries| && start.entries[i] == e;
        assert pubs[0].entries[i] == e;
      }
    }
  }

  /** An operation that publishes a fine archive, or removes one. */
  ghost predicate FineOp(op: Op, family: Family) {
    match op
    case Publish(name, entries) => SoundArchive(name, entries, family)
    case Remove(_) => true
    case Rename(_, _) => false
  }

  lemma {:induction false} OpsAreFine(prior: Option<Name>, pubs: seq<Publication>, family: Family)
    requires forall i :: 0 <= i < |pubs| ==> SoundArchive(pubs[i].name, pubs[i].entries, family)
    ensures forall op :: op in OpsOf(prior, pubs) ==> FineOp(op, family)
  {
    hide SoundArchive;
    if pubs != [] {
      OpsAreFine(prior, pubs[..|pubs| - 1], family);
    }
  }

  lemma {:induction false} FineOpsKeepEach(d: Disk, ops: seq<Op>, family: Family)
    requires EachSound(d, family) && forall op :: op in ops ==> FineOp(op, family)
    ensures EachSound(ApplyAll(d, ops), family)
  {
    hide SoundArchive;
    if ops != [] {
      FineOpsKeepEach(d, ops[..|ops| - 1], family);
      assert FineOp(ops[|ops| - 1], family);
    }
  }

  lemma {:induction false} PublishingKeepsEach(d: Disk, prior: Option<Name>, pubs: seq<Publication>, k: nat,
      family: Family)
    requires EachSound(d, family) && k <= |OpsOf(prior, pubs)|
    requires forall i :: 0 <= i < |pubs| ==> SoundArchive(pubs[i].name, pubs[i].entries, family)
    ensures EachSound(ApplyAll(d, OpsOf(prior, pubs)[..k]), family)
  {
    hide SoundArchive, FineOp, OpsOf, ApplyAll, EachSound;
    OpsAreFine(prior, pubs, family);
    FineOpsKeepEach(d, OpsOf(prior, pubs)[..k], family);
  }

  /** A run, cut off or not, keeps every archive fine by itself and every book stored. */
  lemma {:induction false} SessionKeeps(d: Disk, s: Session, family: Family)
    requires EachSound(d, family) && Lists(s.files, d) && UpdatesMade(s.updates, family)
    ensures EachSound(Interrupted(d, s), family) && KeepsBooks(d, Interrupted(d, s))
  {
    hide KeepsBooks, RunOps, SoundArchive, UpdatesMade;
    KeepsItself(d);
    if Inspect(s.files).Ok? {
      EndsArePositive(d, family);
      InspectSees(d, s.files);
      var ops := RunOps(d, Inspect(s.files).value, s.updates, s.policy, s.sizes);
      RunKeepsEach(d, Inspect(s.files).value, s, if s.cut < |ops| then s.cut else |ops|, family);
      assert ops[..|ops|] == ops;
    }
  }

  lemma {:induction false} EndsArePositive(d: Disk, family: Family)
    requires EachSound(d, family)
    ensures forall n :: n in d ==> n.last > 0
  {
    forall n | n in d ensures n.last > 0 { assert SoundArchive(n, d[n], family); }
  }

  lemma {:induction false} RunKeepsEach(d: Disk, setup: Setup, s: Session, k: nat, family: Family)
    requires EachSound(d, family) && Sees(d, setup) && (forall n :: n in d ==> n.last <= End(setup))
    requires UpdatesMade(s.updates, family) && k <= |RunOps(d, setup, s.updates, s.policy, s.sizes)|
    ensures var r := ApplyAll(d, RunOps(d, setup, s.updates, s.policy, s.sizes)[..k]);
            EachSound(r, family) && KeepsBooks(d, r)
  {
    hide KeepsBooks, Start, Ranges, Single, Logged, Close, AllMade, UpdatesMade, Select, SoundArchive, Prefixed;
    var selected := Select(s.updates, End(setup));
    KeepsItself(d);
    if selected != [] {
      var start := Reopened(d, setup, s.policy, s.sizes.merge, s.sizes.last);
      var es := InOrder(selected);
      var t := Run(start, es, false, s.policy);
      StartsRight(d, setup, s.policy, s.sizes, family);
      StartInherits(d, setup, s.policy, s.sizes, family);
      PassIsRun(d, setup, selected, s.policy, s.sizes);
      SelectMade(s.updates, End(setup), family);
      RunPlaced(start, es, s.policy);
      RunSingle(start, es, family, s.policy);
      RunLogged(start, start, es, false, s.policy);
      RunPrefixed(start, es, s.policy);
      PassKeepsEach(d, start, t, k, family);
    }
  }

  lemma {:induction false} PassKeepsEach(d: Disk, start: State, s: State, k: nat, family: Family)
    requires EachSound(d, family) && forall n :: n in d ==> n.last <= start.end
    requires Start(start) && Ranges(start, s) && Single(s, family) && Logged(start, s) && Prefixed(start, s)
    requires start.prior.Some? ==> start.prior.value in d
                                   && forall e :: e in d[start.prior.value] && Usable(e) ==> e in start.entries
    requires k <= |Close(s)|
    ensures EachSound(ApplyAll(d, Close(s)[..k]), family) && KeepsBooks(d, ApplyAll(d, Close(s)[..k]))
  {
    hide KeepsBooks, Start, Ranges, Single, Logged, Close, SoundArchive, Prefixed, Publications, OpsOf, EachSound,
      ApplyAll;
    CloseLogged(start, s);
    PublicationsSound(start, s, family);
    HighNamesAreNew(d, Publications(s), start, family);
    FirstInherits(d, start, s);
    PublishingKeepsEach(d, start.prior, Publications(s), k, family);
    CrashKeepsBooks(d, start.prior, Publications(s), k);
  }

  // ---------------------------------------------------------------- any sequence

  ghost predicate IsSession(disks: seq<Disk>, sessions: seq<Session>, family: Family, i: nat)
    requires |disks| == |sessions| + 1 && i < |sessions|
  {
    && Lists(sessions[i].files, disks[i]) && UpdatesMade(sessions[i].updates, family)
    && disks[i + 1] == Interrupted(disks[i], sessions[i])
  }

  /** Each session starts from the directory the one before left. */
  ghost predicate Sessions(disks: seq<Disk>, sessions: seq<Session>, family: Family) {
    |disks| == |sessions| + 1 && forall i :: 0 <= i < |sessions| ==> IsSession(disks, sessions, family, i)
  }

  /** Whatever runs and crashes follow one another, under whatever policies: no book that was ever stored is lost, and
      every archive is soundly named and holds no key twice. */
  lemma {:induction false} SessionsKeep(disks: seq<Disk>, sessions: seq<Session>, family: Family, i: nat, j: nat)
    requires Sessions(disks, sessions, family) && EachSound(disks[0], family) && i <= j <= |sessions|
    ensures EachSound(disks[j], family) && KeepsBooks(disks[i], disks[j])
    decreases j
  {
    hide KeepsBooks, EachSound, Interrupted, UpdatesMade, Lists;
    if j == 0 {
      KeepsItself(disks[0]);
    } else {
      SessionsKeep(disks, sessions, family, if i < j then i else j - 1, j - 1);
      assert IsSession(disks, sessions, family, j - 1);
      SessionKeeps(disks[j - 1], sessions[j - 1], family);
      if i < j {
        KeepsTrans(disks[i], disks[j - 1], disks[j]);
      } else {
        KeepsItself(disks[j]);
      }
    }
  }
}
