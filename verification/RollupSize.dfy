/** Runs under the size policy: any sequence of them, and what a crash of one leaves behind. */
module RollupSize {
  import opened Wrappers
  import opened RollupEntries
  import opened RollupPass
  import opened RollupConservation
  import opened RollupRanges
  import opened RollupDisk
  import opened RollupKeys
  import opened RollupSound
  import opened RollupRun
  import RollupBooks

  /** What a run is given; the target may change from run to run. */
  datatype Input = Input(files: seq<Name>, updates: seq<Update>, target: int, sizes: Sizes)

  lemma {:induction false} SetupIsListed(files: seq<Name>)
    ensures Inspect(files).Ok? ==>
      var setup := Inspect(files).value;
      && (setup.merge.Some? ==> setup.merge.value in files && setup.merge.value.Merging?)
      && (setup.last.Some? ==> setup.last.value in files)
  {
    MergesAreListed(files);
  }

  /** `runFamily` under the size policy. */
  function RunBySize(d: Disk, input: Input): Result<Disk, Error>
    requires Lists(input.files, d)
  {
    SetupIsListed(input.files);
    match Inspect(input.files)
    case Err(e) => Err(e)
    case Ok(setup) => Ok(ApplyAll(d, RunOps(d, setup, input.updates, BySize(input.target), input.sizes)))
  }

  /** One run from a sound directory succeeds, keeps it sound and loses no book. */
  lemma {:induction false} RunKeeps(d: Disk, input: Input, family: Family)
    requires Sound(d, family) && Lists(input.files, d) && UpdatesMade(input.updates, family)
    ensures RunBySize(d, input).Ok?
    ensures Sound(RunBySize(d, input).value, family) && KeepsBooks(d, RunBySize(d, input).value)
  {
    InspectSound(d, input.files, family);
    var setup := Inspect(input.files).value;
    var ops := RunOps(d, setup, input.updates, BySize(input.target), input.sizes);
    RunIsSafe(d, setup, input.updates, BySize(input.target), input.sizes, family, |ops|);
    assert ops[..|ops|] == ops;
  }

  // ---------------------------------------------------------------- sequences of runs

  ghost predicate IsRun(disks: seq<Disk>, inputs: seq<Input>, family: Family, i: nat)
    requires |disks| == |inputs| + 1 && i < |inputs|
  {
    && Lists(inputs[i].files, disks[i]) && UpdatesMade(inputs[i].updates, family)
    && RunBySize(disks[i], inputs[i]) == Ok(disks[i + 1])
  }

  /** Each run starts from the directory the one before left. */
  ghost predicate Runs(disks: seq<Disk>, inputs: seq<Input>, family: Family) {
    |disks| == |inputs| + 1 && forall i :: 0 <= i < |inputs| ==> IsRun(disks, inputs, family, i)
  }

  lemma {:induction false} OneOfRuns(disks: seq<Disk>, inputs: seq<Input>, family: Family, n: nat)
    requires Runs(disks, inputs, family) && n < |inputs| && Sound(disks[n], family)
    ensures Sound(disks[n + 1], family) && KeepsBooks(disks[n], disks[n + 1])
  {
    assert IsRun(disks, inputs, family, n);
    RunKeeps(disks[n], inputs[n], family);
  }

  lemma {:induction false} RunsStaySound(disks: seq<Disk>, inputs: seq<Input>, family: Family, n: nat)
    requires Runs(disks, inputs, family) && Sound(disks[0], family) && n <= |inputs|
    ensures Sound(disks[n], family)
  {
    if n > 0 {
      RunsStaySound(disks, inputs, family, n - 1);
      OneOfRuns(disks, inputs, family, n - 1);
    }
  }

  /** Over any sequence of runs, with changing updates and targets, the directory stays sound and no
      book that was ever stored is lost. */
  lemma {:induction false} RunsKeep(disks: seq<Disk>, inputs: seq<Input>, family: Family, i: nat, j: nat)
    requires Runs(disks, inputs, family) && Sound(disks[0], family) && i <= j <= |inputs|
    ensures Sound(disks[j], family) && KeepsBooks(disks[i], disks[j])
    decreases j
  {
    hide Sound, KeepsBooks, IsRun;
    RunsStaySound(disks, inputs, family, j);
    if i < j {
      RunsKeep(disks, inputs, family, i, j - 1);
      OneOfRuns(disks, inputs, family, j - 1);
      KeepsTrans(disks[i], disks[j - 1], disks[j]);
    } else {
      KeepsItself(disks[i]);
    }
  }

  /** fb2 updates in id order, over any sequence of runs: a book beyond the end of the directory a run
      finds is stored from then on in exactly one archive, once. */
  lemma {:induction false} RunsDeliver(disks: seq<Disk>, inputs: seq<Input>, i: nat, j: nat, u: nat, e: Entry)
    requires Runs(disks, inputs, FB2) && Sound(disks[0], FB2) && i < j <= |inputs|
    requires UpdatesInIDOrder(inputs[i].updates) && u < |inputs[i].updates| && e in inputs[i].updates[u].entries
    requires Inspect(inputs[i].files).Ok?
    requires var end := End(Inspect(inputs[i].files).value); Eligible(e, end) && end < inputs[i].updates[u].last
    ensures StoredOnce(disks[j], e.key) && RollupBooks.BookStoredOnce(disks[j], e, FB2)
  {
    hide Sound, KeepsBooks, StoredOnce, UpdatesInIDOrder, Eligible, Lists, Made, RollupBooks.BookStoredOnce;
    RunsKeep(disks, inputs, FB2, 0, i);
    RunsKeep(disks, inputs, FB2, i + 1, j);
    assert IsRun(disks, inputs, FB2, i);
    RunDeliversBook(disks[i], inputs[i], u, e);
    StaysStored(disks[i + 1], disks[j], FB2, e.key);
    assert AllMade(inputs[i].updates[u].entries, FB2);
    RollupBooks.StoredOnceIsBook(disks[j], e, FB2);
  }

  lemma {:induction false} RunDeliversBook(d: Disk, input: Input, u: nat, e: Entry)
    requires Sound(d, FB2) && Lists(input.files, d) && UpdatesMade(input.updates, FB2)
    requires UpdatesInIDOrder(input.updates) && u < |input.updates| && e in input.updates[u].entries
    requires Inspect(input.files).Ok?
    requires var end := End(Inspect(input.files).value); Eligible(e, end) && end < input.updates[u].last
    ensures RunBySize(d, input).Ok? && StoredOnce(RunBySize(d, input).value, e.key)
  {
    InspectSound(d, input.files, FB2);
    FB2BookIsDelivered(d, Inspect(input.files).value, input.updates, BySize(input.target), input.sizes, u, e);
  }

  // ---------------------------------------------------------------- crashes

  /** The archive a run replaces. */
  function PriorOf(setup: Setup, policy: Policy, lastSize: nat): Option<Name> {
    if setup.merge.Some? then setup.merge
    else if Reopens(setup, policy, lastSize) then setup.last
    else None
  }

  lemma {:induction false} PriorIs(d: Disk, setup: Setup, policy: Policy, sizes: Sizes)
    requires Sees(d, setup)
    requires setup.last.Some? ==>
      setup.last.value.first > 0 && Within(d[setup.last.value], setup.last.value.first, setup.last.value.last)
    ensures Reopened(d, setup, policy, sizes.merge, sizes.last).prior == PriorOf(setup, policy, sizes.last)
  {
    if Reopens(setup, policy, sizes.last) {
      var l := setup.last.value;
      OrderedWithin(d[l], l.first, l.last);
      ReopenKeeps(Open(d, setup, policy, sizes.merge, sizes.last), Ordered(d[l]), policy);
    }
  }

  /** A prefix of the operations has published some archives completely, or it is cut between the
      first publication and the removal of the archive it replaces. */
  lemma {:induction false} PrefixOfOps(prior: Option<Name>, pubs: seq<Publication>, k: nat) returns (m: nat)
    requires k <= |OpsOf(prior, pubs)| && (prior.Some? && pubs != [] ==> pubs[0].name != prior.value)
    ensures m <= |pubs|
    ensures if k == 1 && prior.Some? then OpsOf(prior, pubs)[..k] == [Publish(pubs[0].name, pubs[0].entries)]
            else OpsOf(prior, pubs)[..k] == OpsOf(prior, pubs[..m])
    decreases |pubs|
  {
    var ops := OpsOf(prior, pubs);
    if pubs == [] {
      m := 0;
      assert ops[..k] == OpsOf(prior, pubs[..0]);
    } else {
      var n := |pubs| - 1;
      var before := OpsOf(prior, pubs[..n]);
      if k <= |before| {
        m := PrefixOfOps(prior, pubs[..n], k);
        assert ops[..k] == before[..k];
        assert pubs[..n][..m] == pubs[..m];
      } else if k == |ops| {
        m := n + 1;
        assert pubs[..m] == pubs && ops[..k] == ops;
        if k == 1 { OneOperation(prior, pubs); }
      } else {
        m := 0;
        OneOperation(prior, pubs);
      }
    }
  }

  /** Only the first publication can take two operations. */
  lemma {:induction false} OneOperation(prior: Option<Name>, pubs: seq<Publication>)
    requires pubs != [] && (prior.Some? ==> pubs[0].name != prior.value)
    ensures |OpsOf(prior, pubs)| == |pubs| + if prior.Some? then 1 else 0
    ensures |pubs| == 1 ==> OpsOf(prior, pubs)[..1] == [Publish(pubs[0].name, pubs[0].entries)]
  {
    var n := |pubs| - 1;
    if n > 0 {
      OneOperation(prior, pubs[..n]);
    } else {
      assert OpsOf(prior, pubs[..0]) == [];
    }
  }

  ghost predicate Collide(n: Name, m: Name) { n != m && n.first == m.first }

  lemma {:induction false} CollidingIsNotSound(d: Disk, family: Family, n: Name, m: Name)
    requires n in d && m in d && Collide(n, m)
    ensures !Sound(d, family)
  {
    assert Sound(d, family) ==> SoundArchive(n, d[n], family) && SoundArchive(m, d[m], family) && Apart(n, m);
  }

  lemma {:induction false} PubsPrefix(start: State, pubs: seq<Publication>, m: nat, family: Family)
    requires PubSound(start, pubs, family) && m <= |pubs|
    ensures PubSound(start, pubs[..m], family)
  {
    if m > 0 { assert pubs[..m][0] == pubs[0]; }
  }

  /** A crash between two archives leaves a sound directory. */
  lemma {:induction false} BetweenIsSound(d: Disk, start: State, pubs: seq<Publication>, m: nat, family: Family)
    requires Sound(d, family) && Continues(d, start, family) && PubSound(start, pubs, family) && NewNames(d, pubs)
    requires m <= |pubs|
    ensures Sound(ApplyAll(d, OpsOf(start.prior, pubs[..m])), family)
  {
    PubsPrefix(start, pubs, m, family);
    OpsPublish(d, start.prior, pubs[..m]);
    AfterSound(d, start, pubs[..m], ApplyAll(d, OpsOf(start.prior, pubs[..m])), family);
  }

  /** The directory cut between the first publication and the removal. */
  ghost predicate HalfReplaced(d: Disk, prior: Name, pub: Publication, r: Disk) {
    && prior in d && pub.name !in d && r == d[pub.name := pub.entries]
    && pub.name.first == prior.first && (forall n :: n in d ==> n.last <= prior.last) && prior.last < pub.name.last
  }

  lemma {:induction false} HalfIs(d: Disk, start: State, pubs: seq<Publication>, family: Family)
    requires Sound(d, family) && Continues(d, start, family) && PubSound(start, pubs, family) && NewNames(d, pubs)
    requires start.prior.Some? && pubs != []
    ensures HalfReplaced(d, start.prior.value, pubs[0], ApplyAll(d, [Publish(pubs[0].name, pubs[0].entries)]))
  {
    var op := Publish(pubs[0].name, pubs[0].entries);
    assert [op][..0] == [];
    var prior := start.prior.value;
    assert SoundArchive(prior, d[prior], family);
  }

  /** Each archive by itself is fine, but two of them start at the same book. */
  ghost predicate Tangled(d: Disk, family: Family) {
    && (forall n :: n in d ==> SoundArchive(n, d[n], family))
    && exists n, m :: n in d && m in d && Collide(n, m)
  }

  lemma {:induction false} TangledIsNotSound(d: Disk, family: Family)
    requires Tangled(d, family)
    ensures !Sound(d, family)
  {
    var n, m :| n in d && m in d && Collide(n, m);
    CollidingIsNotSound(d, family, n, m);
  }

  lemma {:induction false} HalfIsTangled(d: Disk, prior: Name, pub: Publication, r: Disk, family: Family)
    requires Sound(d, family) && HalfReplaced(d, prior, pub, r) && SoundArchive(pub.name, pub.entries, family)
    ensures Tangled(r, family)
  {
    assert Collide(prior, pub.name);
  }

  lemma {:induction false} LastIsOnly(d: Disk, files: seq<Name>, n: Name)
    requires Lists(files, d) && n in d && n.Final? && n.last > 0
    requires forall m :: m in d && m.Final? && m != n ==> m.last < n.last
    ensures LastOf(files) == Some(n)
  {
    assert n.last <= EndOfName(LastOf(files));
  }

  lemma {:induction false} MergesAre(d: Disk, files: seq<Name>, merge: Option<Name>)
    requires Lists(files, d) && forall n :: n in d && n.Merging? <==> merge == Some(n)
    ensures Merges(files) == if merge.Some? then [merge.value] else []
  {
    MergesDiffer(files);
    forall n ensures n in Merges(files) <==> merge == Some(n) { MergesHolds(files, n); }
    OneName(Merges(files));
    assert Merges(files) != [] ==> Merges(files)[0] in Merges(files);
    if merge.Some? { assert merge.value in Merges(files); }
  }

  /** If the replaced archive was a merge archive, the next run stops. */
  lemma {:induction false} HalfMergeStops(d: Disk, prior: Name, pub: Publication, r: Disk, files: seq<Name>)
    requires HalfReplaced(d, prior, pub, r) && Lists(files, r) && prior.Merging? && pub.name.last > 0
    ensures Inspect(files).Err?
  {
    MergesHolds(files, prior);
    if pub.name.Merging? {
      TwoMergesStopTheRun(r, files, prior, pub.name);
    } else {
      assert pub.name.last <= EndOfName(LastOf(files));
      if |Merges(files)| <= 1 { assert Merges(files)[0] == prior; }
    }
  }

  /** If it was the last final archive, reopened, the next run goes on. */
  lemma {:induction false} HalfFinalGoesOn(d: Disk, prior: Name, pub: Publication, r: Disk, files: seq<Name>,
      family: Family)
    requires Sound(d, family) && HalfReplaced(d, prior, pub, r) && Lists(files, r) && prior.Final?
    requires forall n :: n in d ==> n.Final?
    ensures Inspect(files).Ok?
  {
    assert SoundArchive(prior, d[prior], family);
    forall n | n in d && n != prior ensures n.last < prior.last {
      assert Apart(n, prior);
      assert SoundArchive(n, d[n], family);
    }
    if pub.name.Merging? {
      LastIsOnly(r, files, prior);
      MergesAre(r, files, Some(pub.name));
    } else {
      MergesAre(r, files, None);
    }
  }

  /** Cut off after its first operation, having continued an archive. */
  predicate Half(setup: Setup, policy: Policy, lastSize: nat, k: nat) {
    k == 1 && PriorOf(setup, policy, lastSize).Some?
  }

  /** Where a run is cut off decides what it leaves. Only between its first publication and the removal of
      the archive that one replaces is the directory not sound: two archives then start at the same book.
      If the replaced one was a merge archive the next run stops; if it was the last final one, reopened,
      the next run goes on. */
  lemma {:induction false} CrashIs(
    d: Disk, setup: Setup, updates: seq<Update>, policy: Policy, sizes: Sizes, family: Family, k: nat, files: seq<Name>)
    requires Sound(d, family) && Sees(d, setup) && UpdatesMade(updates, family)
    requires k <= |RunOps(d, setup, updates, policy, sizes)|
    requires Lists(files, ApplyAll(d, RunOps(d, setup, updates, policy, sizes)[..k]))
    ensures Sound(ApplyAll(d, RunOps(d, setup, updates, policy, sizes)[..k]), family)
       <==> !Half(setup, policy, sizes.last, k)
    ensures Half(setup, policy, sizes.last, k) ==>
      Tangled(ApplyAll(d, RunOps(d, setup, updates, policy, sizes)[..k]), family)
    ensures Inspect(files).Ok? <==> !(Half(setup, policy, sizes.last, k) && setup.merge.Some?)
  {
    var ops := RunOps(d, setup, updates, policy, sizes);
    var r := ApplyAll(d, ops[..k]);
    if k == 0 {
      assert ops[..0] == [];
      InspectSound(d, files, family);
    } else {
      var start, s := PassIsPassed(d, setup, updates, policy, sizes, family);
      PublicationsFit(d, start, s, family);
      assert setup.last.Some? ==> SoundArchive(setup.last.value, d[setup.last.value], family);
      PriorIs(d, setup, policy, sizes);
      CrashOfPublications(d, start, Publications(s), k, family, setup, files);
    }
  }

  lemma {:induction false} CrashOfPublications(
    d: Disk, start: State, pubs: seq<Publication>, k: nat, family: Family, setup: Setup, files: seq<Name>)
    requires Sound(d, family) && Sees(d, setup) && Continues(d, start, family)
    requires PubSound(start, pubs, family) && NewNames(d, pubs)
    requires start.prior.Some? ==> start.prior == if setup.merge.Some? then setup.merge else setup.last
    requires setup.merge.Some? ==> start.prior == setup.merge
    requires 0 < k <= |OpsOf(start.prior, pubs)| && Lists(files, ApplyAll(d, OpsOf(start.prior, pubs)[..k]))
    ensures Sound(ApplyAll(d, OpsOf(start.prior, pubs)[..k]), family) <==> !(k == 1 && start.prior.Some?)
    ensures k == 1 && start.prior.Some? ==> Tangled(ApplyAll(d, OpsOf(start.prior, pubs)[..k]), family)
    ensures Inspect(files).Ok? <==> !(k == 1 && start.prior.Some? && setup.merge.Some?)
  {
    var m := PrefixOfOps(start.prior, pubs, k);
    var r := ApplyAll(d, OpsOf(start.prior, pubs)[..k]);
    if k == 1 && start.prior.Some? {
      var prior := start.prior.value;
      HalfIs(d, start, pubs, family);
      HalfIsTangled(d, prior, pubs[0], r, family);
      TangledIsNotSound(r, family);
      assert SoundArchive(pubs[0].name, pubs[0].entries, family);
      if setup.merge.Some? {
        HalfMergeStops(d, prior, pubs[0], r, files);
      } else {
        HalfFinalGoesOn(d, prior, pubs[0], r, files, family);
      }
    } else {
      BetweenIsSound(d, start, pubs, m, family);
      InspectSound(r, files, family);
    }
  }

  // ---------------------------------------------------------------- after such a crash

  /** What the checks at the start of a run guarantee of any directory. */
  lemma {:induction false} InspectSees(d: Disk, files: seq<Name>)
    requires Lists(files, d) && Inspect(files).Ok? && forall n :: n in d ==> n.last > 0
    ensures var setup := Inspect(files).value;
            && Sees(d, setup)
            && forall n :: n in d ==> n.last <= End(setup)
  {
    var setup := Inspect(files).value;
    MergesAreListed(files);
    forall n | n in d && n.Merging? ensures setup.merge == Some(n) {
      MergesHolds(files, n);
      assert |Merges(files)| <= 1;
    }
  }

  /** A run starts as it should from any directory whose archives are fine one by one. */
  lemma {:induction false} StartsRight(d: Disk, setup: Setup, policy: Policy, sizes: Sizes, family: Family)
    requires forall n :: n in d ==> SoundArchive(n, d[n], family)
    requires Sees(d, setup)
    ensures var start := Reopened(d, setup, policy, sizes.merge, sizes.last);
            && Start(start) && Single(start, family) && Logged(start, start)
            && start.end == End(setup) && start.prior == PriorOf(setup, policy, sizes.last)
            && (start.prior.Some? ==> start.prior.value in d && start.first == start.prior.value.first)
            && (start.prior.None? ==> start.first == 0)
  {
    var start := Reopened(d, setup, policy, sizes.merge, sizes.last);
    assert Finals([]) == [];
    assert setup.last.Some? ==> SoundArchive(setup.last.value, d[setup.last.value], family);
    if setup.merge.Some? {
      var m := setup.merge.value;
      EntriesWithin(d[m], m.first, m.last);
    } else if Reopens(setup, policy, sizes.last) {
      var l := setup.last.value;
      OrderedWithin(d[l], l.first, l.last);
      ReopenKeeps(Open(d, setup, policy, sizes.merge, sizes.last), Ordered(d[l]), policy);
      ReopenedContent(d[l], l.first, l.last, family);
      var u := UsableOf(Ordered(d[l]));
      assert [] + u == u;
      EntriesWithin(u, l.first, l.last);
    }
  }

  lemma {:induction false} HighNamesAreNew(d: Disk, pubs: seq<Publication>, start: State, family: Family)
    requires PubSound(start, pubs, family) && forall n :: n in d ==> n.last <= start.end
    ensures NewNames(d, pubs)
  {
    forall i, j | 0 <= i < j < |pubs| ensures pubs[i].name != pubs[j].name {
      assert Below(pubs[i].name, pubs[j].name);
      assert SoundArchive(pubs[j].name, pubs[j].entries, family);
    }
  }

  lemma {:induction false} TanglePersists(d: Disk, prior: Option<Name>, pubs: seq<Publication>, r: Disk, family: Family)
    requires Tangled(d, family) && After(d, prior, pubs, r) && NewNames(d, pubs)
    requires forall i :: 0 <= i < |pubs| ==> SoundArchive(pubs[i].name, pubs[i].entries, family)
    requires prior.Some? && pubs != [] ==> pubs[0].name.first == prior.value.first
    ensures Tangled(r, family)
  {
    forall n | n in r ensures SoundArchive(n, r[n], family) {
      if Published(pubs, n) { var i :| 0 <= i < |pubs| && pubs[i].name == n; }
    }
    var n, m :| n in d && m in d && Collide(n, m);
    if Replaced(prior, pubs, n) {
      assert Published(pubs, pubs[0].name);
      assert Collide(m, pubs[0].name) && m in r && pubs[0].name in r;
    } else if Replaced(prior, pubs, m) {
      assert Published(pubs, pubs[0].name);
      assert Collide(n, pubs[0].name) && n in r && pubs[0].name in r;
    } else {
      assert n in r && m in r;
    }
  }

  lemma {:induction false} TangledPublishes(d: Disk, start: State, s: State, family: Family)
    requires Tangled(d, family) && forall n :: n in d ==> n.last <= start.end
    requires Start(start) && Ranges(start, s) && Single(s, family) && Logged(start, s)
    requires start.prior.Some? ==> start.prior.value in d && start.first == start.prior.value.first
    ensures Tangled(ApplyAll(d, Close(s)), family)
  {
    hide Start, Ranges, Single, Logged, Close, ApplyAll, OpsOf, Publications, NewNames, After;
    CloseLogged(start, s);
    PublicationsSound(start, s, family);
    HighNamesAreNew(d, Publications(s), start, family);
    OpsPublish(d, start.prior, Publications(s));
    assert start.prior.Some? ==> SoundArchive(start.prior.value, d[start.prior.value], family);
    TanglePersists(d, start.prior, Publications(s), ApplyAll(d, Close(s)), family);
  }

  /** Once two archives start at the same book no later run puts that right: while the start checks let it
      go on, each run leaves two such archives again. */
  lemma {:induction false} TangledStays(d: Disk, files: seq<Name>, updates: seq<Update>, policy: Policy, sizes: Sizes,
      family: Family)
    requires Tangled(d, family) && Lists(files, d) && Inspect(files).Ok? && UpdatesMade(updates, family)
    ensures SetupIn(d, Inspect(files).value)
    ensures Tangled(ApplyAll(d, RunOps(d, Inspect(files).value, updates, policy, sizes)), family)
  {
    hide Start, Ranges, Single, Logged, Close, UpdatesMade, AllMade, Lists, Select;
    var setup := Inspect(files).value;
    forall n | n in d ensures n.last > 0 { assert SoundArchive(n, d[n], family); }
    InspectSees(d, files);
    var selected := Select(updates, End(setup));
    if selected != [] {
      var start := Reopened(d, setup, policy, sizes.merge, sizes.last);
      var es := InOrder(selected);
      var s := Run(start, es, false, policy);
      StartsRight(d, setup, policy, sizes, family);
      PassIsRun(d, setup, selected, policy, sizes);
      SelectMade(updates, End(setup), family);
      RunPlaced(start, es, policy);
      RunSingle(start, es, family, policy);
      RunLogged(start, start, es, false, policy);
      TangledPublishes(d, start, s, family);
    }
  }
}
