/** The archive directory of one family: file operations, crashes, and what a run keeps. */
module RollupDisk {
  import opened Wrappers
  import opened RollupEntries
  import opened RollupPass
  import opened RollupConservation
  import opened RollupRanges

  type Disk = map<Name, seq<Entry>>

  function Apply(d: Disk, op: Op): Disk {
    match op
    case Publish(name, entries) => d[name := entries]
    case Remove(gone) => d - {gone}
    case Rename(from, to) => if from in d then (d - {from})[to := d[from]] else d
  }

  /** The directory after some operations; a crash can stop after any of them. */
  function ApplyAll(d: Disk, ops: seq<Op>): Disk {
    if ops == [] then d else Apply(ApplyAll(d, ops[..|ops| - 1]), ops[|ops| - 1])
  }

  ghost predicate Stored(d: Disk, e: Entry) { exists n :: n in d && e in d[n] }

  /** No book of `before` is missing from `after`. */
  ghost predicate KeepsBooks(before: Disk, after: Disk) {
    forall e :: Usable(e) && Stored(before, e) ==> Stored(after, e)
  }

  lemma {:induction false} KeepsTrans(a: Disk, b: Disk, c: Disk)
    requires KeepsBooks(a, b) && KeepsBooks(b, c)
    ensures KeepsBooks(a, c)
  {
  }

  lemma {:induction false} KeepsItself(d: Disk)
    ensures KeepsBooks(d, d)
  {
  }

  lemma {:induction false} RenameKeeps(d: Disk, m: Name, f: Name)
    requires m in d && f !in d
    ensures KeepsBooks(d, Apply(d, Rename(m, f)))
  {
    var r := Apply(d, Rename(m, f));
    forall e | Usable(e) && Stored(d, e) ensures Stored(r, e) {
      var n :| n in d && e in d[n];
      assert if n == m then e in r[f] else e in r[n];
    }
  }

  // ---------------------------------------------------------------- publishing archives

  datatype Publication = Publication(name: Name, entries: seq<Entry>)

  /** The operations that publish archives, the first of which replaces `prior`. */
  function OpsOf(prior: Option<Name>, pubs: seq<Publication>): seq<Op> {
    if pubs == [] then []
    else
      var p := pubs[|pubs| - 1];
      OpsOf(prior, pubs[..|pubs| - 1]) + FinishAs(if |pubs| == 1 then prior else None, p.name, p.entries)
  }

  ghost predicate NewNames(d: Disk, pubs: seq<Publication>) {
    && (forall i :: 0 <= i < |pubs| ==> pubs[i].name !in d)
    && (forall i, j :: 0 <= i < j < |pubs| ==> pubs[i].name != pubs[j].name)
  }

  ghost predicate Published(pubs: seq<Publication>, n: Name) {
    exists i :: 0 <= i < |pubs| && pubs[i].name == n
  }

  ghost predicate Replaced(prior: Option<Name>, pubs: seq<Publication>, n: Name) {
    pubs != [] && prior == Some(n)
  }

  /** The directory holds the publications and the old archives except the replaced one. */
  ghost predicate After(d: Disk, prior: Option<Name>, pubs: seq<Publication>, r: Disk) {
    && (forall n :: n in r <==> (n in d && !Replaced(prior, pubs, n)) || Published(pubs, n))
    && (forall i :: 0 <= i < |pubs| && pubs[i].name in r ==> r[pubs[i].name] == pubs[i].entries)
    && (forall n :: n in d && n in r ==> r[n] == d[n])
  }

  lemma {:induction false} ApplyFinish(d: Disk, ops: seq<Op>, prior: Option<Name>, p: Publication)
    ensures ApplyAll(d, ops + FinishAs(prior, p.name, p.entries))
         == (if prior.Some? && prior.value != p.name then ApplyAll(d, ops)[p.name := p.entries] - {prior.value}
             else ApplyAll(d, ops)[p.name := p.entries])
  {
    var one := ops + [Publish(p.name, p.entries)];
    assert one[..|one| - 1] == ops;
    if prior.Some? && prior.value != p.name {
      var two := ops + FinishAs(prior, p.name, p.entries);
      assert two == one + [Remove(prior.value)];
      assert two[..|two| - 1] == one;
    } else {
      assert FinishAs(prior, p.name, p.entries) == [Publish(p.name, p.entries)];
    }
  }

  lemma {:induction false} OpsPublish(d: Disk, prior: Option<Name>, pubs: seq<Publication>)
    requires NewNames(d, pubs) && (prior.Some? ==> prior.value in d)
    ensures After(d, prior, pubs, ApplyAll(d, OpsOf(prior, pubs)))
  {
    if pubs != [] {
      var p, rest := pubs[|pubs| - 1], pubs[..|pubs| - 1];
      OpsPublish(d, prior, rest);
      ApplyFinish(d, OpsOf(prior, rest), if |pubs| == 1 then prior else None, p);
      AfterOneMore(d, prior, pubs, ApplyAll(d, OpsOf(prior, rest)), ApplyAll(d, OpsOf(prior, pubs)));
    }
  }

  lemma {:induction false} AfterOneMore(d: Disk, prior: Option<Name>, pubs: seq<Publication>, r: Disk, r': Disk)
    requires NewNames(d, pubs) && (prior.Some? ==> prior.value in d) && pubs != []
    requires After(d, prior, pubs[..|pubs| - 1], r)
    requires var p := pubs[|pubs| - 1];
             r' == if |pubs| == 1 && prior.Some? then r[p.name := p.entries] - {prior.value} else r[p.name := p.entries]
    ensures After(d, prior, pubs, r')
  {
    var p, rest := pubs[|pubs| - 1], pubs[..|pubs| - 1];
    forall n ensures Published(pubs, n) <==> Published(rest, n) || n == p.name {
      if Published(rest, n) {
        var i :| 0 <= i < |rest| && rest[i].name == n;
        assert pubs[i].name == n;
      }
    }
    forall i | 0 <= i < |pubs| && pubs[i].name in r' ensures r'[pubs[i].name] == pubs[i].entries {
      if i < |rest| { assert rest[i] == pubs[i]; assert Published(rest, rest[i].name); }
    }
  }

  /** The replaced archive's books are all in the first publication. */
  ghost predicate Inherits(d: Disk, prior: Option<Name>, pubs: seq<Publication>) {
    pubs != [] && prior.Some? ==>
      prior.value in d && forall e :: e in d[prior.value] && Usable(e) ==> e in pubs[0].entries
  }

  lemma {:induction false} AfterKeeps(d: Disk, prior: Option<Name>, pubs: seq<Publication>, r: Disk)
    requires After(d, prior, pubs, r) && Inherits(d, prior, pubs)
    ensures KeepsBooks(d, r)
  {
    forall e | Usable(e) && Stored(d, e) ensures Stored(r, e) {
      var n :| n in d && e in d[n];
      if Replaced(prior, pubs, n) {
        assert Published(pubs, pubs[0].name);
        assert e in r[pubs[0].name];
      }
    }
  }

  /** Whatever the crash point, no book stored before the run is missing from all archives. */
  lemma {:induction false} CrashKeepsBooks(d: Disk, prior: Option<Name>, pubs: seq<Publication>, k: nat)
    requires NewNames(d, pubs) && Inherits(d, prior, pubs) && (prior.Some? ==> prior.value in d)
    requires k <= |OpsOf(prior, pubs)|
    ensures KeepsBooks(d, ApplyAll(d, OpsOf(prior, pubs)[..k]))
  {
    var ops := OpsOf(prior, pubs);
    if k == |ops| {
      assert ops[..k] == ops;
      OpsPublish(d, prior, pubs);
      AfterKeeps(d, prior, pubs, ApplyAll(d, ops));
    } else {
      var rest := pubs[..|pubs| - 1];
      var before := OpsOf(prior, rest);
      if k <= |before| {
        assert ops[..k] == before[..k];
        CrashKeepsBooks(d, prior, rest, k);
      } else {
        var p := pubs[|pubs| - 1];
        assert ops[..k] == before + [Publish(p.name, p.entries)];
        assert ops[..k][..k - 1] == before;
        assert rest == [] && before == [];
        PublishingKeeps(d, p);
      }
    }
  }

  lemma {:induction false} PublishingKeeps(d: Disk, p: Publication)
    requires p.name !in d
    ensures KeepsBooks(d, d[p.name := p.entries])
  {
    forall e | Usable(e) && Stored(d, e) ensures Stored(d[p.name := p.entries], e) {
      var n :| n in d && e in d[n];
      assert d[p.name := p.entries][n] == d[n];
    }
  }

  // ---------------------------------------------------------------- a pass as publications

  function Finals(done: seq<Archive>): seq<Publication> {
    if done == [] then []
    else
      var a := done[|done| - 1];
      Finals(done[..|done| - 1]) + [Publication(Final(a.first, a.last), a.entries)]
  }

  function Publications(s: State): seq<Publication> {
    Finals(s.done) + if s.first == 0 || !s.copied then [] else [Publication(Merging(s.first, s.last), s.entries)]
  }

  lemma {:induction false} FinalsAt(done: seq<Archive>)
    ensures |Finals(done)| == |done|
    ensures forall i :: 0 <= i < |done| ==>
      Finals(done)[i] == Publication(Final(done[i].first, done[i].last), done[i].entries)
  {
    if done != [] {
      FinalsAt(done[..|done| - 1]);
    }
  }

  lemma {:induction false} OpsAppend(prior: Option<Name>, pubs: seq<Publication>, p: Publication)
    ensures OpsOf(prior, pubs + [p])
         == OpsOf(prior, pubs) + FinishAs(if pubs == [] then prior else None, p.name, p.entries)
  {
    assert (pubs + [p])[..|pubs|] == pubs;
  }

  ghost predicate Logged(start: State, s: State) {
    && s.prior == (if s.done == [] then start.prior else None)
    && s.ops == OpsOf(start.prior, Finals(s.done))
  }

  lemma {:induction false} FinalizeLogged(start: State, s: State, target: int)
    requires Logged(start, s)
    ensures Logged(start, Finalize(s, target))
  {
    hide OpsOf, FinishAs;
    var a := Archive(s.first, s.last, s.entries);
    assert (s.done + [a])[..|s.done|] == s.done;
    FinalsAt(s.done);
    OpsAppend(start.prior, Finals(s.done), Publication(Final(a.first, a.last), a.entries));
  }

  lemma {:induction false} StepLogged(start: State, s: State, e: Entry, existing: bool, policy: Policy)
    requires Logged(start, s)
    ensures Logged(start, Step(s, e, existing, policy))
  {
    hide OpsOf, FinishAs, Usable, Finals;
    var t := Append(s, e, existing, policy);
    if policy.BySize? { FinalizeLogged(start, t, policy.target); }
  }

  /** The file operations of a pass publish its archives in order. */
  lemma {:induction false} RunLogged(start: State, s: State, es: seq<Entry>, existing: bool, policy: Policy)
    requires Logged(start, s)
    ensures Logged(start, Run(s, es, existing, policy))
  {
    if es != [] {
      RunLogged(start, s, es[..|es| - 1], existing, policy);
      StepLogged(start, Run(s, es[..|es| - 1], existing, policy), es[|es| - 1], existing, policy);
    }
  }

  lemma {:induction false} CloseLogged(start: State, s: State)
    requires Logged(start, s)
    ensures Close(s) == OpsOf(start.prior, Publications(s))
  {
    FinalsAt(s.done);
    if !(s.first == 0 || !s.copied) {
      OpsAppend(start.prior, Finals(s.done), Publication(Merging(s.first, s.last), s.entries));
    } else {
      assert Publications(s) == Finals(s.done);
    }
  }
}
