/** One rollup pass over the updates of a family: which entries are copied into the work
    archive, and when the work archive is finalized. */
module RollupPass {
  import opened Wrappers
  import opened RollupEntries

  /** The name of an archive on disk: final (.zip) or still open for merging (.merging). */
  datatype Name = Final(first: int, last: int) | Merging(first: int, last: int)

  /** File operations, in the order the rollup issues them; each is atomic. Publishing renames
      a finished temporary file, replacing what the name held. */
  datatype Op = Publish(name: Name, entries: seq<Entry>) | Remove(gone: Name) | Rename(from: Name, to: Name)

  /** `finishAs`: the archive this one continues, if any, is removed afterwards. */
  function FinishAs(prior: Option<Name>, name: Name, entries: seq<Entry>): seq<Op> {
    [Publish(name, entries)] + if prior.Some? && prior.value != name then [Remove(prior.value)] else []
  }

  /** An archive's name gives a range of book ids. */
  datatype Archive = Archive(first: int, last: int, entries: seq<Entry>)

  datatype Policy = BySize(target: int) | ByPeriod

  /** The variables of `processUpdates`; `entries` is what the work archive holds, `prior` the
      archive it replaces, `done` the archives finalized so far and `ops` what was done to files. */
  datatype State = State(
    left: int, first: int, last: int, end: int, copied: bool, keys: set<string>,
    entries: seq<Entry>, prior: Option<Name>, done: seq<Archive>, ops: seq<Op>)

  predicate Usable(e: Entry) { e.size > 0 && e.id > 0 }

  /** The work archive becomes a final archive named after its range, and an empty one is opened. */
  function Finalize(s: State, target: int): State {
    State(target, 0, 0, s.last, false, {}, [], None, s.done + [Archive(s.first, s.last, s.entries)],
          s.ops + FinishAs(s.prior, Final(s.first, s.last), s.entries))
  }

  function Append(s: State, e: Entry, existing: bool, policy: Policy): State {
    s.(
      entries := s.entries + [e],
      first := if s.first == 0 || e.id < s.first then e.id else s.first,
      last := if e.id > s.last then e.id else s.last,
      keys := if existing then s.keys else s.keys + {e.key},
      copied := s.copied || !existing,
      left := if policy.BySize? && !existing then s.left - e.packed else s.left)
  }

  function Copy(s: State, e: Entry, existing: bool, policy: Policy): State {
    var t := Append(s, e, existing, policy);
    if policy.BySize? && t.left <= 0 then Finalize(t, policy.target) else t
  }

  /** What the pass does with one entry; `existing` entries come from the reopened last archive. */
  function Step(s: State, e: Entry, existing: bool, policy: Policy): State {
    if !Usable(e) || (!existing && (e.id <= s.end || e.key in s.keys)) then s
    else Copy(s, e, existing, policy)
  }

  function Run(s: State, es: seq<Entry>, existing: bool, policy: Policy): State {
    if es == [] then s
    else Step(Run(s, es[..|es| - 1], existing, policy), es[|es| - 1], existing, policy)
  }

  lemma {:induction false} RunAppend(s: State, es: seq<Entry>, more: seq<Entry>, existing: bool, policy: Policy)
    ensures Run(s, es + more, existing, policy) == Run(Run(s, es, existing, policy), more, existing, policy)
  {
    if more == [] {
      assert es + more == es;
    } else {
      RunAppend(s, es, more[..|more| - 1], existing, policy);
      assert (es + more)[..|es + more| - 1] == es + more[..|more| - 1];
    }
  }

  /** The entries of the updates in reading order. */
  function InOrder(updates: seq<seq<Entry>>): seq<Entry> {
    if updates == [] then [] else InOrder(updates[..|updates| - 1]) + Ordered(updates[|updates| - 1])
  }

  /** A pass: first the reopened archive if there is one, then the updates. */
  function Pass(s: State, updates: seq<seq<Entry>>, reopened: bool, policy: Policy): State
    requires reopened ==> updates != []
  {
    if reopened then
      Run(Run(s, Ordered(updates[0]), true, policy), InOrder(updates[1..]), false, policy)
    else
      Run(s, InOrder(updates), false, policy)
  }

  /** The end of a pass: an archive with new entries is published for merging, an empty or
      unchanged one is dropped. */
  function Close(s: State): seq<Op> {
    if s.first == 0 || !s.copied then s.ops
    else s.ops + FinishAs(s.prior, Merging(s.first, s.last), s.entries)
  }

  class Worker {
    const policy: Policy
    var leftBytes: int
    var firstBook: int
    var lastBook: int
    var existingEnd: int
    var copiedNewEntry: bool
    var activeWorkIDs: set<string>
    var work: seq<Entry>
    var oldPath: Option<Name>
    var finalized: seq<Archive>
    var ops: seq<Op>

    constructor (start: State, policy: Policy)
      ensures Now() == start && this.policy == policy
    {
      this.policy := policy;
      leftBytes, firstBook, lastBook, existingEnd := start.left, start.first, start.last, start.end;
      copiedNewEntry, activeWorkIDs, work := start.copied, start.keys, start.entries;
      oldPath, finalized, ops := start.prior, start.done, start.ops;
    }

    function Now(): State
      reads this
    {
      State(leftBytes, firstBook, lastBook, existingEnd, copiedNewEntry, activeWorkIDs, work, oldPath, finalized, ops)
    }

    method CopyEntry(e: Entry, updateIsExisting: bool)
      modifies this
      ensures Now() == Append(old(Now()), e, updateIsExisting, policy)
    {
      work := work + [e];
      if firstBook == 0 || e.id < firstBook { firstBook := e.id; }
      if e.id > lastBook { lastBook := e.id; }
      if !updateIsExisting {
        activeWorkIDs := activeWorkIDs + {e.key};
        copiedNewEntry := true;
        if policy.BySize? { leftBytes := leftBytes - e.packed; }
      }
    }

    /** A new work archive. */
    method OpenWork()
      modifies this`firstBook, this`lastBook, this`copiedNewEntry, this`activeWorkIDs, this`work, this`oldPath
      ensures firstBook == 0 && lastBook == 0 && !copiedNewEntry && activeWorkIDs == {} && work == [] && oldPath == None
    {
      firstBook, lastBook := 0, 0;
      copiedNewEntry, activeWorkIDs, work, oldPath := false, {}, [], None;
    }

    method FinalizeWork(target: int)
      modifies this
      ensures Now() == Finalize(old(Now()), target)
    {
      hide FinishAs;
      ops := ops + FinishAs(oldPath, Final(firstBook, lastBook), work);
      finalized := finalized + [Archive(firstBook, lastBook, work)];
      existingEnd, leftBytes := lastBook, target;
      OpenWork();
    }

    method Consider(e: Entry, updateIsExisting: bool)
      modifies this
      ensures Now() == Step(old(Now()), e, updateIsExisting, policy)
    {
      if e.size == 0 || e.id <= 0 { return; }
      if !updateIsExisting && e.id <= existingEnd { return; }
      if !updateIsExisting && e.key in activeWorkIDs { return; }
      CopyEntry(e, updateIsExisting);
      if policy.BySize? {
        if leftBytes > 0 { return; }
        FinalizeWork(policy.target);
      }
    }

    method ReadArchive(content: seq<Entry>, updateIsExisting: bool)
      modifies this
      ensures Now() == Run(old(Now()), Ordered(content), updateIsExisting, policy)
    {
      var files := Ordered(content);
      var i := 0;
      while i < |files|
        invariant i <= |files|
        invariant Now() == Run(old(Now()), files[..i], updateIsExisting, policy)
      {
        Consider(files[i], updateIsExisting);
        i := i + 1;
        assert files[..i][..i - 1] == files[..i - 1];
      }
      assert files[..i] == files;
    }

    method ProcessUpdates(updates: seq<seq<Entry>>, firstUpdateIsExisting: bool)
      requires firstUpdateIsExisting ==> updates != []
      modifies this
      ensures Now() == Pass(old(Now()), updates, firstUpdateIsExisting, policy)
    {
      hide Step, Ordered;
      ghost var base := Now();
      var from := 0;
      if firstUpdateIsExisting {
        ReadArchive(updates[0], true);
        base, from := Now(), 1;
      }
      ghost var incoming := updates[from..];
      var index := from;
      while index < |updates|
        invariant from <= index <= |updates|
        invariant Now() == Run(base, InOrder(incoming[..index - from]), false, policy)
      {
        ReadArchive(updates[index], false);
        RunAppend(base, InOrder(incoming[..index - from]), Ordered(updates[index]), false, policy);
        index := index + 1;
        assert incoming[..index - from][..index - from - 1] == incoming[..index - from - 1];
      }
      assert incoming[..index - from] == incoming;
      assert updates[0..] == updates;
    }

    method Finish() returns (activeMerge: Option<Name>)
      modifies this
      ensures ops == Close(old(Now()))
      ensures activeMerge == if firstBook == 0 || !copiedNewEntry then None else Some(Merging(firstBook, lastBook))
      ensures Now() == old(Now()).(ops := ops)
    {
      if firstBook == 0 || !copiedNewEntry { return None; }
      ops := ops + FinishAs(oldPath, Merging(firstBook, lastBook), work);
      return Some(Merging(firstBook, lastBook));
    }
  }
}
