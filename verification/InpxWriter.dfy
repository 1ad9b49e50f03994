/** `streamINPXWriter`: records in archive order become one member an archive, one row an entry. */
module InpxWriter {
  import opened Wrappers

  /** A declared archive. */
  datatype Meta = Meta(id: string, ordinal: int, name: string, entries: int)

  /** The locator of a record; the rest of it is only seen by the content filter and the renderer. */
  datatype Record<R> = Record(kind: string, source: string, index: Option<int>, bookID: Option<int>, body: R)

  const ARCHIVE_ENTRY := "archive_entry"
  const ONLINE := "online"

  datatype Matching = Keep | Skip | Unreadable

  /** What `recordLine` gives: a line, with or without database metadata behind it, no line, or an error. */
  datatype Rendering = Line(text: string, hasDatabase: bool) | NoLine | Failed

  datatype Row = Text(line: string) | Dummy(number: int)

  datatype Member = Member(archive: nat, rows: seq<Row>)

  datatype Stats = Stats(archives: nat, files: nat, records: nat, dbRecords: nat, fb2Records: nat, dummy: nat)

  datatype Error = Unmatched | NoIndex | UnknownSource | OutOfArchiveOrder | OutOfIndexOrder | PastArchives | Unrendered

  /** What stays fixed for a run: the archives, which of their indexes are ignored, the content
      filter and the renderer. */
  datatype Config<!R> = Config(
    metas: seq<Meta>, ignored: (nat, int) -> bool, matches: Record<R> -> Matching, render: Record<R> -> Rendering)

  /** The fields of the writer; `rows` is the open member, `extra` counts the records appended to
      the online archive. */
  datatype State = State(
    next: nat, active: Option<nat>, index: int, rows: Option<seq<Row>>, pending: seq<int>,
    members: seq<Member>, extra: nat, stats: Stats)

  const START: State := State(0, None, 0, None, [], [], 0, Stats(0, 0, 0, 0, 0, 0))

  /** `archiveByID`: the last archive with the id. */
  function Find(metas: seq<Meta>, id: string): (r: Option<nat>)
    ensures r.Some? ==> r.value < |metas| && metas[r.value].id == id
    ensures r.None? ==> forall i :: 0 <= i < |metas| ==> metas[i].id != id
  {
    if metas == [] then None
    else if metas[|metas| - 1].id == id then Some(|metas| - 1)
    else Find(metas[..|metas| - 1], id)
  }

  /** Entries of an archive; the online one has grown by the records appended to it. */
  function Entries(metas: seq<Meta>, a: nat, extra: nat): int
    requires a < |metas|
  {
    metas[a].entries + if Find(metas, ONLINE) == Some(a) then extra else 0
  }

  // ---------------------------------------------------------------- rows

  function AddRow(s: State, row: Row): State
    requires s.rows.Some?
  {
    s.(rows := Some(s.rows.value + [row]), stats := s.stats.(files := s.stats.files + 1,
       dummy := s.stats.dummy + if row.Dummy? then 1 else 0))
  }

  /** `writeMissing`: a dummy, kept pending until the member exists. */
  function Missing(s: State, skip: bool, index: int): State {
    if skip then s
    else if s.rows.None? then s.(pending := s.pending + [index])
    else AddRow(s, Dummy(index + 1))
  }

  /** The dummies up to an index. */
  function Fill<R>(cfg: Config<R>, s: State, a: nat, end: int): State
    decreases end - s.index
  {
    if s.index >= end then s else Fill(cfg, FillOne(cfg, s, a), a, end)
  }

  function FillOne<R>(cfg: Config<R>, s: State, a: nat): State {
    Missing(s, cfg.ignored(a, s.index), s.index).(index := s.index + 1)
  }

  function DummyRows(indexes: seq<int>): seq<Row> {
    if indexes == [] then [] else DummyRows(indexes[..|indexes| - 1]) + [Dummy(indexes[|indexes| - 1] + 1)]
  }

  /** `ensureActiveWriter`: the member is created with the pending dummies. */
  function Ensure(s: State): State {
    if s.rows.Some? then s
    else s.(rows := Some(DummyRows(s.pending)), pending := [],
            stats := s.stats.(files := s.stats.files + |s.pending|, dummy := s.stats.dummy + |s.pending|))
  }

  function CountRecord(s: State, hasDatabase: bool): State {
    s.(stats := s.stats.(records := s.stats.records + 1,
       dbRecords := s.stats.dbRecords + if hasDatabase then 1 else 0,
       fb2Records := s.stats.fb2Records + if hasDatabase then 0 else 1))
  }

  /** `writeRecordAt`. */
  function WriteAt<R>(cfg: Config<R>, s: State, rec: Record<R>, index: int): Result<State, Error> {
    match cfg.render(rec)
    case Failed => Err(Unrendered)
    case NoLine => Ok(AddRow(Ensure(s), Dummy(index + 1)).(index := s.index + 1))
    case Line(text, hasDatabase) =>
      Ok(AddRow(CountRecord(Ensure(s), hasDatabase), Text(text)).(index := s.index + 1))
  }

  // ---------------------------------------------------------------- archives

  /** `finishActive`. */
  function FinishActive<R>(cfg: Config<R>, s: State): State
    requires s.active.Some? && s.active.value < |cfg.metas|
  {
    var a := s.active.value;
    var t := Fill(cfg, s, a, Entries(cfg.metas, a, s.extra));
    if t.rows.None? then t.(pending := [], active := None)
    else t.(members := t.members + [Member(a, t.rows.value)], rows := None, active := None,
            stats := t.stats.(archives := t.stats.archives + 1))
  }

  function OpenNext(s: State): State {
    s.(active := Some(s.next), index := 0, pending := [], next := s.next + 1)
  }

  predicate InRange<R>(cfg: Config<R>, s: State) {
    s.next <= |cfg.metas| && (s.active.Some? ==> s.active.value < |cfg.metas|)
  }

  /** `advanceTo`. */
  function AdvanceTo<R>(cfg: Config<R>, s: State, target: nat): (r: Result<State, Error>)
    requires InRange(cfg, s) && target < |cfg.metas|
    ensures r.Ok? ==> InRange(cfg, r.value) && r.value.active == Some(target)
    decreases |cfg.metas| - s.next
  {
    if s.active == Some(target) then Ok(s)
    else
      FinishKeepsRange(cfg, s);
      var t := if s.active.Some? then FinishActive(cfg, s) else s;
      if t.next > target then Err(OutOfArchiveOrder)
      else if t.next >= |cfg.metas| then Err(PastArchives)
      else AdvanceTo(cfg, OpenNext(t), target)
  }

  lemma {:induction false} FillKeeps<R>(cfg: Config<R>, s: State, a: nat, end: int)
    ensures var t := Fill(cfg, s, a, end);
            && t.next == s.next && t.active == s.active && t.extra == s.extra && t.members == s.members
            && t.stats.archives == s.stats.archives && (t.rows.Some? <==> s.rows.Some?)
            && t.index == (if s.index >= end then s.index else end)
    decreases end - s.index
  {
    if s.index < end {
      FillKeeps(cfg, FillOne(cfg, s, a), a, end);
    }
  }

  lemma {:induction false} FinishKeepsRange<R>(cfg: Config<R>, s: State)
    requires InRange(cfg, s)
    ensures s.active.Some? ==>
      var t := FinishActive(cfg, s);
      t.next == s.next && t.active.None? && t.extra == s.extra && t.rows.None?
  {
    if s.active.Some? {
      FillKeeps(cfg, s, s.active.value, Entries(cfg.metas, s.active.value, s.extra));
    }
  }

  // ---------------------------------------------------------------- records

  /** Where a record goes: its archive and index, and whether it is appended to the online archive. */
  datatype Target = Target(archive: nat, index: int, online: bool)

  /** `recordTarget`; Ok(None): the record is dropped. */
  function TargetOf<R>(cfg: Config<R>, extra: nat, rec: Record<R>): (r: Result<Option<Target>, Error>)
    ensures r.Ok? && r.value.Some? ==> r.value.value.archive < |cfg.metas|
  {
    if rec.kind != ARCHIVE_ENTRY then
      match Find(cfg.metas, ONLINE)
      case None => Ok(None)
      case Some(a) => Ok(Some(Target(a, Entries(cfg.metas, a, extra), true)))
    else if rec.index.None? then Err(NoIndex)
    else
      match Find(cfg.metas, rec.source)
      case None => Err(UnknownSource)
      case Some(a) => Ok(Some(Target(a, rec.index.value, false)))
  }

  /** The writer with the target's archive active. */
  function Arrive<R>(cfg: Config<R>, s: State, t: Target): (r: Result<State, Error>)
    requires InRange(cfg, s) && t.archive < |cfg.metas|
    ensures r.Ok? ==> InRange(cfg, r.value) && r.value.active == Some(t.archive)
  {
    AdvanceTo(cfg, s.(extra := s.extra + if t.online then 1 else 0), t.archive)
  }

  /** A record at its index of the active archive. */
  function Settle<R>(cfg: Config<R>, at: State, rec: Record<R>, t: Target): Result<State, Error> {
    if t.index < at.index then Err(OutOfIndexOrder)
    else
      var full := Fill(cfg, at, t.archive, t.index);
      if cfg.ignored(t.archive, t.index) then Ok(full.(index := full.index + 1))
      else WriteAt(cfg, full, rec, t.index)
  }

  /** A record at its target. */
  function Place<R>(cfg: Config<R>, s: State, rec: Record<R>, t: Target): (r: Result<State, Error>)
    requires InRange(cfg, s) && t.archive < |cfg.metas|
  {
    match Arrive(cfg, s, t)
    case Err(e) => Err(e)
    case Ok(at) => Settle(cfg, at, rec, t)
  }

  lemma {:induction false} SettleKeeps<R>(cfg: Config<R>, at: State, rec: Record<R>, t: Target)
    requires Settle(cfg, at, rec, t).Ok?
    ensures var r := Settle(cfg, at, rec, t).value;
            r.next == at.next && r.active == at.active && r.extra == at.extra && r.index == t.index + 1
  {
    FillKeeps(cfg, at, t.archive, t.index);
  }

  lemma {:induction false} PlaceKeepsRange<R>(cfg: Config<R>, s: State, rec: Record<R>, t: Target)
    requires InRange(cfg, s) && t.archive < |cfg.metas|
    ensures var r := Place(cfg, s, rec, t);
            r.Ok? ==> InRange(cfg, r.value) && r.value.active == Some(t.archive) && r.value.index == t.index + 1
  {
    var at := Arrive(cfg, s, t);
    if at.Ok? && Settle(cfg, at.value, rec, t).Ok? { SettleKeeps(cfg, at.value, rec, t); }
  }

  /** `WriteRecord`. */
  function Write<R>(cfg: Config<R>, s: State, rec: Record<R>): (r: Result<State, Error>)
    requires InRange(cfg, s)
    ensures r.Ok? ==> InRange(cfg, r.value)
  {
    match cfg.matches(rec)
    case Unreadable => Err(Unmatched)
    case Skip => Ok(s)
    case Keep =>
      match TargetOf(cfg, s.extra, rec)
      case Err(e) => Err(e)
      case Ok(None) => Ok(s)
      case Ok(Some(t)) => PlaceKeepsRange(cfg, s, rec, t); Place(cfg, s, rec, t)
  }

  /** The record number i takes the writer from one state of the trace to the next. */
  ghost predicate Linked<R>(cfg: Config<R>, recs: seq<Record<R>>, trace: seq<State>, i: nat)
    requires |trace| == |recs| + 1 && i < |recs|
  {
    InRange(cfg, trace[i]) && Write(cfg, trace[i], recs[i]) == Ok(trace[i + 1])
  }

  /** The states of a writer that takes all the records without an error. */
  ghost predicate Traced<R>(cfg: Config<R>, recs: seq<Record<R>>, trace: seq<State>) {
    && |trace| == |recs| + 1 && trace[0] == START
    && forall i :: 0 <= i < |recs| ==> Linked(cfg, recs, trace, i)
  }

  /** `Finish`: the archives that are left are opened and finished. */
  function Finish<R>(cfg: Config<R>, s: State): State
    requires InRange(cfg, s)
    decreases |cfg.metas| - s.next
  {
    FinishKeepsRange(cfg, s);
    var t := if s.active.Some? then FinishActive(cfg, s) else s;
    if t.next >= |cfg.metas| then t else Finish(cfg, OpenNext(t))
  }

  // ---------------------------------------------------------------- the class

  class Writer<R> {
    const cfg: Config<R>
    var nextArchive: nat
    var active: Option<nat>
    var activeIndex: int
    var rows: Option<seq<Row>>
    var pendingDummyIndexes: seq<int>
    var members: seq<Member>
    var extra: nat
    var stats: Stats

    constructor (cfg: Config<R>)
      ensures Now() == START && this.cfg == cfg
    {
      this.cfg := cfg;
      nextArchive, active, activeIndex, rows, pendingDummyIndexes := 0, None, 0, None, [];
      members, extra, stats := [], 0, Stats(0, 0, 0, 0, 0, 0);
    }

    function Now(): State
      reads this
    {
      State(nextArchive, active, activeIndex, rows, pendingDummyIndexes, members, extra, stats)
    }

    method WriteRow(row: Row)
      requires rows.Some?
      modifies this
      ensures Now() == AddRow(old(Now()), row)
    {
      stats := stats.(files := stats.files + 1, dummy := stats.dummy + if row.Dummy? then 1 else 0);
      rows := Some(rows.value + [row]);
    }

    method FillTo(a: nat, end: int)
      modifies this
      ensures Now() == Fill(cfg, old(Now()), a, end)
    {
      ghost var goal := Fill(cfg, Now(), a, end);
      while activeIndex < end
        invariant Fill(cfg, Now(), a, end) == goal
        decreases end - activeIndex
      {
        if !cfg.ignored(a, activeIndex) {
          if rows.None? { pendingDummyIndexes := pendingDummyIndexes + [activeIndex]; }
          else { WriteRow(Dummy(activeIndex + 1)); }
        }
        activeIndex := activeIndex + 1;
      }
    }

    method EnsureActiveWriter()
      modifies this
      ensures Now() == Ensure(old(Now()))
    {
      if rows.Some? { return; }
      ghost var before := Now();
      rows := Some([]);
      var i := 0;
      while i < |pendingDummyIndexes|
        invariant pendingDummyIndexes == before.pending && i <= |before.pending|
        invariant Now() == before.(rows := Some(DummyRows(before.pending[..i])),
                                   stats := before.stats.(files := before.stats.files + i,
                                                           dummy := before.stats.dummy + i))
      {
        assert before.pending[..i + 1][..i] == before.pending[..i];
        WriteRow(Dummy(pendingDummyIndexes[i] + 1));
        i := i + 1;
      }
      assert before.pending[..i] == before.pending;
      pendingDummyIndexes := [];
    }

    method WriteRecordAt(rec: Record<R>, index: int) returns (r: Result<bool, Error>)
      modifies this
      ensures match WriteAt(cfg, old(Now()), rec, index)
              case Err(e) => r == Err(e)
              case Ok(s) => r.Ok? && Now() == s
    {
      var line := cfg.render(rec);
      match line {
        case Failed => return Err(Unrendered);
        case NoLine =>
          EnsureActiveWriter();
          WriteRow(Dummy(index + 1));
        case Line(text, hasDatabase) =>
          EnsureActiveWriter();
          stats := CountRecord(Now(), hasDatabase).stats;
          WriteRow(Text(text));
      }
      activeIndex := activeIndex + 1;
      return Ok(true);
    }

    method Close()
      requires active.Some? && active.value < |cfg.metas|
      modifies this
      ensures Now() == FinishActive(cfg, old(Now()))
    {
      var a := active.value;
      FillTo(a, Entries(cfg.metas, a, extra));
      active := None;
      if rows.None? {
        pendingDummyIndexes := [];
      } else {
        members := members + [Member(a, rows.value)];
        stats := stats.(archives := stats.archives + 1);
        rows := None;
      }
    }

    method Open()
      modifies this
      ensures Now() == OpenNext(old(Now()))
    {
      active, activeIndex, pendingDummyIndexes, nextArchive := Some(nextArchive), 0, [], nextArchive + 1;
    }

    method Advance(target: nat) returns (r: Result<bool, Error>)
      requires InRange(cfg, Now()) && target < |cfg.metas|
      modifies this
      ensures match AdvanceTo(cfg, old(Now()), target)
              case Err(e) => r == Err(e)
              case Ok(s) => r.Ok? && Now() == s
    {
      ghost var goal := AdvanceTo(cfg, Now(), target);
      while active != Some(target)
        invariant InRange(cfg, Now()) && AdvanceTo(cfg, Now(), target) == goal
        decreases |cfg.metas| - nextArchive
      {
        FinishKeepsRange(cfg, Now());
        if active.Some? { Close(); }
        if nextArchive > target { return Err(OutOfArchiveOrder); }
        if nextArchive >= |cfg.metas| { return Err(PastArchives); }
        Open();
      }
      return Ok(true);
    }

    method WriteRecord(rec: Record<R>) returns (r: Result<bool, Error>)
      requires InRange(cfg, Now())
      modifies this
      ensures match Write(cfg, old(Now()), rec)
              case Err(e) => r == Err(e)
              case Ok(s) => r.Ok? && Now() == s
    {
      hide Fill, AdvanceTo, WriteAt;
      var keep := cfg.matches(rec);
      if keep.Unreadable? { return Err(Unmatched); }
      if keep.Skip? { return Ok(true); }
      var found := TargetOf(cfg, extra, rec);
      if found.Err? { return Err(found.error); }
      if found.value.None? { return Ok(true); }
      var t := found.value.value;
      if t.online { extra := extra + 1; }
      r := Advance(t.archive);
      if r.Err? { return; }
      if t.index < activeIndex { return Err(OutOfIndexOrder); }
      FillTo(t.archive, t.index);
      if cfg.ignored(t.archive, t.index) {
        activeIndex := activeIndex + 1;
        return Ok(true);
      }
      r := WriteRecordAt(rec, t.index);
    }

    method FinishAll()
      requires InRange(cfg, Now())
      modifies this
      ensures Now() == Finish(cfg, old(Now()))
    {
      ghost var goal := Finish(cfg, Now());
      FinishKeepsRange(cfg, Now());
      if active.Some? { Close(); }
      while nextArchive < |cfg.metas|
        invariant InRange(cfg, Now()) && active.None? && Finish(cfg, Now()) == goal
        decreases |cfg.metas| - nextArchive
      {
        Open();
        FinishKeepsRange(cfg, Now());
        Close();
      }
    }

    /** A whole stream: stops at the first error, and otherwise has gone through a trace. */
    method WriteStream(recs: seq<Record<R>>) returns (r: Result<bool, Error>, ghost trace: seq<State>)
      requires Now() == START
      modifies this
      ensures r.Ok? ==> Traced(cfg, recs, trace) && InRange(cfg, trace[|recs|]) && Now() == Finish(cfg, trace[|recs|])
    {
      trace := [START];
      r := Ok(true);
      var i := 0;
      while i < |recs|
        invariant i <= |recs| && Traced(cfg, recs[..i], trace)
        invariant InRange(cfg, Now()) && Now() == trace[i]
      {
        ghost var before := Now();
        r := WriteRecord(recs[i]);
        if r.Err? { return; }
        TraceGrows(cfg, recs, trace, i, Now());
        trace := trace + [Now()];
        i := i + 1;
      }
      assert recs[..i] == recs;
      FinishAll();
      return Ok(true), trace;
    }
  }

  lemma {:induction false} TraceGrows<R>(cfg: Config<R>, recs: seq<Record<R>>, trace: seq<State>, i: nat, s: State)
    requires i < |recs| && Traced(cfg, recs[..i], trace)
    requires InRange(cfg, trace[i]) && Write(cfg, trace[i], recs[i]) == Ok(s)
    ensures Traced(cfg, recs[..i + 1], trace + [s])
  {
    var all, upto := trace + [s], recs[..i + 1];
    forall k | 0 <= k < |upto| ensures Linked(cfg, upto, all, k) {
      if k < i { assert Linked(cfg, recs[..i], trace, k); }
    }
  }

  // ---------------------------------------------------------------- where a record goes

  /** A record of an archive entry goes to its index in the archive it names; any other goes behind the entries of the
      online archive and the records appended to it before, or nowhere if there is no such archive. */
  lemma {:induction false} TargetIs<R>(cfg: Config<R>, extra: nat, rec: Record<R>)
    ensures var r := TargetOf(cfg, extra, rec);
            if rec.kind == "archive_entry" then
              && (r.Ok? <==> rec.index.Some? && exists a :: 0 <= a < |cfg.metas| && cfg.metas[a].id == rec.source)
              && (r.Ok? ==> r.value.Some? && !r.value.value.online && rec.index == Some(r.value.value.index)
                            && cfg.metas[r.value.value.archive].id == rec.source)
            else
              && r.Ok? && (r.value.Some? <==> exists a :: 0 <= a < |cfg.metas| && cfg.metas[a].id == "online")
              && (r.value.Some? ==>
                    var t := r.value.value;
                    t.online && cfg.metas[t.archive].id == "online" && t.index == cfg.metas[t.archive].entries + extra)
  {
  }

  /** The archive found is the last one with the id; appended records count for the online archive only. */
  lemma {:induction false} EntriesAre(metas: seq<Meta>, a: nat, extra: nat)
    requires a < |metas| && forall i :: a < i < |metas| ==> metas[i].id != metas[a].id
    ensures Find(metas, metas[a].id) == Some(a)
    ensures Entries(metas, a, extra) == metas[a].entries + if metas[a].id == "online" then extra else 0
  {
    FindIsLast(metas, a);
  }

  lemma {:induction false} FindIsLast(metas: seq<Meta>, a: nat)
    requires a < |metas| && forall i :: a < i < |metas| ==> metas[i].id != metas[a].id
    ensures Find(metas, metas[a].id) == Some(a)
  {
    if a < |metas| - 1 { FindIsLast(metas[..|metas| - 1], a); }
  }
}
