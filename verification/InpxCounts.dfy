/** What the record counts of a finished run are counts of. */
module InpxCounts {
  import opened Wrappers
  import opened InpxWriter
  import opened InpxLayout

  /** The record has been written as a line, with or without database metadata behind it. */
  predicate IsLine<R>(cfg: Config<R>, p: Placed<R>, hasDatabase: bool) {
    var line := cfg.render(p.rec);
    !cfg.ignored(p.target.archive, p.target.index) && line.Line? && line.hasDatabase == hasDatabase
  }

  /** How many of the records kept are such lines. */
  function Lines<R>(cfg: Config<R>, ps: seq<Placed<R>>, hasDatabase: bool): nat {
    if ps == [] then 0
    else Lines(cfg, ps[..|ps| - 1], hasDatabase) + if IsLine(cfg, ps[|ps| - 1], hasDatabase) then 1 else 0
  }

  predicate SameCounts(s: State, t: State) {
    t.stats.dbRecords == s.stats.dbRecords && t.stats.fb2Records == s.stats.fb2Records
  }

  lemma {:induction false} FillCounts<R>(cfg: Config<R>, s: State, a: nat, end: int)
    ensures SameCounts(s, Fill(cfg, s, a, end))
    decreases end - s.index
  {
    if s.index < end { FillCounts(cfg, FillOne(cfg, s, a), a, end); }
  }

  lemma {:induction false} CloseCounts<R>(cfg: Config<R>, s: State)
    requires s.active.Some? && s.active.value < |cfg.metas|
    ensures SameCounts(s, FinishActive(cfg, s))
  {
    FillCounts(cfg, s, s.active.value, Entries(cfg.metas, s.active.value, s.extra));
  }

  lemma {:induction false} AdvanceCounts<R>(cfg: Config<R>, s: State, target: nat)
    requires InRange(cfg, s) && target < |cfg.metas| && AdvanceTo(cfg, s, target).Ok?
    ensures SameCounts(s, AdvanceTo(cfg, s, target).value)
    decreases |cfg.metas| - s.next
  {
    if s.active != Some(target) {
      FinishKeepsRange(cfg, s);
      if s.active.Some? { CloseCounts(cfg, s); }
      var t := if s.active.Some? then FinishActive(cfg, s) else s;
      AdvanceCounts(cfg, OpenNext(t), target);
    }
  }

  lemma {:induction false} FinishCounts<R>(cfg: Config<R>, s: State)
    requires InRange(cfg, s)
    ensures SameCounts(s, Finish(cfg, s))
    decreases |cfg.metas| - s.next
  {
    FinishKeepsRange(cfg, s);
    if s.active.Some? { CloseCounts(cfg, s); }
    var t := if s.active.Some? then FinishActive(cfg, s) else s;
    if t.next < |cfg.metas| { FinishCounts(cfg, OpenNext(t)); }
  }

  lemma {:induction false} WriteAtCounts<R>(cfg: Config<R>, s: State, rec: Record<R>, index: int)
    requires WriteAt(cfg, s, rec, index).Ok?
    ensures var t, line := WriteAt(cfg, s, rec, index).value.stats, cfg.render(rec);
            && t.dbRecords == s.stats.dbRecords + (if line.Line? && line.hasDatabase then 1 else 0)
            && t.fb2Records == s.stats.fb2Records + (if line.Line? && !line.hasDatabase then 1 else 0)
  {
  }

  lemma {:induction false} PlaceCounts<R>(cfg: Config<R>, s: State, rec: Record<R>, target: Target)
    requires InRange(cfg, s) && target.archive < |cfg.metas| && Place(cfg, s, rec, target).Ok?
    ensures var t, p := Place(cfg, s, rec, target).value.stats, Placed(target, rec);
            && t.dbRecords == s.stats.dbRecords + (if IsLine(cfg, p, true) then 1 else 0)
            && t.fb2Records == s.stats.fb2Records + (if IsLine(cfg, p, false) then 1 else 0)
  {
    hide WriteAt, AdvanceTo, Fill;
    AdvanceCounts(cfg, s.(extra := s.extra + if target.online then 1 else 0), target.archive);
    var at := Arrive(cfg, s, target).value;
    FillCounts(cfg, at, target.archive, target.index);
    if !cfg.ignored(target.archive, target.index) {
      WriteAtCounts(cfg, Fill(cfg, at, target.archive, target.index), rec, target.index);
    }
  }

  /** The counts so far. */
  ghost predicate Counted<R>(cfg: Config<R>, s: State, ps: seq<Placed<R>>) {
    s.stats.dbRecords == Lines(cfg, ps, true) && s.stats.fb2Records == Lines(cfg, ps, false)
  }

  lemma {:induction false} WriteCounts<R>(cfg: Config<R>, s: State, ps: seq<Placed<R>>, rec: Record<R>, t: State)
    requires InRange(cfg, s) && s.extra == OnlineCount(ps) && Counted(cfg, s, ps)
    requires Write(cfg, s, rec) == Ok(t)
    ensures Counted(cfg, t, ps + PlaceOne(cfg, ps, rec))
  {
    hide Place, IsLine;
    if cfg.matches(rec).Keep? && TargetOf(cfg, s.extra, rec).value.Some? {
      var target := TargetOf(cfg, s.extra, rec).value.value;
      PlaceCounts(cfg, s, rec, target);
      assert (ps + [Placed(target, rec)])[..|ps|] == ps;
    } else {
      assert ps + [] == ps;
    }
  }

  lemma {:induction false} TraceCounts<R>(cfg: Config<R>, recs: seq<Record<R>>, trace: seq<State>, n: nat)
    requires Traced(cfg, recs, trace) && n <= |recs|
    ensures Counted(cfg, trace[n], Placement(cfg, recs[..n]))
  {
    hide Write, Lines, PlaceOne, Inv, Tight;
    if n == 0 {
      NoLines(cfg);
      assert recs[..0] == [];
    } else {
      var m := n - 1;
      TraceCounts(cfg, recs, trace, m);
      TraceSteady(cfg, recs, trace, m);
      assert Linked(cfg, recs, trace, m);
      WriteCounts(cfg, trace[m], Placement(cfg, recs[..m]), recs[m], trace[m + 1]);
      assert recs[..n][..m] == recs[..m];
    }
  }

  lemma {:induction false} NoLines<R>(cfg: Config<R>)
    ensures Counted(cfg, START, [])
  {
  }

  /** A finished run has counted the lines with database metadata and those without it. */
  lemma {:induction false} CountsAre<R>(cfg: Config<R>, recs: seq<Record<R>>, trace: seq<State>)
    requires Traced(cfg, recs, trace)
    ensures InRange(cfg, trace[|recs|])
    ensures var stats, ps := Finish(cfg, trace[|recs|]).stats, Placement(cfg, recs);
            && stats.dbRecords == Lines(cfg, ps, true) && stats.fb2Records == Lines(cfg, ps, false)
            && stats.records == Lines(cfg, ps, true) + Lines(cfg, ps, false)
  {
    hide Linked, Lines, Placement, Finish, Inv, Tight;
    TraceSteady(cfg, recs, trace, |recs|);
    TraceCounts(cfg, recs, trace, |recs|);
    assert recs[..|recs|] == recs;
    FinishCounts(cfg, trace[|recs|]);
    StatisticsBalance(cfg, recs, trace);
  }
}
