/** What the streaming writer writes: for every archive with an accepted record one row for each
    index that is not ignored, in order. */
module InpxLayout {
  import opened Wrappers
  import opened InpxWriter

  /** A record the writer kept, with its target. */
  datatype Placed<R> = Placed(target: Target, rec: Record<R>)

  function OnlineCount<R>(ps: seq<Placed<R>>): nat {
    if ps == [] then 0 else OnlineCount(ps[..|ps| - 1]) + if ps[|ps| - 1].target.online then 1 else 0
  }

  function PlaceOne<R>(cfg: Config<R>, ps: seq<Placed<R>>, rec: Record<R>): seq<Placed<R>> {
    if cfg.matches(rec) != Keep then []
    else
      match TargetOf(cfg, OnlineCount(ps), rec)
      case Ok(Some(t)) => [Placed(t, rec)]
      case Ok(None) => []
      case Err(_) => []
  }

  /** The records of a stream that are kept. */
  function Placement<R>(cfg: Config<R>, recs: seq<Record<R>>): seq<Placed<R>> {
    if recs == [] then []
    else
      var ps := Placement(cfg, recs[..|recs| - 1]);
      ps + PlaceOne(cfg, ps, recs[|recs| - 1])
  }

  // ---------------------------------------------------------------- the layout

  predicate At<R>(p: Placed<R>, a: nat, i: int) { p.target.archive == a && p.target.index == i }

  function Lookup<R>(ps: seq<Placed<R>>, a: nat, i: int): Option<Record<R>> {
    if ps == [] then None
    else
      var r := Lookup(ps[..|ps| - 1], a, i);
      if r.None? && At(ps[|ps| - 1], a, i) then Some(ps[|ps| - 1].rec) else r
  }

  function RowOf<R>(cfg: Config<R>, rec: Record<R>, i: int): Row {
    match cfg.render(rec)
    case Line(text, _) => Text(text)
    case NoLine => Dummy(i + 1)
    case Failed => Dummy(i + 1)
  }

  /** The row of an index: none if it is ignored, the record's, or a dummy. */
  function RowAt<R>(cfg: Config<R>, ps: seq<Placed<R>>, a: nat, i: int): seq<Row>
    requires a < |cfg.metas|
  {
    if cfg.ignored(a, i) then []
    else
      match Lookup(ps, a, i)
      case Some(rec) => [RowOf(cfg, rec, i)]
      case None => [Dummy(i + 1)]
  }

  function Rows<R>(cfg: Config<R>, ps: seq<Placed<R>>, a: nat, n: int): seq<Row>
    requires a < |cfg.metas|
    decreases n
  {
    if n <= 0 then [] else Rows(cfg, ps, a, n - 1) + RowAt(cfg, ps, a, n - 1)
  }

  predicate Accepts<R>(cfg: Config<R>, p: Placed<R>, a: nat)
    requires a < |cfg.metas|
  {
    p.target.archive == a && !cfg.ignored(a, p.target.index)
  }

  predicate Accepted<R>(cfg: Config<R>, ps: seq<Placed<R>>, a: nat)
    requires a < |cfg.metas|
  {
    exists k :: 0 <= k < |ps| && Accepts(cfg, ps[k], a)
  }

  /** One past the last index placed in an archive. */
  function Last<R>(ps: seq<Placed<R>>, a: nat): int {
    if ps == [] then 0
    else if ps[|ps| - 1].target.archive == a then ps[|ps| - 1].target.index + 1
    else Last(ps[..|ps| - 1], a)
  }

  function Max(a: int, b: int): int { if a < b then b else a }

  /** How many indexes of an archive get a row: its entries, or more if a record lies beyond them. */
  function Bound<R>(cfg: Config<R>, ps: seq<Placed<R>>, a: nat): int
    requires a < |cfg.metas|
  {
    Max(Entries(cfg.metas, a, OnlineCount(ps)), Last(ps, a))
  }

  function MemberOf<R>(cfg: Config<R>, ps: seq<Placed<R>>, a: nat): seq<Member>
    requires a < |cfg.metas|
  {
    if Accepted(cfg, ps, a) then [Member(a, Rows(cfg, ps, a, Bound(cfg, ps, a)))] else []
  }

  /** The members of the first k archives. */
  function Layout<R>(cfg: Config<R>, ps: seq<Placed<R>>, k: nat): seq<Member>
    requires k <= |cfg.metas|
  {
    if k == 0 then [] else Layout(cfg, ps, k - 1) + MemberOf(cfg, ps, k - 1)
  }

  // ---------------------------------------------------------------- frames

  lemma {:induction false} OneMore<R>(ps: seq<Placed<R>>, p: Placed<R>, a: nat, i: int)
    ensures !At(p, a, i) ==> Lookup(ps + [p], a, i) == Lookup(ps, a, i)
    ensures At(p, a, i) && Lookup(ps, a, i).None? ==> Lookup(ps + [p], a, i) == Some(p.rec)
    ensures p.target.archive != a ==> Last(ps + [p], a) == Last(ps, a)
    ensures p.target.archive == a ==> Last(ps + [p], a) == p.target.index + 1
    ensures OnlineCount(ps + [p]) == OnlineCount(ps) + if p.target.online then 1 else 0
  {
    assert (ps + [p])[..|ps|] == ps;
  }

  lemma {:induction false} AcceptedMore<R>(cfg: Config<R>, ps: seq<Placed<R>>, p: Placed<R>, a: nat)
    requires a < |cfg.metas|
    ensures Accepted(cfg, ps + [p], a) <==> Accepted(cfg, ps, a) || Accepts(cfg, p, a)
  {
    var all := ps + [p];
    assert all[|ps|] == p;
    if Accepted(cfg, ps, a) {
      var k :| 0 <= k < |ps| && Accepts(cfg, ps[k], a);
      assert all[k] == ps[k];
    }
  }

  lemma {:induction false} RowsFrame<R>(cfg: Config<R>, ps: seq<Placed<R>>, p: Placed<R>, a: nat, n: int)
    requires a < |cfg.metas| && (p.target.archive == a ==> n <= p.target.index)
    ensures Rows(cfg, ps + [p], a, n) == Rows(cfg, ps, a, n)
    decreases n
  {
    hide Lookup, Last;
    if n > 0 {
      RowsFrame(cfg, ps, p, a, n - 1);
      OneMore(ps, p, a, n - 1);
    }
  }

  /** Records of other archives do not change a member, unless they make the online one grow. */
  lemma {:induction false} MemberFrame<R>(cfg: Config<R>, ps: seq<Placed<R>>, p: Placed<R>, a: nat)
    requires a < |cfg.metas| && p.target.archive != a
    requires p.target.online ==> Find(cfg.metas, ONLINE) != Some(a)
    ensures MemberOf(cfg, ps + [p], a) == MemberOf(cfg, ps, a)
  {
    AcceptedMore(cfg, ps, p, a);
    OneMore(ps, p, a, 0);
    RowsFrame(cfg, ps, p, a, Bound(cfg, ps, a));
  }

  lemma {:induction false} LayoutFrame<R>(cfg: Config<R>, ps: seq<Placed<R>>, p: Placed<R>, k: nat)
    requires k <= |cfg.metas| && k <= p.target.archive
    requires p.target.online ==> Find(cfg.metas, ONLINE) == Some(p.target.archive)
    ensures Layout(cfg, ps + [p], k) == Layout(cfg, ps, k)
  {
    hide MemberOf;
    if k > 0 {
      LayoutFrame(cfg, ps, p, k - 1);
      MemberFrame(cfg, ps, p, k - 1);
    }
  }

  // ---------------------------------------------------------------- the invariant

  function Shown(s: State): seq<Row> {
    if s.rows.Some? then s.rows.value else DummyRows(s.pending)
  }

  /** The active archive has its rows up to the index. */
  ghost predicate Active<R>(cfg: Config<R>, s: State, ps: seq<Placed<R>>, a: nat) {
    && s.active == Some(a) && a + 1 == s.next && a < |cfg.metas|
    && 0 <= s.index && Last(ps, a) <= s.index
    && (forall k :: 0 <= k < |ps| && ps[k].target.archive == a ==> ps[k].target.index < s.index)
    && Shown(s) == Rows(cfg, ps, a, s.index)
    && (s.rows.Some? <==> Accepted(cfg, ps, a))
    && (s.rows.Some? ==> s.pending == [])
    && s.members == Layout(cfg, ps, a)
  }

  ghost predicate Idle<R>(cfg: Config<R>, s: State, ps: seq<Placed<R>>) {
    s.active.None? && s.rows.None? && s.next <= |cfg.metas| && s.members == Layout(cfg, ps, s.next)
  }

  ghost predicate Below<R>(ps: seq<Placed<R>>, next: nat) {
    forall k :: 0 <= k < |ps| ==> ps[k].target.archive < next
  }

  ghost predicate Inv<R>(cfg: Config<R>, s: State, ps: seq<Placed<R>>) {
    && Below(ps, s.next)
    && if s.active.Some? then Active(cfg, s, ps, s.active.value) else Idle(cfg, s, ps)
  }

  /** No row is missing at the end of the last record. */
  ghost predicate Tight<R>(s: State, ps: seq<Placed<R>>) {
    s.active.Some? ==> s.index == Last(ps, s.active.value)
  }

  lemma {:induction false} NotThere<R>(ps: seq<Placed<R>>, a: nat, i: int)
    requires forall k :: 0 <= k < |ps| ==> !At(ps[k], a, i)
    ensures Lookup(ps, a, i).None?
  {
    if ps != [] { NotThere(ps[..|ps| - 1], a, i); }
  }

  lemma {:induction false} DummySnoc(indexes: seq<int>, i: int)
    ensures DummyRows(indexes + [i]) == DummyRows(indexes) + [Dummy(i + 1)]
  {
    assert (indexes + [i])[..|indexes|] == indexes;
  }

  lemma {:induction false} NextRow<R>(cfg: Config<R>, ps: seq<Placed<R>>, a: nat, i: int)
    requires a < |cfg.metas| && i >= 0 && forall k :: 0 <= k < |ps| && ps[k].target.archive == a ==>
      ps[k].target.index < i
    ensures Rows(cfg, ps, a, i + 1)
         == Rows(cfg, ps, a, i) + if cfg.ignored(a, i) then [] else [Dummy(i + 1)]
  {
    NotThere(ps, a, i);
  }

  lemma {:induction false} MissingShown(s: State, skip: bool, i: int)
    requires s.rows.Some? ==> s.pending == []
    ensures var t := Missing(s, skip, i).(index := i + 1);
            && Shown(t) == Shown(s) + (if skip then [] else [Dummy(i + 1)])
            && (t.rows.Some? <==> s.rows.Some?) && (t.rows.Some? ==> t.pending == [])
            && t.active == s.active && t.next == s.next && t.members == s.members
  {
    DummySnoc(s.pending, i);
  }

  lemma {:induction false} MissingActive<R>(cfg: Config<R>, s: State, ps: seq<Placed<R>>, a: nat)
    requires Active(cfg, s, ps, a)
    ensures Active(cfg, FillOne(cfg, s, a), ps, a)
  {
    hide Rows, Layout, Missing, Shown, Accepted;
    NextRow(cfg, ps, a, s.index);
    MissingShown(s, cfg.ignored(a, s.index), s.index);
  }

  lemma {:induction false} FillActive<R>(cfg: Config<R>, s: State, ps: seq<Placed<R>>, a: nat, end: int)
    requires Active(cfg, s, ps, a)
    ensures Active(cfg, Fill(cfg, s, a, end), ps, a)
    decreases end - s.index
  {
    if s.index < end {
      MissingActive(cfg, s, ps, a);
      FillActive(cfg, FillOne(cfg, s, a), ps, a, end);
    }
  }

  lemma {:induction false} FinishIdle<R>(cfg: Config<R>, s: State, ps: seq<Placed<R>>, a: nat)
    requires Active(cfg, s, ps, a) && Tight(s, ps)
    requires Entries(cfg.metas, a, s.extra) == Entries(cfg.metas, a, OnlineCount(ps))
    ensures Idle(cfg, FinishActive(cfg, s), ps)
    ensures FinishActive(cfg, s).next == s.next && FinishActive(cfg, s).extra == s.extra
  {
    var end := Entries(cfg.metas, a, s.extra);
    FillActive(cfg, s, ps, a, end);
    FillKeeps(cfg, s, a, end);
    var t := Fill(cfg, s, a, end);
    assert t.index == Bound(cfg, ps, a);
  }

  lemma {:induction false} OpenActive<R>(cfg: Config<R>, s: State, ps: seq<Placed<R>>)
    requires Idle(cfg, s, ps) && Below(ps, s.next) && s.next < |cfg.metas|
    ensures Active(cfg, OpenNext(s), ps, s.next) && Tight(OpenNext(s), ps)
  {
    NoneLast(ps, s.next);
  }

  lemma {:induction false} NoneLast<R>(ps: seq<Placed<R>>, a: nat)
    requires forall k :: 0 <= k < |ps| ==> ps[k].target.archive != a
    ensures Last(ps, a) == 0
  {
    if ps != [] { NoneLast(ps[..|ps| - 1], a); }
  }

  /** The archives that get closed on the way to a target do not depend on the last online record. */
  ghost predicate Settled<R>(cfg: Config<R>, s: State, ps: seq<Placed<R>>, target: nat) {
    s.extra == OnlineCount(ps) || Find(cfg.metas, ONLINE) == Some(target)
  }

  lemma {:induction false} AdvanceInv<R>(cfg: Config<R>, s: State, ps: seq<Placed<R>>, target: nat)
    requires Inv(cfg, s, ps) && Tight(s, ps) && target < |cfg.metas| && Settled(cfg, s, ps, target)
    requires AdvanceTo(cfg, s, target).Ok?
    ensures var t := AdvanceTo(cfg, s, target).value;
            && Inv(cfg, t, ps) && Tight(t, ps) && t.active == Some(target) && t.extra == s.extra && s.next <= t.next
    decreases |cfg.metas| - s.next
  {
    if s.active != Some(target) {
      if s.active.Some? { FinishIdle(cfg, s, ps, s.active.value); }
      var t := if s.active.Some? then FinishActive(cfg, s) else s;
      OpenActive(cfg, t, ps);
      AdvanceInv(cfg, OpenNext(t), ps, target);
    }
  }

  // ---------------------------------------------------------------- one record

  /** The rows with one more record, placed at the current index. */
  lemma {:induction false} RowsWith<R>(cfg: Config<R>, ps: seq<Placed<R>>, p: Placed<R>, a: nat)
    requires a < |cfg.metas| && p.target.archive == a && p.target.index >= 0
    requires forall k :: 0 <= k < |ps| && ps[k].target.archive == a ==> ps[k].target.index < p.target.index
    ensures Rows(cfg, ps + [p], a, p.target.index + 1)
         == Rows(cfg, ps, a, p.target.index)
            + if cfg.ignored(a, p.target.index) then [] else [RowOf(cfg, p.rec, p.target.index)]
  {
    var i := p.target.index;
    RowsFrame(cfg, ps, p, a, i);
    NotThere(ps, a, i);
    OneMore(ps, p, a, i);
  }

  lemma {:induction false} ActiveWith<R>(cfg: Config<R>, s: State, t: State, ps: seq<Placed<R>>, p: Placed<R>, a: nat)
    requires Active(cfg, s, ps, a) && p.target.archive == a && p.target.index == s.index
    requires Layout(cfg, ps + [p], a) == Layout(cfg, ps, a)
    requires t.active == s.active && t.next == s.next && t.members == s.members && t.index == s.index + 1
    requires t.rows.Some? <==> s.rows.Some? || Accepts(cfg, p, a)
    requires t.rows.Some? ==> t.pending == []
    requires Shown(t) == Shown(s) + if Accepts(cfg, p, a) then [RowOf(cfg, p.rec, s.index)] else []
    ensures Active(cfg, t, ps + [p], a) && Tight(t, ps + [p])
  {
    hide RowOf, Shown, Layout, Lookup;
    RowsWith(cfg, ps, p, a);
    AcceptedMore(cfg, ps, p, a);
    OneMore(ps, p, a, 0);
  }

  lemma {:induction false} InvExtra<R>(cfg: Config<R>, s: State, ps: seq<Placed<R>>, extra: nat)
    requires Inv(cfg, s, ps) && Tight(s, ps)
    ensures Inv(cfg, s.(extra := extra), ps) && Tight(s.(extra := extra), ps)
  {
  }

  lemma {:induction false} ArriveInv<R>(cfg: Config<R>, s: State, ps: seq<Placed<R>>, target: Target)
    requires InRange(cfg, s) && Inv(cfg, s, ps) && Tight(s, ps) && s.extra == OnlineCount(ps)
    requires target.archive < |cfg.metas| && (target.online ==> Find(cfg.metas, ONLINE) == Some(target.archive))
    requires Arrive(cfg, s, target).Ok?
    ensures var at := Arrive(cfg, s, target).value;
            && Below(ps, at.next) && Active(cfg, at, ps, target.archive)
            && at.extra == OnlineCount(ps) + if target.online then 1 else 0
  {
    var s1 := s.(extra := s.extra + if target.online then 1 else 0);
    InvExtra(cfg, s, ps, s1.extra);
    AdvanceInv(cfg, s1, ps, target.archive);
  }

  lemma {:induction false} SettleInv<R>(cfg: Config<R>, at: State, ps: seq<Placed<R>>, rec: Record<R>, target: Target)
    requires target.archive < |cfg.metas| && (target.online ==> Find(cfg.metas, ONLINE) == Some(target.archive))
    requires Below(ps, at.next) && Active(cfg, at, ps, target.archive)
    requires Settle(cfg, at, rec, target).Ok?
    ensures var t := Settle(cfg, at, rec, target).value; var all := ps + [Placed(target, rec)];
            Inv(cfg, t, all) && Tight(t, all) && t.extra == at.extra
  {
    FillActive(cfg, at, ps, target.archive, target.index);
    FillKeeps(cfg, at, target.archive, target.index);
    var full := Fill(cfg, at, target.archive, target.index);
    PlacedInv(cfg, full, Settle(cfg, at, rec, target).value, ps, Placed(target, rec));
  }

  lemma {:induction false} PlaceInv<R>(cfg: Config<R>, s: State, ps: seq<Placed<R>>, rec: Record<R>, target: Target)
    requires InRange(cfg, s) && Inv(cfg, s, ps) && Tight(s, ps) && s.extra == OnlineCount(ps)
    requires target.archive < |cfg.metas| && (target.online ==> Find(cfg.metas, ONLINE) == Some(target.archive))
    requires Place(cfg, s, rec, target).Ok?
    ensures var t := Place(cfg, s, rec, target).value; var all := ps + [Placed(target, rec)];
            Inv(cfg, t, all) && Tight(t, all) && t.extra == OnlineCount(all)
  {
    ArriveInv(cfg, s, ps, target);
    SettleInv(cfg, Arrive(cfg, s, target).value, ps, rec, target);
    OneMore(ps, Placed(target, rec), 0, 0);
  }

  lemma {:induction false} ShownFrame(s: State, index: int)
    ensures Shown(s.(index := index)) == Shown(s)
  {
  }

  /** A record's row follows the rows and the postponed dummies. */
  lemma {:induction false} WriteAtShows<R>(cfg: Config<R>, s: State, rec: Record<R>, index: int)
    requires WriteAt(cfg, s, rec, index).Ok? && (s.rows.Some? ==> s.pending == [])
    ensures var t := WriteAt(cfg, s, rec, index).value;
            && Shown(t) == Shown(s) + [RowOf(cfg, rec, index)] && t.rows.Some? && t.pending == []
            && t.active == s.active && t.next == s.next && t.members == s.members
            && t.index == s.index + 1 && t.extra == s.extra
  {
    hide DummyRows;
  }

  lemma {:induction false} PlacedInv<R>(cfg: Config<R>, full: State, t: State, ps: seq<Placed<R>>, p: Placed<R>)
    requires var a := p.target.archive;
             && Active(cfg, full, ps, a) && Below(ps, full.next) && full.index == p.target.index
             && (p.target.online ==> Find(cfg.metas, ONLINE) == Some(a))
             && (if cfg.ignored(a, full.index) then t == full.(index := full.index + 1)
                 else WriteAt(cfg, full, p.rec, full.index) == Ok(t))
    ensures Inv(cfg, t, ps + [p]) && Tight(t, ps + [p]) && t.extra == full.extra
  {
    hide Rows, Layout, WriteAt, RowOf, Shown, Accepted;
    if !cfg.ignored(p.target.archive, full.index) { WriteAtShows(cfg, full, p.rec, full.index); }
    assert Shown(full.(index := full.index + 1)) == Shown(full) by { ShownFrame(full, full.index + 1); }
    LayoutFrame(cfg, ps, p, p.target.archive);
    ActiveWith(cfg, full, t, ps, p, p.target.archive);
  }

  lemma {:induction false} WriteInv<R>(cfg: Config<R>, s: State, ps: seq<Placed<R>>, rec: Record<R>, t: State)
    requires InRange(cfg, s) && Inv(cfg, s, ps) && Tight(s, ps) && s.extra == OnlineCount(ps)
    requires Write(cfg, s, rec) == Ok(t)
    ensures var all := ps + PlaceOne(cfg, ps, rec);
            Inv(cfg, t, all) && Tight(t, all) && t.extra == OnlineCount(all)
  {
    if cfg.matches(rec).Keep? && TargetOf(cfg, s.extra, rec).value.Some? {
      PlaceInv(cfg, s, ps, rec, TargetOf(cfg, s.extra, rec).value.value);
    } else {
      assert ps + [] == ps;
    }
  }

  ghost predicate Steady<R>(cfg: Config<R>, s: State, ps: seq<Placed<R>>) {
    InRange(cfg, s) && Inv(cfg, s, ps) && Tight(s, ps) && s.extra == OnlineCount(ps)
  }

  lemma {:induction false} LinkedSteady<R>(cfg: Config<R>, recs: seq<Record<R>>, trace: seq<State>, i: nat)
    requires Traced(cfg, recs, trace) && i < |recs| && Steady(cfg, trace[i], Placement(cfg, recs[..i]))
    ensures Steady(cfg, trace[i + 1], Placement(cfg, recs[..i + 1]))
  {
    assert Linked(cfg, recs, trace, i);
    assert recs[..i + 1][..i] == recs[..i];
    WriteInv(cfg, trace[i], Placement(cfg, recs[..i]), recs[i], trace[i + 1]);
  }

  /** The invariant holds all along the stream. */
  lemma {:induction false} TraceSteady<R>(cfg: Config<R>, recs: seq<Record<R>>, trace: seq<State>, n: nat)
    requires Traced(cfg, recs, trace) && n <= |recs|
    ensures Steady(cfg, trace[n], Placement(cfg, recs[..n]))
  {
    if n > 0 {
      TraceSteady(cfg, recs, trace, n - 1);
      LinkedSteady(cfg, recs, trace, n - 1);
    }
  }

  lemma {:induction false} FinishLayout<R>(cfg: Config<R>, s: State, ps: seq<Placed<R>>)
    requires InRange(cfg, s) && Inv(cfg, s, ps) && Tight(s, ps) && s.extra == OnlineCount(ps)
    ensures Finish(cfg, s).members == Layout(cfg, ps, |cfg.metas|)
    decreases |cfg.metas| - s.next
  {
    if s.active.Some? { FinishIdle(cfg, s, ps, s.active.value); }
    var t := if s.active.Some? then FinishActive(cfg, s) else s;
    if t.next < |cfg.metas| {
      OpenActive(cfg, t, ps);
      FinishLayout(cfg, OpenNext(t), ps);
    }
  }

  /** Whatever stream of records the writer takes without an error, it has written exactly the
      layout: for each archive with an accepted record one member, holding one row for each of its
      indexes that is not ignored, in index order. */
  lemma {:induction false} WritesLayout<R>(cfg: Config<R>, recs: seq<Record<R>>, trace: seq<State>)
    requires Traced(cfg, recs, trace)
    ensures InRange(cfg, trace[|recs|])
    ensures Finish(cfg, trace[|recs|]).members == Layout(cfg, Placement(cfg, recs), |cfg.metas|)
  {
    TraceSteady(cfg, recs, trace, |recs|);
    assert recs[..|recs|] == recs;
    FinishLayout(cfg, trace[|recs|], Placement(cfg, recs));
  }

  // ---------------------------------------------------------------- rows and statistics

  function Counted<R>(cfg: Config<R>, a: nat, n: int): nat
    requires a < |cfg.metas|
    decreases n
  {
    if n <= 0 then 0 else Counted(cfg, a, n - 1) + if cfg.ignored(a, n - 1) then 0 else 1
  }

  /** Rows are positional: there is one for each index that is not ignored, and the row of index i
      stands after those of the smaller indexes. */
  lemma {:induction false} RowsArePositional<R>(cfg: Config<R>, ps: seq<Placed<R>>, a: nat, n: int, i: int)
    requires a < |cfg.metas| && 0 <= i < n
    ensures |Rows(cfg, ps, a, n)| == Counted(cfg, a, n)
    ensures !cfg.ignored(a, i) ==>
      Counted(cfg, a, i) < Counted(cfg, a, n) && Rows(cfg, ps, a, n)[Counted(cfg, a, i)] == RowAt(cfg, ps, a, i)[0]
    decreases n
  {
    RowCount(cfg, ps, a, n - 1);
    if i < n - 1 { RowsArePositional(cfg, ps, a, n - 1, i); }
  }

  lemma {:induction false} RowCount<R>(cfg: Config<R>, ps: seq<Placed<R>>, a: nat, n: int)
    requires a < |cfg.metas|
    ensures |Rows(cfg, ps, a, n)| == Counted(cfg, a, n)
    decreases n
  {
    if n > 0 { RowCount(cfg, ps, a, n - 1); }
  }

  /** The rows of the first k members. */
  function RowsIn(members: seq<Member>, k: nat): nat
    requires k <= |members|
  {
    if k == 0 then 0 else RowsIn(members, k - 1) + |members[k - 1].rows|
  }

  lemma {:induction false} RowsInPrefix(members: seq<Member>, m: Member, k: nat)
    requires k <= |members|
    ensures RowsIn(members + [m], k) == RowsIn(members, k)
  {
    if k > 0 { RowsInPrefix(members, m, k - 1); }
  }

  function OpenRows(s: State): nat { if s.rows.Some? then |s.rows.value| else 0 }

  /** Every row written is counted as a file, as a record or a dummy, and every record as one with
      or without database metadata. */
  ghost predicate Balanced(s: State) {
    && s.stats.files == s.stats.records + s.stats.dummy
    && s.stats.records == s.stats.dbRecords + s.stats.fb2Records
    && s.stats.files == RowsIn(s.members, |s.members|) + OpenRows(s)
    && s.stats.archives == |s.members|
  }

  lemma {:induction false} DummyCount(indexes: seq<int>)
    ensures |DummyRows(indexes)| == |indexes|
  {
    if indexes != [] { DummyCount(indexes[..|indexes| - 1]); }
  }

  lemma {:induction false} FillBalanced<R>(cfg: Config<R>, s: State, a: nat, end: int)
    requires Balanced(s)
    ensures Balanced(Fill(cfg, s, a, end))
    decreases end - s.index
  {
    if s.index < end {
      FillBalanced(cfg, FillOne(cfg, s, a), a, end);
    }
  }

  lemma {:induction false} FinishBalanced<R>(cfg: Config<R>, s: State)
    requires Balanced(s) && InRange(cfg, s) && s.active.Some?
    ensures Balanced(FinishActive(cfg, s))
  {
    var a := s.active.value;
    var t := Fill(cfg, s, a, Entries(cfg.metas, a, s.extra));
    FillBalanced(cfg, s, a, Entries(cfg.metas, a, s.extra));
    if t.rows.Some? {
      RowsInPrefix(t.members, Member(a, t.rows.value), |t.members|);
    }
  }

  lemma {:induction false} AdvanceBalanced<R>(cfg: Config<R>, s: State, target: nat)
    requires Balanced(s) && InRange(cfg, s) && target < |cfg.metas| && AdvanceTo(cfg, s, target).Ok?
    requires s.active.None? ==> s.rows.None?
    ensures Balanced(AdvanceTo(cfg, s, target).value)
    decreases |cfg.metas| - s.next
  {
    if s.active != Some(target) {
      FinishKeepsRange(cfg, s);
      if s.active.Some? { FinishBalanced(cfg, s); }
      var t := if s.active.Some? then FinishActive(cfg, s) else s;
      AdvanceBalanced(cfg, OpenNext(t), target);
    }
  }

  lemma {:induction false} WriteAtBalanced<R>(cfg: Config<R>, s: State, rec: Record<R>, index: int)
    requires Balanced(s) && WriteAt(cfg, s, rec, index).Ok?
    ensures Balanced(WriteAt(cfg, s, rec, index).value)
  {
    DummyCount(s.pending);
  }

  /** Between records no member is open unless an archive is. */
  ghost predicate Sound(s: State) { Balanced(s) && (s.active.None? ==> s.rows.None?) }

  lemma {:induction false} SettleBalanced<R>(cfg: Config<R>, at: State, rec: Record<R>, t: Target)
    requires Balanced(at) && Settle(cfg, at, rec, t).Ok?
    ensures Balanced(Settle(cfg, at, rec, t).value)
  {
    FillBalanced(cfg, at, t.archive, t.index);
    if !cfg.ignored(t.archive, t.index) { WriteAtBalanced(cfg, Fill(cfg, at, t.archive, t.index), rec, t.index); }
  }

  lemma {:induction false} PlaceBalanced<R>(cfg: Config<R>, s: State, rec: Record<R>, t: Target)
    requires Sound(s) && InRange(cfg, s) && t.archive < |cfg.metas| && Place(cfg, s, rec, t).Ok?
    ensures Sound(Place(cfg, s, rec, t).value)
  {
    AdvanceBalanced(cfg, s.(extra := s.extra + if t.online then 1 else 0), t.archive);
    SettleBalanced(cfg, Arrive(cfg, s, t).value, rec, t);
    PlaceKeepsRange(cfg, s, rec, t);
  }

  lemma {:induction false} FinishAllBalanced<R>(cfg: Config<R>, s: State)
    requires Sound(s) && InRange(cfg, s)
    ensures Balanced(Finish(cfg, s)) && Finish(cfg, s).rows.None?
    decreases |cfg.metas| - s.next
  {
    FinishKeepsRange(cfg, s);
    if s.active.Some? { FinishBalanced(cfg, s); }
    var t := if s.active.Some? then FinishActive(cfg, s) else s;
    if t.next < |cfg.metas| { FinishAllBalanced(cfg, OpenNext(t)); }
  }

  lemma {:induction false} WriteBalanced<R>(cfg: Config<R>, s: State, rec: Record<R>, t: State)
    requires Sound(s) && InRange(cfg, s) && Write(cfg, s, rec) == Ok(t)
    ensures Sound(t)
  {
    if cfg.matches(rec).Keep? && TargetOf(cfg, s.extra, rec).value.Some? {
      PlaceBalanced(cfg, s, rec, TargetOf(cfg, s.extra, rec).value.value);
    }
  }

  lemma {:induction false} LinkedBalanced<R>(cfg: Config<R>, recs: seq<Record<R>>, trace: seq<State>, i: nat)
    requires Traced(cfg, recs, trace) && i < |recs| && Sound(trace[i])
    ensures Sound(trace[i + 1])
  {
    assert Linked(cfg, recs, trace, i);
    WriteBalanced(cfg, trace[i], recs[i], trace[i + 1]);
  }

  lemma {:induction false} StartIsSound()
    ensures Sound(START)
  {
  }

  lemma {:induction false} TraceBalanced<R>(cfg: Config<R>, recs: seq<Record<R>>, trace: seq<State>, n: nat)
    requires Traced(cfg, recs, trace) && n <= |recs|
    ensures Sound(trace[n])
  {
    if n == 0 {
      StartIsSound();
      assert trace[n] == START;
    } else {
      var m := n - 1;
      TraceBalanced(cfg, recs, trace, m);
      LinkedBalanced(cfg, recs, trace, m);
      assert trace[m + 1] == trace[n];
    }
  }

  /** The statistics of a finished run balance: files are the rows of all members and split into
      records and dummies, records into those with and without database metadata, archives are
      members. */
  lemma {:induction false} StatisticsBalance<R>(cfg: Config<R>, recs: seq<Record<R>>, trace: seq<State>)
    requires Traced(cfg, recs, trace)
    ensures InRange(cfg, trace[|recs|])
    ensures Balanced(Finish(cfg, trace[|recs|])) && Finish(cfg, trace[|recs|]).rows.None?
  {
    TraceSteady(cfg, recs, trace, |recs|);
    TraceBalanced(cfg, recs, trace, |recs|);
    FinishAllBalanced(cfg, trace[|recs|]);
  }

  // ---------------------------------------------------------------- what a row is

  lemma {:induction false} LookupIs<R>(ps: seq<Placed<R>>, a: nat, i: int)
    ensures Lookup(ps, a, i).None? ==> forall k :: 0 <= k < |ps| ==> !At(ps[k], a, i)
    ensures Lookup(ps, a, i).Some? ==>
      exists k :: 0 <= k < |ps| && At(ps[k], a, i) && Lookup(ps, a, i).value == ps[k].rec
                  && forall j :: 0 <= j < k ==> !At(ps[j], a, i)
  {
    if ps != [] {
      var n := |ps| - 1;
      LookupIs(ps[..n], a, i);
      if Lookup(ps[..n], a, i).Some? {
        var k :| 0 <= k < n && At(ps[..n][k], a, i) && Lookup(ps, a, i).value == ps[..n][k].rec
                 && forall j :: 0 <= j < k ==> !At(ps[..n][j], a, i);
        assert At(ps[k], a, i);
        forall j | 0 <= j < k ensures !At(ps[j], a, i) { assert !At(ps[..n][j], a, i); }
      } else {
        forall k | 0 <= k < n ensures !At(ps[k], a, i) { assert !At(ps[..n][k], a, i); }
      }
    }
  }

  /** The row of an index that is not ignored: the line of the first record placed there, if it renders to one, and
      otherwise a dummy with the number of the entry, counted from 1. */
  lemma {:induction false} RowIs<R>(cfg: Config<R>, ps: seq<Placed<R>>, a: nat, i: int)
    requires a < |cfg.metas| && !cfg.ignored(a, i)
    ensures |RowAt(cfg, ps, a, i)| == 1
    ensures var row := RowAt(cfg, ps, a, i)[0];
            if exists k :: 0 <= k < |ps| && At(ps[k], a, i) then
              exists k :: 0 <= k < |ps| && At(ps[k], a, i) && (forall j :: 0 <= j < k ==> !At(ps[j], a, i))
                          && row == match cfg.render(ps[k].rec) case Line(text, _) => Text(text) case _ => Dummy(i + 1)
            else row == Dummy(i + 1)
  {
    LookupIs(ps, a, i);
  }
}
