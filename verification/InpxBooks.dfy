/** Streams ordered by database book id. Their records have no place in an archive: the writer appends those it keeps to
    the online archive, the map-based loader appends all of them. */
module InpxBooks {
  import opened Wrappers
  import opened InpxWriter
  import opened InpxLayout
  import opened InpxOrder
  import opened InpxStreams
  import opened InpxLoader

  ghost predicate Books<R>(recs: seq<Record<R>>) { forall i :: 0 <= i < |recs| ==> recs[i].kind != ARCHIVE_ENTRY }

  /** What the validator accepts as ordered by book id. */
  lemma {:induction false} OrderedAreBooks<R>(source: string, recs: seq<Record<R>>)
    requires BooksInOrder(source, recs)
    ensures Books(recs)
  {
    forall i | 0 <= i < |recs| ensures recs[i].kind != ARCHIVE_ENTRY {
      assert BookOf(source, recs[i]).Ok?;
    }
  }

  // ---------------------------------------------------------------- where they go

  /** Kept records stand one after another at the end of archive a. */
  ghost predicate Appended<R>(cfg: Config<R>, ps: seq<Placed<R>>, a: nat)
    requires a < |cfg.metas|
  {
    && (forall k :: 0 <= k < |ps| ==> ps[k].target == Target(a, cfg.metas[a].entries + k, true))
    && OnlineCount(ps) == |ps|
  }

  lemma {:induction false} AppendedMore<R>(cfg: Config<R>, ps: seq<Placed<R>>, a: nat, rec: Record<R>)
    requires Find(cfg.metas, ONLINE) == Some(a) && Appended(cfg, ps, a) && rec.kind != ARCHIVE_ENTRY
    ensures var t := Target(a, cfg.metas[a].entries + |ps|, true);
            && PlaceOne(cfg, ps, rec) == (if cfg.matches(rec).Keep? then [Placed(t, rec)] else [])
            && TargetOf(cfg, |ps|, rec) == Ok(Some(t))
    ensures Appended(cfg, ps + PlaceOne(cfg, ps, rec), a)
  {
    var all := ps + PlaceOne(cfg, ps, rec);
    if cfg.matches(rec).Keep? {
      assert all[..|all| - 1] == ps;
    } else {
      assert all == ps;
    }
  }

  lemma {:induction false} BooksAreAppended<R>(cfg: Config<R>, recs: seq<Record<R>>, a: nat)
    requires Books(recs) && Find(cfg.metas, ONLINE) == Some(a)
    ensures Appended(cfg, Placement(cfg, recs), a)
  {
    if recs != [] {
      BooksAreAppended(cfg, recs[..|recs| - 1], a);
      AppendedMore(cfg, Placement(cfg, recs[..|recs| - 1]), a, recs[|recs| - 1]);
    }
  }

  lemma {:induction false} BooksAreDropped<R>(cfg: Config<R>, recs: seq<Record<R>>)
    requires Books(recs) && Find(cfg.metas, ONLINE).None?
    ensures Placement(cfg, recs) == []
  {
    if recs != [] { BooksAreDropped(cfg, recs[..|recs| - 1]); }
  }

  // ---------------------------------------------------------------- when they are written

  /** The writer has appended the kept records so far. */
  ghost predicate AtEnd<R>(cfg: Config<R>, s: State, ps: seq<Placed<R>>, a: nat)
    requires a < |cfg.metas|
  {
    && InRange(cfg, s) && Appended(cfg, ps, a) && s.extra == |ps|
    && (if ps == [] then s == START else s.active == Some(a) && s.index == cfg.metas[a].entries + |ps|)
  }

  lemma {:induction false} ArriveOnline<R>(cfg: Config<R>, s: State, ps: seq<Placed<R>>, a: nat)
    requires a < |cfg.metas| && AtEnd(cfg, s, ps, a)
    ensures var t := Target(a, cfg.metas[a].entries + |ps|, true);
            && Arrive(cfg, s, t).Ok? && Arrive(cfg, s, t).value.extra == |ps| + 1
            && Arrive(cfg, s, t).value.index == (if ps == [] then 0 else t.index)
  {
    var more := s.(extra := s.extra + 1);
    if ps == [] {
      AdvanceSucceeds(cfg, more, a);
      AdvanceKeepsExtra(cfg, more, a);
    }
  }

  lemma {:induction false} AdvanceKeepsExtra<R>(cfg: Config<R>, s: State, target: nat)
    requires InRange(cfg, s) && target < |cfg.metas| && AdvanceTo(cfg, s, target).Ok?
    ensures AdvanceTo(cfg, s, target).value.extra == s.extra
    decreases |cfg.metas| - s.next
  {
    if s.active != Some(target) {
      FinishKeepsRange(cfg, s);
      var t := if s.active.Some? then FinishActive(cfg, s) else s;
      AdvanceKeepsExtra(cfg, OpenNext(t), target);
    }
  }

  /** A kept record is written unless it is the first one and the archive claims a negative number of entries. */
  lemma {:induction false} AppendIff<R>(cfg: Config<R>, s: State, ps: seq<Placed<R>>, a: nat, rec: Record<R>)
    requires a < |cfg.metas| && AtEnd(cfg, s, ps, a) && cfg.render(rec) != Failed
    ensures var t := Target(a, cfg.metas[a].entries + |ps|, true); var r := Place(cfg, s, rec, t);
            && (r.Ok? <==> ps != [] || cfg.metas[a].entries >= 0)
            && (r.Ok? ==> r.value.active == Some(a) && r.value.index == t.index + 1 && r.value.extra == |ps| + 1)
  {
    hide Arrive, Settle;
    var t := Target(a, cfg.metas[a].entries + |ps|, true);
    ArriveOnline(cfg, s, ps, a);
    var at := Arrive(cfg, s, t).value;
    SettleSucceeds(cfg, at, rec, t);
    if Settle(cfg, at, rec, t).Ok? {
      SettleKeeps(cfg, at, rec, t);
    }
  }

  lemma {:induction false} BookStep<R>(cfg: Config<R>, s: State, ps: seq<Placed<R>>, a: nat, rec: Record<R>)
    requires Find(cfg.metas, ONLINE) == Some(a) && AtEnd(cfg, s, ps, a) && rec.kind != ARCHIVE_ENTRY
    requires cfg.matches(rec) != Unreadable && cfg.render(rec) != Failed
    ensures var all := ps + PlaceOne(cfg, ps, rec); var r := Write(cfg, s, rec);
            && (r.Ok? <==> all == [] || ps != [] || cfg.metas[a].entries >= 0)
            && (r.Ok? ==> AtEnd(cfg, r.value, all, a))
  {
    hide Place;
    AppendedMore(cfg, ps, a, rec);
    if cfg.matches(rec).Keep? {
      AppendIff(cfg, s, ps, a, rec);
    } else {
      assert ps + PlaceOne(cfg, ps, rec) == ps;
    }
  }

  /** Nothing is kept, or the online archive claims no negative number of entries. */
  ghost predicate Appendable<R>(cfg: Config<R>, recs: seq<Record<R>>, a: nat)
    requires a < |cfg.metas|
  {
    Placement(cfg, recs) == [] || cfg.metas[a].entries >= 0
  }

  lemma {:induction false} PlacementNext<R>(cfg: Config<R>, recs: seq<Record<R>>, n: nat)
    requires n < |recs|
    ensures Placement(cfg, recs[..n + 1])
         == Placement(cfg, recs[..n]) + PlaceOne(cfg, Placement(cfg, recs[..n]), recs[n])
  {
    assert recs[..n + 1][..n] == recs[..n];
  }

  lemma {:induction false} StartIsEnd<R>(cfg: Config<R>, recs: seq<Record<R>>, a: nat)
    requires a < |cfg.metas|
    ensures Placement(cfg, recs[..0]) == []
    ensures Traced(cfg, recs[..0], [START]) && AtEnd(cfg, START, Placement(cfg, recs[..0]), a)
  {
  }

  lemma {:induction false} WrittenIsAppendable<R>(cfg: Config<R>, recs: seq<Record<R>>, a: nat, trace: seq<State>,
      n: nat)
    requires Books(recs) && Total(cfg, recs) && Find(cfg.metas, ONLINE) == Some(a)
    requires Traced(cfg, recs, trace) && n <= |recs|
    ensures AtEnd(cfg, trace[n], Placement(cfg, recs[..n]), a) && Appendable(cfg, recs[..n], a)
  {
    hide Appended, PlaceOne, Placement, Write;
    if n == 0 {
      StartIsEnd(cfg, recs, a);
    } else {
      WrittenIsAppendable(cfg, recs, a, trace, n - 1);
      assert Linked(cfg, recs, trace, n - 1);
      PlacementNext(cfg, recs, n - 1);
      BookStep(cfg, trace[n - 1], Placement(cfg, recs[..n - 1]), a, recs[n - 1]);
    }
  }

  lemma {:induction false} AppendableIsWritten<R>(cfg: Config<R>, recs: seq<Record<R>>, a: nat, n: nat)
    returns (trace: seq<State>)
    requires Books(recs) && Total(cfg, recs) && Find(cfg.metas, ONLINE) == Some(a) && n <= |recs|
    requires Appendable(cfg, recs[..n], a)
    ensures Traced(cfg, recs[..n], trace) && AtEnd(cfg, trace[n], Placement(cfg, recs[..n]), a)
  {
    hide Appended, PlaceOne, Placement, Write;
    if n == 0 {
      StartIsEnd(cfg, recs, a);
      trace := [START];
    } else {
      PlacementNext(cfg, recs, n - 1);
      trace := AppendableIsWritten(cfg, recs, a, n - 1);
      BookStep(cfg, trace[n - 1], Placement(cfg, recs[..n - 1]), a, recs[n - 1]);
      var s := Write(cfg, trace[n - 1], recs[n - 1]).value;
      TraceGrows(cfg, recs, trace, n - 1, s);
      trace := trace + [s];
    }
  }

  lemma {:induction false} DroppedAreWritten<R>(cfg: Config<R>, recs: seq<Record<R>>, n: nat)
    returns (trace: seq<State>)
    requires Books(recs) && Total(cfg, recs) && Find(cfg.metas, ONLINE).None? && n <= |recs|
    ensures Traced(cfg, recs[..n], trace) && trace[n] == START
  {
    if n == 0 {
      trace := [START];
    } else {
      trace := DroppedAreWritten(cfg, recs, n - 1);
      TraceGrows(cfg, recs, trace, n - 1, START);
      trace := trace + [START];
    }
  }

  /** The entries the header claims for the online archive. */
  function OnlineEntries<R>(cfg: Config<R>): int {
    match Find(cfg.metas, ONLINE)
    case None => 0
    case Some(a) => cfg.metas[a].entries
  }

  /** A stream of books is written to the end, without any of the writer's order errors, exactly when no record is kept
      or the online archive claims no negative number of entries: in whatever order the ids come. */
  lemma {:induction false} BooksWrittenIff<R>(cfg: Config<R>, recs: seq<Record<R>>)
    requires Books(recs) && Total(cfg, recs)
    ensures (exists trace :: Traced(cfg, recs, trace))
       <==> Placement(cfg, recs) == [] || OnlineEntries(cfg) >= 0
  {
    assert recs[..|recs|] == recs;
    match Find(cfg.metas, ONLINE)
    case None =>
      BooksAreDropped(cfg, recs);
      var trace := DroppedAreWritten(cfg, recs, |recs|);
      assert Traced(cfg, recs, trace);
    case Some(a) =>
      if Appendable(cfg, recs, a) {
        var trace := AppendableIsWritten(cfg, recs, a, |recs|);
        assert Traced(cfg, recs, trace);
      }
      if trace :| Traced(cfg, recs, trace) {
        WrittenIsAppendable(cfg, recs, a, trace, |recs|);
      }
  }

  // ---------------------------------------------------------------- against the loader

  ghost predicate AllKept<R>(cfg: Config<R>, recs: seq<Record<R>>) {
    forall i :: 0 <= i < |recs| ==> cfg.matches(recs[i]).Keep?
  }

  lemma {:induction false} AddBook<R>(metas: seq<Meta>, l: Loaded<R>, rec: Record<R>, a: nat)
    requires |l.records| == |metas| && Find(metas, ONLINE) == Some(a) && rec.kind != ARCHIVE_ENTRY
    ensures Add(metas, l, rec)
         == Ok(Loaded(l.records[a := l.records[a][metas[a].entries + l.extra := rec]], l.extra + 1))
  {
  }

  /** The loader appends every record, kept or not. */
  lemma {:induction false} BooksLoaded<R>(cfg: Config<R>, recs: seq<Record<R>>, a: nat)
    requires Books(recs) && Find(cfg.metas, ONLINE) == Some(a)
    ensures Load(cfg.metas, recs).Ok?
    ensures var l := Load(cfg.metas, recs).value; var first := cfg.metas[a].entries;
            && l.extra == |recs|
            && (forall b :: 0 <= b < |cfg.metas| && b != a ==> l.records[b] == map[])
            && (forall i :: i in l.records[a] <==> first <= i < first + |recs|)
            && (forall i :: first <= i < first + |recs| ==> l.records[a][i] == recs[i - first])
  {
    hide Add;
    if recs != [] {
      var n := |recs| - 1;
      BooksLoaded(cfg, recs[..n], a);
      AddBook(cfg.metas, Load(cfg.metas, recs[..n]).value, recs[n], a);
    }
  }

  lemma {:induction false} LookupAppended<R>(cfg: Config<R>, ps: seq<Placed<R>>, a: nat, b: nat, i: int)
    requires a < |cfg.metas| && Appended(cfg, ps, a)
    ensures var first := cfg.metas[a].entries;
            Lookup(ps, b, i) == if b == a && first <= i < first + |ps| then Some(ps[i - first].rec) else None
    ensures Last(ps, a) == if ps == [] then 0 else cfg.metas[a].entries + |ps|
  {
    if ps != [] {
      assert forall k :: 0 <= k < |ps| - 1 ==> ps[..|ps| - 1][k] == ps[k];
      LookupAppended(cfg, ps[..|ps| - 1], a, b, i);
    }
  }

  lemma {:induction false} AllKeptMore<R>(cfg: Config<R>, recs: seq<Record<R>>)
    requires recs != []
    ensures AllKept(cfg, recs) <==> AllKept(cfg, recs[..|recs| - 1]) && cfg.matches(recs[|recs| - 1]).Keep?
  {
    var p := recs[..|recs| - 1];
    if AllKept(cfg, p) && cfg.matches(recs[|p|]).Keep? {
      forall i | 0 <= i < |recs| ensures cfg.matches(recs[i]).Keep? {
        if i < |p| { assert recs[i] == p[i]; }
      }
    }
    if AllKept(cfg, recs) {
      forall i | 0 <= i < |p| ensures cfg.matches(p[i]).Keep? { assert p[i] == recs[i]; }
    }
  }

  lemma {:induction false} LastPlacement<R>(cfg: Config<R>, recs: seq<Record<R>>, a: nat)
    requires Books(recs) && Find(cfg.metas, ONLINE) == Some(a) && recs != []
    ensures var n := |recs| - 1;
            var ps := Placement(cfg, recs[..n]);
            var t := Target(a, cfg.metas[a].entries + |ps|, true);
            Placement(cfg, recs) == ps + (if cfg.matches(recs[n]).Keep? then [Placed(t, recs[n])] else [])
  {
    hide PlaceOne, Appended;
    var n := |recs| - 1;
    BooksAreAppended(cfg, recs[..n], a);
    AppendedMore(cfg, Placement(cfg, recs[..n]), a, recs[n]);
  }

  lemma {:induction false} KeptAreCounted<R>(cfg: Config<R>, recs: seq<Record<R>>, a: nat)
    requires Books(recs) && Find(cfg.metas, ONLINE) == Some(a)
    ensures |Placement(cfg, recs)| <= |recs|
    ensures |Placement(cfg, recs)| == |recs| <==> AllKept(cfg, recs)
  {
    hide Placement, AllKept;
    if recs == [] {
      NoneToKeep(cfg, recs);
    } else {
      KeptAreCounted(cfg, recs[..|recs| - 1], a);
      AllKeptMore(cfg, recs);
      LastPlacement(cfg, recs, a);
    }
  }

  lemma {:induction false} NoneToKeep<R>(cfg: Config<R>, recs: seq<Record<R>>)
    requires recs == []
    ensures Placement(cfg, recs) == [] && AllKept(cfg, recs)
  {
  }

  lemma {:induction false} KeptInOrder<R>(cfg: Config<R>, recs: seq<Record<R>>, a: nat, k: nat)
    requires Books(recs) && Find(cfg.metas, ONLINE) == Some(a) && AllKept(cfg, recs) && k < |recs|
    ensures |Placement(cfg, recs)| == |recs| && Placement(cfg, recs)[k].rec == recs[k]
  {
    hide Placement;
    KeptAreCounted(cfg, recs, a);
    var n := |recs| - 1;
    KeptAreCounted(cfg, recs[..n], a);
    AllKeptMore(cfg, recs);
    LastPlacement(cfg, recs, a);
    if k < n { KeptInOrder(cfg, recs[..n], a, k); }
  }

  // ---------------------------------------------------------------- the layouts

  lemma {:induction false} SameLookups<R>(cfg: Config<R>, recs: seq<Record<R>>, a: nat, b: nat, i: int)
    requires Books(recs) && Find(cfg.metas, ONLINE) == Some(a) && AllKept(cfg, recs) && b < |cfg.metas|
    ensures Load(cfg.metas, recs).Ok?
    ensures Lookup(Placement(cfg, recs), b, i) == Kept(cfg, Load(cfg.metas, recs).value, b, i)
  {
    hide Placement, Load;
    BooksLoaded(cfg, recs, a);
    KeptAreCounted(cfg, recs, a);
    BooksAreAppended(cfg, recs, a);
    LookupAppended(cfg, Placement(cfg, recs), a, b, i);
    var k := i - cfg.metas[a].entries;
    if b == a && 0 <= k < |recs| { KeptInOrder(cfg, recs, a, k); }
  }

  lemma {:induction false} SameAcceptance<R>(cfg: Config<R>, ps: seq<Placed<R>>, l: Loaded<R>, b: nat)
    requires b < |cfg.metas| == |l.records| && forall i :: Lookup(ps, b, i) == Kept(cfg, l, b, i)
    ensures MapAccepted(cfg, l, b) <==> Accepted(cfg, ps, b)
  {
    if Accepted(cfg, ps, b) {
      var k :| 0 <= k < |ps| && Accepts(cfg, ps[k], b);
      assert At(ps[k], b, ps[k].target.index);
      LookupIsPlaced(ps, b, ps[k].target.index);
      assert Kept(cfg, l, b, ps[k].target.index).Some?;
    }
    if MapAccepted(cfg, l, b) {
      var i :| Kept(cfg, l, b, i).Some? && !cfg.ignored(b, i);
      LookupIsPlaced(ps, b, i);
      var k :| 0 <= k < |ps| && At(ps[k], b, i);
      assert Accepts(cfg, ps[k], b);
    }
  }

  /** Where every record is kept the members are those laid out from the loader's maps. */
  lemma {:induction false} SameMembers<R>(cfg: Config<R>, recs: seq<Record<R>>, a: nat, b: nat)
    requires Books(recs) && Find(cfg.metas, ONLINE) == Some(a) && AllKept(cfg, recs) && b < |cfg.metas|
    requires Load(cfg.metas, recs).Ok? && cfg.metas[a].entries >= 0
    ensures MemberOf(cfg, Placement(cfg, recs), b) == MapMember(cfg, Load(cfg.metas, recs).value, b)
  {
    hide Placement, Load, Rows, MapRows, Kept, Lookup;
    var ps, l := Placement(cfg, recs), Load(cfg.metas, recs).value;
    forall i ensures Lookup(ps, b, i) == Kept(cfg, l, b, i) { SameLookups(cfg, recs, a, b, i); }
    SameAcceptance(cfg, ps, l, b);
    BooksLoaded(cfg, recs, a);
    KeptAreCounted(cfg, recs, a);
    BooksAreAppended(cfg, recs, a);
    LookupAppended(cfg, ps, a, b, 0);
    RowsOfLookups(cfg, ps, l, b, Entries(cfg.metas, b, l.extra));
  }

  lemma {:induction false} SameLayouts<R>(cfg: Config<R>, recs: seq<Record<R>>, a: nat, k: nat)
    requires Books(recs) && Find(cfg.metas, ONLINE) == Some(a) && AllKept(cfg, recs) && k <= |cfg.metas|
    requires Load(cfg.metas, recs).Ok? && cfg.metas[a].entries >= 0
    ensures Layout(cfg, Placement(cfg, recs), k) == MapLayout(cfg, Load(cfg.metas, recs).value, k)
  {
    hide Placement, Load, MemberOf, MapMember;
    if k > 0 {
      SameLayouts(cfg, recs, a, k - 1);
      SameMembers(cfg, recs, a, k - 1);
    }
  }

  lemma {:induction false} NothingKept<R>(cfg: Config<R>, recs: seq<Record<R>>, a: nat)
    requires Books(recs) && Find(cfg.metas, ONLINE) == Some(a) && Placement(cfg, recs) == []
    ensures forall i :: 0 <= i < |recs| ==> !cfg.matches(recs[i]).Keep?
  {
    hide Placement;
    if recs != [] {
      LastPlacement(cfg, recs, a);
      NothingKept(cfg, recs[..|recs| - 1], a);
      assert forall i :: 0 <= i < |recs| - 1 ==> recs[..|recs| - 1][i] == recs[i];
    }
  }

  lemma {:induction false} SomethingKept<R>(cfg: Config<R>, recs: seq<Record<R>>, a: nat) returns (i: nat)
    requires Books(recs) && Find(cfg.metas, ONLINE) == Some(a) && Placement(cfg, recs) != []
    ensures i < |recs| && cfg.matches(recs[i]).Keep?
  {
    i := |recs| - 1;
    if !cfg.matches(recs[i]).Keep? { i := SomethingKept(cfg, recs[..i], a); }
  }

  /** The numbers of rows depend on what is ignored only. */
  lemma {:induction false} SameCounts<R>(cfg: Config<R>, ps: seq<Placed<R>>, l: Loaded<R>, a: nat, n: int)
    requires a < |l.records| == |cfg.metas|
    ensures |MapRows(cfg, l, a, n)| == |Rows(cfg, ps, a, n)|
    decreases n
  {
    if n > 0 { SameCounts(cfg, ps, l, a, n - 1); }
  }

  lemma {:induction false} NoMember<R>(cfg: Config<R>, ps: seq<Placed<R>>, l: Loaded<R>, b: nat)
    requires b < |cfg.metas| == |l.records| && forall k :: 0 <= k < |ps| ==> ps[k].target.archive != b
    requires forall i :: Kept(cfg, l, b, i).None?
    ensures MemberOf(cfg, ps, b) == [] && MapMember(cfg, l, b) == []
  {
  }

  lemma {:induction false} OthersHaveNone<R>(cfg: Config<R>, ps: seq<Placed<R>>, l: Loaded<R>, a: nat, b: nat)
    requires a < |cfg.metas| && Appended(cfg, ps, a) && b < |cfg.metas| == |l.records| && b != a
             && l.records[b] == map[]
    ensures MemberOf(cfg, ps, b) == [] && MapMember(cfg, l, b) == []
  {
    hide MemberOf, MapMember;
    NoMember(cfg, ps, l, b);
  }

  lemma {:induction false} WithNothing<T>(s: seq<T>)
    ensures s + [] == s && [] + s == s
  {
  }

  lemma {:induction false} LayoutOfOne<R>(cfg: Config<R>, ps: seq<Placed<R>>, a: nat, k: nat)
    requires a < |cfg.metas| && k <= |cfg.metas|
    requires forall b :: 0 <= b < k && b != a ==> MemberOf(cfg, ps, b) == []
    ensures Layout(cfg, ps, k) == if a < k then MemberOf(cfg, ps, a) else []
  {
    hide MemberOf;
    if k > 0 {
      LayoutOfOne(cfg, ps, a, k - 1);
      WithNothing(if k - 1 == a then MemberOf(cfg, ps, a) else Layout(cfg, ps, k - 1));
    }
  }

  lemma {:induction false} MapLayoutOfOne<R>(cfg: Config<R>, l: Loaded<R>, a: nat, k: nat)
    requires a < |cfg.metas| == |l.records| && k <= |cfg.metas|
    requires forall b :: 0 <= b < k && b != a ==> MapMember(cfg, l, b) == []
    ensures MapLayout(cfg, l, k) == if a < k then MapMember(cfg, l, a) else []
  {
    hide MapMember;
    if k > 0 {
      MapLayoutOfOne(cfg, l, a, k - 1);
      WithNothing(if k - 1 == a then MapMember(cfg, l, a) else MapLayout(cfg, l, k - 1));
    }
  }

  /** Archives other than the online one have no members on either side. */
  lemma {:induction false} OnlyOnline<R>(cfg: Config<R>, ps: seq<Placed<R>>, l: Loaded<R>, a: nat, k: nat)
    requires a < |cfg.metas| && Appended(cfg, ps, a) && |l.records| == |cfg.metas| && k <= |cfg.metas|
    requires forall b :: 0 <= b < |cfg.metas| && b != a ==> l.records[b] == map[]
    ensures Layout(cfg, ps, k) == if a < k then MemberOf(cfg, ps, a) else []
    ensures MapLayout(cfg, l, k) == if a < k then MapMember(cfg, l, a) else []
  {
    hide Appended, MemberOf, MapMember, Layout, MapLayout;
    forall b | 0 <= b < k && b != a ensures MemberOf(cfg, ps, b) == [] && MapMember(cfg, l, b) == [] {
      OthersHaveNone(cfg, ps, l, a, b);
    }
    LayoutOfOne(cfg, ps, a, k);
    MapLayoutOfOne(cfg, l, a, k);
  }

  /** None of the first n indexes behind the entries of archive a is ignored. */
  ghost predicate Counts<R>(cfg: Config<R>, a: nat, n: nat)
    requires a < |cfg.metas|
  {
    forall i :: cfg.metas[a].entries <= i < cfg.metas[a].entries + n ==> !cfg.ignored(a, i)
  }

  /** A record that is not kept makes the loader's rows more than the writer's. */
  lemma {:induction false} MembersDiffer<R>(cfg: Config<R>, recs: seq<Record<R>>, a: nat)
    requires Books(recs) && Find(cfg.metas, ONLINE) == Some(a) && cfg.metas[a].entries >= 0
    requires Placement(cfg, recs) != [] && !AllKept(cfg, recs) && Load(cfg.metas, recs).Ok?
    requires Counts(cfg, a, |recs|)
    ensures MemberOf(cfg, Placement(cfg, recs), a) != MapMember(cfg, Load(cfg.metas, recs).value, a)
  {
    hide Placement, Load, Rows, MapRows, AllKept;
    var ps, l, first := Placement(cfg, recs), Load(cfg.metas, recs).value, cfg.metas[a].entries;
    BooksLoaded(cfg, recs, a);
    KeptAreCounted(cfg, recs, a);
    BooksAreAppended(cfg, recs, a);
    LookupAppended(cfg, ps, a, a, 0);
    var i := SomethingKept(cfg, recs, a);
    assert l.records[a][first + i] == recs[i];
    assert !cfg.ignored(a, first + i);
    assert Kept(cfg, l, a, first + i).Some?;
    assert MapAccepted(cfg, l, a);
    RowsStretch(cfg, ps, a, first + |ps|, first + |recs|);
    assert !cfg.ignored(a, first + |ps|);
    SameCounts(cfg, ps, l, a, first + |recs|);
  }

  lemma {:induction false} NothingFound<R>(cfg: Config<R>, recs: seq<Record<R>>, a: nat, b: nat, i: int)
    requires Books(recs) && Find(cfg.metas, ONLINE) == Some(a) && Placement(cfg, recs) == [] && b < |cfg.metas|
    ensures Load(cfg.metas, recs).Ok? && Kept(cfg, Load(cfg.metas, recs).value, b, i).None?
  {
    hide Load, Placement;
    NothingKept(cfg, recs, a);
    BooksLoaded(cfg, recs, a);
  }

  lemma {:induction false} NothingLaidOut<R>(cfg: Config<R>, l: Loaded<R>, k: nat)
    requires k <= |cfg.metas| == |l.records|
    requires forall b, i :: 0 <= b < |cfg.metas| ==> Kept(cfg, l, b, i).None?
    ensures Layout(cfg, [], k) == [] && MapLayout(cfg, l, k) == []
  {
    hide Kept, MemberOf, MapMember;
    if k > 0 {
      NothingLaidOut(cfg, l, k - 1);
      NoMember(cfg, [], l, k - 1);
    }
  }

  /** A stream of books has the members laid out from the loader's maps if the filter keeps all records or none; and
      only
      then, unless indexes behind the entries of the online archive are ignored. */
  lemma {:induction false} BooksAgreeWithMaps<R>(cfg: Config<R>, recs: seq<Record<R>>, a: nat)
    returns (trace: seq<State>)
    requires Books(recs) && Total(cfg, recs) && Find(cfg.metas, ONLINE) == Some(a) && cfg.metas[a].entries >= 0
    ensures Traced(cfg, recs, trace) && InRange(cfg, trace[|recs|]) && Load(cfg.metas, recs).Ok?
    ensures var agree := Finish(cfg, trace[|recs|]).members == MapLayout(cfg, Load(cfg.metas, recs).value, |cfg.metas|);
            && (AllKept(cfg, recs) || Placement(cfg, recs) == [] ==> agree)
            && (Counts(cfg, a, |recs|) && agree ==> AllKept(cfg, recs) || Placement(cfg, recs) == [])
  {
    hide AllKept, Load, Placement, MapMember, MemberOf, Traced;
    assert recs[..|recs|] == recs;
    trace := AppendableIsWritten(cfg, recs, a, |recs|);
    WritesLayout(cfg, recs, trace);
    BooksLoaded(cfg, recs, a);
    if AllKept(cfg, recs) {
      SameLayouts(cfg, recs, a, |cfg.metas|);
    } else if Placement(cfg, recs) == [] {
      var l := Load(cfg.metas, recs).value;
      forall b, i | 0 <= b < |cfg.metas| ensures Kept(cfg, l, b, i).None? { NothingFound(cfg, recs, a, b, i); }
      NothingLaidOut(cfg, l, |cfg.metas|);
    } else {
      BooksAreAppended(cfg, recs, a);
      OnlyOnline(cfg, Placement(cfg, recs), Load(cfg.metas, recs).value, a, |cfg.metas|);
      if Counts(cfg, a, |recs|) { MembersDiffer(cfg, recs, a); }
    }
  }
}
