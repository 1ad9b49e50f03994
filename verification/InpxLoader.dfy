/** The map-based loader, and that streaming gives the same layout. */
module InpxLoader {
  import opened Wrappers
  import opened InpxWriter
  import opened InpxLayout
  import opened InpxOrder
  import opened InpxStreams

  /** `DatasetArchiveRows` of all archives: the records by index, and the growth of the online one. */
  datatype Loaded<R> = Loaded(records: seq<map<int, Record<R>>>, extra: nat)

  function NoRecords<R>(n: nat): (r: seq<map<int, Record<R>>>)
    ensures |r| == n && forall a :: 0 <= a < n ==> r[a] == map[]
  {
    if n == 0 then [] else NoRecords(n - 1) + [map[]]
  }

  /** `addDatasetRecord`: the first record at an index stays. */
  function Add<R>(metas: seq<Meta>, l: Loaded<R>, rec: Record<R>): (r: Result<Loaded<R>, Error>)
    requires |l.records| == |metas|
    ensures r.Ok? ==> |r.value.records| == |metas|
  {
    if rec.kind != ARCHIVE_ENTRY then
      match Find(metas, ONLINE)
      case None => Ok(l)
      case Some(a) => Ok(Loaded(l.records[a := l.records[a][Entries(metas, a, l.extra) := rec]], l.extra + 1))
    else if rec.index.None? then Err(NoIndex)
    else
      match Find(metas, rec.source)
      case None => Err(UnknownSource)
      case Some(a) =>
        if rec.index.value in l.records[a] then Ok(l)
        else Ok(l.(records := l.records[a := l.records[a][rec.index.value := rec]]))
  }

  function Load<R>(metas: seq<Meta>, recs: seq<Record<R>>): (r: Result<Loaded<R>, Error>)
    ensures r.Ok? ==> |r.value.records| == |metas|
  {
    if recs == [] then Ok(Loaded(NoRecords(|metas|), 0))
    else
      match Load(metas, recs[..|recs| - 1])
      case Err(e) => Err(e)
      case Ok(l) => Add(metas, l, recs[|recs| - 1])
  }

  class Loader<R> {
    const metas: seq<Meta>
    var records: seq<map<int, Record<R>>>
    var extra: nat

    constructor (metas: seq<Meta>)
      ensures this.metas == metas && Now() == Loaded(NoRecords(|metas|), 0)
    {
      this.metas := metas;
      records, extra := NoRecords(|metas|), 0;
    }

    function Now(): Loaded<R>
      reads this
    {
      Loaded(records, extra)
    }

    method AddDatasetRecord(rec: Record<R>) returns (r: Result<bool, Error>)
      requires |records| == |metas|
      modifies this
      ensures match Add(metas, old(Now()), rec)
              case Err(e) => r == Err(e) && Now() == old(Now())
              case Ok(l) => r.Ok? && Now() == l
    {
      if rec.kind != ARCHIVE_ENTRY {
        var online := Find(metas, ONLINE);
        if online.Some? {
          var idx := Entries(metas, online.value, extra);
          records := records[online.value := records[online.value][idx := rec]];
          extra := extra + 1;
        }
        return Ok(true);
      }
      if rec.index.None? { return Err(NoIndex); }
      var archive := Find(metas, rec.source);
      if archive.None? { return Err(UnknownSource); }
      var a := archive.value;
      if rec.index.value in records[a] { return Ok(true); }
      records := records[a := records[a][rec.index.value := rec]];
      return Ok(true);
    }
  }

  // ---------------------------------------------------------------- the same lookups

  /** The kept record the loader has at an index. */
  function Kept<R>(cfg: Config<R>, l: Loaded<R>, a: nat, i: int): Option<Record<R>>
    requires a < |l.records|
  {
    if i in l.records[a] && cfg.matches(l.records[a][i]).Keep? then Some(l.records[a][i]) else None
  }

  ghost predicate Holds<R>(cfg: Config<R>, recs: seq<Record<R>>, a: nat, i: int) {
    exists k :: 0 <= k < |recs| && OrderOf(cfg.metas, recs[k]) == Ok(Order(a, i))
  }

  /** No two records of the stream share a locator. */
  ghost predicate NoRepeats<R>(cfg: Config<R>, recs: seq<Record<R>>) {
    forall j, k :: 0 <= j < k < |recs| ==> OrderOf(cfg.metas, recs[j]) != OrderOf(cfg.metas, recs[k])
  }

  lemma {:induction false} AddAt<R>(cfg: Config<R>, l: Loaded<R>, rec: Record<R>, a: nat, i: int)
    requires |l.records| == |cfg.metas| && a < |cfg.metas| && ValidHeader(cfg.metas) && OrderOf(cfg.metas, rec).Ok?
    ensures Add(cfg.metas, l, rec).Ok?
    ensures var here := OrderOf(cfg.metas, rec).value == Order(a, i); var m := Add(cfg.metas, l, rec).value;
            && (!here ==> (i in m.records[a] <==> i in l.records[a])
                          && (i in l.records[a] ==> m.records[a][i] == l.records[a][i]))
            && (here && i !in l.records[a] ==> i in m.records[a] && m.records[a][i] == rec)
            && (here ==> i in m.records[a])
  {
  }

  lemma {:induction false} LookupOne<R>(cfg: Config<R>, ps: seq<Placed<R>>, rec: Record<R>, a: nat, i: int)
    requires ValidHeader(cfg.metas) && OrderOf(cfg.metas, rec).Ok? && a < |cfg.metas|
    ensures var here := OrderOf(cfg.metas, rec).value == Order(a, i); var all := ps + PlaceOne(cfg, ps, rec);
            && (!here ==> Lookup(all, a, i) == Lookup(ps, a, i))
            && (here && Lookup(ps, a, i).None? ==>
                  Lookup(all, a, i) == if cfg.matches(rec).Keep? then Some(rec) else None)
  {
    PlaceOneIs(cfg, ps, rec);
    if cfg.matches(rec).Keep? {
      OneMore(ps, PlaceOne(cfg, ps, rec)[0], a, i);
    } else {
      assert ps + [] == ps;
    }
  }

  lemma {:induction false} HoldsSnoc<R>(cfg: Config<R>, recs: seq<Record<R>>, a: nat, i: int)
    requires recs != []
    ensures Holds(cfg, recs, a, i)
       <==> Holds(cfg, recs[..|recs| - 1], a, i) || OrderOf(cfg.metas, recs[|recs| - 1]) == Ok(Order(a, i))
  {
    var p := recs[..|recs| - 1];
    if Holds(cfg, p, a, i) {
      var k :| 0 <= k < |p| && OrderOf(cfg.metas, p[k]) == Ok(Order(a, i));
      assert recs[k] == p[k];
    }
    if Holds(cfg, recs, a, i) {
      var k :| 0 <= k < |recs| && OrderOf(cfg.metas, recs[k]) == Ok(Order(a, i));
      if k < |p| { assert p[k] == recs[k]; }
    }
  }

  lemma {:induction false} LookupStep<R>(cfg: Config<R>, ps: seq<Placed<R>>, l: Loaded<R>, rec: Record<R>, a: nat,
      i: int)
    requires |l.records| == |cfg.metas| && a < |cfg.metas| && ValidHeader(cfg.metas) && OrderOf(cfg.metas, rec).Ok?
    requires Lookup(ps, a, i) == Kept(cfg, l, a, i)
    requires OrderOf(cfg.metas, rec).value == Order(a, i) ==> i !in l.records[a]
    ensures Add(cfg.metas, l, rec).Ok?
    ensures var m := Add(cfg.metas, l, rec).value;
            && Lookup(ps + PlaceOne(cfg, ps, rec), a, i) == Kept(cfg, m, a, i)
            && (i in m.records[a] <==> i in l.records[a] || OrderOf(cfg.metas, rec).value == Order(a, i))
  {
    AddAt(cfg, l, rec, a, i);
    LookupOne(cfg, ps, rec, a, i);
  }

  /** The loader and the stream find the same kept record at every place. */
  lemma {:induction false} SameLookup<R>(cfg: Config<R>, recs: seq<Record<R>>, a: nat, i: int)
    requires Validated(cfg, recs) && NoRepeats(cfg, recs) && a < |cfg.metas|
    ensures Load(cfg.metas, recs).Ok?
    ensures Lookup(Placement(cfg, recs), a, i) == Kept(cfg, Load(cfg.metas, recs).value, a, i)
    ensures i in Load(cfg.metas, recs).value.records[a] <==> Holds(cfg, recs, a, i)
  {
    if recs != [] {
      var n := |recs| - 1;
      ValidatedPrefix(cfg, recs, n);
      NoRepeatsPrefix(cfg, recs, n);
      SameLookup(cfg, recs[..n], a, i);
      HoldsSnoc(cfg, recs, a, i);
      NotHeld(cfg, recs, a, i);
      LookupStep(cfg, Placement(cfg, recs[..n]), Load(cfg.metas, recs[..n]).value, recs[n], a, i);
    }
  }

  lemma {:induction false} NoRepeatsPrefix<R>(cfg: Config<R>, recs: seq<Record<R>>, n: nat)
    requires NoRepeats(cfg, recs) && n <= |recs|
    ensures NoRepeats(cfg, recs[..n])
  {
    assert forall k :: 0 <= k < n ==> recs[..n][k] == recs[k];
  }

  lemma {:induction false} NotHeld<R>(cfg: Config<R>, recs: seq<Record<R>>, a: nat, i: int)
    requires recs != [] && NoRepeats(cfg, recs)
    ensures OrderOf(cfg.metas, recs[|recs| - 1]) == Ok(Order(a, i)) ==> !Holds(cfg, recs[..|recs| - 1], a, i)
  {
    var n := |recs| - 1;
    forall k | 0 <= k < n ensures OrderOf(cfg.metas, recs[..n][k]) != OrderOf(cfg.metas, recs[n]) {
      assert recs[..n][k] == recs[k];
    }
  }

  // ---------------------------------------------------------------- the same layout

  function MapRowAt<R>(cfg: Config<R>, l: Loaded<R>, a: nat, i: int): seq<Row>
    requires a < |l.records|
  {
    if cfg.ignored(a, i) then []
    else
      match Kept(cfg, l, a, i)
      case Some(rec) => [RowOf(cfg, rec, i)]
      case None => [Dummy(i + 1)]
  }

  /** The rows of an archive laid out from the loader's map: one for each entry not ignored. */
  function MapRows<R>(cfg: Config<R>, l: Loaded<R>, a: nat, n: int): seq<Row>
    requires a < |l.records|
    decreases n
  {
    if n <= 0 then [] else MapRows(cfg, l, a, n - 1) + MapRowAt(cfg, l, a, n - 1)
  }

  ghost predicate MapAccepted<R>(cfg: Config<R>, l: Loaded<R>, a: nat)
    requires a < |l.records|
  {
    exists i :: Kept(cfg, l, a, i).Some? && !cfg.ignored(a, i)
  }

  ghost function MapMember<R>(cfg: Config<R>, l: Loaded<R>, a: nat): seq<Member>
    requires a < |l.records| == |cfg.metas|
  {
    if MapAccepted(cfg, l, a) then [Member(a, MapRows(cfg, l, a, Entries(cfg.metas, a, l.extra)))] else []
  }

  /** The layout of the first k archives from the maps. */
  ghost function MapLayout<R>(cfg: Config<R>, l: Loaded<R>, k: nat): seq<Member>
    requires k <= |l.records| == |cfg.metas|
  {
    if k == 0 then [] else MapLayout(cfg, l, k - 1) + MapMember(cfg, l, k - 1)
  }

  lemma {:induction false} RowsOfLookups<R>(cfg: Config<R>, ps: seq<Placed<R>>, l: Loaded<R>, a: nat, n: int)
    requires a < |l.records| == |cfg.metas|
    requires forall i :: Lookup(ps, a, i) == Kept(cfg, l, a, i)
    ensures MapRows(cfg, l, a, n) == Rows(cfg, ps, a, n)
    decreases n
  {
    if n > 0 { RowsOfLookups(cfg, ps, l, a, n - 1); }
  }

  lemma {:induction false} SameRows<R>(cfg: Config<R>, recs: seq<Record<R>>, a: nat, n: int)
    requires Validated(cfg, recs) && NoRepeats(cfg, recs) && a < |cfg.metas| && Load(cfg.metas, recs).Ok?
    ensures MapRows(cfg, Load(cfg.metas, recs).value, a, n) == Rows(cfg, Placement(cfg, recs), a, n)
  {
    var ps, l := Placement(cfg, recs), Load(cfg.metas, recs).value;
    forall i ensures Lookup(ps, a, i) == Kept(cfg, l, a, i) { SameLookup(cfg, recs, a, i); }
    RowsOfLookups(cfg, ps, l, a, n);
  }

  lemma {:induction false} LookupIsPlaced<R>(ps: seq<Placed<R>>, a: nat, i: int)
    ensures Lookup(ps, a, i).Some? <==> exists k :: 0 <= k < |ps| && At(ps[k], a, i)
  {
    if ps != [] {
      var p := ps[..|ps| - 1];
      LookupIsPlaced(p, a, i);
      if Lookup(p, a, i).Some? {
        var k :| 0 <= k < |p| && At(p[k], a, i);
        assert At(ps[k], a, i);
      }
      if exists k :: 0 <= k < |ps| && At(ps[k], a, i) {
        var k :| 0 <= k < |ps| && At(ps[k], a, i);
        if k < |p| { assert At(p[k], a, i); }
      }
    }
  }

  lemma {:induction false} SameAccepted<R>(cfg: Config<R>, recs: seq<Record<R>>, a: nat)
    requires Validated(cfg, recs) && NoRepeats(cfg, recs) && a < |cfg.metas| && Load(cfg.metas, recs).Ok?
    ensures MapAccepted(cfg, Load(cfg.metas, recs).value, a) <==> Accepted(cfg, Placement(cfg, recs), a)
  {
    var ps, l := Placement(cfg, recs), Load(cfg.metas, recs).value;
    if Accepted(cfg, ps, a) {
      var k :| 0 <= k < |ps| && Accepts(cfg, ps[k], a);
      var i := ps[k].target.index;
      assert At(ps[k], a, i);
      LookupIsPlaced(ps, a, i);
      SameLookup(cfg, recs, a, i);
      assert Kept(cfg, l, a, i).Some?;
    }
    if MapAccepted(cfg, l, a) {
      var i :| Kept(cfg, l, a, i).Some? && !cfg.ignored(a, i);
      SameLookup(cfg, recs, a, i);
      LookupIsPlaced(ps, a, i);
      var k :| 0 <= k < |ps| && At(ps[k], a, i);
      assert Accepts(cfg, ps[k], a);
    }
  }

  lemma {:induction false} NoOnline<R>(cfg: Config<R>, recs: seq<Record<R>>)
    requires Validated(cfg, recs)
    ensures OnlineCount(Placement(cfg, recs)) == 0
    ensures Load(cfg.metas, recs).Ok? && Load(cfg.metas, recs).value.extra == 0
  {
    if recs != [] {
      var n := |recs| - 1;
      ValidatedPrefix(cfg, recs, n);
      NoOnline(cfg, recs[..n]);
      var ps := Placement(cfg, recs[..n]);
      PlaceOneIs(cfg, ps, recs[n]);
      if cfg.matches(recs[n]).Keep? { OneMore(ps, PlaceOne(cfg, ps, recs[n])[0], 0, 0); }
      else { assert ps + [] == ps; }
    }
  }

  /** Beyond its entries an archive has only ignored indexes up to its last record. */
  ghost predicate NothingBeyond<R>(cfg: Config<R>, ps: seq<Placed<R>>, a: nat)
    requires a < |cfg.metas|
  {
    forall i :: Entries(cfg.metas, a, 0) <= i < Last(ps, a) && i >= 0 ==> cfg.ignored(a, i)
  }

  lemma {:induction false} RowsStretch<R>(cfg: Config<R>, ps: seq<Placed<R>>, a: nat, n: int, m: int)
    requires a < |cfg.metas| && n <= m
    ensures |Rows(cfg, ps, a, n)| <= |Rows(cfg, ps, a, m)|
    ensures |Rows(cfg, ps, a, n)| == |Rows(cfg, ps, a, m)| <==> forall i :: n <= i < m && i >= 0 ==> cfg.ignored(a, i)
    ensures |Rows(cfg, ps, a, n)| == |Rows(cfg, ps, a, m)| ==> Rows(cfg, ps, a, n) == Rows(cfg, ps, a, m)
    decreases m - n
  {
    if n < m { RowsStretch(cfg, ps, a, n, m - 1); }
  }

  ghost predicate Fits<R>(cfg: Config<R>, ps: seq<Placed<R>>, a: nat)
    requires a < |cfg.metas|
  {
    Accepted(cfg, ps, a) ==> NothingBeyond(cfg, ps, a)
  }

  /** The member of an archive is the same from the stream and from the maps exactly when nothing
      lies beyond its entries. */
  ghost predicate MemberAgrees<R>(cfg: Config<R>, ps: seq<Placed<R>>, l: Loaded<R>, a: nat)
    requires a < |l.records| == |cfg.metas|
  {
    && |MemberOf(cfg, ps, a)| == |MapMember(cfg, l, a)|
    && (MemberOf(cfg, ps, a) == MapMember(cfg, l, a) <==> Fits(cfg, ps, a))
  }

  lemma {:induction false} SameMember<R>(cfg: Config<R>, recs: seq<Record<R>>, a: nat)
    requires Validated(cfg, recs) && NoRepeats(cfg, recs) && a < |cfg.metas| && Load(cfg.metas, recs).Ok?
    ensures MemberAgrees(cfg, Placement(cfg, recs), Load(cfg.metas, recs).value, a)
  {
    var ps := Placement(cfg, recs);
    SameAccepted(cfg, recs, a);
    NoOnline(cfg, recs);
    SameRows(cfg, recs, a, Entries(cfg.metas, a, 0));
    RowsStretch(cfg, ps, a, Entries(cfg.metas, a, 0), Bound(cfg, ps, a));
  }

  lemma {:induction false} LayoutsAgree<R>(cfg: Config<R>, ps: seq<Placed<R>>, l: Loaded<R>, k: nat)
    requires k <= |l.records| == |cfg.metas|
    requires forall a :: 0 <= a < k ==> MemberAgrees(cfg, ps, l, a)
    ensures |Layout(cfg, ps, k)| == |MapLayout(cfg, l, k)|
    ensures Layout(cfg, ps, k) == MapLayout(cfg, l, k) <==> forall a :: 0 <= a < k ==> Fits(cfg, ps, a)
  {
    hide Fits, MemberOf, MapMember;
    if k > 0 {
      LayoutsAgree(cfg, ps, l, k - 1);
      assert MemberAgrees(cfg, ps, l, k - 1);
      SplitEqual(Layout(cfg, ps, k - 1), MemberOf(cfg, ps, k - 1), MapLayout(cfg, l, k - 1), MapMember(cfg, l, k - 1));
    }
  }

  lemma {:induction false} SplitEqual<T>(a: seq<T>, b: seq<T>, c: seq<T>, d: seq<T>)
    requires |a| == |c|
    ensures a + b == c + d <==> a == c && b == d
  {
    if a + b == c + d {
      assert a == (a + b)[..|a|] == (c + d)[..|c|] == c;
      assert b == (a + b)[|a|..] == (c + d)[|c|..] == d;
    }
  }

  /** A stream the validators accept, with no repeated locator and no negative index, is written
      without an error, and its members are those laid out from the loader's maps exactly when no
      accepted archive has an index that is not ignored between its entries and its last record. */
  lemma {:induction false} StreamAgreesWithMaps<R>(cfg: Config<R>, recs: seq<Record<R>>) returns (trace: seq<State>)
    requires Validated(cfg, recs) && NoRepeats(cfg, recs)
    requires forall i :: 0 <= i < |recs| ==> recs[i].index.Some? && recs[i].index.value >= 0
    ensures Traced(cfg, recs, trace) && InRange(cfg, trace[|recs|]) && Load(cfg.metas, recs).Ok?
    ensures Finish(cfg, trace[|recs|]).members == MapLayout(cfg, Load(cfg.metas, recs).value, |cfg.metas|)
       <==> forall a :: 0 <= a < |cfg.metas| ==> Fits(cfg, Placement(cfg, recs), a)
  {
    NoRepeatsIsClean(cfg, recs);
    trace := CleanIsWritten(cfg, recs, |recs|);
    assert recs[..|recs|] == recs;
    NoOnline(cfg, recs);
    WritesLayout(cfg, recs, trace);
    var l := Load(cfg.metas, recs).value;
    forall a | 0 <= a < |cfg.metas| ensures MemberAgrees(cfg, Placement(cfg, recs), l, a) {
      SameMember(cfg, recs, a);
    }
    LayoutsAgree(cfg, Placement(cfg, recs), l, |cfg.metas|);
  }

  lemma {:induction false} CleanStep<R>(cfg: Config<R>, ps: seq<Placed<R>>, recs: seq<Record<R>>, p: Placed<R>)
    requires Clean(ps) && p.target.index >= 0 && !Holds(cfg, recs, p.target.archive, p.target.index)
    requires forall k :: 0 <= k < |ps| ==> IsHeld(cfg, recs, ps[k].target)
    ensures Clean(ps + [p])
  {
    forall k | 0 <= k < |ps| ensures ps[k].target != p.target {
      assert IsHeld(cfg, recs, ps[k].target);
    }
  }

  ghost predicate IsHeld<R>(cfg: Config<R>, recs: seq<Record<R>>, t: Target) {
    !t.online && Holds(cfg, recs, t.archive, t.index)
  }

  lemma {:induction false} HeldMore<R>(cfg: Config<R>, recs: seq<Record<R>>, ps: seq<Placed<R>>, more: seq<Placed<R>>)
    requires recs != [] && forall k :: 0 <= k < |ps| ==> IsHeld(cfg, recs[..|recs| - 1], ps[k].target)
    requires forall k :: 0 <= k < |more| ==> !more[k].target.online
    requires forall k :: 0 <= k < |more| ==>
      OrderOf(cfg.metas, recs[|recs| - 1]) == Ok(Order(more[k].target.archive, more[k].target.index))
    ensures forall k :: 0 <= k < |ps + more| ==> IsHeld(cfg, recs, (ps + more)[k].target)
  {
    forall k | 0 <= k < |ps + more| ensures IsHeld(cfg, recs, (ps + more)[k].target) {
      var t := (ps + more)[k].target;
      HoldsSnoc(cfg, recs, t.archive, t.index);
      if k < |ps| { assert IsHeld(cfg, recs[..|recs| - 1], ps[k].target); }
      else { assert more[k - |ps|].target == t; }
    }
  }

  lemma {:induction false} NoRepeatsIsClean<R>(cfg: Config<R>, recs: seq<Record<R>>)
    requires Validated(cfg, recs) && NoRepeats(cfg, recs)
    requires forall i :: 0 <= i < |recs| ==> recs[i].index.Some? && recs[i].index.value >= 0
    ensures Clean(Placement(cfg, recs))
    ensures forall k :: 0 <= k < |Placement(cfg, recs)| ==> IsHeld(cfg, recs, Placement(cfg, recs)[k].target)
  {
    hide Validated, NoRepeats, IsHeld, PlaceOne;
    if recs != [] {
      var n := |recs| - 1;
      ValidatedPrefix(cfg, recs, n);
      NoRepeatsPrefix(cfg, recs, n);
      assert forall k :: 0 <= k < n ==> recs[..n][k] == recs[k];
      NoRepeatsIsClean(cfg, recs[..n]);
      var ps := Placement(cfg, recs[..n]);
      var more := PlaceOne(cfg, ps, recs[n]);
      LastOrders(cfg, recs);
      PlaceOneIs(cfg, ps, recs[n]);
      HeldMore(cfg, recs, ps, more);
      if more == [] {
        assert ps + more == ps;
      } else {
        NotHeld(cfg, recs, more[0].target.archive, more[0].target.index);
        CleanStep(cfg, ps, recs[..n], more[0]);
      }
    }
  }
}
