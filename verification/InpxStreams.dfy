/** Streams the validators accept: when the writer takes them, and that it then agrees with the
    map-based loader. */
module InpxStreams {
  import opened Wrappers
  import opened InpxWriter
  import opened InpxLayout
  import opened InpxOrder

  /** The content filter and the renderer never fail. */
  ghost predicate Total<R>(cfg: Config<R>, recs: seq<Record<R>>) {
    forall i :: 0 <= i < |recs| ==> cfg.matches(recs[i]) != Unreadable && cfg.render(recs[i]) != Failed
  }

  ghost predicate Validated<R>(cfg: Config<R>, recs: seq<Record<R>>) {
    ValidHeader(cfg.metas) && InOrder(cfg.metas, recs) && Total(cfg, recs)
  }

  /** Kept records have indexes from 0 and no two share a locator. */
  ghost predicate Clean<R>(ps: seq<Placed<R>>) {
    && (forall k :: 0 <= k < |ps| ==> ps[k].target.index >= 0)
    && (forall j, k :: 0 <= j < k < |ps| ==> ps[j].target != ps[k].target)
  }

  /** The writer is at the last kept record. */
  ghost predicate AtLast<R>(cfg: Config<R>, s: State, ps: seq<Placed<R>>) {
    if ps == [] then s.active.None? && s.next == 0
    else
      var t := ps[|ps| - 1].target;
      s.active == Some(t.archive) && s.next == t.archive + 1 && s.index == t.index + 1
  }

  /** Places only go up. */
  predicate NotBefore(t: Target, u: Target) {
    t.archive < u.archive || (t.archive == u.archive && t.index <= u.index)
  }

  ghost predicate Climbs<R>(ps: seq<Placed<R>>) {
    forall j, k :: 0 <= j < k < |ps| ==> NotBefore(ps[j].target, ps[k].target)
  }

  // ---------------------------------------------------------------- one record

  lemma {:induction false} AdvanceSucceeds<R>(cfg: Config<R>, s: State, target: nat)
    requires InRange(cfg, s) && s.next <= target < |cfg.metas| && s.active != Some(target)
    ensures var r := AdvanceTo(cfg, s, target);
            r.Ok? && r.value.index == 0 && r.value.next == target + 1
    decreases |cfg.metas| - s.next
  {
    FinishKeepsRange(cfg, s);
    var t := if s.active.Some? then FinishActive(cfg, s) else s;
    if t.next < target { AdvanceSucceeds(cfg, OpenNext(t), target); }
  }

  /** Where the writer stands in a target's archive. */
  function Reached(s: State, a: nat): int { if s.active == Some(a) then s.index else 0 }

  lemma {:induction false} ArriveSucceeds<R>(cfg: Config<R>, s: State, t: Target)
    requires InRange(cfg, s) && t.archive < |cfg.metas| && !t.online
    requires if s.active.Some? then s.next == s.active.value + 1 <= t.archive + 1 else s.next == 0
    ensures Arrive(cfg, s, t).Ok? && Arrive(cfg, s, t).value.index == Reached(s, t.archive)
    ensures Arrive(cfg, s, t).value.next == t.archive + 1
  {
    assert s.(extra := s.extra + 0) == s;
    if s.active != Some(t.archive) { AdvanceSucceeds(cfg, s, t.archive); }
  }

  lemma {:induction false} SettleSucceeds<R>(cfg: Config<R>, at: State, rec: Record<R>, t: Target)
    requires cfg.render(rec) != Failed
    ensures Settle(cfg, at, rec, t).Ok? <==> t.index >= at.index
  {
  }

  /** A record in order is placed exactly when its index is beyond the last one written. */
  lemma {:induction false} PlaceSucceeds<R>(cfg: Config<R>, s: State, rec: Record<R>, t: Target)
    requires InRange(cfg, s) && t.archive < |cfg.metas| && !t.online && cfg.render(rec) != Failed
    requires if s.active.Some? then s.next == s.active.value + 1 <= t.archive + 1 else s.next == 0
    ensures Place(cfg, s, rec, t).Ok? <==> t.index >= Reached(s, t.archive)
    ensures Place(cfg, s, rec, t).Ok? ==>
      var r := Place(cfg, s, rec, t).value;
      r.active == Some(t.archive) && r.next == t.archive + 1 && r.index == t.index + 1
  {
    ArriveSucceeds(cfg, s, t);
    var at := Arrive(cfg, s, t).value;
    SettleSucceeds(cfg, at, rec, t);
    if Settle(cfg, at, rec, t).Ok? { SettleKeeps(cfg, at, rec, t); }
  }

  /** One more place: it keeps the kept records clean exactly when it lies beyond the last one. */
  lemma {:induction false} CleanSnoc<R>(cfg: Config<R>, s: State, ps: seq<Placed<R>>, p: Placed<R>)
    requires Clean(ps) && Climbs(ps + [p]) && AtLast(cfg, s, ps) && !p.target.online
    requires forall k :: 0 <= k < |ps| ==> !ps[k].target.online
    ensures Clean(ps + [p]) <==> p.target.index >= Reached(s, p.target.archive)
  {
    var all := ps + [p];
    assert all[|ps|] == p && all[..|ps|] == ps;
    forall k | 0 <= k < |ps| ensures NotBefore(ps[k].target, p.target) {
      assert NotBefore(all[k].target, all[|ps|].target);
    }
    if ps != [] {
      var last := ps[|ps| - 1].target;
      forall k | 0 <= k < |ps| ensures NotBefore(ps[k].target, last) {
        if k < |ps| - 1 { assert NotBefore(all[k].target, all[|ps| - 1].target); }
      }
      assert all[|ps| - 1].target == last;
    }
  }

  // ---------------------------------------------------------------- streams

  lemma {:induction false} PlaceOneIs<R>(cfg: Config<R>, ps: seq<Placed<R>>, rec: Record<R>)
    requires OrderOf(cfg.metas, rec).Ok? && ValidHeader(cfg.metas)
    ensures PlaceOne(cfg, ps, rec)
         == if cfg.matches(rec).Keep? then
              [Placed(Target(Find(cfg.metas, rec.source).value, rec.index.value, false), rec)]
            else []
    ensures var o := OrderOf(cfg.metas, rec).value;
            o == Order(Find(cfg.metas, rec.source).value, rec.index.value)
  {
  }

  lemma {:induction false} ClimbsMore<R>(ps: seq<Placed<R>>, p: Placed<R>)
    requires Climbs(ps) && forall k :: 0 <= k < |ps| ==> NotBefore(ps[k].target, p.target)
    ensures Climbs(ps + [p])
  {
    hide NotBefore;
    var all := ps + [p];
    forall j, k | 0 <= j < k < |all| ensures NotBefore(all[j].target, all[k].target) {
      assert all[j] == ps[j];
      if k < |ps| { assert all[k] == ps[k]; }
    }
  }

  /** Places up to that of a record, which may be missing. */
  ghost predicate UpTo<R>(cfg: Config<R>, ps: seq<Placed<R>>, rec: Record<R>)
    requires OrderOf(cfg.metas, rec).Ok?
  {
    var o := OrderOf(cfg.metas, rec).value;
    forall k :: 0 <= k < |ps| ==> !Less(o, Order(ps[k].target.archive, ps[k].target.index))
  }

  lemma {:induction false} LastOrders<R>(cfg: Config<R>, recs: seq<Record<R>>)
    requires Validated(cfg, recs) && recs != []
    ensures ValidHeader(cfg.metas) && OrderOf(cfg.metas, recs[|recs| - 1]).Ok?
    ensures |recs| > 1 ==>
      var o, prev := OrderOf(cfg.metas, recs[|recs| - 1]), OrderOf(cfg.metas, recs[|recs| - 2]);
      prev.Ok? && !Less(o.value, prev.value)
  {
    hide OrderOf, Less;
  }

  lemma {:induction false} LastPlaced<R>(cfg: Config<R>, ps: seq<Placed<R>>, prev: Option<Record<R>>, rec: Record<R>)
    requires Climbs(ps) && ValidHeader(cfg.metas) && OrderOf(cfg.metas, rec).Ok?
    requires forall k :: 0 <= k < |ps| ==> !ps[k].target.online && ps[k].target.archive < |cfg.metas|
    requires prev.None? ==> ps == []
    requires prev.Some? ==>
      && OrderOf(cfg.metas, prev.value).Ok? && UpTo(cfg, ps, prev.value)
      && !Less(OrderOf(cfg.metas, rec).value, OrderOf(cfg.metas, prev.value).value)
    ensures var all := ps + PlaceOne(cfg, ps, rec);
            && Climbs(all) && UpTo(cfg, all, rec)
            && forall k :: 0 <= k < |all| ==> !all[k].target.online && all[k].target.archive < |cfg.metas|
  {
    hide Climbs, PlaceOne;
    PlaceOneIs(cfg, ps, rec);
    var more := PlaceOne(cfg, ps, rec);
    if more == [] {
      assert ps + more == ps;
    } else {
      ClimbsMore(ps, more[0]);
    }
  }

  /** The kept records come from the stream, in its order. */
  lemma {:induction false} PlacementClimbs<R>(cfg: Config<R>, recs: seq<Record<R>>)
    requires Validated(cfg, recs)
    ensures Climbs(Placement(cfg, recs))
    ensures forall k :: 0 <= k < |Placement(cfg, recs)| ==>
      !Placement(cfg, recs)[k].target.online && Placement(cfg, recs)[k].target.archive < |cfg.metas|
    ensures recs != [] ==> forall k :: 0 <= k < |Placement(cfg, recs)| ==>
      var o := OrderOf(cfg.metas, recs[|recs| - 1]).value; var t := Placement(cfg, recs)[k].target;
      !Less(o, Order(t.archive, t.index))
  {
    hide Validated, PlaceOne, OrderOf, NotBefore;
    if recs != [] {
      var n := |recs| - 1;
      ValidatedPrefix(cfg, recs, n);
      PlacementClimbs(cfg, recs[..n]);
      LastOrders(cfg, recs);
      LastPlaced(cfg, Placement(cfg, recs[..n]), if n > 0 then Some(recs[n - 1]) else None, recs[n]);
    }
  }

  lemma {:induction false} ValidatedPrefix<R>(cfg: Config<R>, recs: seq<Record<R>>, n: nat)
    requires Validated(cfg, recs) && n <= |recs|
    ensures Validated(cfg, recs[..n])
  {
    var p := recs[..n];
    assert forall i :: 0 <= i < n ==> p[i] == recs[i];
  }

  lemma {:induction false} StepIff<R>(cfg: Config<R>, s: State, ps: seq<Placed<R>>, rec: Record<R>)
    requires InRange(cfg, s) && AtLast(cfg, s, ps) && Clean(ps) && Climbs(ps + PlaceOne(cfg, ps, rec))
    requires forall k :: 0 <= k < |ps| ==> !ps[k].target.online && ps[k].target.archive < |cfg.metas|
    requires s.extra == OnlineCount(ps)
    requires OrderOf(cfg.metas, rec).Ok? && ValidHeader(cfg.metas) && cfg.matches(rec) != Unreadable
             && cfg.render(rec) != Failed
    ensures Write(cfg, s, rec).Ok? <==> Clean(ps + PlaceOne(cfg, ps, rec))
    ensures Write(cfg, s, rec).Ok? ==> AtLast(cfg, Write(cfg, s, rec).value, ps + PlaceOne(cfg, ps, rec))
  {
    PlaceOneIs(cfg, ps, rec);
    if cfg.matches(rec).Keep? {
      var p := PlaceOne(cfg, ps, rec)[0];
      var all := ps + [p];
      if ps != [] { assert NotBefore(all[|ps| - 1].target, all[|ps|].target); }
      CleanSnoc(cfg, s, ps, p);
      PlaceSucceeds(cfg, s, rec, p.target);
    } else {
      assert ps + [] == ps;
    }
  }

  ghost predicate Standing<R>(cfg: Config<R>, s: State, ps: seq<Placed<R>>) {
    InRange(cfg, s) && AtLast(cfg, s, ps) && Clean(ps) && s.extra == OnlineCount(ps)
  }

  lemma {:induction false} StepStands<R>(cfg: Config<R>, recs: seq<Record<R>>, i: nat, s: State)
    requires Validated(cfg, recs) && i < |recs| && Standing(cfg, s, Placement(cfg, recs[..i]))
    ensures Write(cfg, s, recs[i]).Ok? <==> Clean(Placement(cfg, recs[..i + 1]))
    ensures Write(cfg, s, recs[i]).Ok? ==> AtLast(cfg, Write(cfg, s, recs[i]).value, Placement(cfg, recs[..i + 1]))
  {
    ValidatedPrefix(cfg, recs, i);
    ValidatedPrefix(cfg, recs, i + 1);
    PlacementClimbs(cfg, recs[..i]);
    PlacementClimbs(cfg, recs[..i + 1]);
    assert recs[..i + 1][..i] == recs[..i];
    StepIff(cfg, s, Placement(cfg, recs[..i]), recs[i]);
  }

  lemma {:induction false} ExtraCounts<R>(cfg: Config<R>, recs: seq<Record<R>>, trace: seq<State>, n: nat)
    requires Traced(cfg, recs, trace) && n <= |recs|
    ensures InRange(cfg, trace[n]) && trace[n].extra == OnlineCount(Placement(cfg, recs[..n]))
  {
    TraceSteady(cfg, recs, trace, n);
  }

  /** A stream that is written is clean. */
  lemma {:induction false} WrittenIsClean<R>(cfg: Config<R>, recs: seq<Record<R>>, trace: seq<State>, n: nat)
    requires Validated(cfg, recs) && Traced(cfg, recs, trace) && n <= |recs|
    ensures Standing(cfg, trace[n], Placement(cfg, recs[..n]))
  {
    ExtraCounts(cfg, recs, trace, n);
    if n > 0 {
      WrittenIsClean(cfg, recs, trace, n - 1);
      assert Linked(cfg, recs, trace, n - 1);
      StepStands(cfg, recs, n - 1, trace[n - 1]);
    }
  }

  lemma {:induction false} CleanBefore<R>(ps: seq<Placed<R>>, more: seq<Placed<R>>)
    requires Clean(ps + more)
    ensures Clean(ps)
  {
    assert forall k :: 0 <= k < |ps| ==> ps[k] == (ps + more)[k];
  }

  lemma {:induction false} CleanPrefix<R>(cfg: Config<R>, recs: seq<Record<R>>, n: nat)
    requires n <= |recs| && Clean(Placement(cfg, recs))
    ensures Clean(Placement(cfg, recs[..n]))
    decreases |recs|
  {
    if n == |recs| {
      assert recs[..n] == recs;
    } else {
      hide Clean, PlaceOne;
      var p := recs[..|recs| - 1];
      CleanBefore(Placement(cfg, p), PlaceOne(cfg, Placement(cfg, p), recs[|recs| - 1]));
      CleanPrefix(cfg, p, n);
      assert p[..n] == recs[..n];
    }
  }

  /** A clean stream is written. */
  lemma {:induction false} StartStands<R>(cfg: Config<R>, recs: seq<Record<R>>)
    ensures Traced(cfg, recs[..0], [START]) && Standing(cfg, START, Placement(cfg, recs[..0]))
  {
  }

  lemma {:induction false} CleanIsWritten<R>(cfg: Config<R>, recs: seq<Record<R>>, n: nat) returns (trace: seq<State>)
    requires Validated(cfg, recs) && Clean(Placement(cfg, recs)) && n <= |recs|
    ensures Traced(cfg, recs[..n], trace) && Standing(cfg, trace[n], Placement(cfg, recs[..n]))
  {
    hide Clean, AtLast, InRange, Validated, Placement, Write;
    if n == 0 {
      StartStands(cfg, recs);
      trace := [START];
    } else {
      trace := CleanIsWritten(cfg, recs, n - 1);
      CleanPrefix(cfg, recs, n);
      StepStands(cfg, recs, n - 1, trace[n - 1]);
      var s := Write(cfg, trace[n - 1], recs[n - 1]).value;
      TraceGrows(cfg, recs, trace, n - 1, s);
      trace := trace + [s];
      ExtraCounts(cfg, recs[..n], trace, n);
      assert recs[..n][..n] == recs[..n];
    }
  }

  /** A stream the validators accept is written to the end, without any of the writer's order
      errors, exactly when its kept records have indexes from 0 and no two of them share a locator. */
  lemma {:induction false} WrittenIff<R>(cfg: Config<R>, recs: seq<Record<R>>)
    requires Validated(cfg, recs)
    ensures (exists trace :: Traced(cfg, recs, trace)) <==> Clean(Placement(cfg, recs))
  {
    assert recs[..|recs|] == recs;
    if Clean(Placement(cfg, recs)) {
      var trace := CleanIsWritten(cfg, recs, |recs|);
      assert Traced(cfg, recs, trace);
    }
    if trace :| Traced(cfg, recs, trace) {
      WrittenIsClean(cfg, recs, trace, |recs|);
    }
  }
}
