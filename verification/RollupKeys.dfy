/** No key twice: how often an archive holds a key, and why a pass never repeats one. */
module RollupKeys {
  import opened RollupEntries
  import opened RollupPass
  import opened RollupConservation
  import opened RollupRanges

  /** How many usable entries have this key. */
  function KeyCount(key: string, es: seq<Entry>): nat {
    if es == [] then 0
    else (if Usable(es[0]) && es[0].key == key then 1 else 0) + KeyCount(key, es[1..])
  }

  ghost predicate OwnKeys(es: seq<Entry>) { forall key :: KeyCount(key, es) <= 1 }

  ghost predicate Holds(es: seq<Entry>, key: string) {
    exists e :: e in es && Usable(e) && e.key == key
  }

  lemma {:induction false} CountHolds(key: string, es: seq<Entry>)
    ensures KeyCount(key, es) > 0 <==> Holds(es, key)
  {
    if es != [] {
      CountHolds(key, es[1..]);
      assert es == [es[0]] + es[1..];
      assert forall e :: e in es <==> e == es[0] || e in es[1..];
    }
  }

  lemma {:induction false} CountAppend(key: string, es: seq<Entry>, e: Entry)
    ensures KeyCount(key, es + [e]) == KeyCount(key, es) + if Usable(e) && e.key == key then 1 else 0
  {
    if es == [] {
      assert es + [e] == [e];
    } else {
      CountAppend(key, es[1..], e);
      assert (es + [e])[1..] == es[1..] + [e];
    }
  }

  lemma {:induction false} CountInsert(key: string, e: Entry, es: seq<Entry>)
    ensures KeyCount(key, Insert(e, es)) == KeyCount(key, es) + if Usable(e) && e.key == key then 1 else 0
  {
    if !(es == [] || Leq(e, es[0])) {
      CountInsert(key, e, es[1..]);
    }
  }

  lemma {:induction false} CountOrdered(key: string, es: seq<Entry>)
    ensures KeyCount(key, Ordered(es)) == KeyCount(key, es)
  {
    if es != [] {
      CountOrdered(key, es[1..]);
      CountInsert(key, es[0], Ordered(es[1..]));
    }
  }

  lemma {:induction false} CountUsable(key: string, es: seq<Entry>)
    ensures KeyCount(key, UsableOf(es)) == KeyCount(key, es)
  {
    if es != [] {
      var p, e := es[..|es| - 1], es[|es| - 1];
      CountUsable(key, p);
      CountAppend(key, p, e);
      CountAppend(key, UsableOf(p), e);
      assert es == p + [e] && UsableOf(p) + [] == UsableOf(p);
    }
  }

  ghost predicate AllMade(es: seq<Entry>, family: Family) { forall e :: e in es ==> Made(e, family) }

  /** The entries of the work archive are known to the pass: old ones by their id, new ones by key. */
  ghost predicate Single(s: State, family: Family) {
    && (forall i :: 0 <= i < |s.done| ==> OwnKeys(s.done[i].entries) && AllMade(s.done[i].entries, family))
    && OwnKeys(s.entries) && AllMade(s.entries, family)
    && (forall e :: e in s.entries && Usable(e) ==> e.id <= s.end || e.key in s.keys)
  }

  lemma {:induction false} AppendSingle(s: State, e: Entry, family: Family)
    requires Single(s, family) && Made(e, family) && Usable(e) && e.id > s.end && e.key !in s.keys
    ensures OwnKeys(s.entries + [e]) && AllMade(s.entries + [e], family)
  {
    forall key ensures KeyCount(key, s.entries + [e]) <= 1 {
      CountAppend(key, s.entries, e);
      CountHolds(key, s.entries);
      if key == e.key && Holds(s.entries, key) {
        var x :| x in s.entries && Usable(x) && x.key == key;
        KeyNamesID(x, e, family);
        assert false;
      }
    }
  }

  lemma {:induction false} StepSingle(s: State, e: Entry, family: Family, policy: Policy)
    requires Single(s, family) && Made(e, family)
    ensures Single(Step(s, e, false, policy), family)
  {
    if Usable(e) && e.id > s.end && e.key !in s.keys {
      AppendSingle(s, e, family);
    }
  }

  /** No archive a pass writes holds a key twice. */
  lemma {:induction false} RunSingle(s: State, es: seq<Entry>, family: Family, policy: Policy)
    requires Single(s, family) && AllMade(es, family)
    ensures Single(Run(s, es, false, policy), family)
  {
    if es != [] {
      RunSingle(s, es[..|es| - 1], family, policy);
      StepSingle(Run(s, es[..|es| - 1], false, policy), es[|es| - 1], family, policy);
    }
  }
}
