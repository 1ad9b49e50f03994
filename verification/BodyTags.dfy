/** Any stream of tags and texts, well nested or not: exactly when the sections the builder lists
    are never rejected, whatever the texts are. */
module BodyTags {
  import opened Wrappers
  import opened Histograms
  import opened FingerprintCodec
  import opened BodyBuilder
  import opened FingerprintEndToEnd
  import ST = SectionTree

  predicate IsBodyTag(e: Event) { e.BodyStart? || e.BodyEnd? }

  /** Somewhere a body starts or ends while two or more sections are open. */
  predicate CutsOff(es: seq<Event>) {
    es != [] && (CutsOff(es[..|es| - 1])
                 || (IsBodyTag(es[|es| - 1]) && |HandleAll(START, es[..|es| - 1]).stack| > 2))
  }

  /** The stream without its texts. */
  function Tags(es: seq<Event>): seq<Event> {
    if es == [] then []
    else Tags(es[..|es| - 1]) + if es[|es| - 1].Text? then [] else [es[|es| - 1]]
  }

  // ---------------------------------------------------------------- parents

  ghost predicate StepAt(p: seq<Accumulator>, i: int) {
    0 < i < |p| && 1 <= p[i].depth <= p[i - 1].depth + 1
  }

  /** Depths start at 0 and grow by one at most. */
  ghost predicate Steps(p: seq<Accumulator>) {
    (p != [] ==> p[0].depth == 0) && forall i :: 0 < i < |p| ==> StepAt(p, i)
  }

  ghost predicate Child(p: seq<Accumulator>, i: int, k: int) {
    && 0 <= i < k < |p| && p[i].depth + 1 == p[k].depth
    && forall j :: i < j < k ==> p[j].depth >= p[k].depth
  }

  lemma {:induction false} LastAbove(p: seq<Accumulator>, m: nat, depth: nat) returns (i: nat)
    requires Steps(p) && m < |p| && depth >= 1
    ensures i <= m && p[i].depth < depth && forall j :: i < j <= m ==> p[j].depth >= depth
  {
    if p[m].depth < depth {
      i := m;
    } else {
      i := LastAbove(p, m - 1, depth);
    }
  }

  lemma {:induction false} ParentOf(p: seq<Accumulator>, k: nat) returns (i: nat)
    requires Steps(p) && 0 < k < |p|
    ensures Child(p, i, k)
  {
    assert StepAt(p, k);
    i := LastAbove(p, k - 1, p[k].depth);
    assert StepAt(p, i + 1);
  }

  lemma {:induction false} BelowRoot(p: seq<Accumulator>)
    requires Steps(p)
    ensures forall k :: 0 < k < |p| ==> p[k].depth >= 1
  {
    forall k | 0 < k < |p| ensures p[k].depth >= 1 { assert StepAt(p, k); }
  }

  lemma {:induction false} OneParent(p: seq<Accumulator>, i: int, j: int, k: int)
    requires Child(p, i, k) && Child(p, j, k)
    ensures i == j
  {
  }

  // ---------------------------------------------------------------- what every stream keeps

  /** The section at place i of the stack is a child of the one below it. */
  ghost predicate Linked(p: seq<Accumulator>, stack: seq<nat>, i: int) {
    0 < i < |stack| && Child(p, stack[i - 1], stack[i])
  }

  ghost predicate Stacked(p: seq<Accumulator>, stack: seq<nat>) {
    && (forall i :: 0 <= i < |stack| ==> stack[i] < |p| && p[stack[i]].depth == i)
    && (forall i :: 0 < i < |stack| ==> Linked(p, stack, i))
    && (stack != [] ==> forall j :: stack[|stack| - 1] < j < |p| ==> p[j].depth >= |stack|)
  }

  /** The words of a closed section are among its parent's, except where the parent is the root. */
  ghost predicate Dominated(p: seq<Accumulator>, stack: seq<nat>) {
    forall i, k :: Child(p, i, k) && p[k].depth >= 2 && k !in stack ==> p[k].hist.Keys <= p[i].hist.Keys
  }

  ghost predicate Nested(b: Build) {
    Steps(b.preorder) && Stacked(b.preorder, b.stack) && (b.bodyDepth == 0 ==> b.stack == [])
  }

  ghost predicate Inv(b: Build) {
    Valid(b) && Nested(b) && Dominated(b.preorder, b.stack)
  }

  /** Same depths, and no words lost. */
  ghost predicate Grown(p: seq<Accumulator>, q: seq<Accumulator>) {
    |p| == |q| && forall i :: 0 <= i < |p| ==> p[i].depth == q[i].depth && p[i].hist.Keys <= q[i].hist.Keys
  }

  lemma {:induction false} GrownChild(p: seq<Accumulator>, q: seq<Accumulator>)
    requires Grown(p, q)
    ensures forall i, k :: Child(p, i, k) <==> Child(q, i, k)
  {
  }

  lemma {:induction false} GrownSteps(p: seq<Accumulator>, q: seq<Accumulator>)
    requires Grown(p, q) && Steps(p)
    ensures Steps(q)
  {
    forall i | 0 < i < |q| ensures StepAt(q, i) { assert StepAt(p, i); }
  }

  lemma {:induction false} GrownStacked(p: seq<Accumulator>, q: seq<Accumulator>, stack: seq<nat>)
    requires Grown(p, q) && Stacked(p, stack)
    ensures Stacked(q, stack)
  {
    GrownChild(p, q);
    forall i | 0 < i < |stack| ensures Linked(q, stack, i) { assert Linked(p, stack, i); }
  }

  lemma {:induction false} SumHasWords(a: Hist, b: Hist)
    ensures a.Keys <= Sum(a, b).Keys && b.Keys <= Sum(a, b).Keys
  {
  }

  lemma {:induction false} TextKeeps(b: Build, words: seq<string>)
    requires Inv(b)
    ensures Inv(AddText(b, words))
  {
    if b.stack != [] {
      var t := AddText(b, words);
      SumHasWords(b.preorder[b.stack[|b.stack| - 1]].hist, Tally(words));
      assert Grown(b.preorder, t.preorder);
      GrownSteps(b.preorder, t.preorder);
      GrownChild(b.preorder, t.preorder);
      GrownStacked(b.preorder, t.preorder, b.stack);
    }
  }

  lemma {:induction false} StackRises(p: seq<Accumulator>, stack: seq<nat>, i: nat, j: nat)
    requires Stacked(p, stack) && i < j < |stack|
    ensures stack[i] < stack[j]
    decreases j
  {
    assert Linked(p, stack, j);
    if i < j - 1 { StackRises(p, stack, i, j - 1); }
  }

  lemma {:induction false} PoppedStacked(p: seq<Accumulator>, stack: seq<nat>)
    requires Stacked(p, stack) && |stack| >= 2
    ensures Stacked(p, stack[..|stack| - 1])
  {
    var rest := stack[..|stack| - 1];
    assert Linked(p, stack, |stack| - 1);
    forall i | 0 < i < |rest| ensures Linked(p, rest, i) { assert Linked(p, stack, i); }
  }

  /** Popping a section whose words have gone to its parent. */
  lemma {:induction false} PoppedDominated(p: seq<Accumulator>, q: seq<Accumulator>, stack: seq<nat>)
    requires Grown(p, q) && Stacked(p, stack) && Dominated(p, stack) && |stack| >= 2
    requires var section, parent := stack[|stack| - 1], stack[|stack| - 2];
             && (forall k :: 0 <= k < |p| && k != parent ==> q[k].hist == p[k].hist)
             && p[section].hist.Keys <= q[parent].hist.Keys
    ensures Dominated(q, stack[..|stack| - 1])
  {
    var section, parent, rest := stack[|stack| - 1], stack[|stack| - 2], stack[..|stack| - 1];
    GrownChild(p, q);
    assert Linked(p, stack, |stack| - 1);
    assert stack == rest + [section] && rest[|rest| - 1] == parent;
    forall i, k | Child(q, i, k) && q[k].depth >= 2 && k !in rest ensures q[k].hist.Keys <= q[i].hist.Keys {
      assert Child(p, i, k);
      if k == section { OneParent(p, i, parent, k); }
    }
  }

  /** Closing a section only adds its words to its parent. */
  lemma {:induction false} ClosedGrows(b: Build)
    requires Valid(b) && |b.stack| >= 2 && b.stack[|b.stack| - 2] != b.stack[|b.stack| - 1]
    ensures var p, q := b.preorder, CloseSection(b).preorder;
            var section, parent := b.stack[|b.stack| - 1], b.stack[|b.stack| - 2];
            && Grown(p, q)
            && (forall k :: 0 <= k < |p| && k != parent ==> q[k].hist == p[k].hist)
            && p[section].hist.Keys <= q[parent].hist.Keys
  {
    var section, parent := b.stack[|b.stack| - 1], b.stack[|b.stack| - 2];
    SumHasWords(b.preorder[parent].hist, b.preorder[section].hist);
  }

  lemma {:induction false} ClosedNested(b: Build)
    requires Valid(b) && Nested(b) && |b.stack| >= 2
    ensures Nested(CloseSection(b)) && Grown(b.preorder, CloseSection(b).preorder)
  {
    var p, q := b.preorder, CloseSection(b).preorder;
    StackRises(p, b.stack, |b.stack| - 2, |b.stack| - 1);
    ClosedGrows(b);
    GrownSteps(p, q);
    PoppedStacked(p, b.stack);
    GrownStacked(p, q, b.stack[..|b.stack| - 1]);
  }

  lemma {:induction false} ClosedDominated(b: Build)
    requires Valid(b) && Nested(b) && Dominated(b.preorder, b.stack) && |b.stack| >= 2
    ensures Dominated(CloseSection(b).preorder, CloseSection(b).stack)
  {
    StackRises(b.preorder, b.stack, |b.stack| - 2, |b.stack| - 1);
    ClosedGrows(b);
    PoppedDominated(b.preorder, CloseSection(b).preorder, b.stack);
  }

  lemma {:induction false} ClosedIsValid(b: Build)
    requires Valid(b)
    ensures Valid(CloseSection(b))
  {
  }

  lemma {:induction false} CloseKeeps(b: Build)
    requires Inv(b)
    ensures Inv(CloseSection(b))
  {
    if |b.stack| >= 2 {
      ClosedIsValid(b);
      ClosedNested(b);
      ClosedDominated(b);
    }
  }

  lemma {:induction false} StackIsShallow(p: seq<Accumulator>, stack: seq<nat>, k: nat)
    requires Stacked(p, stack) && k in stack
    ensures k < |p| && p[k].depth < |stack|
  {
    var i :| 0 <= i < |stack| && stack[i] == k;
  }

  lemma {:induction false} BodyKeeps(b: Build)
    requires Inv(b) && |b.stack| <= 2
    ensures Inv(OpenBody(b)) && Inv(CloseBody(b))
  {
    forall k | k in b.stack ensures k < |b.preorder| && b.preorder[k].depth < 2 {
      StackIsShallow(b.preorder, b.stack, k);
    }
    BelowRoot(b.preorder);
    var o := OpenBody(b);
    assert b.preorder != [] ==> o.preorder == b.preorder;
  }

  /** One more section changes nothing about the families of those before it. */
  lemma {:induction false} SameFamilies(p: seq<Accumulator>, q: seq<Accumulator>, a: Accumulator)
    requires Grown(p, q)
    ensures forall i, k :: 0 <= k < |p| ==> (Child(q + [a], i, k) <==> Child(p, i, k))
  {
    var t := q + [a];
    assert forall j :: 0 <= j < |p| ==> t[j] == q[j] && t[j].depth == p[j].depth;
  }

  lemma {:induction false} PushedStacked(p: seq<Accumulator>, q: seq<Accumulator>, stack: seq<nat>, a: Accumulator)
    requires Grown(p, q) && Stacked(p, stack) && stack != [] && a.depth == |stack|
    ensures Stacked(q + [a], stack + [|q|])
  {
    var t, s := q + [a], stack + [|q|];
    SameFamilies(p, q, a);
    assert forall j :: 0 <= j < |p| ==> t[j] == q[j] && t[j].depth == p[j].depth;
    forall i | 0 < i < |s| ensures Linked(t, s, i) {
      if i < |stack| { assert Linked(p, stack, i); }
    }
  }

  lemma {:induction false} PushedSteps(p: seq<Accumulator>, q: seq<Accumulator>, a: Accumulator)
    requires Grown(p, q) && Steps(p) && p != [] && 1 <= a.depth <= p[|p| - 1].depth + 1
    ensures Steps(q + [a])
  {
    var t := q + [a];
    forall i | 0 < i < |t| ensures StepAt(t, i) {
      if i < |p| { assert StepAt(p, i); }
    }
  }

  lemma {:induction false} PushedDominated(p: seq<Accumulator>, q: seq<Accumulator>, stack: seq<nat>, a: Accumulator)
    requires Grown(p, q) && Dominated(p, stack)
    requires forall i :: 0 <= i < |p| ==> p[i].hist == q[i].hist
    ensures Dominated(q + [a], stack + [|q|])
  {
    var t, s := q + [a], stack + [|q|];
    SameFamilies(p, q, a);
    assert s[|stack|] == |q|;
    forall i, k | Child(t, i, k) && t[k].depth >= 2 && k !in s ensures t[k].hist.Keys <= t[i].hist.Keys {
      assert k < |p|;
      assert t[k] == q[k] && t[i] == q[i];
      assert Child(p, i, k);
      forall j | 0 <= j < |stack| ensures stack[j] != k { assert s[j] == stack[j]; }
    }
  }

  lemma {:induction false} OpenOnKeeps(b: Build)
    requires Inv(b) && b.stack != []
    ensures Inv(OpenSection(b))
  {
    hide Steps, Stacked, Dominated;
    var t := OpenSection(b);
    var parent, n := b.stack[|b.stack| - 1], |b.preorder|;
    var q := b.preorder[parent := b.preorder[parent].(leaf := false)];
    var a := Accumulator(|b.stack|, map[], true);
    assert t.preorder == q + [a] && t.stack == b.stack + [n];
    assert Grown(b.preorder, q);
    LastIsDeep(b);
    PushedStacked(b.preorder, q, b.stack, a);
    PushedSteps(b.preorder, q, a);
    PushedDominated(b.preorder, q, b.stack, a);
  }

  /** The next section may be one level below the open one. */
  lemma {:induction false} LastIsDeep(b: Build)
    requires Inv(b) && b.stack != []
    ensures b.preorder != [] && b.preorder[|b.preorder| - 1].depth + 1 >= |b.stack|
  {
    assert b.stack[|b.stack| - 1] < |b.preorder|;
  }

  lemma {:induction false} HandleKeeps(b: Build, e: Event)
    requires Inv(b) && (IsBodyTag(e) ==> |b.stack| <= 2)
    ensures Inv(Handle(b, e))
  {
    match e
    case BodyStart => BodyKeeps(b);
    case BodyEnd => BodyKeeps(b);
    case SectionStart =>
      if b.bodyDepth > 0 {
        if b.stack == [] {
          BodyKeeps(b);
          OpenOnKeeps(OpenBody(b));
        } else {
          OpenOnKeeps(b);
        }
      }
    case SectionEnd => CloseKeeps(b);
    case Text(words) => TextKeeps(b, words);
  }

  lemma {:induction false} StreamKeeps(es: seq<Event>)
    requires !CutsOff(es)
    ensures Inv(HandleAll(START, es))
  {
    if es != [] {
      StreamKeeps(es[..|es| - 1]);
      HandleKeeps(HandleAll(START, es[..|es| - 1]), es[|es| - 1]);
    }
  }

  lemma {:induction false} CloseAllKeeps(b: Build)
    requires Inv(b)
    ensures Inv(CloseAll(b)) && |CloseAll(b).stack| <= 1 && |CloseAll(b).preorder| == |b.preorder|
    decreases |b.stack|
  {
    if |b.stack| > 1 {
      CloseKeeps(b);
      CloseAllKeeps(CloseSection(b));
    }
  }

  // ---------------------------------------------------------------- what is listed then

  ghost predicate AllDominated(p: seq<Accumulator>) {
    forall i, k :: Child(p, i, k) && p[k].depth >= 2 ==> p[k].hist.Keys <= p[i].hist.Keys
  }

  lemma {:induction false} ParentIsKept(p: seq<Accumulator>, k: nat) returns (i: nat)
    requires Steps(p) && AllDominated(p) && 0 < k < |p| && Kept(p[k])
    ensures Child(p, i, k) && Kept(p[i])
  {
    i := ParentOf(p, k);
    if p[k].depth >= 2 { Fewer(p[k].hist, p[i].hist); }
  }

  /** A kept section lies at most one level below the last one kept before it. */
  lemma {:induction false} KeptDepth(p: seq<Accumulator>, k: nat, last: nat)
    requires Steps(p) && AllDominated(p) && last < k < |p| && Kept(p[k])
    requires forall j :: last < j < k ==> !Kept(p[j])
    ensures 0 < p[k].depth <= p[last].depth + 1
  {
    BelowRoot(p);
    var i := ParentIsKept(p, k);
    assert i <= last;
  }

  ghost predicate EndsWith(l: seq<Section>, s: Section) { l != [] && l[|l| - 1] == s && ST.Wellformed(l) }

  lemma {:induction false} OneSection(s: Section)
    requires s.depth == 0
    ensures EndsWith([s], s)
  {
  }

  lemma {:induction false} OneMoreSection(l: seq<Section>, last: Section, s: Section)
    requires EndsWith(l, last) && 0 < s.depth <= last.depth + 1
    ensures EndsWith(l + [s], s)
  {
    var all := l + [s];
    forall i | 0 < i < |all| ensures 0 < all[i].depth <= all[i - 1].depth + 1 {
      if i < |l| { assert all[i] == l[i] && all[i - 1] == l[i - 1]; }
    }
  }

  lemma {:induction false} FirstSection(key: Hist -> string, p: seq<Accumulator>)
    requires Steps(p) && p != []
    ensures Kept(p[0]) && EndsWith(Listed(key, p[..1]), SectionFor(key, p[0]))
  {
    ListedNext(key, p, 0);
    assert p[..0] == [];
    OneSection(SectionFor(key, p[0]));
  }

  lemma {:induction false} NextSection(key: Hist -> string, p: seq<Accumulator>, k: nat, last: nat)
    requires Steps(p) && AllDominated(p) && last < k < |p| && EndsWith(Listed(key, p[..k]), SectionFor(key, p[last]))
    requires forall j :: last < j < k ==> !Kept(p[j])
    ensures EndsWith(Listed(key, p[..k + 1]), SectionFor(key, p[if Kept(p[k]) then k else last]))
  {
    hide Steps, AllDominated, EndsWith, Kept;
    ListedNext(key, p, k);
    if Kept(p[k]) {
      KeptDepth(p, k, last);
      OneMoreSection(Listed(key, p[..k]), SectionFor(key, p[last]), SectionFor(key, p[k]));
    } else {
      assert Listed(key, p[..k + 1]) == Listed(key, p[..k]);
    }
  }

  /** The list of the first n sections is well formed and ends with the last one kept. */
  lemma {:induction false} ListIsWellformed(key: Hist -> string, p: seq<Accumulator>, n: nat) returns (last: nat)
    requires Steps(p) && AllDominated(p) && 0 < n <= |p|
    ensures last < n && Kept(p[last]) && forall j :: last < j < n ==> !Kept(p[j])
    ensures EndsWith(Listed(key, p[..n]), SectionFor(key, p[last]))
  {
    hide Steps, AllDominated, SectionFor, EndsWith, Kept, Listed;
    if n == 1 {
      FirstSection(key, p);
      last := 0;
    } else {
      last := ListIsWellformed(key, p, n - 1);
      NextSection(key, p, n - 1, last);
      if Kept(p[n - 1]) { last := n - 1; }
    }
  }

  /** The list of a stream is missing, or a tree can be built from it. */
  ghost predicate Accepted(key: Hist -> string, es: seq<Event>) {
    var r := Finish(key, HandleAll(START, es));
    r.Some? ==> ST.Depths(r.value) && ST.TreeOf(r.value).Some?
  }

  lemma {:induction false} WellformedDepths(sections: seq<Section>)
    requires ST.Wellformed(sections)
    ensures ST.Depths(sections)
  {
  }

  lemma {:induction false} NotCutIsWellformed(key: Hist -> string, es: seq<Event>)
    requires !CutsOff(es)
    ensures var r := Finish(key, HandleAll(START, es)); r.Some? ==> ST.Wellformed(r.value)
  {
    var b := HandleAll(START, es);
    StreamKeeps(es);
    CloseAllKeeps(b);
    var p := CloseAll(b).preorder;
    if b.preorder != [] {
      var last := ListIsWellformed(key, p, |p|);
      assert p[..|p|] == p;
    }
  }

  lemma {:induction false} NotCutIsAccepted(key: Hist -> string, es: seq<Event>)
    requires !CutsOff(es)
    ensures Accepted(key, es)
  {
    NotCutIsWellformed(key, es);
    var r := Finish(key, HandleAll(START, es));
    if r.Some? {
      WellformedDepths(r.value);
      ST.Accepts(r.value);
    }
  }

  // ---------------------------------------------------------------- texts do not matter

  predicate SameShape(b: Build, c: Build) {
    |b.preorder| == |c.preorder| && b.stack == c.stack && b.bodyDepth == c.bodyDepth
  }

  lemma {:induction false} SameStep(b: Build, c: Build, e: Event)
    requires Valid(b) && Valid(c) && SameShape(b, c)
    ensures SameShape(Handle(b, e), Handle(c, e))
    ensures e.Text? ==> SameShape(Handle(b, e), c)
  {
  }

  lemma {:induction false} TagsKeepShape(es: seq<Event>)
    ensures SameShape(HandleAll(START, es), HandleAll(START, Tags(es)))
  {
    if es != [] {
      var p, e := es[..|es| - 1], es[|es| - 1];
      TagsKeepShape(p);
      SameStep(HandleAll(START, p), HandleAll(START, Tags(p)), e);
      if e.Text? {
        assert Tags(es) == Tags(p);
      } else {
        HandleSnoc(START, Tags(p), e);
      }
    }
  }

  lemma {:induction false} TagsKeepCuts(es: seq<Event>)
    ensures CutsOff(es) <==> CutsOff(Tags(es))
  {
    if es != [] {
      var p, e := es[..|es| - 1], es[|es| - 1];
      TagsKeepCuts(p);
      TagsKeepShape(p);
      if e.Text? {
        assert Tags(es) == Tags(p);
      } else {
        assert Tags(es)[..|Tags(es)| - 1] == Tags(p);
      }
    }
  }

  // ---------------------------------------------------------------- a text that is lost

  /** Section q, cut off, holds all the words there are. */
  ghost predicate Quiet(b: Build, q: nat) {
    && Valid(b) && q < |b.preorder| && q !in b.stack
    && b.preorder[q].depth >= 2 && |b.preorder[q].hist| >= THRESHOLD
    && b.preorder[0].depth == 0 && (forall i :: 0 < i < |b.preorder| ==> b.preorder[i].depth >= 1)
    && forall i :: 0 <= i < |b.preorder| && i != q ==> b.preorder[i].hist == map[]
  }

  lemma {:induction false} CloseStaysQuiet(b: Build, q: nat)
    requires Quiet(b, q)
    ensures Quiet(CloseSection(b), q)
  {
    SumWithEmpty(map[]);
    if |b.stack| > 1 {
      assert b.stack[|b.stack| - 1] in b.stack && b.stack[|b.stack| - 2] in b.stack;
      assert forall i :: i in b.stack[..|b.stack| - 1] ==> i in b.stack;
    }
  }

  lemma {:induction false} BodyStaysQuiet(b: Build, q: nat)
    requires Quiet(b, q) && b.bodyDepth > 0 && b.stack == []
    ensures Quiet(OpenBody(b), q)
  {
  }

  lemma {:induction false} OpenStaysQuiet(b: Build, q: nat)
    requires Quiet(b, q) && b.stack != []
    ensures Quiet(OpenSection(b), q)
  {
    assert b.stack[|b.stack| - 1] in b.stack;
  }

  lemma {:induction false} StaysQuiet(b: Build, q: nat, e: Event)
    requires Quiet(b, q) && !e.Text?
    ensures Quiet(Handle(b, e), q)
  {
    if e.SectionEnd? { CloseStaysQuiet(b, q); }
    if e.SectionStart? && b.bodyDepth > 0 {
      if b.stack == [] { BodyStaysQuiet(b, q); }
      OpenStaysQuiet(if b.stack == [] then OpenBody(b) else b, q);
    }
  }

  lemma {:induction false} CloseAllStaysQuiet(b: Build, q: nat)
    requires Quiet(b, q)
    ensures Quiet(CloseAll(b), q)
    decreases |b.stack|
  {
    if |b.stack| > 1 {
      CloseStaysQuiet(b, q);
      CloseAllStaysQuiet(CloseSection(b), q);
    }
  }

  lemma {:induction false} QuietOne(key: Hist -> string, b: Build, q: nat, k: nat)
    requires Quiet(b, q) && 0 < k < |b.preorder|
    ensures ListedOne(key, b.preorder[k]) == if k == q then [SectionFor(key, b.preorder[k])] else []
  {
  }

  lemma {:induction false} FirstAndOne<T>(l: seq<T>, first: T, one: seq<T>)
    requires l == [first] + []
    ensures l + one == [first] + one
  {
  }

  lemma {:induction false} QuietFirst(key: Hist -> string, b: Build, q: nat)
    requires Quiet(b, q)
    ensures Listed(key, b.preorder[..1]) == [SectionFor(key, b.preorder[0])] + []
  {
    ListedNext(key, b.preorder, 0);
    assert b.preorder[..0] == [];
  }

  lemma {:induction false} QuietList(key: Hist -> string, b: Build, q: nat, n: nat)
    requires Quiet(b, q) && 0 < n <= |b.preorder|
    ensures var p := b.preorder;
            Listed(key, p[..n]) == [SectionFor(key, p[0])] + if q < n then [SectionFor(key, p[q])] else []
  {
    hide Listed, ListedOne, SectionFor;
    var p := b.preorder;
    if n == 1 {
      QuietFirst(key, b, q);
    } else {
      QuietList(key, b, q, n - 1);
      ListedNext(key, p, n - 1);
      QuietOne(key, b, q, n - 1);
      var l := Listed(key, p[..n - 1]);
      if q < n - 1 {
        assert l + [] == l;
      } else {
        FirstAndOne(l, SectionFor(key, p[0]), ListedOne(key, p[n - 1]));
      }
    }
  }

  lemma {:induction false} QuietIsRejected(key: Hist -> string, es: seq<Event>, q: nat)
    requires Quiet(HandleAll(START, es), q)
    ensures var r := Finish(key, HandleAll(START, es)); r.Some? && ST.Depths(r.value) && ST.TreeOf(r.value).None?
  {
    var b := CloseAll(HandleAll(START, es));
    CloseAllStaysQuiet(HandleAll(START, es), q);
    QuietList(key, b, q, |b.preorder|);
    assert b.preorder[..|b.preorder|] == b.preorder;
    ST.Accepts(Listed(key, b.preorder));
  }

  ghost predicate Blank(p: seq<Accumulator>) { forall i :: 0 <= i < |p| ==> p[i].hist == map[] }

  lemma {:induction false} TagIsBlank(b: Build, e: Event)
    requires Valid(b) && Blank(b.preorder) && !e.Text?
    ensures Blank(Handle(b, e).preorder)
  {
    SumWithEmpty(map[]);
    match e
    case BodyStart =>
    case BodyEnd =>
    case SectionStart =>
    case SectionEnd =>
  }

  /** Tags alone bring no words. */
  lemma {:induction false} TagsAreBlank(es: seq<Event>)
    requires Tags(es) == es
    ensures Blank(HandleAll(START, es).preorder)
  {
    if es != [] {
      hide Handle, Tags, Blank;
      NoTexts(es);
      TagsAreBlank(es[..|es| - 1]);
      TagIsBlank(HandleAll(START, es[..|es| - 1]), es[|es| - 1]);
    }
  }

  lemma {:induction false} TagsAreFewer(es: seq<Event>)
    ensures |Tags(es)| <= |es|
  {
    if es != [] { TagsAreFewer(es[..|es| - 1]); }
  }

  lemma {:induction false} NoTexts(es: seq<Event>)
    requires es != [] && Tags(es) == es
    ensures !es[|es| - 1].Text? && Tags(es[..|es| - 1]) == es[..|es| - 1]
  {
    TagsAreFewer(es[..|es| - 1]);
    assert Tags(es)[..|es| - 1] == es[..|es| - 1];
  }

  /** Words in an open section deep down, with no words anywhere else, before a body tag. */
  lemma {:induction false} CutOffIsQuiet(b: Build, words: seq<string>, e: Event) returns (q: nat)
    requires Inv(b) && Blank(b.preorder) && IsBodyTag(e) && |b.stack| > 2 && |Tally(words)| >= THRESHOLD
    ensures Quiet(Handle(AddText(b, words), e), q)
  {
    q := b.stack[|b.stack| - 1];
    assert b.preorder[q].depth == |b.stack| - 1;
    BelowRoot(b.preorder);
    SumWithEmpty(Tally(words));
    assert AddText(b, words).preorder == b.preorder[q := b.preorder[q].(hist := Tally(words))];
  }

  /** Text just before a body tag that cuts its section off. */
  lemma {:induction false} TextIsCutOff(p: seq<Event>, words: seq<string>, e: Event) returns (q: nat)
    requires Tags(p) == p && !CutsOff(p) && IsBodyTag(e) && |HandleAll(START, p).stack| > 2
    requires |Tally(words)| >= THRESHOLD
    ensures Quiet(HandleAll(START, p + [Text(words)] + [e]), q)
  {
    var b := HandleAll(START, p);
    StreamKeeps(p);
    TagsAreBlank(p);
    HandleSnoc(START, p, Text(words));
    HandleSnoc(START, p + [Text(words)], e);
    TextIsAdded(b, words);
    q := CutOffIsQuiet(b, words, e);
  }

  lemma {:induction false} TextIsAdded(b: Build, words: seq<string>)
    requires Inv(b) && b.stack != []
    ensures Handle(b, Text(words)) == AddText(b, words)
  {
  }

  lemma {:induction false} SomeTextIsLost(tags: seq<Event>, words: seq<string>) returns (es: seq<Event>, q: nat)
    requires Tags(tags) == tags && CutsOff(tags) && |Tally(words)| >= THRESHOLD
    ensures Tags(es) == tags && Quiet(HandleAll(START, es), q)
  {
    var p, e := tags[..|tags| - 1], tags[|tags| - 1];
    NoTexts(tags);
    if CutsOff(p) {
      es, q := SomeTextIsLost(p, words);
      HandleSnoc(START, es, e);
      StaysQuiet(HandleAll(START, es), q, e);
      TagsSnoc(es, e);
      es := es + [e];
    } else {
      q := TextIsCutOff(p, words, e);
      es := p + [Text(words)] + [e];
      TagsSnoc(p, Text(words));
      TagsSnoc(p + [Text(words)], e);
    }
  }

  lemma {:induction false} TagsSnoc(es: seq<Event>, e: Event)
    ensures Tags(es + [e]) == Tags(es) + if e.Text? then [] else [e]
  {
    assert (es + [e])[..|es|] == es;
  }

  function Repeat(n: nat): string { if n == 0 then "" else Repeat(n - 1) + "a" }

  lemma {:induction false} RepeatLength(n: nat)
    ensures |Repeat(n)| == n
  {
    if n > 0 { RepeatLength(n - 1); }
  }

  /** n different words. */
  function ManyWords(n: nat): seq<string> { if n == 0 then [] else ManyWords(n - 1) + [Repeat(n)] }

  lemma {:induction false} OneMoreWord(words: seq<string>, w: string)
    ensures w !in Tally(words) ==> |Tally(words + [w])| == |Tally(words)| + 1
    ensures forall v :: v in Tally(words + [w]) <==> v in Tally(words) || v == w
  {
    assert (words + [w])[..|words|] == words;
    var h, t := Tally(words), Tally(words + [w]);
    assert t.Keys == h.Keys + {w};
    assert |t| == |t.Keys| && |h| == |h.Keys|;
  }

  lemma {:induction false} ManyAreMany(n: nat)
    ensures |Tally(ManyWords(n))| == n
    ensures forall w :: w in Tally(ManyWords(n)) ==> |w| <= n
  {
    if n > 0 {
      hide Tally, Repeat;
      ManyAreMany(n - 1);
      RepeatLength(n);
      OneMoreWord(ManyWords(n - 1), Repeat(n));
    }
  }

  // ---------------------------------------------------------------- the condition

  /** A stream of tags gives an acceptable list for all texts that can stand in it exactly when no
      body starts or ends while two or more sections are open. */
  lemma {:induction false} TagsDecide(key: Hist -> string, tags: seq<Event>)
    requires Tags(tags) == tags
    ensures (forall es :: Tags(es) == tags ==> Accepted(key, es)) <==> !CutsOff(tags)
  {
    if CutsOff(tags) {
      ManyAreMany(THRESHOLD);
      var es, q := SomeTextIsLost(tags, ManyWords(THRESHOLD));
      QuietIsRejected(key, es, q);
    } else {
      forall es | Tags(es) == tags ensures Accepted(key, es) {
        TagsKeepCuts(es);
        NotCutIsAccepted(key, es);
      }
    }
  }

  // ---------------------------------------------------------------- over the packed text

  ghost predicate Low(b: Build, n: nat) {
    |b.stack| <= n && Shallow(b.preorder, n) && (b.bodyDepth > 0 ==> n > 0)
  }

  lemma {:induction false} OpenStaysLow(b: Build, n: nat)
    requires Valid(b) && Low(b, n) && b.bodyDepth > 0
    ensures Low(OpenSection(b), n + 1)
  {
    var o := if b.stack == [] then OpenBody(b) else b;
    assert Shallow(o.preorder, n) && |o.stack| <= n;
  }

  lemma {:induction false} StaysLow(b: Build, n: nat, e: Event)
    requires Valid(b) && Low(b, n)
    ensures Low(Handle(b, e), n + 1)
  {
    if e.SectionStart? && b.bodyDepth > 0 { OpenStaysLow(b, n); }
  }

  lemma {:induction false} StreamIsLow(es: seq<Event>)
    ensures Low(HandleAll(START, es), |es|)
  {
    if es != [] {
      StreamIsLow(es[..|es| - 1]);
      StaysLow(HandleAll(START, es[..|es| - 1]), |es| - 1, es[|es| - 1]);
    }
  }

  lemma {:induction false} CloseAllIsShallow(b: Build, n: nat)
    requires Valid(b) && Shallow(b.preorder, n)
    ensures Shallow(CloseAll(b).preorder, n)
    decreases |b.stack|
  {
    if |b.stack| > 1 { CloseAllIsShallow(CloseSection(b), n); }
  }

  /** A well-formed list stays one when the leaf flag of its root is cleared, and has a tree. */
  lemma {:induction false} PlainRootHasTree(list: seq<Section>) returns (tree: ST.Tree)
    requires ST.Wellformed(list)
    ensures ST.Depths(PlainRoot(list)) && ST.TreeOf(PlainRoot(list)) == Some(tree)
    ensures ST.Preorder(tree, 0) == PlainRoot(list)
  {
    var decoded := PlainRoot(list);
    assert ST.Wellformed(decoded);
    WellformedDepths(decoded);
    ST.Accepts(decoded);
    ST.TreeLists(decoded);
    tree := ST.TreeOf(decoded).value;
  }

  lemma {:induction false} ListOfStreamFits(key: Hist -> string, es: seq<Event>)
    requires Canonical16(key) && |es| <= MAX_INT && HandleAll(START, es).preorder != []
    ensures AllFit(Listed(key, CloseAll(HandleAll(START, es)).preorder), MAX_INT)
  {
    StreamIsLow(es);
    CloseAllIsShallow(HandleAll(START, es), |es|);
    ListedFits(key, CloseAll(HandleAll(START, es)).preorder, |es|);
  }

  /** The list of a stream that cuts nothing off can be packed, and what is unpacked is the list
      but for the leaf flag of its root, the preorder of the tree that is built from it. */
  lemma {:induction false} StreamRoundTrip(key: Hist -> string, es: seq<Event>) returns (payload: string, tree: ST.Tree)
    requires Canonical16(key) && !CutsOff(es) && |es| <= MAX_INT && Finish(key, HandleAll(START, es)).Some?
    ensures var list := Finish(key, HandleAll(START, es)).value;
            && Ints(list) && EncodeBody(list) == Ok(payload)
            && list != [] && DecodeBody(payload) == Ok(PlainRoot(list))
            && ST.Depths(PlainRoot(list)) && ST.TreeOf(PlainRoot(list)) == Some(tree)
            && ST.Preorder(tree, 0) == PlainRoot(list)
  {
    var list := Finish(key, HandleAll(START, es)).value;
    NotCutIsWellformed(key, es);
    ListOfStreamFits(key, es);
    payload := CodecKeeps(list);
    tree := PlainRootHasTree(list);
  }
}
