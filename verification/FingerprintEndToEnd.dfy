/** The whole way of a fingerprint: book, events, builder, section list, packed text, section
    list, tree. */
module FingerprintEndToEnd {
  import opened Wrappers
  import opened Base64
  import opened Histograms
  import opened FingerprintCodec
  import opened BodyBuilder
  import opened BodySections
  import RankedWords
  import ST = SectionTree

  // ---------------------------------------------------------------- books

  /** The bodies of a book follow each other; sections are closed before their body is. */
  function BookEvents(bodies: seq<seq<Item>>): seq<Event> {
    if bodies == [] then []
    else BookEvents(bodies[..|bodies| - 1]) + ([BodyStart] + EventsOf(bodies[|bodies| - 1]) + [BodyEnd])
  }

  /** The content of all bodies. */
  function Content(bodies: seq<seq<Item>>): seq<Item> {
    if bodies == [] then [] else Content(bodies[..|bodies| - 1]) + bodies[|bodies| - 1]
  }

  const START: Build := Build([], [], 0)

  function Root(items: seq<Item>): Accumulator { Accumulator(0, Total(items), NoSubs(items)) }

  lemma {:induction false} Regroup<T>(a: seq<T>, b: seq<T>, c: seq<T>)
    ensures a + b + c == a + (b + c)
  {
  }

  lemma {:induction false} AppendTotals(a: seq<Item>, b: seq<Item>)
    ensures Total(a + b) == Sum(Total(a), Total(b))
    ensures NoSubs(a + b) == (NoSubs(a) && NoSubs(b))
  {
    if b == [] {
      assert a + b == a;
      SumWithEmpty(Total(a));
    } else {
      var rest, item := b[..|b| - 1], b[|b| - 1];
      AppendTotals(a, rest);
      assert (a + b)[..|a + b| - 1] == a + rest;
      SumIsAssociative(Total(a), Total(rest), TotalOfItem(item));
    }
  }

  lemma {:induction false} AppendFlat(a: seq<Item>, b: seq<Item>, depth: nat)
    ensures Flat(a + b, depth) == Flat(a, depth) + Flat(b, depth)
  {
    if b == [] {
      assert a + b == a;
    } else {
      var rest, item := b[..|b| - 1], b[|b| - 1];
      AppendFlat(a, rest, depth);
      assert (a + b)[..|a + b| - 1] == a + rest;
      Regroup(Flat(a, depth), Flat(rest, depth), FlatItem(item, depth));
    }
  }

  /** After a book the builder holds its root and all its sections. */
  lemma {:induction false} ReadBook(bodies: seq<seq<Item>>)
    ensures var r := HandleAll(START, BookEvents(bodies));
            && r.stack == [] && r.bodyDepth == 0
            && r.preorder == if bodies == [] then [] else [Root(Content(bodies))] + Flat(Content(bodies), 1)
  {
    if bodies != [] {
      var rest, body := bodies[..|bodies| - 1], bodies[|bodies| - 1];
      ReadBook(rest);
      HandleAppend(START, BookEvents(rest), [BodyStart] + EventsOf(body) + [BodyEnd]);
      ReadBody(HandleAll(START, BookEvents(rest)), if rest == [] then [] else Content(rest), body);
      assert rest == [] ==> Content(rest) == [];
    }
  }

  lemma {:induction false} ReadBody(b: Build, before: seq<Item>, body: seq<Item>)
    requires b.stack == [] && b.bodyDepth == 0
    requires b.preorder == if b.preorder == [] then [] else [Root(before)] + Flat(before, 1)
    requires b.preorder == [] ==> before == []
    ensures var r := HandleAll(b, [BodyStart] + EventsOf(body) + [BodyEnd]);
            r == Build([Root(before + body)] + Flat(before + body, 1), [], 0)
  {
    var open := OpenBody(b);
    HandleOne(b, BodyStart);
    HandleAppend(b, [BodyStart], EventsOf(body));
    HandleAppend(b, [BodyStart] + EventsOf(body), [BodyEnd]);
    ReadItems(open, body);
    HandleOne(After(open, body), BodyEnd);
    AfterBody(open, before, body);
  }

  lemma {:induction false} AfterBody(open: Build, before: seq<Item>, body: seq<Item>)
    requires open == Build([Root(before)] + Flat(before, 1), [0], 1)
    ensures After(open, body).preorder == [Root(before + body)] + Flat(before + body, 1)
  {
    AppendTotals(before, body);
    AppendFlat(before, body, 1);
    assert open.preorder[0 := Root(before + body)] == [Root(before + body)] + Flat(before, 1);
    Regroup([Root(before + body)], Flat(before, 1), Flat(body, 1));
  }

  // ---------------------------------------------------------------- pruning

  lemma {:induction false} ListedAppend(key: Hist -> string, a: seq<Accumulator>, b: seq<Accumulator>)
    ensures Listed(key, a + b) == Listed(key, a) + Listed(key, b)
  {
    if b == [] {
      assert a + b == a;
    } else {
      ListedAppend(key, a, b[..|b| - 1]);
      assert (a + b)[..|a + b| - 1] == a + b[..|b| - 1];
      Regroup(Listed(key, a), Listed(key, b[..|b| - 1]), ListedOne(key, b[|b| - 1]));
    }
  }

  lemma {:induction false} ListedHead(key: Hist -> string, head: Accumulator, rest: seq<Accumulator>)
    ensures Listed(key, [head] + rest) == ListedOne(key, head) + Listed(key, rest)
  {
    ListedAppend(key, [head], rest);
    assert [head][..0] == [];
  }

  lemma {:induction false} Fewer(a: Hist, b: Hist)
    requires a.Keys <= b.Keys
    ensures |a| <= |b|
  {
    assert |b.Keys| == |a.Keys| + |b.Keys - a.Keys| by { assert b.Keys == a.Keys + (b.Keys - a.Keys); }
  }

  /** Histograms merge upward: a section below the threshold has none above it below. */
  lemma {:induction false} NothingKept(key: Hist -> string, items: seq<Item>, depth: nat)
    requires |Total(items)| < 100 && depth > 0
    ensures Listed(key, Flat(items, depth)) == []
    decreases items
  {
    if items != [] {
      var rest, item := items[..|items| - 1], items[|items| - 1];
      Fewer(Total(rest), Total(items));
      NothingKept(key, rest, depth);
      ListedAppend(key, Flat(rest, depth), FlatItem(item, depth));
      match item
      case Words(_) =>
      case Sub(sub) =>
        Fewer(Total(sub), Total(items));
        NothingKept(key, sub, depth + 1);
        ListedHead(key, Accumulator(depth, Total(sub), NoSubs(sub)), Flat(sub, depth + 1));
    }
  }

  /** The finished list is the preorder of the tree of sections with enough words. */
  lemma {:induction false} ListedIsPreorder(key: Hist -> string, items: seq<Item>, depth: nat)
    requires depth > 0
    ensures Listed(key, Flat(items, depth)) == ST.PreorderAll(Trees(key, items), depth)
    decreases items, 0
  {
    if items != [] {
      var rest, item := items[..|items| - 1], items[|items| - 1];
      ListedIsPreorder(key, rest, depth);
      ListedAppend(key, Flat(rest, depth), FlatItem(item, depth));
      ListedItemIsPreorder(key, item, depth);
      PreorderAppend(Trees(key, rest), TreesOfItem(key, item), depth);
    }
  }

  lemma {:induction false} PreorderAppend(ts: seq<ST.Tree>, us: seq<ST.Tree>, depth: int)
    requires |us| <= 1
    ensures ST.PreorderAll(ts + us, depth) == ST.PreorderAll(ts, depth) + ST.PreorderAll(us, depth)
  {
    if us == [] {
      assert ts + us == ts;
    } else {
      assert (ts + us)[..|ts|] == ts && us[..0] == [];
    }
  }

  lemma {:induction false} ListedItemIsPreorder(key: Hist -> string, item: Item, depth: nat)
    requires depth > 0
    ensures Listed(key, FlatItem(item, depth)) == ST.PreorderAll(TreesOfItem(key, item), depth)
    decreases item, 1
  {
    match item
    case Words(_) =>
    case Sub(sub) =>
      var head := Accumulator(depth, Total(sub), NoSubs(sub));
      ListedHead(key, head, Flat(sub, depth + 1));
      if Kept(head) {
        ListedIsPreorder(key, sub, depth + 1);
        PreorderOne(ST.Node(key(Total(sub)), NoSubs(sub), Trees(key, sub)), depth);
      } else {
        NothingKept(key, sub, depth + 1);
      }
  }

  lemma {:induction false} PreorderOne(t: ST.Tree, depth: int)
    ensures ST.PreorderAll([t], depth) == [Section(depth, t.key, t.leaf)] + ST.PreorderAll(t.children, depth + 1)
  {
    assert [t][..0] == [];
  }

  // ---------------------------------------------------------------- the way back

  /** How deep sections nest. */
  function Height(items: seq<Item>): nat {
    if items == [] then 0 else Max(Height(items[..|items| - 1]), HeightOfItem(items[|items| - 1]))
  }

  function HeightOfItem(item: Item): nat {
    match item
    case Words(_) => 0
    case Sub(items) => Height(items) + 1
  }

  function Max(a: nat, b: nat): nat { if a < b then b else a }

  ghost predicate Canonical16(key: Hist -> string) { forall h :: CanonicalKey(key(h)) }

  /** Keys made with MD5 are canonical. */
  lemma {:induction false} DigestKeys(md5: string -> seq<Byte>)
    requires IsDigest(md5)
    ensures Canonical16(KeyOf(md5))
  {
    forall h ensures CanonicalKey(KeyOf(md5)(h)) {
      var bytes := md5(Joined(RankedWords.FirstTen(h)));
      assert |bytes| == 16 && KeyOf(md5)(h) == Encode(bytes);
    }
  }

  ghost predicate Fits(s: Section, bound: int) { CanonicalKey(s.key) && 0 <= s.depth <= bound }

  ghost predicate AllFit(sections: seq<Section>, bound: int) {
    forall i :: 0 <= i < |sections| ==> Fits(sections[i], bound)
  }

  ghost predicate Shallow(all: seq<Accumulator>, bound: int) {
    forall i :: 0 <= i < |all| ==> all[i].depth <= bound
  }

  lemma {:induction false} DepthsAreBounded(items: seq<Item>, depth: nat, bound: int)
    requires depth + Height(items) <= bound + 1
    ensures Shallow(Flat(items, depth), bound)
    decreases items
  {
    if items != [] {
      var item := items[|items| - 1];
      DepthsAreBounded(items[..|items| - 1], depth, bound);
      if item.Sub? {
        assert Height(items) >= Height(item.items) + 1;
        DepthsAreBounded(item.items, depth + 1, bound);
      }
      assert Shallow(FlatItem(item, depth), bound);
    }
  }

  lemma {:induction false} ListedFits(key: Hist -> string, all: seq<Accumulator>, bound: int)
    requires Canonical16(key) && Shallow(all, bound)
    ensures AllFit(Listed(key, all), bound)
  {
    if all != [] {
      ListedFits(key, all[..|all| - 1], bound);
      var s := SectionFor(key, all[|all| - 1]);
      assert CanonicalKey(s.key);
    }
  }

  lemma {:induction false} KeyIsPackable(key: string)
    requires CanonicalKey(key)
    ensures KeyBytes(key).Ok? && Encode(KeyBytes(key).value) == key
  {
    var bytes: seq<Byte> :| |bytes| == 16 && key == Encode(bytes);
    Base64.RoundTrip(bytes);
    CanonicalKeyKept(key);
  }

  lemma {:induction false} FitsRecodes(s: Section, first: bool)
    requires Fits(s, MAX_INT) && (first ==> s.depth == 0)
    ensures Packable(s, first) && Recoded(s, first) == if first then s.(leaf := false) else s
  {
    KeyIsPackable(s.key);
  }

  lemma {:induction false} AllFitPackable(sections: seq<Section>)
    requires AllFit(sections, MAX_INT)
    ensures Ints(sections) && AllPackable(sections)
  {
    forall i | 0 <= i < |sections| ensures Packable(sections[i], i == 0) {
      FitsRecodes(sections[i], false);
    }
  }

  /** The list with the leaf flag of its root cleared. */
  function PlainRoot(sections: seq<Section>): seq<Section>
    requires sections != []
  {
    [sections[0].(leaf := false)] + sections[1..]
  }

  lemma {:induction false} RecodedList(sections: seq<Section>, decoded: seq<Section>)
    requires AllFit(sections, MAX_INT) && sections != [] && sections[0].depth == 0
    requires |decoded| == |sections|
    requires forall i :: 0 <= i < |sections| ==>
      KeyBytes(sections[i].key).Ok? && decoded[i] == Recoded(sections[i], i == 0)
    ensures decoded == PlainRoot(sections)
  {
    forall i | 0 <= i < |sections| ensures decoded[i] == PlainRoot(sections)[i] {
      FitsRecodes(sections[i], i == 0);
    }
  }

  /** A list of canonical sections comes back from the codec with only its root changed. */
  lemma {:induction false} CodecKeeps(sections: seq<Section>) returns (payload: string)
    requires AllFit(sections, MAX_INT) && sections != [] && sections[0].depth == 0
    ensures Ints(sections) && EncodeBody(sections) == Ok(payload)
    ensures DecodeBody(payload) == Ok(PlainRoot(sections))
  {
    AllFitPackable(sections);
    var decoded := FingerprintCodec.RoundTrip(sections);
    RecodedList(sections, decoded);
    payload := EncodeBody(sections).value;
  }

  /** The tree of a book: its root, always kept, and below it the sections with enough words. */
  ghost function BookTree(key: Hist -> string, items: seq<Item>, leaf: bool): ST.Tree {
    ST.Node(key(Total(items)), leaf, Trees(key, items))
  }

  /** What the builder finishes with for a book with at least one body. */
  lemma {:induction false} FinishedList(key: Hist -> string, bodies: seq<seq<Item>>)
    requires bodies != []
    ensures Finish(key, HandleAll(START, BookEvents(bodies)))
         == Some(ST.Preorder(BookTree(key, Content(bodies), NoSubs(Content(bodies))), 0))
  {
    var items := Content(bodies);
    ReadBook(bodies);
    ListedHead(key, Root(items), Flat(items, 1));
    ListedIsPreorder(key, items, 1);
  }

  lemma {:induction false} ListFits(key: Hist -> string, items: seq<Item>, leaf: bool)
    requires Canonical16(key) && Height(items) <= MAX_INT
    ensures AllFit(ST.Preorder(BookTree(key, items, leaf), 0), MAX_INT)
  {
    ListedIsPreorder(key, items, 1);
    DepthsAreBounded(items, 1, MAX_INT);
    ListedFits(key, Flat(items, 1), MAX_INT);
    assert CanonicalKey(key(Total(items)));
  }

  /** For every book the builder's list can be packed, the packed text decodes, the decoded list
      is never rejected, and the tree rebuilt from it is the book's section tree cut down to the
      sections with at least THRESHOLD distinct words. */
  lemma {:induction false} BookRoundTrip(key: Hist -> string, bodies: seq<seq<Item>>)
    returns (sections: seq<Section>, payload: string, decoded: seq<Section>)
    requires Canonical16(key) && bodies != [] && Height(Content(bodies)) <= MAX_INT
    ensures Finish(key, HandleAll(START, BookEvents(bodies))) == Some(sections)
    ensures Ints(sections) && EncodeBody(sections) == Ok(payload)
    ensures DecodeBody(payload) == Ok(decoded)
    ensures ST.Depths(decoded) && ST.TreeOf(decoded) == Some(BookTree(key, Content(bodies), false))
  {
    var items := Content(bodies);
    FinishedList(key, bodies);
    sections := ST.Preorder(BookTree(key, items, NoSubs(items)), 0);
    ListFits(key, items, NoSubs(items));
    payload := CodecKeeps(sections);
    decoded := PlainRoot(sections);
    assert decoded == ST.Preorder(BookTree(key, items, false), 0);
    ST.RebuildsTree(BookTree(key, items, false));
  }

  /** The same with the keys the program makes. */
  lemma {:induction false} FingerprintRoundTrip(md5: string -> seq<Byte>, bodies: seq<seq<Item>>)
    returns (sections: seq<Section>, payload: string, decoded: seq<Section>)
    requires IsDigest(md5) && bodies != [] && Height(Content(bodies)) <= MAX_INT
    ensures Finish(KeyOf(md5), HandleAll(START, BookEvents(bodies))) == Some(sections)
    ensures Ints(sections) && EncodeBody(sections) == Ok(payload) && DecodeBody(payload) == Ok(decoded)
    ensures ST.Depths(decoded) && ST.TreeOf(decoded) == Some(BookTree(KeyOf(md5), Content(bodies), false))
  {
    DigestKeys(md5);
    sections, payload, decoded := BookRoundTrip(KeyOf(md5), bodies);
  }

  // ---------------------------------------------------------------- a body that ends early

  lemma {:induction false} HandleSnoc(b: Build, es: seq<Event>, e: Event)
    requires Valid(b)
    ensures HandleAll(b, es + [e]) == Handle(HandleAll(b, es), e)
  {
    HandleAppend(b, es, [e]);
    HandleOne(HandleAll(b, es), e);
  }

  /** A body that ends inside two open sections. */
  function EarlyEnd(words: seq<string>): seq<Event> {
    [BodyStart] + [SectionStart] + [SectionStart] + [Text(words)] + [BodyEnd]
  }

  lemma {:induction false} ReadEarlyEnd(words: seq<string>)
    ensures HandleAll(START, EarlyEnd(words))
         == Build([Accumulator(0, map[], false), Accumulator(1, map[], false),
                   Accumulator(2, Tally(words), true)], [], 0)
  {
    HandleOne(START, BodyStart);
    HandleSnoc(START, [BodyStart], SectionStart);
    HandleSnoc(START, [BodyStart] + [SectionStart], SectionStart);
    HandleSnoc(START, [BodyStart] + [SectionStart] + [SectionStart], Text(words));
    HandleSnoc(START, [BodyStart] + [SectionStart] + [SectionStart] + [Text(words)], BodyEnd);
    SumWithEmpty(Tally(words));
  }

  lemma {:induction false} ListedThree(key: Hist -> string, a: Accumulator, b: Accumulator, c: Accumulator)
    ensures Listed(key, [a, b, c]) == ListedOne(key, a) + ListedOne(key, b) + ListedOne(key, c)
  {
    hide ListedOne;
    assert [a][..0] == [] && Listed(key, [a]) == ListedOne(key, a);
    assert [a, b][..1] == [a] && Listed(key, [a, b]) == Listed(key, [a]) + ListedOne(key, b);
    assert [a, b, c][..2] == [a, b];
  }

  lemma {:induction false} FinishEarlyEnd(key: Hist -> string, h: Hist) returns (sections: seq<Section>)
    requires |h| >= THRESHOLD
    ensures var all := [Accumulator(0, map[], false), Accumulator(1, map[], false), Accumulator(2, h, true)];
            Valid(Build(all, [], 0)) && Finish(key, Build(all, [], 0)) == Some(sections)
    ensures |sections| == 2 && sections[0].depth == 0 && sections[1].depth == 2
  {
    var root, outer, inner := Accumulator(0, map[], false), Accumulator(1, map[], false), Accumulator(2, h, true);
    ListedThree(key, root, outer, inner);
    sections := [SectionFor(key, root), SectionFor(key, inner)];
    assert sections == ListedOne(key, root) + ListedOne(key, outer) + ListedOne(key, inner);
  }

  /** If a body ends while sections are open, their words never reach the sections above them:
      the list can then be one that is rejected. */
  lemma {:induction false} EarlyEndIsRejected(key: Hist -> string, words: seq<string>)
    requires |Tally(words)| >= THRESHOLD
    ensures var sections := Finish(key, HandleAll(START, EarlyEnd(words)));
            sections.Some? && ST.Depths(sections.value) && ST.TreeOf(sections.value) == None
  {
    hide HandleAll, Finish, SectionFor, Tally;
    ReadEarlyEnd(words);
    var sections := FinishEarlyEnd(key, Tally(words));
    ST.Accepts(sections);
  }
}
