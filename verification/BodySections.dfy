/** The content of a body as a tree of texts and sections, and what the builder makes of its events. */
module BodySections {
  import opened Wrappers
  import opened Base64
  import opened Histograms
  import opened FingerprintCodec
  import opened BodyBuilder
  import ST = SectionTree

  /** The content of a body or section: texts and sections. */
  datatype Item = Words(words: seq<string>) | Sub(items: seq<Item>)

  function EventsOf(items: seq<Item>): seq<Event> {
    if items == [] then [] else EventsOf(items[..|items| - 1]) + EventsOfItem(items[|items| - 1])
  }

  function EventsOfItem(item: Item): seq<Event> {
    match item
    case Words(words) => [Text(words)]
    case Sub(items) => [SectionStart] + EventsOf(items) + [SectionEnd]
  }

  /** All words of a section, with those of its descendants. */
  function Total(items: seq<Item>): Hist {
    if items == [] then map[] else Sum(Total(items[..|items| - 1]), TotalOfItem(items[|items| - 1]))
  }

  function TotalOfItem(item: Item): Hist {
    match item
    case Words(words) => Tally(words)
    case Sub(items) => Total(items)
  }

  function NoSubs(items: seq<Item>): bool {
    items == [] || (NoSubs(items[..|items| - 1]) && items[|items| - 1].Words?)
  }

  /** The sections below a section, each before its own. */
  function Flat(items: seq<Item>, depth: nat): seq<Accumulator> {
    if items == [] then []
    else Flat(items[..|items| - 1], depth) + FlatItem(items[|items| - 1], depth)
  }

  function FlatItem(item: Item, depth: nat): seq<Accumulator> {
    match item
    case Words(_) => []
    case Sub(items) => [Accumulator(depth, Total(items), NoSubs(items))] + Flat(items, depth + 1)
  }

  /** The sections with enough words, as a tree: what is cut out goes with everything below it. */
  function Trees(key: Hist -> string, items: seq<Item>): seq<ST.Tree> {
    if items == [] then []
    else Trees(key, items[..|items| - 1]) + TreesOfItem(key, items[|items| - 1])
  }

  function TreesOfItem(key: Hist -> string, item: Item): seq<ST.Tree> {
    match item
    case Words(_) => []
    case Sub(items) =>
      if |Total(items)| >= THRESHOLD then [ST.Node(key(Total(items)), NoSubs(items), Trees(key, items))] else []
  }

  // ---------------------------------------------------------------- what the builder does

  lemma {:induction false} HandleAppend(b: Build, es: seq<Event>, more: seq<Event>)
    requires Valid(b)
    ensures HandleAll(b, es + more) == HandleAll(HandleAll(b, es), more)
  {
    if more == [] {
      assert es + more == es;
    } else {
      HandleAppend(b, es, more[..|more| - 1]);
      assert (es + more)[..|es + more| - 1] == es + more[..|more| - 1];
    }
  }

  lemma {:induction false} HandleOne(b: Build, e: Event)
    requires Valid(b)
    ensures HandleAll(b, [e]) == Handle(b, e)
  {
    assert [e][..0] == [];
  }

  ghost predicate InBody(b: Build) { Valid(b) && b.bodyDepth > 0 && b.stack != [] }

  function Top(b: Build): nat
    requires b.stack != []
  {
    b.stack[|b.stack| - 1]
  }

  /** The builder after reading some content of its open section. */
  function After(b: Build, items: seq<Item>): Build
    requires Valid(b) && b.stack != []
  {
    var a := b.preorder[Top(b)];
    b.(preorder := b.preorder[Top(b) := Accumulator(a.depth, Sum(a.hist, Total(items)), a.leaf && NoSubs(items))]
                   + Flat(items, |b.stack|))
  }

  lemma {:induction false} AfterNothing(b: Build)
    requires InBody(b)
    ensures After(b, []) == b
  {
    SumWithEmpty(b.preorder[Top(b)].hist);
    assert After(b, []).preorder == b.preorder;
  }

  lemma {:induction false} ReadItem(b: Build, rest: seq<Item>, item: Item)
    requires InBody(b)
    ensures HandleAll(After(b, rest), EventsOfItem(item)) == After(b, rest + [item])
    decreases item, 2
  {
    hide After, Handle, HandleAll;
    match item
    case Words(words) => ReadWords(b, rest, words);
    case Sub(sub) => ReadSub(b, rest, sub);
  }

  /** Reading content adds its words to the open section and appends its sections. */
  lemma {:induction false} ReadItems(b: Build, items: seq<Item>)
    requires InBody(b)
    ensures HandleAll(b, EventsOf(items)) == After(b, items)
    decreases items, 0
  {
    hide After, Handle;
    if items == [] {
      AfterNothing(b);
    } else {
      var rest, item := items[..|items| - 1], items[|items| - 1];
      assert items == rest + [item];
      ReadItems(b, rest);
      HandleAppend(b, EventsOf(rest), EventsOfItem(item));
      ReadItem(b, rest, item);
    }
  }

  /** The builder after one more item. */
  function AfterItem(b: Build, item: Item): Build
    requires Valid(b) && b.stack != []
  {
    var a := b.preorder[Top(b)];
    b.(preorder := b.preorder[Top(b) := Accumulator(a.depth, Sum(a.hist, TotalOfItem(item)), a.leaf && item.Words?)]
                   + FlatItem(item, |b.stack|))
  }

  lemma {:induction false} AfterSnoc(b: Build, rest: seq<Item>, item: Item)
    requires InBody(b)
    ensures After(b, rest + [item]) == AfterItem(After(b, rest), item)
  {
    hide Sum;
    assert (rest + [item])[..|rest|] == rest;
    SumIsAssociative(b.preorder[Top(b)].hist, Total(rest), TotalOfItem(item));
  }

  lemma {:induction false} ReadWords(b: Build, rest: seq<Item>, words: seq<string>)
    requires InBody(b)
    ensures HandleAll(After(b, rest), [Text(words)]) == After(b, rest + [Words(words)])
  {
    var r := After(b, rest);
    AfterSnoc(b, rest, Words(words));
    HandleOne(r, Text(words));
    assert AfterItem(r, Words(words)).preorder == AddText(r, words).preorder;
  }

  lemma {:induction false} ReadSub(b: Build, rest: seq<Item>, sub: seq<Item>)
    requires InBody(b)
    ensures HandleAll(After(b, rest), EventsOfItem(Sub(sub))) == After(b, rest + [Sub(sub)])
    decreases sub, 1
  {
    var r := After(b, rest);
    var open := OpenSection(r);
    HandleOne(r, SectionStart);
    HandleAppend(r, [SectionStart], EventsOf(sub));
    HandleAppend(r, [SectionStart] + EventsOf(sub), [SectionEnd]);
    ReadItems(open, sub);
    HandleOne(After(open, sub), SectionEnd);
    AfterSnoc(b, rest, Sub(sub));
    SubCloses(r, sub);
  }

  /** The builder when the content of a new section has been read. */
  function Full(r: Build, sub: seq<Item>): Build
    requires InBody(r)
  {
    var a := r.preorder[Top(r)].(leaf := false);
    var section := Accumulator(|r.stack|, Total(sub), NoSubs(sub));
    Build((r.preorder[Top(r) := a] + [Accumulator(|r.stack|, map[], true)])[|r.preorder| := section]
            + Flat(sub, |r.stack| + 1),
          r.stack + [|r.preorder|], r.bodyDepth)
  }

  lemma {:induction false} OpenedIs(r: Build, sub: seq<Item>)
    requires InBody(r)
    ensures After(OpenSection(r), sub) == Full(r, sub)
  {
    SumWithEmpty(Total(sub));
    var open := OpenSection(r);
    assert Top(open) == |r.preorder| && |open.stack| == |r.stack| + 1;
    assert open.preorder[Top(open)] == Accumulator(|r.stack|, map[], true);
  }

  /** Opening a section, reading its content and closing it. */
  lemma {:induction false} SubCloses(r: Build, sub: seq<Item>)
    requires InBody(r)
    ensures CloseSection(After(OpenSection(r), sub)) == AfterItem(r, Sub(sub))
  {
    OpenedIs(r, sub);
    var t, n := Top(r), |r.preorder|;
    var a := r.preorder[t];
    var section := Accumulator(|r.stack|, Total(sub), NoSubs(sub));
    Nested(r.preorder, t, a.(leaf := false), Accumulator(|r.stack|, map[], true), section,
           Flat(sub, |r.stack| + 1), Accumulator(a.depth, Sum(a.hist, Total(sub)), false));
    var full := Full(r, sub);
    assert full.stack[..|full.stack| - 1] == r.stack && full.stack[|full.stack| - 2] == t;
  }

  lemma {:induction false} Nested(p: seq<Accumulator>, t: nat, open: Accumulator, blank: Accumulator,
      section: Accumulator,
               below: seq<Accumulator>, closed: Accumulator)
    requires t < |p|
    ensures var full := (p[t := open] + [blank])[|p| := section] + below;
            && full[t] == open && full[|p|] == section
            && full[t := closed] == p[t := closed] + ([section] + below)
  {
  }
}
