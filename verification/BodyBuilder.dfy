/** `bodyFingerprintBuilder`: from the events of an FB2 body to the list of its sections. */
module BodyBuilder {
  import opened Wrappers
  import opened Base64
  import opened Histograms
  import RankedWords
  import opened FingerprintCodec

  const THRESHOLD: nat := 100

  /** A section accumulator; `leaf` says it has no children yet. */
  datatype Accumulator = Accumulator(depth: nat, hist: Hist, leaf: bool)

  /** The fields of the builder; the stack holds positions in `preorder`, whose first entry is the root. */
  datatype Build = Build(preorder: seq<Accumulator>, stack: seq<nat>, bodyDepth: nat)

  predicate Valid(b: Build) {
    && (forall i :: 0 <= i < |b.stack| ==> b.stack[i] < |b.preorder|)
    && (b.stack != [] ==> b.preorder != [])
  }

  function OpenBody(b: Build): Build {
    Build(if b.preorder == [] then [Accumulator(0, map[], true)] else b.preorder, [0], b.bodyDepth + 1)
  }

  function CloseBody(b: Build): Build {
    Build(b.preorder, [], if b.bodyDepth > 0 then b.bodyDepth - 1 else 0)
  }

  function OpenSection(b: Build): Build
    requires Valid(b)
  {
    var o := if b.stack == [] then OpenBody(b) else b;
    var parent := o.stack[|o.stack| - 1];
    o.(preorder := o.preorder[parent := o.preorder[parent].(leaf := false)] + [Accumulator(|o.stack|, map[], true)],
       stack := o.stack + [|o.preorder|])
  }

  function CloseSection(b: Build): Build
    requires Valid(b)
  {
    if |b.stack| <= 1 then b
    else
      var section, parent := b.stack[|b.stack| - 1], b.stack[|b.stack| - 2];
      var hist := Sum(b.preorder[parent].hist, b.preorder[section].hist);
      b.(preorder := b.preorder[parent := b.preorder[parent].(hist := hist)], stack := b.stack[..|b.stack| - 1])
  }

  function AddText(b: Build, words: seq<string>): Build
    requires Valid(b)
  {
    if b.stack == [] then b
    else
      var section := b.stack[|b.stack| - 1];
      var hist := Sum(b.preorder[section].hist, Tally(words));
      b.(preorder := b.preorder[section := b.preorder[section].(hist := hist)])
  }

  /** Start and end tags and text, as the parser passes them on; text is given by its words. */
  datatype Event = BodyStart | BodyEnd | SectionStart | SectionEnd | Text(words: seq<string>)

  /** What `parseWithBodyFingerprints` does with an event: outside of bodies only a body start counts. */
  function Handle(b: Build, e: Event): (r: Build)
    requires Valid(b)
    ensures Valid(r)
  {
    match e
    case BodyStart => OpenBody(b)
    case BodyEnd => if b.bodyDepth > 0 then CloseBody(b) else b
    case SectionStart => if b.bodyDepth > 0 then OpenSection(b) else b
    case SectionEnd => if b.bodyDepth > 0 then CloseSection(b) else b
    case Text(words) => if b.bodyDepth > 0 then AddText(b, words) else b
  }

  function HandleAll(b: Build, es: seq<Event>): (r: Build)
    requires Valid(b)
    ensures Valid(r)
  {
    if es == [] then b else Handle(HandleAll(b, es[..|es| - 1]), es[|es| - 1])
  }

  // ---------------------------------------------------------------- the finished list

  function Joined(words: seq<RankedWords.Ranked>): string {
    if words == [] then "" else Joined(words[..|words| - 1]) + words[|words| - 1].word
  }

  /** MD5 stands for any function to 16 bytes. */
  ghost predicate IsDigest(md5: string -> seq<Byte>) { forall s :: |md5(s)| == 16 }

  ghost function Key(md5: string -> seq<Byte>, h: Hist): string {
    Encode(md5(Joined(RankedWords.FirstTen(h))))
  }

  /** The words one after the other. */
  function Concat(words: seq<string>): string { if words == [] then "" else words[0] + Concat(words[1..]) }

  lemma {:induction false} ConcatSnoc(words: seq<string>, word: string)
    ensures Concat(words + [word]) == Concat(words) + word
  {
    if words != [] {
      ConcatSnoc(words[1..], word);
      assert (words + [word])[1..] == words[1..] + [word];
    } else {
      assert [word][1..] == [];
    }
  }

  lemma {:induction false} JoinedIsConcat(h: Hist, words: seq<string>)
    requires forall w <- words :: w in h
    ensures Joined(RankedWords.RankAll(h, words)) == Concat(words)
  {
    if words != [] {
      var front, last := words[..|words| - 1], words[|words| - 1];
      JoinedIsConcat(h, front);
      ConcatSnoc(front, last);
      assert words == front + [last];
      assert RankedWords.RankAll(h, words)[..|words| - 1] == RankedWords.RankAll(h, front);
    }
  }

  /** What a section's key is the digest of: its first words, without anything between them. */
  lemma {:induction false} KeyIsDigest(md5: string -> seq<Byte>, h: Hist, words: seq<string>)
    requires RankedWords.FirstWords(h, words)
    ensures Key(md5, h) == Encode(md5(Concat(words)))
  {
    RankedWords.FirstIsTop(h, words);
    JoinedIsConcat(h, words);
  }

  predicate Kept(a: Accumulator) { a.depth == 0 || |a.hist| >= THRESHOLD }

  ghost function KeyOf(md5: string -> seq<Byte>): Hist -> string { h => Key(md5, h) }

  function SectionFor(key: Hist -> string, a: Accumulator): Section {
    Section(a.depth, key(a.hist), a.leaf)
  }

  function ListedOne(key: Hist -> string, a: Accumulator): seq<Section> {
    if Kept(a) then [SectionFor(key, a)] else []
  }

  function Listed(key: Hist -> string, all: seq<Accumulator>): seq<Section> {
    if all == [] then [] else Listed(key, all[..|all| - 1]) + ListedOne(key, all[|all| - 1])
  }

  lemma {:induction false} ListedNext(key: Hist -> string, p: seq<Accumulator>, n: nat)
    requires n < |p|
    ensures Listed(key, p[..n + 1]) == Listed(key, p[..n]) + ListedOne(key, p[n])
  {
    assert p[..n + 1][..n] == p[..n];
  }

  /** Which sections are listed: the root of a body, and those with a hundred different words. */
  lemma {:induction false} ListedIs(md5: string -> seq<Byte>, all: seq<Accumulator>, a: Accumulator)
    ensures Listed(KeyOf(md5), all + [a]) == Listed(KeyOf(md5), all)
         + if a.depth == 0 || |a.hist| >= 100 then [Section(a.depth, Key(md5, a.hist), a.leaf)] else []
  {
    assert (all + [a])[..|all|] == all;
  }

  /** What is still open is closed first. */
  function CloseAll(b: Build): (r: Build)
    requires Valid(b)
    ensures Valid(r)
    decreases |b.stack|
  {
    if |b.stack| <= 1 then b else CloseAll(CloseSection(b))
  }

  /** `finish`, for a way to make keys from histograms. */
  function Finish(key: Hist -> string, b: Build): Option<seq<Section>>
    requires Valid(b)
  {
    if b.preorder == [] then None else Some(Listed(key, CloseAll(b).preorder))
  }

  class Builder {
    var preorder: seq<Accumulator>
    var stack: seq<nat>
    var bodyDepth: nat

    constructor ()
      ensures Now() == Build([], [], 0)
    {
      preorder, stack, bodyDepth := [], [], 0;
    }

    function Now(): Build
      reads this
    {
      Build(preorder, stack, bodyDepth)
    }

    method StartBody()
      modifies this
      ensures Now() == OpenBody(old(Now()))
    {
      if preorder == [] { preorder := [Accumulator(0, map[], true)]; }
      bodyDepth := bodyDepth + 1;
      stack := [0];
    }

    method EndBody()
      modifies this
      ensures Now() == CloseBody(old(Now()))
    {
      if bodyDepth > 0 { bodyDepth := bodyDepth - 1; }
      stack := [];
    }

    method StartSection()
      requires Valid(Now())
      modifies this
      ensures Now() == OpenSection(old(Now()))
    {
      if stack == [] { StartBody(); }
      var parent := stack[|stack| - 1];
      var section := Accumulator(|stack|, map[], true);
      stack := stack + [|preorder|];
      preorder := preorder[parent := preorder[parent].(leaf := false)] + [section];
    }

    method EndSection()
      requires Valid(Now())
      modifies this
      ensures Now() == CloseSection(old(Now()))
    {
      if |stack| <= 1 { return; }
      var section, parent := stack[|stack| - 1], stack[|stack| - 2];
      stack := stack[..|stack| - 1];
      var hist := MergeHistogram(preorder[parent].hist, preorder[section].hist);
      preorder := preorder[parent := preorder[parent].(hist := hist)];
    }

    method Add(words: seq<string>)
      requires Valid(Now())
      modifies this
      ensures Now() == AddText(old(Now()), words)
    {
      if stack == [] { return; }
      var section := stack[|stack| - 1];
      var hist := AddWords(preorder[section].hist, words);
      preorder := preorder[section := preorder[section].(hist := hist)];
    }

    method OnEvent(e: Event)
      requires Valid(Now())
      modifies this
      ensures Now() == Handle(old(Now()), e)
    {
      match e
      case BodyStart => StartBody();
      case BodyEnd => if bodyDepth > 0 { EndBody(); }
      case SectionStart => if bodyDepth > 0 { StartSection(); }
      case SectionEnd => if bodyDepth > 0 { EndSection(); }
      case Text(words) => if bodyDepth > 0 { Add(words); }
    }

    method Fingerprint(md5: string -> seq<Byte>, a: Accumulator) returns (s: Section)
      ensures s == SectionFor(KeyOf(md5), a)
    {
      var top := RankedWords.TopWords(a.hist);
      RankedWords.FirstTenIs(a.hist, top);
      s := Section(a.depth, Encode(md5(Joined(top))), a.leaf);
    }

    /** What is still open is closed. */
    method CloseOpen()
      requires Valid(Now())
      modifies this
      ensures Now() == CloseAll(old(Now()))
    {
      ghost var closed := CloseAll(Now());
      while |stack| > 1
        invariant Valid(Now()) && CloseAll(Now()) == closed
        decreases |stack|
      {
        EndSection();
      }
    }

    method Done(md5: string -> seq<Byte>) returns (r: Option<seq<Section>>)
      requires Valid(Now())
      modifies this
      ensures r == Finish(KeyOf(md5), old(Now()))
    {
      if preorder == [] { return None; }
      ghost var closed := CloseAll(Now());
      CloseOpen();
      var sections: seq<Section> := [];
      var i := 0;
      while i < |preorder|
        invariant i <= |preorder| && preorder == closed.preorder
        invariant sections == Listed(KeyOf(md5), preorder[..i])
      {
        hide Listed, CloseAll, Finish;
        ListedNext(KeyOf(md5), preorder, i);
        if Kept(preorder[i]) {
          var section := Fingerprint(md5, preorder[i]);
          sections := sections + [section];
        }
        i := i + 1;
      }
      assert preorder[..i] == preorder;
      return Some(sections);
    }
  }
}
