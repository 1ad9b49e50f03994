/** Word histograms of sections. */
module Histograms {

  type Hist = map<string, nat>

  function Count(h: Hist, word: string): nat { if word in h then h[word] else 0 }

  /** The pointwise sum. */
  function Sum(a: Hist, b: Hist): Hist {
    map word | word in a.Keys + b.Keys :: Count(a, word) + Count(b, word)
  }

  lemma {:induction false} SumAt(a: Hist, b: Hist, word: string)
    ensures Count(Sum(a, b), word) == Count(a, word) + Count(b, word)
  {
  }

  lemma {:induction false} SumIsAssociative(a: Hist, b: Hist, c: Hist)
    ensures Sum(Sum(a, b), c) == Sum(a, Sum(b, c))
  {
    var l, r := Sum(Sum(a, b), c), Sum(a, Sum(b, c));
    assert l.Keys == r.Keys;
    forall word | word in l ensures l[word] == r[word] {
      SumAt(Sum(a, b), c, word);
      SumAt(a, Sum(b, c), word);
      SumAt(a, b, word);
      SumAt(b, c, word);
    }
  }

  lemma {:induction false} SumWithEmpty(a: Hist)
    ensures Sum(map[], a) == a && Sum(a, map[]) == a
  {
    assert Sum(map[], a).Keys == a.Keys;
    assert Sum(a, map[]).Keys == a.Keys;
  }

  /** The words of one text, counted. */
  function Tally(words: seq<string>): Hist {
    if words == [] then map[]
    else
      var h, w := Tally(words[..|words| - 1]), words[|words| - 1];
      h[w := Count(h, w) + 1]
  }

  /** A word counts as often as it stands in the text, and no other word has a count. */
  lemma {:induction false} TallyIs(words: seq<string>, word: string)
    ensures Count(Tally(words), word) == multiset(words)[word]
    ensures word in Tally(words) <==> word in words
  {
    if words != [] {
      var front, last := words[..|words| - 1], words[|words| - 1];
      assert words == front + [last];
      TallyIs(front, word);
    }
  }

  lemma {:induction false} OneMoreOf(h: Hist, t: Hist, word: string, n: nat)
    ensures Sum(h, t[word := Count(t, word) + n]) == Sum(h, t)[word := Count(Sum(h, t), word) + n]
  {
    var l, r := Sum(h, t[word := Count(t, word) + n]), Sum(h, t)[word := Count(Sum(h, t), word) + n];
    assert l.Keys == r.Keys;
    forall w | w in l ensures l[w] == r[w] {
      SumAt(h, t, w);
    }
  }

  lemma {:induction false} TallyNext(words: seq<string>, i: nat)
    requires i < |words|
    ensures Tally(words[..i + 1]) == Tally(words[..i])[words[i] := Count(Tally(words[..i]), words[i]) + 1]
  {
    assert words[..i + 1][..i] == words[..i];
  }

  /** Adding the words of a text one by one adds their tally. */
  method AddWords(h: Hist, words: seq<string>) returns (r: Hist)
    ensures r == Sum(h, Tally(words))
  {
    hide Sum, Count;
    SumWithEmpty(h);
    r := h;
    var i := 0;
    while i < |words|
      invariant i <= |words| && r == Sum(h, Tally(words[..i]))
    {
      OneMoreOf(h, Tally(words[..i]), words[i], 1);
      TallyNext(words, i);
      r := r[words[i] := Count(r, words[i]) + 1];
      i := i + 1;
    }
    assert words[..i] == words;
  }

  /** The words of a histogram that are no longer to do. */
  ghost function Done(src: Hist, todo: set<string>): Hist {
    map word | word in src && word !in todo :: src[word]
  }

  lemma {:induction false} OneMoreDone(dst: Hist, src: Hist, todo: set<string>, word: string)
    requires word in src && word in todo
    ensures var r := Sum(dst, Done(src, todo));
            Sum(dst, Done(src, todo - {word})) == r[word := Count(r, word) + src[word]]
  {
    var done := Done(src, todo);
    assert Done(src, todo - {word}) == done[word := Count(done, word) + src[word]];
    OneMoreOf(dst, done, word, src[word]);
  }

  /** `mergeHistogram`: in whatever order the words are visited, the result is the sum. */
  method MergeHistogram(dst: Hist, src: Hist) returns (r: Hist)
    ensures r == Sum(dst, src)
  {
    r := dst;
    var todo := src.Keys;
    SumWithEmpty(dst);
    assert Done(src, todo) == map[];
    while todo != {}
      invariant todo <= src.Keys
      invariant r == Sum(dst, Done(src, todo))
      decreases |todo|
    {
      var word :| word in todo;
      OneMoreDone(dst, src, todo, word);
      r := r[word := Count(r, word) + src[word]];
      todo := todo - {word};
    }
    assert Done(src, {}) == src;
  }
}
