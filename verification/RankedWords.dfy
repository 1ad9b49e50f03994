/** The ten words that stand for a section: longest length bucket first, then most frequent, then
    last in the alphabet. */
module RankedWords {
  import opened Histograms

  const LIMIT: nat := 10

  datatype Ranked = Ranked(word: string, count: nat, bucket: nat)

  /** `wordLengthBucket`. */
  function Bucket(word: string): (n: nat)
    ensures n <= 8
  {
    if |word| < 8 then |word| else 8
  }

  function Rank(h: Hist, word: string): Ranked
    requires word in h
  {
    Ranked(word, h[word], Bucket(word))
  }

  /** Words compare by code point, the order of their UTF-8 bytes. */
  predicate Less(s: string, t: string) {
    t != "" && (s == "" || s[0] < t[0] || (s[0] == t[0] && Less(s[1..], t[1..])))
  }

  /** `rankedWordBefore`. */
  predicate Before(left: Ranked, right: Ranked) {
    if left.bucket != right.bucket then left.bucket > right.bucket
    else if left.count != right.count then left.count > right.count
    else Less(right.word, left.word)
  }

  lemma {:induction false} LessIsTransitive(a: string, b: string, c: string)
    requires Less(a, b) && Less(b, c)
    ensures Less(a, c)
  {
    if a != "" && a[0] == b[0] == c[0] {
      LessIsTransitive(a[1..], b[1..], c[1..]);
    }
  }

  lemma {:induction false} LessIsTotal(a: string, b: string)
    ensures Less(a, b) || a == b || Less(b, a)
    ensures !(Less(a, b) && Less(b, a)) && !Less(a, a)
  {
    if a != "" && b != "" && a[0] == b[0] {
      LessIsTotal(a[1..], b[1..]);
      LessIsTotal(a[1..], a[1..]);
      assert a == [a[0]] + a[1..] && b == [b[0]] + b[1..];
    } else if a != "" {
      LessIsTotal(a[1..], a[1..]);
    }
  }

  lemma {:induction false} BeforeIsTransitive(a: Ranked, b: Ranked, c: Ranked)
    requires Before(a, b) && Before(b, c)
    ensures Before(a, c)
  {
    if a.bucket == b.bucket == c.bucket && a.count == b.count == c.count {
      LessIsTransitive(c.word, b.word, a.word);
    }
  }

  lemma {:induction false} BeforeIsTotal(a: Ranked, b: Ranked)
    ensures Before(a, b) || Before(b, a) || a == b
    ensures !(Before(a, b) && Before(b, a)) && !Before(a, a)
  {
    LessIsTotal(a.word, b.word);
    LessIsTotal(a.word, a.word);
  }

  // ---------------------------------------------------------------- the first ten

  ghost predicate Sorted(top: seq<Ranked>) {
    forall i, j :: 0 <= i < j < |top| ==> Before(top[i], top[j])
  }

  /** The first min(LIMIT, |all|) elements of the full sort of `all`. */
  ghost predicate IsTop(all: set<Ranked>, top: seq<Ranked>) {
    && Sorted(top)
    && |top| == (if |all| < LIMIT then |all| else LIMIT)
    && (forall x :: x in top ==> x in all)
    && (forall x, y :: x in all && x !in top && y in top ==> Before(y, x))
  }

  lemma {:induction false} SameAt(s: seq<Ranked>, t: seq<Ranked>, i: nat, j: nat)
    requires i <= |s| && i <= |t| && s[..i] == t[..i] && j < i
    ensures s[j] == t[j]
  {
    assert s[..i][j] == t[..i][j];
  }

  lemma {:induction false} FirstDifference(all: set<Ranked>, s: seq<Ranked>, t: seq<Ranked>, i: nat)
    requires IsTop(all, s) && IsTop(all, t) && i < |s| && s[..i] == t[..i]
    ensures s[i] == t[i] || Before(t[i], s[i])
  {
    assert s[i] in s && t[i] in t;
    if s[i] in t {
      var j :| 0 <= j < |t| && t[j] == s[i];
      SortedIsDistinct(s);
      if j < i { SameAt(s, t, i, j); }
      if i < j { assert Before(t[i], t[j]); }
    }
  }

  lemma {:induction false} TopAgrees(all: set<Ranked>, s: seq<Ranked>, t: seq<Ranked>, i: nat)
    requires IsTop(all, s) && IsTop(all, t) && i <= |s|
    ensures s[..i] == t[..i]
  {
    if i > 0 {
      TopAgrees(all, s, t, i - 1);
      FirstDifference(all, s, t, i - 1);
      FirstDifference(all, t, s, i - 1);
      BeforeIsTotal(s[i - 1], t[i - 1]);
      assert s[..i] == s[..i - 1] + [s[i - 1]] && t[..i] == t[..i - 1] + [t[i - 1]];
    }
  }

  /** There is only one list of first ten. */
  lemma {:induction false} TopIsUnique(all: set<Ranked>, s: seq<Ranked>, t: seq<Ranked>)
    requires IsTop(all, s) && IsTop(all, t)
    ensures s == t
  {
    TopAgrees(all, s, t, |s|);
    assert s[..|s|] == s && t[..|s|] == t;
  }

  // ---------------------------------------------------------------- bounded insertion

  /** `moveRankedWordUp`: the new word moves up from the end past the words it comes before. */
  function Place(top: seq<Ranked>, w: Ranked): seq<Ranked> {
    if top != [] && Before(w, top[|top| - 1]) then Place(top[..|top| - 1], w) + [top[|top| - 1]]
    else top + [w]
  }

  /** `insertRankedWord`. */
  function Inserted(top: seq<Ranked>, w: Ranked): seq<Ranked>
    requires |top| <= LIMIT
  {
    if |top| < LIMIT then Place(top, w)
    else if !Before(w, top[LIMIT - 1]) then top
    else Place(top[..LIMIT - 1], w)
  }

  lemma {:induction false} PlaceSorts(top: seq<Ranked>, w: Ranked)
    requires Sorted(top) && w !in top
    ensures Sorted(Place(top, w)) && |Place(top, w)| == |top| + 1
    ensures forall x :: x in Place(top, w) <==> x == w || x in top
  {
    if top != [] && Before(w, top[|top| - 1]) {
      var rest, z := top[..|top| - 1], top[|top| - 1];
      assert top == rest + [z];
      PlaceSorts(rest, w);
      var placed := Place(rest, w);
      forall i | 0 <= i < |placed| ensures Before(placed[i], z) {
        assert placed[i] in placed;
      }
    } else {
      forall i | 0 <= i < |top| ensures Before(top[i], w) {
        var z := top[|top| - 1];
        BeforeIsTotal(w, z);
        if i < |top| - 1 { BeforeIsTransitive(top[i], z, w); }
      }
    }
  }

  lemma {:induction false} InsertedIsTop(all: set<Ranked>, top: seq<Ranked>, w: Ranked)
    requires IsTop(all, top) && w !in all
    ensures IsTop(all + {w}, Inserted(top, w))
  {
    if |top| < LIMIT {
      SmallTopIsAll(all, top);
      PlaceSorts(top, w);
    } else if Before(w, top[LIMIT - 1]) {
      FullTop(all, top, w);
    } else {
      BeforeIsTotal(w, top[LIMIT - 1]);
      forall y | y in top ensures Before(y, w) {
        var i :| 0 <= i < |top| && top[i] == y;
        if i < LIMIT - 1 { BeforeIsTransitive(y, top[LIMIT - 1], w); }
      }
    }
  }

  /** While fewer than ten words have been seen the list holds all of them. */
  lemma {:induction false} SmallTopIsAll(all: set<Ranked>, top: seq<Ranked>)
    requires IsTop(all, top) && |top| < LIMIT
    ensures forall x :: x in all ==> x in top
  {
    var s := set x | x in top;
    SortedIsDistinct(top);
    SetOfSeq(top);
    if exists x :: x in all && x !in top {
      var x :| x in all && x !in top;
      assert s <= all - {x};
      Smaller(s, all - {x});
    }
  }

  lemma {:induction false} Smaller(s: set<Ranked>, t: set<Ranked>)
    requires s <= t
    ensures |s| <= |t|
  {
    assert t == s + (t - s);
  }

  lemma {:induction false} SortedIsDistinct(top: seq<Ranked>)
    requires Sorted(top)
    ensures forall i, j :: 0 <= i < j < |top| ==> top[i] != top[j]
  {
    forall i, j | 0 <= i < j < |top| ensures top[i] != top[j] {
      BeforeIsTotal(top[i], top[j]);
    }
  }

  lemma {:induction false} SetOfSeq(top: seq<Ranked>)
    requires forall i, j :: 0 <= i < j < |top| ==> top[i] != top[j]
    ensures |set x | x in top| == |top|
  {
    if top != [] {
      var rest, z := top[..|top| - 1], top[|top| - 1];
      SetOfSeq(rest);
      assert top == rest + [z];
      assert (set x | x in top) == (set x | x in rest) + {z};
    }
  }

  lemma {:induction false} FullTop(all: set<Ranked>, top: seq<Ranked>, w: Ranked)
    requires IsTop(all, top) && w !in all && |top| == LIMIT && Before(w, top[LIMIT - 1])
    ensures IsTop(all + {w}, Place(top[..LIMIT - 1], w))
  {
    var rest, z := top[..LIMIT - 1], top[LIMIT - 1];
    assert top == rest + [z];
    PlaceSorts(rest, w);
    assert |all + {w}| == |all| + 1;
    forall x, y | x in all + {w} && x !in Place(rest, w) && y in Place(rest, w) ensures Before(y, x) {
      assert z in top;
      if x != z { assert x in all && x !in top; }
      if y == w {
        if x != z { BeforeIsTransitive(w, z, x); }
      } else {
        assert y in rest;
        var i :| 0 <= i < |rest| && rest[i] == y;
        assert top[i] == y;
      }
    }
  }

  // ---------------------------------------------------------------- in place

  lemma {:induction false} PlaceStep(top: seq<Ranked>, w: Ranked, idx: nat)
    requires 0 < idx <= |top| && Before(w, top[idx - 1])
    ensures Place(top[..idx], w) == Place(top[..idx - 1], w) + [top[idx - 1]]
  {
    assert top[..idx][..idx - 1] == top[..idx - 1];
  }

  /** The word w has moved down to idx, past the words of `tail`. */
  ghost predicate Moving(was: seq<Ranked>, w: Ranked, idx: nat, tail: seq<Ranked>, now: seq<Ranked>) {
    && idx <= |was| && |now| == |was| + 1
    && now == was[..idx] + [w] + tail
    && Place(was, w) == Place(was[..idx], w) + tail
  }

  lemma {:induction false} MovingAt(was: seq<Ranked>, w: Ranked, idx: nat, tail: seq<Ranked>, now: seq<Ranked>)
    requires Moving(was, w, idx, tail, now)
    ensures now[idx] == w
    ensures idx > 0 ==> now[idx - 1] == was[idx - 1]
    ensures idx == 0 || !Before(w, was[idx - 1]) ==> now == Place(was, w)
  {
    assert idx > 0 ==> was[..idx][idx - 1] == was[idx - 1];
  }

  lemma {:induction false} MovesOn(was: seq<Ranked>, w: Ranked, idx: nat, tail: seq<Ranked>, now: seq<Ranked>)
    requires Moving(was, w, idx, tail, now) && idx > 0 && Before(w, was[idx - 1])
    ensures Moving(was, w, idx - 1, [was[idx - 1]] + tail, now[idx := was[idx - 1]][idx - 1 := w])
  {
    PlaceStep(was, w, idx);
  }

  method MoveRankedWordUp(top: array<Ranked>, index: nat)
    requires index < top.Length
    modifies top
    ensures top[..index + 1] == Place(old(top[..index]), old(top[index]))
  {
    ghost var was, w := top[..index], top[index];
    ghost var tail: seq<Ranked> := [];
    var idx := index;
    assert was[..index] == was;
    while idx > 0 && Before(top[idx], top[idx - 1])
      invariant idx <= index
      invariant Moving(was, w, idx, tail, top[..index + 1])
    {
      ghost var now := top[..index + 1];
      MovingAt(was, w, idx, tail, now);
      assert top[idx] == now[idx] && top[idx - 1] == now[idx - 1];
      MovesOn(was, w, idx, tail, now);
      top[idx], top[idx - 1] := top[idx - 1], top[idx];
      assert top[..index + 1] == now[idx := was[idx - 1]][idx - 1 := w];
      tail := [was[idx - 1]] + tail;
      idx := idx - 1;
    }
    MovingAt(was, w, idx, tail, top[..index + 1]);
    assert idx > 0 ==> top[idx - 1] == top[..index + 1][idx - 1];
    assert top[idx] == top[..index + 1][idx];
  }

  method InsertRankedWord(top: array<Ranked>, count: nat, word: Ranked) returns (n: nat)
    requires top.Length == LIMIT && count <= LIMIT
    modifies top
    ensures n == (if count < LIMIT then count + 1 else count)
    ensures top[..n] == Inserted(old(top[..count]), word)
  {
    if count < LIMIT {
      top[count] := word;
      assert top[..count] == old(top[..count]);
      MoveRankedWordUp(top, count);
      return count + 1;
    }
    if !Before(word, top[LIMIT - 1]) {
      return count;
    }
    ghost var was := top[..count];
    top[LIMIT - 1] := word;
    assert top[..LIMIT - 1] == was[..LIMIT - 1];
    MoveRankedWordUp(top, LIMIT - 1);
    return count;
  }

  /** The ranks of the words that are no longer to do. */
  ghost function RanksBut(h: Hist, todo: set<string>): set<Ranked> {
    set word | word in h && word !in todo :: Rank(h, word)
  }

  ghost function Ranks(h: Hist): set<Ranked> { RanksBut(h, {}) }

  lemma {:induction false} OneMoreRank(h: Hist, todo: set<string>, word: string)
    requires word in h && word in todo
    ensures RanksBut(h, todo - {word}) == RanksBut(h, todo) + {Rank(h, word)}
    ensures Rank(h, word) !in RanksBut(h, todo)
  {
  }

  /** s is later in the alphabet: it goes on where t ends, or has the larger character where they first differ. */
  ghost predicate Later(s: string, t: string) {
    exists k :: 0 <= k <= |t| && k < |s| && s[..k] == t[..k] && (k == |t| || s[k] > t[k])
  }

  lemma {:induction false} LessIsLater(s: string, t: string)
    requires Less(t, s)
    ensures Later(s, t)
  {
    if t == "" {
      assert s[..0] == t[..0];
    } else if t[0] < s[0] {
      assert s[..0] == t[..0];
    } else {
      LessIsLater(s[1..], t[1..]);
      var k :| 0 <= k <= |t[1..]| && k < |s[1..]| && s[1..][..k] == t[1..][..k]
               && (k == |t[1..]| || s[1..][k] > t[1..][k]);
      assert s[..k + 1] == [s[0]] + s[1..][..k] && t[..k + 1] == [t[0]] + t[1..][..k];
    }
  }

  /** How many letters of a word are looked at. */
  function Letters(word: string): nat { if |word| >= 8 then 8 else |word| }

  /** Word v of a histogram comes before word w of it: it is longer, as far as eight letters; or as long and more
      frequent; or as long and as frequent and later in the alphabet. */
  ghost predicate Ahead(h: Hist, v: string, w: string)
    requires v in h && w in h
  {
    || Letters(v) > Letters(w)
    || (Letters(v) == Letters(w) && h[v] > h[w])
    || (Letters(v) == Letters(w) && h[v] == h[w] && Later(v, w))
  }

  lemma {:induction false} BeforeIsAhead(h: Hist, v: string, w: string)
    requires v in h && w in h && Before(Rank(h, v), Rank(h, w))
    ensures Ahead(h, v, w)
  {
    if Letters(v) == Letters(w) && h[v] == h[w] { LessIsLater(v, w); }
  }

  lemma {:induction false} RankedIsWord(h: Hist, top: seq<Ranked>, x: Ranked)
    requires IsTop(Ranks(h), top) && x in top
    ensures x.word in h && x == Rank(h, x.word)
  {
  }

  lemma {:induction false} RanksCount(h: Hist, todo: set<string>)
    requires todo <= h.Keys
    ensures |RanksBut(h, todo)| == |h| - |todo|
    decreases |h.Keys - todo|
  {
    if word :| word in h && word !in todo {
      assert h.Keys - todo == h.Keys - (todo + {word}) + {word};
      RanksCount(h, todo + {word});
      OneMoreRank(h, todo + {word}, word);
      assert todo + {word} - {word} == todo;
    } else {
      assert RanksBut(h, todo) == {} && todo == h.Keys;
    }
  }

  /** The ten words that stay, or all if there are no more than ten, come one before the other, and before every word
      left out. */
  ghost predicate FirstWords(h: Hist, words: seq<string>) {
    && (forall w <- words :: w in h)
    && |words| == (if |h| < 10 then |h| else 10)
    && (forall i, j :: 0 <= i < j < |words| ==> Ahead(h, words[i], words[j]))
    && (forall v, w :: v in h && v !in words && w in words ==> Ahead(h, w, v))
  }

  function Words(top: seq<Ranked>): seq<string> { seq(|top|, i requires 0 <= i < |top| => top[i].word) }

  lemma {:induction false} NotWordNotRank(h: Hist, top: seq<Ranked>, v: string)
    requires v in h && v !in Words(top)
    ensures Rank(h, v) !in top
  {
    forall i | 0 <= i < |top| ensures top[i] != Rank(h, v) { assert Words(top)[i] in Words(top); }
  }

  lemma {:induction false} LaterIsLess(s: string, t: string)
    requires Later(s, t)
    ensures Less(t, s)
  {
    var k :| 0 <= k <= |t| && k < |s| && s[..k] == t[..k] && (k == |t| || s[k] > t[k]);
    if k > 0 {
      assert s[..k][0] == t[..k][0];
      assert s[1..][..k - 1] == s[..k][1..] == t[..k][1..] == t[1..][..k - 1];
      LaterIsLess(s[1..], t[1..]);
    }
  }

  lemma {:induction false} AheadIsBefore(h: Hist, v: string, w: string)
    requires v in h && w in h && Ahead(h, v, w)
    ensures Before(Rank(h, v), Rank(h, w))
  {
    if Letters(v) == Letters(w) && h[v] == h[w] { LaterIsLess(v, w); }
  }

  function RankAll(h: Hist, words: seq<string>): seq<Ranked>
    requires forall w <- words :: w in h
  {
    seq(|words|, i requires 0 <= i < |words| => Rank(h, words[i]))
  }

  lemma {:induction false} TopIsFirst(h: Hist, top: seq<Ranked>)
    requires IsTop(Ranks(h), top)
    ensures FirstWords(h, Words(top))
  {
    var words := Words(top);
    RanksCount(h, {});
    forall i | 0 <= i < |top| ensures words[i] in h && top[i] == Rank(h, words[i]) { RankedIsWord(h, top, top[i]); }
    forall i, j | 0 <= i < j < |words| ensures Ahead(h, words[i], words[j]) { BeforeIsAhead(h, words[i], words[j]); }
    forall v, w | v in h && v !in words && w in words ensures Ahead(h, w, v) {
      var i :| 0 <= i < |words| && words[i] == w;
      assert Rank(h, v) in Ranks(h);
      NotWordNotRank(h, top, v);
      assert top[i] in top;
      BeforeIsAhead(h, w, v);
    }
  }

  /** The loop of `sectionFingerprint`: in whatever order the words of the histogram are visited,
      what remains are its first ten. */
  method TopWords(h: Hist) returns (top: seq<Ranked>)
    ensures IsTop(Ranks(h), top) && FirstWords(h, Words(top))
  {
    var words := new Ranked[LIMIT];
    var n := 0;
    var todo := h.Keys;
    assert RanksBut(h, todo) == {} && words[..0] == [];
    while todo != {}
      invariant todo <= h.Keys && n <= LIMIT
      invariant IsTop(RanksBut(h, todo), words[..n])
      decreases |todo|
    {
      var word :| word in todo;
      OneMoreRank(h, todo, word);
      InsertedIsTop(RanksBut(h, todo), words[..n], Rank(h, word));
      n := InsertRankedWord(words, n, Rank(h, word));
      todo := todo - {word};
    }
    TopIsFirst(h, words[..n]);
    return words[..n];
  }

  /** Every histogram has first ten words. */
  lemma {:induction false} TopExists(h: Hist, todo: set<string>) returns (top: seq<Ranked>)
    requires todo <= h.Keys
    ensures IsTop(RanksBut(h, todo), top)
    decreases |h.Keys - todo|
  {
    if word :| word in h && word !in todo {
      assert h.Keys - todo == h.Keys - (todo + {word}) + {word};
      top := TopExists(h, todo + {word});
      OneMoreRank(h, todo + {word}, word);
      assert todo + {word} - {word} == todo;
      InsertedIsTop(RanksBut(h, todo + {word}), top, Rank(h, word));
      top := Inserted(top, Rank(h, word));
    } else {
      top := [];
      assert RanksBut(h, todo) == {};
    }
  }

  /** The words of a section's fingerprint are a function of its histogram. */
  ghost function FirstTen(h: Hist): (top: seq<Ranked>)
    ensures IsTop(Ranks(h), top)
  {
    assert exists top :: IsTop(Ranks(h), top) by {
      var top := TopExists(h, {});
      assert IsTop(Ranks(h), top);
    }
    var top :| IsTop(Ranks(h), top);
    top
  }

  lemma {:induction false} FirstTenIs(h: Hist, top: seq<Ranked>)
    requires IsTop(Ranks(h), top)
    ensures top == FirstTen(h)
  {
    TopIsUnique(Ranks(h), top, FirstTen(h));
  }

  lemma {:induction false} RankIsListed(h: Hist, words: seq<string>, v: string)
    requires (forall w <- words :: w in h) && v in h
    ensures v in words ==> Rank(h, v) in RankAll(h, words)
  {
    if i :| 0 <= i < |words| && words[i] == v { assert RankAll(h, words)[i] == Rank(h, v); }
  }

  /** Whatever list of words is the first one, it is the one the fingerprint is made of. */
  lemma {:induction false} FirstIsTop(h: Hist, words: seq<string>)
    requires FirstWords(h, words)
    ensures RankAll(h, words) == FirstTen(h)
  {
    var top := RankAll(h, words);
    RanksCount(h, {});
    forall i, j | 0 <= i < j < |top| ensures Before(top[i], top[j]) { AheadIsBefore(h, words[i], words[j]); }
    forall x | x in top ensures x in Ranks(h) {
      var i :| 0 <= i < |top| && top[i] == x;
      assert words[i] in words;
    }
    forall x, y | x in Ranks(h) && x !in top && y in top ensures Before(y, x) {
      var v :| v in h && x == Rank(h, v);
      var i :| 0 <= i < |top| && top[i] == y;
      RankIsListed(h, words, v);
      AheadIsBefore(h, words[i], v);
    }
    FirstTenIs(h, top);
  }
}
