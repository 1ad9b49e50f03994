/** The database index by file name: which book a name stands for when several claim it. */
module FilenameIndex {
  import opened Wrappers

  datatype Joined = Joined(badID: int, goodID: int, realID: int)

  /** A database source: its book's deletion mark, if it has a book, and the books joined with it. */
  datatype Source = Source(deleted: Option<string>, joinedBooks: seq<Joined>)

  type ByID = map<int, Source>

  /** `databaseBookDeleted` with `deletionValue`. */
  predicate Deleted(byID: ByID, book: int) {
    book in byID && byID[book].deleted.Some? && byID[book].deleted.value in {"1", "true", "yes"}
  }

  predicate Resolves(j: Joined, book: int) {
    j.realID > 0 && (j.badID == book || j.goodID == book || j.realID == book)
  }

  /** `databaseBookHasJoinedResolution`. */
  predicate HasJoined(byID: ByID, book: int) {
    book in byID && exists i :: 0 <= i < |byID[book].joinedBooks| && Resolves(byID[book].joinedBooks[i], book)
  }

  /** Active books before deleted ones, then books with a joined resolution before others. */
  function Rank(byID: ByID, book: int): nat {
    (if Deleted(byID, book) then 0 else 2) + (if HasJoined(byID, book) then 1 else 0)
  }

  predicate Outranks(byID: ByID, a: int, b: int) { Rank(byID, a) > Rank(byID, b) }

  /** Which book is preferred: an active one to a deleted one, whatever has been joined; of two active or two deleted
      ones a book with a joined resolution to one without. */
  lemma {:induction false} PreferredIs(byID: ByID, a: int, b: int)
    ensures Outranks(byID, a, b)
       <==> (!Deleted(byID, a) && Deleted(byID, b))
            || (Deleted(byID, a) == Deleted(byID, b) && HasJoined(byID, a) && !HasJoined(byID, b))
  {
  }

  /** What makes a book deleted or resolved. */
  lemma {:induction false} MarksAre(byID: ByID, book: int)
    requires book in byID
    ensures Deleted(byID, book) <==> byID[book].deleted in {Some("1"), Some("true"), Some("yes")}
    ensures HasJoined(byID, book)
       <==> exists j :: j in byID[book].joinedBooks && j.realID > 0 && book in {j.badID, j.goodID, j.realID}
  {
    var joined := byID[book].joinedBooks;
    if j :| j in joined && j.realID > 0 && book in {j.badID, j.goodID, j.realID} {
      var i :| 0 <= i < |joined| && joined[i] == j;
      assert Resolves(joined[i], book);
    }
  }

  /** A file name that a record of a book offers. */
  datatype Claim = Claim(key: string, book: int)

  datatype State = State(byFile: map<string, int>, ambiguous: set<string>)

  /** `addDatabaseFile`, with the collision decided by rank. */
  function Add(byID: ByID, s: State, c: Claim): State {
    if c.key == "" || c.book <= 0 || c.key in s.ambiguous then s
    else if c.key !in s.byFile then s.(byFile := s.byFile[c.key := c.book])
    else
      var held := s.byFile[c.key];
      if held == c.book || Outranks(byID, held, c.book) then s
      else if Outranks(byID, c.book, held) then s.(byFile := s.byFile[c.key := c.book])
      else State(s.byFile - {c.key}, s.ambiguous + {c.key})
  }

  /** The index after the first n claims. */
  function After(byID: ByID, claims: seq<Claim>, n: nat): State
    requires n <= |claims|
  {
    if n == 0 then State(map[], {}) else Add(byID, After(byID, claims, n - 1), claims[n - 1])
  }

  class DatabaseIndex {
    const byID: ByID
    var byFile: map<string, int>
    var ambiguousFiles: set<string>

    constructor (byID: ByID)
      ensures this.byID == byID && Now() == State(map[], {})
    {
      this.byID := byID;
      byFile, ambiguousFiles := map[], {};
    }

    function Now(): State
      reads this
    {
      State(byFile, ambiguousFiles)
    }

    method JoinedResolution(book: int) returns (found: bool)
      ensures found == HasJoined(byID, book)
    {
      if book !in byID { return false; }
      var joined := byID[book].joinedBooks;
      var i := 0;
      while i < |joined|
        invariant i <= |joined| && forall k :: 0 <= k < i ==> !Resolves(joined[k], book)
      {
        if Resolves(joined[i], book) { return true; }
        i := i + 1;
      }
      return false;
    }

    /** The book that keeps the name, or none on a tie. */
    method ResolveCollision(existing: int, duplicate: int) returns (winner: Option<int>)
      ensures winner == if Outranks(byID, existing, duplicate) then Some(existing)
                        else if Outranks(byID, duplicate, existing) then Some(duplicate)
                        else None
    {
      var existingDeleted, duplicateDeleted := Deleted(byID, existing), Deleted(byID, duplicate);
      if existingDeleted && !duplicateDeleted { return Some(duplicate); }
      if !existingDeleted && duplicateDeleted { return Some(existing); }
      var existingJoined := JoinedResolution(existing);
      var duplicateJoined := JoinedResolution(duplicate);
      if !existingJoined && duplicateJoined { return Some(duplicate); }
      if existingJoined && !duplicateJoined { return Some(existing); }
      return None;
    }

    method AddDatabaseFile(c: Claim)
      modifies this
      ensures Now() == Add(byID, old(Now()), c)
    {
      if c.key == "" || c.book <= 0 || c.key in ambiguousFiles { return; }
      if c.key in byFile {
        if byFile[c.key] == c.book { return; }
        var winner := ResolveCollision(byFile[c.key], c.book);
        if winner.Some? {
          ghost var was := byFile;
          byFile := byFile[c.key := winner.value];
          assert winner.value == was[c.key] ==> byFile == was;
          return;
        }
        byFile := byFile - {c.key};
        ambiguousFiles := ambiguousFiles + {c.key};
        return;
      }
      byFile := byFile[c.key := c.book];
    }

    method AddAll(claims: seq<Claim>)
      requires Now() == State(map[], {})
      modifies this
      ensures Now() == After(byID, claims, |claims|)
    {
      var i := 0;
      while i < |claims|
        invariant i <= |claims| && Now() == After(byID, claims, i)
      {
        AddDatabaseFile(claims[i]);
        i := i + 1;
      }
    }
  }

  // ---------------------------------------------------------------- soundness

  ghost predicate Claimed(claims: seq<Claim>, n: nat, key: string, book: int)
    requires n <= |claims|
  {
    key != "" && book > 0 && exists i :: 0 <= i < n && claims[i] == Claim(key, book)
  }

  /** Two books that claim the name have the same rank. */
  ghost predicate Tied(byID: ByID, claims: seq<Claim>, n: nat, key: string)
    requires n <= |claims|
  {
    exists a, b :: a != b && Claimed(claims, n, key, a) && Claimed(claims, n, key, b) && Rank(byID, a) == Rank(byID, b)
  }

  /** The book outranks every other one that claims the name. */
  ghost predicate Best(byID: ByID, claims: seq<Claim>, n: nat, key: string, book: int)
    requires n <= |claims|
  {
    && Claimed(claims, n, key, book)
    && forall other :: other != book && Claimed(claims, n, key, other) ==> Outranks(byID, book, other)
  }

  /** What the index says of a name. */
  ghost predicate SoundAt(byID: ByID, s: State, claims: seq<Claim>, n: nat, key: string)
    requires n <= |claims|
  {
    && (key in s.byFile ==> key !in s.ambiguous && Best(byID, claims, n, key, s.byFile[key]))
    && (key in s.ambiguous ==> Tied(byID, claims, n, key))
    && (forall book :: Claimed(claims, n, key, book) ==> key in s.byFile || key in s.ambiguous)
  }

  lemma {:induction false} OneMore(claims: seq<Claim>, n: nat, key: string, book: int)
    requires n < |claims|
    ensures Claimed(claims, n + 1, key, book)
       <==> Claimed(claims, n, key, book) || (key != "" && book > 0 && claims[n] == Claim(key, book))
  {
    if key != "" && book > 0 && claims[n] == Claim(key, book) {
      assert Claimed(claims, n + 1, key, book);
    }
  }

  lemma {:induction false} TieStays(byID: ByID, claims: seq<Claim>, n: nat, key: string)
    requires n < |claims| && Tied(byID, claims, n, key)
    ensures Tied(byID, claims, n + 1, key)
  {
    var a, b :| a != b && Claimed(claims, n, key, a) && Claimed(claims, n, key, b) && Rank(byID, a) == Rank(byID, b);
    OneMore(claims, n, key, a);
    OneMore(claims, n, key, b);
  }

  lemma {:induction false} KeyStep(byID: ByID, s: State, claims: seq<Claim>, n: nat, key: string)
    requires n < |claims| && SoundAt(byID, s, claims, n, key)
    ensures SoundAt(byID, Add(byID, s, claims[n]), claims, n + 1, key)
  {
    var c := claims[n];
    var m := n + 1;
    forall book ensures Claimed(claims, m, key, book)
                   <==> Claimed(claims, n, key, book) || (key != "" && book > 0 && c == Claim(key, book)) {
      OneMore(claims, n, key, book);
    }
    if key in s.ambiguous {
      TieStays(byID, claims, n, key);
    } else if c.key == key && key != "" && c.book > 0 && key in s.byFile {
      var held := s.byFile[key];
      if held != c.book && Rank(byID, held) == Rank(byID, c.book) {
        assert Claimed(claims, m, key, held) && Claimed(claims, m, key, c.book);
      }
    }
  }

  /** The index is sound after any claims in any order: a name stands for a book only if that book
      strictly outranks every other that claims the name, ambiguous names have a tie behind them,
      no name is both, and no claimed name is neither. */
  lemma {:induction false} IndexIsSound(byID: ByID, claims: seq<Claim>, n: nat, key: string)
    requires n <= |claims|
    ensures SoundAt(byID, After(byID, claims, n), claims, n, key)
  {
    if n > 0 {
      IndexIsSound(byID, claims, n - 1, key);
      KeyStep(byID, After(byID, claims, n - 1), claims, n - 1, key);
    }
  }

  /** A tie is final: an ambiguous name stays ambiguous whatever is added. */
  lemma {:induction false} AmbiguousForever(byID: ByID, claims: seq<Claim>, n: nat, m: nat, key: string)
    requires n <= m <= |claims| && key in After(byID, claims, n).ambiguous
    ensures key in After(byID, claims, m).ambiguous
    decreases m
  {
    if n < m { AmbiguousForever(byID, claims, n, m - 1, key); }
  }

  /** Without ties the order of the claims does not matter: the name stands for its best claimant. */
  lemma {:induction false} BestWithoutTies(byID: ByID, claims: seq<Claim>, key: string, book: int)
    requires !Tied(byID, claims, |claims|, key)
    ensures var s := After(byID, claims, |claims|);
            (key in s.byFile && s.byFile[key] == book) <==> Best(byID, claims, |claims|, key, book)
  {
    IndexIsSound(byID, claims, |claims|, key);
    var s := After(byID, claims, |claims|);
    if Best(byID, claims, |claims|, key, book) {
      assert key in s.byFile;
      assert Best(byID, claims, |claims|, key, s.byFile[key]);
    }
  }

  /** With ties it does: two equal claims ahead of the best one leave the name ambiguous, while
      the best one in between keeps it. */
  lemma {:induction false} OrderMatters(byID: ByID, key: string, a: int, b: int, best: int)
    requires key != "" && a > 0 && b > 0 && best > 0 && a != b && best != a && best != b
    requires Rank(byID, a) == Rank(byID, b) && Outranks(byID, best, a)
    ensures key in After(byID, [Claim(key, a), Claim(key, b), Claim(key, best)], 3).ambiguous
    ensures var s := After(byID, [Claim(key, a), Claim(key, best), Claim(key, b)], 3);
            key in s.byFile && s.byFile[key] == best
  {
    var x, y := [Claim(key, a), Claim(key, b), Claim(key, best)], [Claim(key, a), Claim(key, best), Claim(key, b)];
    assert After(byID, x, 0) == State(map[], {}) && After(byID, y, 0) == State(map[], {});
    assert After(byID, x, 1).byFile[key] == a && After(byID, y, 1).byFile[key] == a;
    assert key in After(byID, x, 2).ambiguous;
    assert After(byID, y, 2).byFile[key] == best;
  }

  // ---------------------------------------------------------------- when the order matters

  /** What the index says of a name: a book, or nothing. */
  function Answer(byID: ByID, claims: seq<Claim>, key: string): Option<int> {
    var s := After(byID, claims, |claims|);
    if key in s.byFile then Some(s.byFile[key]) else None
  }

  ghost predicate Permuted(claims: seq<Claim>, other: seq<Claim>) { multiset(claims) == multiset(other) }

  ghost predicate AllClaimed(claims: seq<Claim>, key: string, book: int) { Claimed(claims, |claims|, key, book) }

  lemma {:induction false} ClaimedIsIn(claims: seq<Claim>, key: string, book: int)
    ensures AllClaimed(claims, key, book) <==> key != "" && book > 0 && Claim(key, book) in multiset(claims)
  {
    assert Claim(key, book) in multiset(claims) <==> Claim(key, book) in claims;
  }

  lemma {:induction false} PermutedClaims(byID: ByID, claims: seq<Claim>, other: seq<Claim>, key: string)
    requires Permuted(claims, other)
    ensures forall book :: AllClaimed(claims, key, book) <==> AllClaimed(other, key, book)
  {
    forall book ensures AllClaimed(claims, key, book) <==> AllClaimed(other, key, book) {
      ClaimedIsIn(claims, key, book);
      ClaimedIsIn(other, key, book);
    }
  }

  /** Some claimant outranks all others, and two of those others tie. */
  ghost predicate TieBelowBest(byID: ByID, claims: seq<Claim>, key: string) {
    Tied(byID, claims, |claims|, key) && exists book :: Best(byID, claims, |claims|, key, book)
  }

  /** The answer is the best claimant if there is one and no tie, and nothing if there is none. */
  lemma {:induction false} AnswerIs(byID: ByID, claims: seq<Claim>, key: string, book: int)
    ensures Answer(byID, claims, key) == Some(book) ==> Best(byID, claims, |claims|, key, book)
    ensures Best(byID, claims, |claims|, key, book) && !TieBelowBest(byID, claims, key) ==>
      Answer(byID, claims, key) == Some(book)
  {
    IndexIsSound(byID, claims, |claims|, key);
    if Best(byID, claims, |claims|, key, book) && !TieBelowBest(byID, claims, key) {
      BestWithoutTies(byID, claims, key, book);
    }
  }

  lemma {:induction false} TieCarries(byID: ByID, claims: seq<Claim>, other: seq<Claim>, key: string)
    requires forall book :: AllClaimed(claims, key, book) <==> AllClaimed(other, key, book)
    requires Tied(byID, claims, |claims|, key)
    ensures Tied(byID, other, |other|, key)
  {
    var a, b :| a != b && Claimed(claims, |claims|, key, a) && Claimed(claims, |claims|, key, b)
                  && Rank(byID, a) == Rank(byID, b);
    assert AllClaimed(claims, key, a) && AllClaimed(claims, key, b);
    assert AllClaimed(other, key, a) && AllClaimed(other, key, b);
  }

  lemma {:induction false} BestCarries(byID: ByID, claims: seq<Claim>, other: seq<Claim>, key: string, book: int)
    requires forall b :: AllClaimed(claims, key, b) <==> AllClaimed(other, key, b)
    requires Best(byID, claims, |claims|, key, book)
    ensures Best(byID, other, |other|, key, book)
  {
    assert AllClaimed(claims, key, book) && AllClaimed(other, key, book);
    forall b | b != book && Claimed(other, |other|, key, b) ensures Outranks(byID, book, b) {
      assert AllClaimed(other, key, b) && AllClaimed(claims, key, b);
    }
  }

  /** Who is best and whether there is a tie do not depend on the order. */
  lemma {:induction false} SameStanding(byID: ByID, claims: seq<Claim>, other: seq<Claim>, key: string)
    requires forall book :: AllClaimed(claims, key, book) <==> AllClaimed(other, key, book)
    ensures forall book :: Best(byID, claims, |claims|, key, book) <==> Best(byID, other, |other|, key, book)
    ensures TieBelowBest(byID, claims, key) <==> TieBelowBest(byID, other, key)
  {
    forall book ensures Best(byID, claims, |claims|, key, book) <==> Best(byID, other, |other|, key, book) {
      if Best(byID, claims, |claims|, key, book) { BestCarries(byID, claims, other, key, book); }
      if Best(byID, other, |other|, key, book) { BestCarries(byID, other, claims, key, book); }
    }
    if Tied(byID, claims, |claims|, key) { TieCarries(byID, claims, other, key); }
    if Tied(byID, other, |other|, key) { TieCarries(byID, other, claims, key); }
  }

  lemma {:induction false} SameWithoutTie(byID: ByID, claims: seq<Claim>, other: seq<Claim>, key: string)
    requires Permuted(claims, other) && !TieBelowBest(byID, claims, key)
    ensures Answer(byID, claims, key) == Answer(byID, other, key)
  {
    PermutedClaims(byID, claims, other, key);
    SameStanding(byID, claims, other, key);
    if Answer(byID, claims, key).Some? {
      AnswerIs(byID, claims, key, Answer(byID, claims, key).value);
      AnswerIs(byID, other, key, Answer(byID, claims, key).value);
    } else if Answer(byID, other, key).Some? {
      AnswerIs(byID, other, key, Answer(byID, other, key).value);
      AnswerIs(byID, claims, key, Answer(byID, other, key).value);
    }
  }

  /** The claims with one moved to the front. */
  function ToFront(claims: seq<Claim>, i: nat): (r: seq<Claim>)
    requires i < |claims|
    ensures |r| == |claims| && r[0] == claims[i] && multiset(r) == multiset(claims)
  {
    assert claims == claims[..i] + [claims[i]] + claims[i + 1..];
    [claims[i]] + claims[..i] + claims[i + 1..]
  }

  lemma {:induction false} FrontOf(claims: seq<Claim>, c: Claim) returns (r: seq<Claim>)
    requires c in claims
    ensures Permuted(claims, r) && r != [] && r[0] == c
    ensures forall d :: d in claims && d != c ==> d in r[1..]
  {
    var i :| 0 <= i < |claims| && claims[i] == c;
    r := ToFront(claims, i);
    forall d | d in claims && d != c ensures d in r[1..] {
      assert d in multiset(r);
      assert r == [r[0]] + r[1..];
    }
  }

  /** The best claimant keeps the name if it comes first. */
  lemma {:induction false} BestFirst(byID: ByID, claims: seq<Claim>, n: nat, key: string, book: int)
    requires 0 < n <= |claims| && Best(byID, claims, |claims|, key, book) && claims[0] == Claim(key, book)
    ensures var s := After(byID, claims, n); key in s.byFile && s.byFile[key] == book && key !in s.ambiguous
  {
    if n == 1 {
      assert After(byID, claims, 0) == State(map[], {});
    } else {
      BestFirst(byID, claims, n - 1, key, book);
      var c := claims[n - 1];
      if c.key == key && c.book > 0 && c.book != book {
        assert Claimed(claims, |claims|, key, c.book);
      }
    }
  }

  /** Two tied claimants that come first make the name ambiguous. */
  lemma {:induction false} TieFirst(byID: ByID, claims: seq<Claim>, key: string, a: int, b: int)
    requires |claims| >= 2 && claims[0] == Claim(key, a) && claims[1] == Claim(key, b)
    requires key != "" && a > 0 && b > 0 && a != b && Rank(byID, a) == Rank(byID, b)
    ensures Answer(byID, claims, key) == None
  {
    assert After(byID, claims, 0) == State(map[], {});
    assert key in After(byID, claims, 1).byFile && After(byID, claims, 1).byFile[key] == a;
    assert key in After(byID, claims, 2).ambiguous;
    AmbiguousForever(byID, claims, 2, |claims|, key);
    IndexIsSound(byID, claims, |claims|, key);
  }

  lemma {:induction false} TwoOrders(byID: ByID, claims: seq<Claim>, key: string) returns (x: seq<Claim>, y: seq<Claim>)
    requires TieBelowBest(byID, claims, key)
    ensures Permuted(claims, x) && Permuted(claims, y) && Answer(byID, x, key) != Answer(byID, y, key)
  {
    var n := |claims|;
    var book :| Best(byID, claims, n, key, book);
    var a, b :| a != b && Claimed(claims, n, key, a) && Claimed(claims, n, key, b) && Rank(byID, a) == Rank(byID, b);
    x := FrontOf(claims, Claim(key, book));
    PermutedClaims(byID, claims, x, key);
    assert forall other :: Claimed(x, |x|, key, other) <==> AllClaimed(claims, key, other);
    BestFirst(byID, x, |x|, key, book);
    var z := FrontOf(claims, Claim(key, a));
    var w := FrontOf(z[1..], Claim(key, b));
    y := [Claim(key, a)] + w;
    assert z == [z[0]] + z[1..];
    TieFirst(byID, y, key, a, b);
  }

  /** The order of the claims on a name matters exactly when two of them tie below a best one:
      for all other sets of claims every order gives the same answer. */
  lemma {:induction false} OrderMattersIff(byID: ByID, claims: seq<Claim>, key: string)
    ensures (forall other :: Permuted(claims, other) ==> Answer(byID, other, key) == Answer(byID, claims, key))
       <==> !TieBelowBest(byID, claims, key)
  {
    if TieBelowBest(byID, claims, key) {
      var x, y := TwoOrders(byID, claims, key);
    } else {
      forall other | Permuted(claims, other) ensures Answer(byID, other, key) == Answer(byID, claims, key) {
        SameWithoutTie(byID, claims, other, key);
      }
    }
  }
}
