/** Exactly which nicknames keep the keys of authors apart. */
module AuthorNicknames {
  import opened AuthorKeys
  import opened AuthorSuffixes
  import Decimal

  lemma {:induction false} CountTwo(first: Author, second: Author)
    requires first.nick != second.nick
    ensures NickCount([first, second], first.nick) == 1
  {
    assert [first, second][..1] == [first] && [first][..0] == [];
    assert NickCount([], first.nick) == 0;
    assert NickCount([first], first.nick) == 1;
  }

  /** An author whose nickname is unique is first offered the nickname. */
  lemma {:induction false} TakesNickname(a: Author, group: seq<Author>, key: (Person, string) -> string)
    requires a in group && a.id != "" && a.nick != "" && NickCount(group, a.nick) == 1
    requires key(a.person, Bracketed(a.nick)) != ""
    ensures Select(a, group, map[], key) == Bracketed(a.nick)
  {
    assert a.id in IdsOf(group);
    assert Candidates(a, group)[0] == Bracketed(a.nick);
  }

  /** An author without a nickname gets the id, whether or not it collides. */
  lemma {:induction false} TakesId(a: Author, group: seq<Author>, taken: Keys, key: (Person, string) -> string)
    requires a.nick == ""
    ensures Select(a, group, taken, key) == IdSuffix(a)
  {
    assert Candidates(a, group) == [IdSuffix(a)];
    PickOnlyId(a, Candidates(a, group), IdsOf(group), taken, key);
  }

  lemma {:induction false} PickOnlyId(a: Author, cs: seq<string>, ids: set<string>, taken: Keys,
      key: (Person, string) -> string)
    requires forall i :: 0 <= i < |cs| ==> cs[i] == IdSuffix(a)
    ensures Pick(a, cs, ids, taken, key) == IdSuffix(a)
  {
    if cs != [] { PickOnlyId(a, cs[1..], ids, taken, key); }
  }

  lemma {:induction false} TwoSteps(first: Author, second: Author, rules: Rules)
    requires first.id != "" && second.id != "" && first.id != second.id
    ensures var group := [first, second];
            var one := AssignOne(START, first, group, rules);
            AssignAll([group], 1, rules) == AssignOne(one, second, group, rules)
  {
    var group := [first, second];
    assert AssignAll([group], 0, rules) == START;
    assert AssignGroup(START, group, 0, rules) == START;
    assert AssignGroup(START, group, 1, rules) == AssignOne(START, first, group, rules);
  }

  /** Without the condition on nicknames keys are shared: an author whose nickname is the mark of
      another id takes that id's key, and the other author, of the same name, then gets it too. */
  lemma {:induction false} LabelAsNickname(p: Person, id: string, other: string, field: Field)
    requires IsId(id) && other != "" && id != other
    ensures var s := AssignAll([[Author(other, p, Label(id)), Author(id, p, "")]], 1, RulesFor(field));
            other in s.suffixes && id in s.suffixes && s.suffixes[other] == s.suffixes[id]
  {
    hide AuthorKey, Clean, Bracketed, NickCount;
    var first, second, key := Author(other, p, Label(id)), Author(id, p, ""), KeyFor(field);
    LabelIsClean(id);
    BracketedIsClean(Label(id));
    KeyIs(p, Bracketed(Label(id)), field);
    CountTwo(first, second);
    TakesNickname(first, [first, second], key);
    TwoSteps(first, second, RulesOf(key));
    TakesId(second, [first, second], AssignOne(START, first, [first, second], RulesOf(key)).taken, key);
  }

  // ---------------------------------------------------------------- a nickname that ends like a suffix

  lemma {:induction false} FourSteps(a: Author, b: Author, c: Author, d: Author, rules: Rules)
    ensures AssignAll([[a, b], [c, d]], 2, rules)
         == AssignOne(AssignOne(AssignOne(AssignOne(START, a, [a, b], rules), b, [a, b], rules), c, [c, d], rules),
                     d, [c, d], rules)
  {
    var groups, g, h := [[a, b], [c, d]], [a, b], [c, d];
    assert AssignAll(groups, 0, rules) == START;
    assert AssignGroup(START, g, 0, rules) == START;
    assert AssignGroup(START, g, 1, rules) == AssignOne(START, a, g, rules);
    var s := AssignAll(groups, 1, rules);
    assert s == AssignOne(AssignOne(START, a, g, rules), b, g, rules);
    assert AssignGroup(s, h, 0, rules) == s;
    assert AssignGroup(s, h, 1, rules) == AssignOne(s, c, h, rules);
  }

  /** An author without a name in the field the suffix goes to, and one whose name there is `text`. */
  function Named(field: Field, text: string): Person {
    match field
    case Last => Person("A", "A", text)
    case First => Person(text, "A", "A")
    case Middle => Person("A", text, "A")
  }

  lemma {:induction false} NamedKey(field: Field, text: string, suffix: string)
    requires Clean(text) && Clean(suffix) && suffix != ""
    ensures AuthorKey(Named(field, text), suffix, field)
         == AuthorKey(Named(field, ""), (if text == "" then suffix else text + " " + suffix), field)
  {
    var m := if text == "" then suffix else text + " " + suffix;
    if text != "" { CleanJoin(text, suffix); }
    CleanIsKept(text);
    CleanIsKept("");
    KeyIs(Named(field, text), suffix, field);
    KeyIs(Named(field, ""), m, field);
  }

  lemma {:induction false} CleanFront(nick: string, x: string, rest: string)
    requires Clean(nick) && nick == x + " " + rest && x != ""
    ensures Clean(x) && Clean("[" + x)
  {
    assert forall i :: 0 <= i < |x| ==> nick[i] == x[i];
    assert nick[|x|] == ' ';
    var y := "[" + x;
    assert forall i :: 0 < i < |y| ==> y[i] == x[i - 1];
  }

  lemma {:induction false} OthersStay(s: State, a: Author, group: seq<Author>, rules: Rules, id: string)
    requires a.id != id && id in s.suffixes
    ensures id in AssignOne(s, a, group, rules).suffixes
    ensures AssignOne(s, a, group, rules).suffixes[id] == s.suffixes[id]
  {
  }

  lemma {:induction false} GetsNickname(a: Author, b: Author, field: Field)
    requires a.id != "" && Clean(a.nick) && a.nick != "" && b.nick == ""
    ensures var s := AssignOne(START, a, [a, b], RulesFor(field));
            a.id in s.suffixes && s.suffixes[a.id] == Bracketed(a.nick)
  {
    BracketedIsClean(a.nick);
    KeyIs(a.person, Bracketed(a.nick), field);
    CountTwo(a, b);
    TakesNickname(a, [a, b], KeyFor(field));
  }

  lemma {:induction false} GetsId(s: State, c: Author, group: seq<Author>, field: Field)
    requires c.id != "" && c.nick == ""
    ensures var t := AssignOne(s, c, group, RulesFor(field));
            c.id in t.suffixes && t.suffixes[c.id] == IdSuffix(c)
  {
    TakesId(c, group, s.taken, KeyFor(field));
  }

  lemma {:induction false} TwoGroups(a: Author, b: Author, c: Author, d: Author, field: Field)
    requires a.id != "" && c.id != "" && a.id != b.id && a.id != c.id && a.id != d.id && c.id != d.id
    requires Clean(a.nick) && a.nick != "" && b.nick == "" && c.nick == ""
    ensures var s := AssignAll([[a, b], [c, d]], 2, RulesFor(field));
            && a.id in s.suffixes && s.suffixes[a.id] == Bracketed(a.nick)
            && c.id in s.suffixes && s.suffixes[c.id] == IdSuffix(c)
  {
    var rules := RulesFor(field);
    FourSteps(a, b, c, d, rules);
    GetsNickname(a, b, field);
    var s1 := AssignOne(START, a, [a, b], rules);
    OthersStay(s1, b, [a, b], rules, a.id);
    var s2 := AssignOne(s1, b, [a, b], rules);
    OthersStay(s2, c, [c, d], rules, a.id);
    GetsId(s2, c, [c, d], field);
    var s3 := AssignOne(s2, c, [c, d], rules);
    OthersStay(s3, d, [c, d], rules, a.id);
    OthersStay(s3, d, [c, d], rules, c.id);
  }

  lemma {:induction false} BracketedTail(x: string, mark: string)
    ensures "[" + x + " " + Bracketed(mark) == Bracketed(x + " [" + mark)
  {
  }

  lemma {:induction false} TailFront(nick: string, x: string, mark: string)
    requires Clean(nick) && nick == x + " [" + mark
    ensures x != "" && Clean("[" + x)
  {
    assert nick == x + " " + ("[" + mark);
    assert nick[|x|] == ' ';
    CleanFront(nick, x, "[" + mark);
  }

  lemma {:induction false} TailKeys(field: Field, x: string, id: string)
    requires Clean(x + " [" + Label(id)) && IsId(id)
    ensures AuthorKey(Named(field, ""), Bracketed(x + " [" + Label(id)), field)
         == AuthorKey(Named(field, "[" + x), Bracketed(Label(id)), field)
  {
    var suffix := Bracketed(Label(id));
    TailFront(x + " [" + Label(id), x, Label(id));
    LabelIsClean(id);
    BracketedIsClean(Label(id));
    NamedKey(field, "[" + x, suffix);
    BracketedTail(x, Label(id));
  }

  // ---------------------------------------------------------------- the condition

  ghost predicate MayHold(a: Listed, nicks: set<string>) { IsId(a.id) && a.nickName in nicks }

  ghost predicate SamePerson(a: Listed, b: Listed) { a.id == b.id ==> a.person == b.person }

  /** Authors of a group have the same name. */
  ghost predicate Namesakes(g: seq<Listed>) {
    |g| >= 2 && forall a, b :: a in g && b in g ==> AuthorKey(a.person, "", Last) == AuthorKey(b.person, "", Last)
  }

  /** What metadata can hold: groups of at least two authors of the same name, with ids as the collector
      writes them, one person an id, and nicknames out of some set. */
  ghost predicate Population(groups: seq<seq<Listed>>, nicks: set<string>) {
    && (forall g :: g in groups ==> Namesakes(g))
    && (forall g, a :: g in groups && a in g ==> MayHold(a, nicks))
    && (forall g, h, a, b :: g in groups && h in groups && a in g && b in h ==> SamePerson(a, b))
  }

  ghost predicate Apart(s: State, a: Listed, b: Listed, field: Field) {
    a.id != b.id && a.id in s.suffixes && b.id in s.suffixes ==>
      AuthorKey(a.person, s.suffixes[a.id], field) != AuthorKey(b.person, s.suffixes[b.id], field)
  }

  /** Authors with different ids get suffixes that render to different keys. */
  ghost predicate AllApart(groups: seq<seq<Listed>>, field: Field) {
    forall g, h, a, b :: g in groups && h in groups && a in g && b in h ==>
      Apart(AssignAll(ReadAll(groups), |groups|, RulesFor(field)), a, b, field)
  }

  /** A nickname as it stands in the metadata is safe if its cleansed form is. */
  predicate IsSafe(nickName: string) { SafeNick(CleanseAuthorComponent(nickName)) }

  /** An author read from the metadata: the nickname is clean. */
  lemma {:induction false} ReadIsPlain(l: Listed, nicks: set<string>)
    requires MayHold(l, nicks) && IsSafe(l.nickName)
    ensures Plain(AuthorFromMetadata(l))
  {
    CleansedIsClean(l.nickName);
  }

  lemma {:induction false} ReadFrom(groups: seq<seq<Listed>>, i: nat, c: Author) returns (l: Listed)
    requires i < |groups| && c in ReadAll(groups)[i]
    ensures l in groups[i] && c == AuthorFromMetadata(l)
  {
    var k :| 0 <= k < |ReadOne(groups[i])| && ReadOne(groups[i])[k] == c;
    l := groups[i][k];
  }

  /** All authors of all groups. */
  ghost function Known(groups: seq<seq<Listed>>): set<Author> {
    set g, l | g in groups && l in g :: AuthorFromMetadata(l)
  }

  lemma {:induction false} KnownIsCoherent(groups: seq<seq<Listed>>, nicks: set<string>)
    requires Population(groups, nicks) && forall n :: n in nicks ==> IsSafe(n)
    ensures Coherent(Known(groups))
    ensures forall i, c :: 0 <= i < |groups| && c in ReadAll(groups)[i] ==> c in Known(groups)
  {
    forall a | a in Known(groups) ensures Plain(a) {
      var g, l :| g in groups && l in g && a == AuthorFromMetadata(l);
      ReadIsPlain(l, nicks);
    }
    forall a, b | a in Known(groups) && b in Known(groups) && a.id == b.id ensures a.person == b.person {
      var g, l :| g in groups && l in g && a == AuthorFromMetadata(l);
      var h, m :| h in groups && m in h && b == AuthorFromMetadata(m);
      assert SamePerson(l, m);
    }
    forall i, c | 0 <= i < |groups| && c in ReadAll(groups)[i] ensures c in Known(groups) {
      var l := ReadFrom(groups, i, c);
      assert groups[i] in groups;
    }
  }

  lemma {:induction false} SafeIsApart(groups: seq<seq<Listed>>, nicks: set<string>, field: Field)
    requires Population(groups, nicks) && forall n :: n in nicks ==> IsSafe(n)
    ensures AllApart(groups, field)
  {
    KnownIsCoherent(groups, nicks);
    var s := AssignAll(ReadAll(groups), |groups|, RulesFor(field));
    forall g, h, a, b | g in groups && h in groups && a in g && b in h ensures Apart(s, a, b, field) {
      if a.id != b.id && a.id in s.suffixes && b.id in s.suffixes {
        var c, e := AuthorFromMetadata(a), AuthorFromMetadata(b);
        KeysAreDistinct(ReadAll(groups), Known(groups), field, c, e);
      }
    }
  }

  /** An unsafe nickname is a mark, alone or behind a bracket and a space. */
  lemma {:induction false} UnsafeNick(nick: string) returns (x: string, id: string)
    requires !SafeNick(nick)
    ensures IsId(id) && (nick == Label(id) || nick == x + " [" + Label(id))
  {
    x := "";
    var n := DigitsAtEnd(nick);
    id := nick[|nick| - n..];
    var rest := nick[..|nick| - n];
    assert nick == rest + id;
    if rest != "#" {
      x := rest[..|rest| - 3];
      assert rest == x + " [#";
    }
  }

  lemma {:induction false} InTwo<T>(a: T, b: T)
    ensures forall e :: e in [a, b] <==> e == a || e == b
  {
  }

  lemma {:induction false} Pair(a: Listed, b: Listed, nicks: set<string>)
    requires MayHold(a, nicks) && MayHold(b, nicks) && a.person == b.person
    ensures Namesakes([a, b]) && forall e :: e in [a, b] ==> MayHold(e, nicks)
  {
    InTwo(a, b);
  }

  /** Authors with different ids. */
  lemma {:induction false} SamePersons(a: Listed, b: Listed, c: Listed, d: Listed, e: Listed, f: Listed)
    requires a.id != b.id && a.id != c.id && a.id != d.id && b.id != c.id && b.id != d.id && c.id != d.id
    requires (e in [a, b] || e in [c, d]) && (f in [a, b] || f in [c, d])
    ensures SamePerson(e, f)
  {
    InTwo(a, b);
    InTwo(c, d);
  }

  lemma {:induction false} IsPopulation(a: Listed, b: Listed, c: Listed, d: Listed, nicks: set<string>)
    requires MayHold(a, nicks) && MayHold(b, nicks) && MayHold(c, nicks) && MayHold(d, nicks)
    requires a.id != b.id && a.id != c.id && a.id != d.id && b.id != c.id && b.id != d.id && c.id != d.id
    requires a.person == b.person && c.person == d.person
    ensures Population([[a, b], [c, d]], nicks)
  {
    var groups := [[a, b], [c, d]];
    InTwo([a, b], [c, d]);
    Pair(a, b, nicks);
    Pair(c, d, nicks);
    forall g, h, e, f | g in groups && h in groups && e in g && f in h ensures SamePerson(e, f) {
      SamePersons(a, b, c, d, e, f);
    }
  }

  lemma {:induction false} IsOnePopulation(a: Listed, b: Listed, nicks: set<string>)
    requires MayHold(a, nicks) && MayHold(b, nicks) && a.person == b.person && a.id != b.id
    ensures Population([[a, b]], nicks)
  {
    Pair(a, b, nicks);
    InTwo(a, b);
    assert forall g :: g in [[a, b]] ==> g == [a, b];
  }

  lemma {:induction false} ReadPair(a: Listed, b: Listed)
    ensures ReadOne([a, b]) == [AuthorFromMetadata(a), AuthorFromMetadata(b)]
    ensures ReadAll([[a, b]]) == [[AuthorFromMetadata(a), AuthorFromMetadata(b)]]
  {
  }

  lemma {:induction false} ReadPairs(a: Listed, b: Listed, c: Listed, d: Listed)
    ensures ReadAll([[a, b], [c, d]])
         == [[AuthorFromMetadata(a), AuthorFromMetadata(b)], [AuthorFromMetadata(c), AuthorFromMetadata(d)]]
  {
    ReadPair(a, b);
    ReadPair(c, d);
  }

  lemma {:induction false} NotApart(groups: seq<seq<Listed>>, i: nat, j: nat, a: Listed, b: Listed, field: Field)
    requires i < |groups| && j < |groups| && a in groups[i] && b in groups[j]
    requires !Apart(AssignAll(ReadAll(groups), |groups|, RulesFor(field)), a, b, field)
    ensures !AllApart(groups, field)
  {
    assert groups[i] in groups && groups[j] in groups;
  }

  /** Three more ids. */
  function OtherIds(id: string): (r: (string, string, string))
    ensures IsId(r.0) && IsId(r.1) && IsId(r.2) && r.0 != r.1 && r.0 != r.2 && r.1 != r.2
    ensures id != r.0 && id != r.1 && id != r.2
  {
    SmallIds();
    if id == "1" then ("2", "3", "4")
    else if id == "2" then ("1", "3", "4")
    else if id == "3" then ("1", "2", "4")
    else ("1", "2", "3")
  }

  lemma {:induction false} SmallIds()
    ensures IsId("1") && IsId("2") && IsId("3") && IsId("4")
  {
    SmallId('1');
    SmallId('2');
    SmallId('3');
    SmallId('4');
  }

  lemma {:induction false} SmallId(c: char)
    requires '1' <= c <= '9'
    ensures IsId([c])
  {
    assert [c][..0] == "";
  }

  lemma {:induction false} MarkIsShared(nickName: string, p: Person, id: string, other: string, field: Field)
    requires CleanseAuthorComponent(nickName) == Label(id) && IsId(id) && other != "" && other != id
    ensures var a, b := Listed(other, p, nickName), Listed(id, p, "");
            !Apart(AssignAll(ReadAll([[a, b]]), 1, RulesFor(field)), a, b, field)
  {
    hide AssignAll, ReadAll, Label, CleanseAuthorComponent, AuthorKey;
    CleanIsKept("");
    ReadPair(Listed(other, p, nickName), Listed(id, p, ""));
    LabelAsNickname(p, id, other, field);
  }

  lemma {:induction false} MarkCollides(nickName: string, id: string, nicks: set<string>, field: Field)
    returns (groups: seq<seq<Listed>>)
    requires nickName in nicks && "" in nicks && CleanseAuthorComponent(nickName) == Label(id) && IsId(id)
    ensures Population(groups, nicks) && !AllApart(groups, field)
  {
    hide Population, AllApart, CleanseAuthorComponent, Apart, AssignAll, ReadAll;
    var p, other := Named(field, ""), OtherIds(id).0;
    var a, b := Listed(other, p, nickName), Listed(id, p, "");
    groups := [[a, b]];
    CleanIsKept("");
    IsOnePopulation(a, b, nicks);
    MarkIsShared(nickName, p, id, other, field);
    InTwo(a, b);
    NotApart(groups, 0, 0, a, b, field);
  }

  lemma {:induction false} TailCollides(nickName: string, x: string, id: string, nicks: set<string>, field: Field)
    returns (groups: seq<seq<Listed>>)
    requires nickName in nicks && "" in nicks && IsId(id)
    requires CleanseAuthorComponent(nickName) == x + " [" + Label(id)
    ensures Population(groups, nicks) && !AllApart(groups, field)
  {
    var p, q := Named(field, ""), Named(field, "[" + x);
    var (i, j, k) := OtherIds(id);
    var a, b, c, d := Listed(i, p, nickName), Listed(j, p, ""), Listed(id, q, ""), Listed(k, q, "");
    groups := [[a, b], [c, d]];
    CleanIsKept("");
    CleansedIsClean(nickName);
    ReadPairs(a, b, c, d);
    IsPopulation(a, b, c, d, nicks);
    TwoGroups(AuthorFromMetadata(a), AuthorFromMetadata(b), AuthorFromMetadata(c), AuthorFromMetadata(d), field);
    TailKeys(field, x, id);
    NotApart(groups, 0, 1, a, c, field);
  }

  /** For each choice of field: whatever authors carry nicknames out of a set, all of them are told
      apart, exactly when the cleansed form of no nickname of the set is a number sign with an id or ends
      in one behind a space and a bracket. The condition is tight for metadata listed in any order, as a hand may
      write it; the collector, which lists ids sorted, does not write all the orders the second half uses. */
  lemma {:induction false} NicknamesDecide(nicks: set<string>, field: Field)
    requires "" in nicks
    ensures (forall groups :: Population(groups, nicks) ==> AllApart(groups, field))
       <==> forall n :: n in nicks ==> IsSafe(n)
  {
    if forall n :: n in nicks ==> IsSafe(n) {
      forall groups | Population(groups, nicks) ensures AllApart(groups, field) {
        SafeIsApart(groups, nicks, field);
      }
    } else {
      var n :| n in nicks && !IsSafe(n);
      var x, id := UnsafeNick(CleanseAuthorComponent(n));
      var groups;
      if CleanseAuthorComponent(n) == Label(id) {
        groups := MarkCollides(n, id, nicks, field);
      } else {
        groups := TailCollides(n, x, id, nicks, field);
      }
      assert Population(groups, nicks) && !AllApart(groups, field);
    }
  }
}
