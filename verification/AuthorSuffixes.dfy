/** `NewAuthorDisambiguator`: suffixes that tell authors of the same name apart. */
module AuthorSuffixes {
  import opened Spaces
  import opened AuthorKeys
  import Decimal

  /** An author of an ambiguous group, as the metadata lists it. */
  datatype Listed = Listed(id: string, person: Person, nickName: string)

  /** `authorCollisionAuthor`: the nickname is cleansed. */
  datatype Author = Author(id: string, person: Person, nick: string)

  function AuthorFromMetadata(l: Listed): Author { Author(l.id, l.person, CleanseAuthorComponent(l.nickName)) }

  function Label(id: string): string { "#" + id }

  /** How many authors of a group have a nickname. */
  function NickCount(group: seq<Author>, nick: string): nat {
    if group == [] then 0
    else NickCount(group[..|group| - 1], nick) + if group[|group| - 1].nick == nick then 1 else 0
  }

  function Bracketed(text: string): string { "[" + text + "]" }

  function IdSuffix(a: Author): string { Bracketed(Label(a.id)) }

  /** `authorSuffix`. */
  function FirstSuffix(a: Author, group: seq<Author>): string {
    if a.nick != "" && NickCount(group, a.nick) == 1 then Bracketed(a.nick) else IdSuffix(a)
  }

  function Candidates(a: Author, group: seq<Author>): (cs: seq<string>)
    ensures cs != []
  {
    var first := [FirstSuffix(a, group)];
    var more := if a.nick != "" then first + [Bracketed(a.nick + " " + Label(a.id))] else first;
    if more[|more| - 1] != IdSuffix(a) then more + [IdSuffix(a)] else more
  }

  /** Assigned keys, with the id of the author they were last given to. */
  type Keys = map<string, string>

  function IdsOf(group: seq<Author>): set<string> { set a | a in group && a.id != "" :: a.id }

  /** `keyCollides`. */
  predicate Collides(id: string, key: string, ids: set<string>, taken: Keys) {
    key == "" || (key in taken && taken[key] != "" && taken[key] != id) || id !in ids
  }

  function Pick(a: Author, cs: seq<string>, ids: set<string>, taken: Keys, key: (Person, string) -> string): string {
    if cs == [] then IdSuffix(a)
    else if !Collides(a.id, key(a.person, cs[0]), ids, taken) then cs[0]
    else Pick(a, cs[1..], ids, taken, key)
  }

  /** `selectAuthorSuffix`: the first candidate that does not collide, or else, unchecked, the id. */
  function Select(a: Author, group: seq<Author>, taken: Keys, key: (Person, string) -> string): string {
    Pick(a, Candidates(a, group), IdsOf(group), taken, key)
  }

  datatype State = State(suffixes: map<string, string>, taken: Keys)

  /** How a suffix is chosen and how a person and a suffix render to a key. */
  datatype Rules = Rules(choose: (Author, seq<Author>, Keys) -> string, key: (Person, string) -> string)

  function KeyFor(field: Field): (Person, string) -> string { (p, suffix) => AuthorKey(p, suffix, field) }

  function RulesOf(key: (Person, string) -> string): Rules {
    Rules((a, group, taken) => Select(a, group, taken, key), key)
  }

  function RulesFor(field: Field): Rules { RulesOf(KeyFor(field)) }

  function AssignOne(s: State, a: Author, group: seq<Author>, rules: Rules): State {
    if a.id == "" then s
    else
      var suffix := rules.choose(a, group, s.taken);
      State(s.suffixes[a.id := suffix], s.taken[rules.key(a.person, suffix) := a.id])
  }

  /** The first n authors of a group. */
  function AssignGroup(s: State, group: seq<Author>, n: nat, rules: Rules): State
    requires n <= |group|
  {
    if n == 0 then s else AssignOne(AssignGroup(s, group, n - 1, rules), group[n - 1], group, rules)
  }

  const START: State := State(map[], map[])

  /** The first n groups. */
  function AssignAll(groups: seq<seq<Author>>, n: nat, rules: Rules): State
    requires n <= |groups|
  {
    if n == 0 then START
    else AssignGroup(AssignAll(groups, n - 1, rules), groups[n - 1], |groups[n - 1]|, rules)
  }

  /** The authors of a group, read from the metadata. */
  function ReadOne(listed: seq<Listed>): (group: seq<Author>)
    ensures |group| == |listed| && forall i :: 0 <= i < |listed| ==> group[i] == AuthorFromMetadata(listed[i])
  {
    if listed == [] then [] else ReadOne(listed[..|listed| - 1]) + [AuthorFromMetadata(listed[|listed| - 1])]
  }

  function ReadAll(listed: seq<seq<Listed>>): (groups: seq<seq<Author>>)
    ensures |groups| == |listed| && forall i :: 0 <= i < |listed| ==> groups[i] == ReadOne(listed[i])
  {
    if listed == [] then [] else ReadAll(listed[..|listed| - 1]) + [ReadOne(listed[|listed| - 1])]
  }

  // ---------------------------------------------------------------- the loops

  method ReadGroup(listed: seq<Listed>) returns (group: seq<Author>)
    ensures group == ReadOne(listed)
  {
    group := [];
    var i := 0;
    while i < |listed|
      invariant i <= |listed| && group == ReadOne(listed[..i])
    {
      assert listed[..i + 1][..i] == listed[..i];
      group := group + [AuthorFromMetadata(listed[i])];
      i := i + 1;
    }
    assert listed[..i] == listed;
  }

  class AuthorDisambiguator {
    const field: Field
    var suffixes: map<string, string>
    var assignedKeys: Keys

    constructor (field: Field)
      ensures this.field == field && Now() == START
    {
      this.field := field;
      suffixes, assignedKeys := map[], map[];
    }

    function Now(): State
      reads this
    {
      State(suffixes, assignedKeys)
    }

    method CountNicks(group: seq<Author>) returns (counts: map<string, nat>)
      ensures forall nick :: nick != "" ==> NickCount(group, nick) == if nick in counts then counts[nick] else 0
    {
      counts := map[];
      var i := 0;
      while i < |group|
        invariant i <= |group|
        invariant forall nick :: nick != "" ==>
          NickCount(group[..i], nick) == if nick in counts then counts[nick] else 0
      {
        var nick := group[i].nick;
        assert group[..i + 1][..i] == group[..i];
        if nick != "" { counts := counts[nick := (if nick in counts then counts[nick] else 0) + 1]; }
        i := i + 1;
      }
      assert group[..i] == group;
    }

    method SelectSuffix(a: Author, counts: map<string, nat>, ids: set<string>, ghost group: seq<Author>)
      returns (suffix: string)
      requires forall nick :: nick != "" ==> NickCount(group, nick) == if nick in counts then counts[nick] else 0
      requires ids == IdsOf(group)
      ensures suffix == Select(a, group, assignedKeys, KeyFor(field))
    {
      var nick := a.nick;
      var idSuffix := IdSuffix(a);
      var first := if nick != "" && nick in counts && counts[nick] == 1 then Bracketed(nick) else idSuffix;
      var candidates := [first];
      if nick != "" { candidates := candidates + [Bracketed(nick + " " + Label(a.id))]; }
      if candidates[|candidates| - 1] != idSuffix { candidates := candidates + [idSuffix]; }
      assert candidates == Candidates(a, group);
      var key := KeyFor(field);
      var i := 0;
      while i < |candidates|
        invariant i <= |candidates|
        invariant Pick(a, candidates[i..], ids, assignedKeys, key) == Select(a, group, assignedKeys, key)
      {
        if !Collides(a.id, key(a.person, candidates[i]), ids, assignedKeys) { return candidates[i]; }
        assert candidates[i..][1..] == candidates[i + 1..];
        i := i + 1;
      }
      return idSuffix;
    }

    method Assign(a: Author, counts: map<string, nat>, ids: set<string>, ghost group: seq<Author>)
      requires forall nick :: nick != "" ==> NickCount(group, nick) == if nick in counts then counts[nick] else 0
      requires ids == IdsOf(group)
      modifies this
      ensures Now() == AssignOne(old(Now()), a, group, RulesFor(field))
    {
      if a.id == "" { return; }
      var suffix := SelectSuffix(a, counts, ids, group);
      suffixes := suffixes[a.id := suffix];
      assignedKeys := assignedKeys[AuthorKey(a.person, suffix, field) := a.id];
    }

    method AddGroup(group: seq<Author>)
      modifies this
      ensures Now() == AssignGroup(old(Now()), group, |group|, RulesFor(field))
    {
      hide AssignOne, RulesFor;
      var counts := CountNicks(group);
      var ids := set a | a in group && a.id != "" :: a.id;
      var i := 0;
      while i < |group|
        invariant i <= |group|
        invariant Now() == AssignGroup(old(Now()), group, i, RulesFor(field))
      {
        Assign(group[i], counts, ids, group);
        i := i + 1;
      }
    }

    method Build(listed: seq<seq<Listed>>)
      requires Now() == START
      modifies this
      ensures Now() == AssignAll(ReadAll(listed), |listed|, RulesFor(field))
    {
      hide AssignGroup, ReadOne, RulesFor;
      var i := 0;
      while i < |listed|
        invariant i <= |listed| && Now() == AssignAll(ReadAll(listed), i, RulesFor(field))
      {
        var group := ReadGroup(listed[i]);
        AddGroup(group);
        i := i + 1;
      }
    }
  }

  // ---------------------------------------------------------------- the text of suffixes

  /** What the collector writes as an id: a positive 64-bit number. */
  predicate IsId(id: string) {
    Decimal.AllDigits(id) && id != "" && id[0] != '0' && Decimal.Value(id) <= Decimal.MAX_INT64
  }

  lemma {:induction false} IdIsWritten(id: string)
    ensures IsId(id) <==> exists n: nat :: 0 < n <= Decimal.MAX_INT64 && id == Decimal.Format(n)
  {
    if IsId(id) {
      Decimal.ValueIsPositive(id);
      Decimal.FormatOfValue(id);
    }
    if n: nat :| 0 < n <= Decimal.MAX_INT64 && id == Decimal.Format(n) {
      Decimal.FormatIsShortest(n);
      Decimal.ValueOfFormat(n);
    }
  }

  /** How many digits a text ends with. */
  function DigitsAtEnd(s: string): (n: nat)
    ensures n <= |s|
  {
    if s == "" || !Decimal.IsDigit(s[|s| - 1]) then 0 else DigitsAtEnd(s[..|s| - 1]) + 1
  }

  predicate EndsIn(s: string, end: string) { |end| <= |s| && s[|s| - |end|..] == end }

  /** A nickname that cannot be taken for the mark of an id: it is not a number sign with an id,
      and does not end in one that stands in a bracket after a space. */
  predicate SafeNick(nick: string) {
    var n := DigitsAtEnd(nick);
    var rest := nick[..|nick| - n];
    !IsId(nick[|nick| - n..]) || (rest != "#" && !EndsIn(rest, " [#"))
  }

  /** Ids are those the collector writes, and the nickname is cleansed and safe. */
  ghost predicate Plain(a: Author) { (a.id == "" || IsId(a.id)) && Clean(a.nick) && SafeNick(a.nick) }

  ghost predicate IsSuffixOf(s: string, a: Author) {
    s == IdSuffix(a) || (a.nick != "" && (s == Bracketed(a.nick) || s == Bracketed(a.nick + " " + Label(a.id))))
  }

  lemma {:induction false} BracketedIsClean(text: string)
    requires Clean(text) && text != ""
    ensures Clean(Bracketed(text)) && Bracketed(text) != ""
  {
    var b := Bracketed(text);
    assert forall i :: 0 <= i < |b| ==> b[i] == if i == 0 then '[' else if i == |b| - 1 then ']' else text[i - 1];
  }

  lemma {:induction false} LabelIsClean(id: string)
    requires Decimal.AllDigits(id)
    ensures Clean(Label(id))
  {
    assert forall i :: 0 < i < |Label(id)| ==> Label(id)[i] == id[i - 1];
  }

  lemma {:induction false} SuffixIsClean(a: Author, s: string)
    requires Plain(a) && IsSuffixOf(s, a)
    ensures Clean(s) && s != ""
  {
    LabelIsClean(a.id);
    BracketedIsClean(Label(a.id));
    if a.nick != "" {
      BracketedIsClean(a.nick);
      CleanJoin(a.nick, Label(a.id));
      assert a.nick + " " + Label(a.id) != "";
      BracketedIsClean(a.nick + " " + Label(a.id));
    }
  }

  lemma {:induction false} DigitsOfLabel(before: string, id: string)
    requires Decimal.AllDigits(id)
    ensures DigitsAtEnd(before + Label(id)) == |id|
  {
    var s := before + Label(id);
    if id == "" {
      assert s[|s| - 1] == '#';
    } else {
      var rest := id[..|id| - 1];
      DigitsOfLabel(before, rest);
      assert s[..|s| - 1] == before + Label(rest);
    }
  }

  /** Texts that end with the marks of ids end with the same id if they are equal. */
  lemma {:induction false} SameLabel(before: string, id: string, before': string, id': string)
    requires Decimal.AllDigits(id) && Decimal.AllDigits(id')
    requires before + Label(id) == before' + Label(id')
    ensures id == id'
  {
    DigitsOfLabel(before, id);
    DigitsOfLabel(before', id');
    var s := before + Label(id);
    assert id == s[|s| - |id|..] && id' == s[|s| - |id'|..];
  }

  lemma {:induction false} LabelIsUnsafe(nick: string, before: string, id: string)
    requires IsId(id) && nick == before + Label(id)
    ensures SafeNick(nick) <==> before != "" && !EndsIn(before, " [")
  {
    DigitsOfLabel(before, id);
    var rest := nick[..|nick| - |id|];
    assert rest == before + "#" && nick[|nick| - |id|..] == id;
    if EndsIn(before, " [") { assert rest[|rest| - 3..] == before[|before| - 2..] + "#"; }
    if EndsIn(rest, " [#") { assert before[|before| - 2..] == rest[|rest| - 3..|rest| - 1]; }
  }

  /** Empty, or a name with a space behind it. */
  predicate IsLead(x: string) { x == "" || x[|x| - 1] == ' ' }

  lemma {:induction false} FromTheEnd(x: string, text: string, s: string)
    requires s == x + "[" + text
    ensures |s| == |x| + 1 + |text|
    ensures s[|s| - |text|..] == text && s[|s| - |text| - 1] == '['
    ensures x != "" ==> s[|s| - |text| - 2] == x[|x| - 1]
    ensures forall i :: 0 <= i < |text| ==> s[|s| - |text| + i] == text[i]
  {
  }

  lemma {:induction false} NoBracketIn(id: string, i: nat)
    requires Decimal.AllDigits(id) && i < |Label(id)|
    ensures Label(id)[i] != '['
  {
    assert i > 0 ==> Decimal.IsDigit(id[i - 1]);
  }

  /** A text that ends with the mark of an id, behind a bracket and a space, is no safe nickname. */
  lemma {:induction false} LongTail(nick: string, mark: string, id: string)
    requires IsId(id) && mark == Label(id)
    requires |nick| >= |mark| + 2 && nick[|nick| - |mark|..] == mark
    requires nick[|nick| - |mark| - 1] == '[' && nick[|nick| - |mark| - 2] == ' '
    ensures !SafeNick(nick)
  {
    var before := nick[..|nick| - |mark|];
    assert nick == before + mark;
    assert before[|before| - 2..] == " [";
    LabelIsUnsafe(nick, before, id);
  }

  /** Text s ends with the nickname and with the mark of an id, each in a bracket. */
  lemma {:induction false} BothTails(s: string, mark: string, id: string, nick: string)
    requires IsId(id) && mark == Label(id) && nick != ""
    requires |s| >= |mark| + 1 && s[|s| - |mark|..] == mark && s[|s| - |mark| - 1] == '['
    requires |s| >= |nick| + 1 && s[|s| - |nick|..] == nick && s[|s| - |nick| - 1] == '['
    requires |s| > |mark| + 1 ==> s[|s| - |mark| - 2] == ' '
    ensures !SafeNick(nick)
  {
    if |nick| < |mark| {
      NoBracketIn(id, |mark| - |nick| - 1);
    } else if |nick| == |mark| {
      assert nick == "" + Label(id);
      LabelIsUnsafe(nick, "", id);
    } else if |nick| >= |mark| + 2 {
      var k := |s| - |nick|;
      assert nick[|nick| - |mark| - 1] == s[k..][|nick| - |mark| - 1];
      assert nick[|nick| - |mark| - 2] == s[k..][|nick| - |mark| - 2];
      assert nick[|nick| - |mark|..] == s[|s| - |mark|..];
      LongTail(nick, mark, id);
    }
  }

  /** A bracketed nickname behind a name reads as a bracketed mark behind a name only if it is not safe. */
  lemma {:induction false} ReadsAsLabel(x: string, id: string, y: string, nick: string)
    requires IsId(id) && nick != "" && IsLead(x) && IsLead(y)
    requires x + "[" + Label(id) == y + "[" + nick
    ensures !SafeNick(nick)
  {
    var s := x + "[" + Label(id);
    FromTheEnd(x, Label(id), s);
    FromTheEnd(y, nick, s);
    BothTails(s, Label(id), id, nick);
  }

  /** What stands in the brackets of a suffix of b cannot be read as the mark of another id. */
  lemma {:induction false} TextIsOwn(x: string, id: string, y: string, text: string, b: Author)
    requires Plain(b) && IsId(id) && IsLead(x) && IsLead(y)
    requires text == Label(b.id) || (b.nick != "" && (text == b.nick || text == b.nick + " " + Label(b.id)))
    requires x + "[" + Label(id) == y + "[" + text
    ensures id == b.id
  {
    if b.nick != "" && text == b.nick {
      ReadsAsLabel(x, id, y, b.nick);
    } else if text == Label(b.id) {
      SameLabel(x + "[", id, y + "[", b.id);
    } else {
      assert y + "[" + text == y + "[" + b.nick + " " + Label(b.id);
      SameLabel(x + "[", id, y + "[" + b.nick + " ", b.id);
    }
  }

  /** The text before the brackets. */
  function Lead(p: Person, field: Field): (x: string)
    ensures IsLead(x)
  {
    var c := Component(p, field);
    if c == "" then "" else c + " "
  }

  lemma {:induction false} MarkedIs(p: Person, text: string, field: Field)
    ensures Marked(p, Bracketed(text), field) == Lead(p, field) + "[" + text + "]"
  {
  }

  lemma {:induction false} DropLast(a: string, b: string, c: char)
    requires a + [c] == b + [c]
    ensures a == b
  {
    assert a == (a + [c])[..|a|] && b == (b + [c])[..|b|];
  }

  /** The unchecked fallback cannot be taken: the key with the id alone belongs to no other id. */
  lemma {:induction false} IdKeyIsOwn(a: Author, b: Author, s: string, field: Field)
    requires Plain(a) && Plain(b) && IsSuffixOf(s, b) && a.id != ""
    requires AuthorKey(a.person, IdSuffix(a), field) == AuthorKey(b.person, s, field)
    ensures a.id == b.id
  {
    SuffixIsClean(a, IdSuffix(a));
    SuffixIsClean(b, s);
    EqualKeys(a.person, IdSuffix(a), b.person, s, field);
    var text := TextOf(b, s);
    MarkedIs(a.person, Label(a.id), field);
    MarkedIs(b.person, text, field);
    var x, y := Lead(a.person, field), Lead(b.person, field);
    DropLast(x + "[" + Label(a.id), y + "[" + text, ']');
    TextIsOwn(x, a.id, y, text, b);
  }

  lemma {:induction false} TextOf(b: Author, s: string) returns (text: string)
    requires IsSuffixOf(s, b)
    ensures s == Bracketed(text)
    ensures text == Label(b.id) || (b.nick != "" && (text == b.nick || text == b.nick + " " + Label(b.id)))
  {
    text := if s == IdSuffix(b) then Label(b.id)
            else if s == Bracketed(b.nick) then b.nick else b.nick + " " + Label(b.id);
  }

  // ---------------------------------------------------------------- keys are never shared

  /** Where an assigned key comes from. */
  ghost predicate From(key: string, id: string, known: set<Author>, rules: Rules) {
    exists b, s :: b in known && b.id == id && IsSuffixOf(s, b) && key == rules.key(b.person, s)
  }

  ghost predicate Owns(s: State, a: Author, rules: Rules)
    requires a.id in s.suffixes
  {
    var key := rules.key(a.person, s.suffixes[a.id]);
    key in s.taken && s.taken[key] == a.id
  }

  /** Every assigned key comes from an author with its id, and every author with a suffix still
      owns the key the suffix gives. */
  ghost predicate Owned(s: State, known: set<Author>, rules: Rules) {
    && (forall key :: key in s.taken ==> s.taken[key] != "" && From(key, s.taken[key], known, rules))
    && (forall a :: a in known && a.id in s.suffixes ==> Owns(s, a, rules))
  }

  ghost predicate OneName(known: set<Author>) {
    forall a, b :: a in known && b in known && a.id == b.id ==> a.person == b.person
  }

  /** The authors of all groups: plain, and with one name an id. */
  ghost predicate Coherent(known: set<Author>) { OneName(known) && forall a :: a in known ==> Plain(a) }

  predicate Free(a: Author, suffix: string, taken: Keys, rules: Rules) {
    var key := rules.key(a.person, suffix);
    key !in taken || taken[key] == a.id
  }

  /** The chosen suffix is one of the author's, and its key belongs to no other id. */
  ghost predicate GoodChoice(s: State, a: Author, group: seq<Author>, rules: Rules) {
    IsSuffixOf(rules.choose(a, group, s.taken), a) && Free(a, rules.choose(a, group, s.taken), s.taken, rules)
  }

  ghost predicate GoodRules(known: set<Author>, rules: Rules) {
    forall s, a, group :: a in known && a in group && a.id != "" && Owned(s, known, rules) ==>
      GoodChoice(s, a, group, rules)
  }

  lemma {:induction false} AssignOwned(s: State, a: Author, group: seq<Author>, known: set<Author>, rules: Rules)
    requires OneName(known) && Owned(s, known, rules) && a in known && (a.id != "" ==> GoodChoice(s, a, group, rules))
    ensures Owned(AssignOne(s, a, group, rules), known, rules)
  {
    if a.id != "" {
      var suffix := rules.choose(a, group, s.taken);
      var t := AssignOne(s, a, group, rules);
      assert From(rules.key(a.person, suffix), a.id, known, rules);
      forall b | b in known && b.id in t.suffixes ensures Owns(t, b, rules) {
        if b.id != a.id { assert Owns(s, b, rules); }
      }
    }
  }

  lemma {:induction false} GroupOwned(s: State, group: seq<Author>, n: nat, known: set<Author>, rules: Rules)
    requires n <= |group| && OneName(known) && GoodRules(known, rules)
    requires Owned(s, known, rules) && forall a :: a in group ==> a in known
    ensures Owned(AssignGroup(s, group, n, rules), known, rules)
  {
    if n > 0 {
      GroupOwned(s, group, n - 1, known, rules);
      var a, t := group[n - 1], AssignGroup(s, group, n - 1, rules);
      assert a in group;
      if a.id != "" { assert GoodChoice(t, a, group, rules); }
      AssignOwned(t, a, group, known, rules);
    }
  }

  lemma {:induction false} AllOwned(groups: seq<seq<Author>>, n: nat, known: set<Author>, rules: Rules)
    requires n <= |groups| && OneName(known) && GoodRules(known, rules)
    requires forall i, a :: 0 <= i < |groups| && a in groups[i] ==> a in known
    ensures Owned(AssignAll(groups, n, rules), known, rules)
  {
    if n > 0 {
      AllOwned(groups, n - 1, known, rules);
      GroupOwned(AssignAll(groups, n - 1, rules), groups[n - 1], |groups[n - 1]|, known, rules);
    }
  }

  lemma {:induction false} PickIsFree(a: Author, cs: seq<string>, ids: set<string>, taken: Keys,
      key: (Person, string) -> string)
    requires forall k :: k in taken ==> taken[k] != ""
    requires exists c :: c in cs && !Collides(a.id, key(a.person, c), ids, taken)
    ensures var suffix := Pick(a, cs, ids, taken, key); suffix in cs && Free(a, suffix, taken, RulesOf(key))
  {
    if Collides(a.id, key(a.person, cs[0]), ids, taken) {
      var c :| c in cs && !Collides(a.id, key(a.person, c), ids, taken);
      assert c in cs[1..] by { assert cs == [cs[0]] + cs[1..]; }
      PickIsFree(a, cs[1..], ids, taken, key);
    }
  }

  lemma {:induction false} CandidatesAre(a: Author, group: seq<Author>)
    ensures IdSuffix(a) in Candidates(a, group)
    ensures forall c :: c in Candidates(a, group) ==> IsSuffixOf(c, a)
  {
  }

  /** The id alone never collides. */
  lemma {:induction false} IdIsFree(a: Author, ids: set<string>, s: State, known: set<Author>, field: Field)
    requires Coherent(known) && Owned(s, known, RulesFor(field)) && a in known && a.id != "" && a.id in ids
    ensures !Collides(a.id, KeyFor(field)(a.person, IdSuffix(a)), ids, s.taken)
  {
    var key := AuthorKey(a.person, IdSuffix(a), field);
    SuffixIsClean(a, IdSuffix(a));
    KeyIs(a.person, IdSuffix(a), field);
    if key in s.taken {
      assert From(key, s.taken[key], known, RulesFor(field));
      var b, t :| b in known && b.id == s.taken[key] && IsSuffixOf(t, b) && key == RulesFor(field).key(b.person, t);
      IdKeyIsOwn(a, b, t, field);
    }
  }

  /** The chosen suffix gives a key that belongs to no other id, so the unchecked fallback is never
      what decides. */
  lemma {:induction false} SelectIsFree(s: State, a: Author, group: seq<Author>, known: set<Author>, field: Field)
    requires Coherent(known) && Owned(s, known, RulesFor(field)) && a in known && a in group && a.id != ""
    ensures GoodChoice(s, a, group, RulesFor(field))
  {
    var cs := Candidates(a, group);
    CandidatesAre(a, group);
    assert a.id in IdsOf(group);
    IdIsFree(a, IdsOf(group), s, known, field);
    PickIsFree(a, cs, IdsOf(group), s.taken, KeyFor(field));
  }

  lemma {:induction false} RulesAreGood(known: set<Author>, field: Field)
    requires Coherent(known)
    ensures GoodRules(known, RulesFor(field))
  {
    var rules := RulesFor(field);
    forall s, a, group | a in known && a in group && a.id != "" && Owned(s, known, rules)
      ensures GoodChoice(s, a, group, rules)
    {
      SelectIsFree(s, a, group, known, field);
    }
  }

  /** Different ids own different keys. */
  lemma {:induction false} OwnersDiffer(s: State, known: set<Author>, rules: Rules, a: Author, b: Author)
    requires Owned(s, known, rules) && a in known && b in known && a.id != b.id && a.id in s.suffixes
             && b.id in s.suffixes
    ensures rules.key(a.person, s.suffixes[a.id]) != rules.key(b.person, s.suffixes[b.id])
  {
    assert Owns(s, a, rules) && Owns(s, b, rules);
  }

  // ---------------------------------------------------------------- which suffix it is

  ghost predicate Nobody(group: seq<Author>, nick: string) { forall i :: 0 <= i < |group| ==> group[i].nick != nick }

  /** Exactly one author of the group has the nickname. */
  ghost predicate OwnNick(group: seq<Author>, nick: string) {
    exists i: nat :: OwnsAt(group, nick, i)
  }

  lemma {:induction false} NobodySnoc(front: seq<Author>, last: Author, nick: string)
    ensures Nobody(front + [last], nick) <==> Nobody(front, nick) && last.nick != nick
  {
    var group := front + [last];
    assert group[|front|] == last;
    if Nobody(group, nick) {
      forall i | 0 <= i < |front| ensures front[i].nick != nick { assert group[i] == front[i]; }
    }
  }

  /** The author at i has the nickname, and nobody else. */
  ghost predicate OwnsAt(group: seq<Author>, nick: string, i: nat) {
    i < |group| && group[i].nick == nick && Nobody(group[..i], nick) && Nobody(group[i + 1..], nick)
  }

  lemma {:induction false} OwnsAtSnoc(front: seq<Author>, last: Author, nick: string, i: nat)
    ensures i < |front| ==> (OwnsAt(front + [last], nick, i) <==> OwnsAt(front, nick, i) && last.nick != nick)
    ensures i == |front| ==> (OwnsAt(front + [last], nick, i) <==> Nobody(front, nick) && last.nick == nick)
  {
    hide Nobody;
    var group := front + [last];
    if i < |front| {
      assert group[..i] == front[..i] && group[i + 1..] == front[i + 1..] + [last];
      NobodySnoc(front[i + 1..], last, nick);
    } else if i == |front| {
      assert group[..i] == front && group[i + 1..] == [];
      NobodyInNone(nick);
    }
  }

  lemma {:induction false} NobodyInNone(nick: string)
    ensures Nobody([], nick)
  {
  }

  lemma {:induction false} OwnNickSnoc(front: seq<Author>, last: Author, nick: string)
    ensures OwnNick(front + [last], nick)
       <==> if last.nick == nick then Nobody(front, nick) else OwnNick(front, nick)
  {
    hide Nobody, OwnsAt;
    var group := front + [last];
    if OwnNick(group, nick) {
      var i: nat :| OwnsAt(group, nick, i);
      OwnsAtIn(group, nick, i);
      OwnsAtSnoc(front, last, nick, i);
    }
    if OwnNick(front, nick) {
      var i: nat :| OwnsAt(front, nick, i);
      OwnsAtIn(front, nick, i);
      OwnsAtSnoc(front, last, nick, i);
    }
    OwnsAtSnoc(front, last, nick, |front|);
  }

  lemma {:induction false} OwnsAtIn(group: seq<Author>, nick: string, i: nat)
    requires OwnsAt(group, nick, i)
    ensures i < |group|
  {
  }

  lemma {:induction false} NickCountIs(group: seq<Author>, nick: string)
    ensures NickCount(group, nick) == 0 <==> Nobody(group, nick)
    ensures NickCount(group, nick) == 1 <==> OwnNick(group, nick)
  {
    hide OwnNick;
    if group == [] {
      NobodyOwns(nick);
    } else {
      var n := |group| - 1;
      NickCountIs(group[..n], nick);
      OwnNickSnoc(group[..n], group[n], nick);
      assert group == group[..n] + [group[n]];
    }
  }

  lemma {:induction false} NobodyOwns(nick: string)
    ensures !OwnNick([], nick)
  {
  }

  /** The key a suffix gives has been given to another author. */
  predicate TakenByOther(a: Author, suffix: string, taken: Keys, field: Field) {
    var key := AuthorKey(a.person, suffix, field);
    key == "" || (key in taken && taken[key] != "" && taken[key] != a.id)
  }

  /** The suffix chosen: the nickname if nobody else in the group has it, with the id if the key it gives has been
      given to another author; and otherwise the id, with the nickname before it if that key has been given away. */
  lemma {:induction false} SelectIs(a: Author, group: seq<Author>, taken: Keys, field: Field)
    requires a in group && a.id != ""
    ensures var suffix := Select(a, group, taken, KeyFor(field));
            var nick, id := "[" + a.nick + "]", "[" + ("#" + a.id) + "]";
            var both := "[" + (a.nick + " " + ("#" + a.id)) + "]";
            if a.nick != "" && OwnNick(group, a.nick) then
              suffix == if !TakenByOther(a, nick, taken, field) then nick
                        else if !TakenByOther(a, both, taken, field) then both else id
            else
              suffix == if a.nick != "" && TakenByOther(a, id, taken, field) && !TakenByOther(a, both, taken, field)
                        then both else id
  {
    hide AuthorKey, OwnNick;
    NickCountIs(group, a.nick);
    assert a.id in IdsOf(group);
    PickFirst(a, Candidates(a, group), IdsOf(group), taken, field);
  }

  lemma {:induction false} PickFirst(a: Author, cs: seq<string>, ids: set<string>, taken: Keys, field: Field)
    requires a.id in ids && 0 < |cs| <= 3
    ensures Pick(a, cs, ids, taken, KeyFor(field))
         == if !TakenByOther(a, cs[0], taken, field) then cs[0]
            else if |cs| > 1 && !TakenByOther(a, cs[1], taken, field) then cs[1]
            else if |cs| > 2 && !TakenByOther(a, cs[2], taken, field) then cs[2] else IdSuffix(a)
  {
    hide AuthorKey;
    if |cs| > 1 { PickFirst(a, cs[1..], ids, taken, field); }
  }

  /** Over all groups and for each choice of field, authors with different ids get suffixes that
      render to different keys. */
  lemma {:induction false} KeysAreDistinct(groups: seq<seq<Author>>, known: set<Author>, field: Field, a: Author,
      b: Author)
    requires Coherent(known) && forall i, c :: 0 <= i < |groups| && c in groups[i] ==> c in known
    requires a in known && b in known && a.id != b.id
    requires var s := AssignAll(groups, |groups|, RulesFor(field)); a.id in s.suffixes && b.id in s.suffixes
    ensures var s := AssignAll(groups, |groups|, RulesFor(field));
            AuthorKey(a.person, s.suffixes[a.id], field) != AuthorKey(b.person, s.suffixes[b.id], field)
  {
    var rules := RulesFor(field);
    RulesAreGood(known, field);
    AllOwned(groups, |groups|, known, rules);
    var s := AssignAll(groups, |groups|, rules);
    OwnersDiffer(s, known, rules, a, b);
    assert rules.key(a.person, s.suffixes[a.id]) == AuthorKey(a.person, s.suffixes[a.id], field);
    assert rules.key(b.person, s.suffixes[b.id]) == AuthorKey(b.person, s.suffixes[b.id], field);
  }

  lemma {:induction false} GroupNames(s: State, group: seq<Author>, n: nat, rules: Rules, k: nat)
    requires n <= |group|
    ensures forall id :: id in s.suffixes ==> id in AssignGroup(s, group, n, rules).suffixes
    ensures k < n && group[k].id != "" ==> group[k].id in AssignGroup(s, group, n, rules).suffixes
  {
    if n > 0 { GroupNames(s, group, n - 1, rules, k); }
  }

  /** Every author with an id gets a suffix. */
  lemma {:induction false} EveryoneIsNamed(groups: seq<seq<Author>>, n: nat, rules: Rules, i: nat, k: nat)
    requires i < n <= |groups| && k < |groups[i]| && groups[i][k].id != ""
    ensures groups[i][k].id in AssignAll(groups, n, rules).suffixes
  {
    GroupNames(AssignAll(groups, n - 1, rules), groups[n - 1], |groups[n - 1]|, rules, k);
    if i < n - 1 { EveryoneIsNamed(groups, n - 1, rules, i, k); }
  }
}
