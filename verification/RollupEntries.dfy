/** Archive entries as the rollup sees them: the book id in the file name, the key that
    tells duplicates apart, and the order in which an update archive is read. */
module RollupEntries {
  import opened Wrappers
  import opened Decimal

  /** A file in an archive: its base name, the id and key derived from it, and its
      uncompressed and compressed sizes. */
  datatype Entry = Entry(name: string, id: int, key: string, size: nat, packed: nat)

  /** A letter-case mapping leaves digits, signs and the dot alone and maps nothing else to them. */
  ghost predicate CaseMap(lower: char -> char) {
    forall c :: (IsNumeral(c) ==> lower(c) == c) && (IsNumeral(lower(c)) ==> IsNumeral(c))
  }

  predicate IsNumeral(c: char) { IsDigit(c) || c == '.' || c == '+' || c == '-' }

  /** Such a mapping may change any other character; the one of ASCII letters is one. */
  lemma {:induction false} AsciiIsCaseMap(lower: char -> char)
    requires forall c :: lower(c) == if 'A' <= c <= 'Z' then c + 32 as char else c
    ensures CaseMap(lower) && lower('A') == 'a' && lower('Z') == 'z'
  {
  }

  lemma {:induction false} CaseMapIs(lower: char -> char)
    ensures CaseMap(lower)
       <==> && (forall c :: c in "0123456789.+-" ==> lower(c) == c)
            && (forall c :: lower(c) in "0123456789.+-" ==> c in "0123456789.+-")
  {
    assert forall c :: IsNumeral(c) <==> c in "0123456789.+-" by {
      forall c ensures IsNumeral(c) <==> c in "0123456789.+-" { NumeralIs(c); }
    }
  }

  lemma {:induction false} NumeralIs(c: char)
    ensures IsNumeral(c) <==> c in "0123456789.+-"
  {
    var all := "0123456789.+-";
    assert all[10] == '.' && all[11] == '+' && all[12] == '-';
    if '0' <= c <= '9' {
      var k := c as int - '0' as int;
      assert k in {0, 1, 2, 3, 4, 5, 6, 7, 8, 9};
      assert all[k] == c;
    }
  }

  datatype AnyFamily = FB2 | USR(lower: char -> char)

  /** The two families of archives; names of usr books are compared in lower case, as unicode.ToLower
      or any other mapping of letters gives it. */
  type Family = f: AnyFamily | f.USR? ==> CaseMap(f.lower) witness FB2

  function Stem(name: string): (s: string)
    ensures |s| <= |name| && s == name[..|s|]
    ensures forall i :: 0 <= i < |s| ==> name[i] != '.'
    ensures |s| < |name| ==> name[|s|] == '.'
  {
    if name == "" || name[0] == '.' then ""
    else
      var rest := Stem(name[1..]);
      assert forall i :: 0 < i <= |rest| ==> name[i] == name[1..][i - 1];
      [name[0]] + rest
  }

  /** `nameToID`. */
  function NameToID(name: string): int {
    match ParseInt(Stem(name))
    case Some(id) => id
    case None => -1
  }

  /** strings.ToLower, for the mapping of single letters. */
  function Lower(s: string, lower: char -> char): (r: string)
    ensures |r| == |s|
    ensures forall i :: 0 <= i < |s| ==> r[i] == lower(s[i])
  {
    if s == "" then "" else [lower(s[0])] + Lower(s[1..], lower)
  }

  function Itoa(id: int): string {
    if id < 0 then "-" + Format(-id) else Format(id)
  }

  /** `archiveEntryKey`: an fb2 book is its id, any other book its name without regard to case. */
  function EntryKey(name: string, family: Family): string {
    match family
    case FB2 => Itoa(NameToID(name))
    case USR(lower) => Lower(name, lower)
  }

  function MakeEntry(family: Family, name: string, size: nat, packed: nat): Entry {
    Entry(name, NameToID(name), EntryKey(name, family), size, packed)
  }

  ghost predicate Made(e: Entry, family: Family) {
    e == MakeEntry(family, e.name, e.size, e.packed)
  }

  // ---------------------------------------------------------------- a key names one id

  lemma {:induction false} StemIsUnique(name: string, n: nat)
    requires n <= |name| && forall i :: 0 <= i < n ==> name[i] != '.'
    requires n < |name| ==> name[n] == '.'
    ensures |Stem(name)| == n
  {
  }

  lemma {:induction false} LowerKeepsDigit(c: char, lower: char -> char)
    requires CaseMap(lower)
    ensures IsNumeral(c) ==> lower(c) == c
    ensures IsNumeral(lower(c)) ==> lower(c) == c
  {
  }

  lemma {:induction false} LowerStem(name: string, lower: char -> char)
    requires CaseMap(lower)
    ensures Stem(Lower(name, lower)) == Lower(Stem(name), lower)
  {
    var n := |Stem(name)|;
    var low := Lower(name, lower);
    forall i | 0 <= i < n ensures low[i] != '.' { LowerKeepsDigit(name[i], lower); }
    StemIsUnique(low, n);
    assert Stem(low) == Lower(Stem(name), lower);
  }

  lemma {:induction false} LowerKeepsDigits(s: string, lower: char -> char)
    requires CaseMap(lower)
    ensures AllDigits(Lower(s, lower)) == AllDigits(s)
    ensures AllDigits(s) ==> Lower(s, lower) == s
  {
    var low := Lower(s, lower);
    forall i | 0 <= i < |s| ensures IsDigit(low[i]) == IsDigit(s[i]) && (IsDigit(s[i]) ==> low[i] == s[i]) {
      LowerKeepsDigit(s[i], lower);
    }
  }

  lemma {:induction false} LowerKeepsInt(s: string, lower: char -> char)
    requires CaseMap(lower)
    ensures ParseInt(Lower(s, lower)) == ParseInt(s)
  {
    if s != "" {
      assert Lower(s[1..], lower) == Lower(s, lower)[1..];
      LowerKeepsDigit(s[0], lower);
      LowerKeepsDigits(s[1..], lower);
    }
    LowerKeepsDigits(s, lower);
  }

  /** Case does not change an entry's id. */
  lemma {:induction false} LowerKeepsID(name: string, lower: char -> char)
    requires CaseMap(lower)
    ensures NameToID(Lower(name, lower)) == NameToID(name)
  {
    LowerStem(name, lower);
    LowerKeepsInt(Stem(name), lower);
  }

  lemma {:induction false} ItoaIsInjective(a: int, b: int)
    requires Itoa(a) == Itoa(b)
    ensures a == b
  {
    ValueOfFormat(if a < 0 then -a else a);
    ValueOfFormat(if b < 0 then -b else b);
    assert a < 0 <==> Itoa(a)[0] == '-';
    assert b < 0 <==> Itoa(b)[0] == '-';
    if a < 0 && b < 0 {
      assert Itoa(a)[1..] == Format(-a) && Itoa(b)[1..] == Format(-b);
    }
  }

  /** Two entries of one family with the same key have the same id. */
  lemma {:induction false} KeyNamesID(a: Entry, b: Entry, family: Family)
    requires Made(a, family) && Made(b, family) && a.key == b.key
    ensures a.id == b.id
  {
    match family
    case FB2 => ItoaIsInjective(a.id, b.id);
    case USR(lower) =>
      LowerKeepsID(a.name, lower);
      LowerKeepsID(b.name, lower);
  }

  // ---------------------------------------------------------------- a key names one book

  /** Two file names of one book of a family: for fb2 they have the same id, otherwise they differ in case at most. */
  ghost predicate SameBook(a: Entry, b: Entry, family: Family) {
    match family
    case FB2 => a.id == b.id
    case USR(lower) => |a.name| == |b.name| && forall i :: 0 <= i < |a.name| ==> lower(a.name[i]) == lower(b.name[i])
  }

  /** Keys are equal exactly for files of one book. */
  lemma {:induction false} KeyNamesBook(a: Entry, b: Entry, family: Family)
    requires Made(a, family) && Made(b, family)
    ensures a.key == b.key <==> SameBook(a, b, family)
  {
    match family
    case FB2 => if a.key == b.key { ItoaIsInjective(a.id, b.id); }
    case USR(lower) =>
      assert a.key == Lower(a.name, lower) && b.key == Lower(b.name, lower);
      if a.key == b.key {
        forall i | 0 <= i < |a.name| ensures lower(a.name[i]) == lower(b.name[i]) { assert a.key[i] == b.key[i]; }
      }
  }

  /** The id of a file is the number its name begins with, up to the first dot, if there is nothing else before it. */
  lemma {:induction false} IDOf(id: nat, rest: string)
    requires id <= MAX_INT64 && (rest == "" || rest[0] == '.')
    ensures NameToID(Format(id) + rest) == id
  {
    ParseOfFormat(id);
    var name := Format(id) + rest;
    assert forall i :: 0 <= i < |Format(id)| ==> name[i] == Format(id)[i];
    StemIsUnique(name, |Format(id)|);
    assert Stem(name) == Format(id);
  }

  // ---------------------------------------------------------------- reading order

  /** strings.Compare(a, b) <= 0. */
  predicate NameLeq(a: string, b: string) {
    a == "" || (b != "" && (a[0] < b[0] || (a[0] == b[0] && NameLeq(a[1..], b[1..]))))
  }

  predicate Leq(a: Entry, b: Entry) {
    a.id < b.id || (a.id == b.id && NameLeq(a.name, b.name))
  }

  function Insert(e: Entry, es: seq<Entry>): seq<Entry> {
    if es == [] || Leq(e, es[0]) then [e] + es else [es[0]] + Insert(e, es[1..])
  }

  /** The entries of an update by id, then name. */
  function Ordered(es: seq<Entry>): seq<Entry> {
    if es == [] then [] else Insert(es[0], Ordered(es[1..]))
  }

  ghost predicate Ascending(es: seq<Entry>) {
    forall i, j :: 0 <= i < j < |es| ==> es[i].id <= es[j].id
  }

  /** By id, then name. */
  ghost predicate Sorted(es: seq<Entry>) {
    forall i, j :: 0 <= i < j < |es| ==> Leq(es[i], es[j])
  }

  function Occurrences(e: Entry, es: seq<Entry>): nat {
    if es == [] then 0 else (if es[0] == e then 1 else 0) + Occurrences(e, es[1..])
  }

  lemma {:induction false} NamesAreOrdered(a: string, b: string)
    ensures NameLeq(a, b) || NameLeq(b, a)
    ensures NameLeq(a, b) && NameLeq(b, a) ==> a == b
  {
    if a != "" && b != "" && a[0] == b[0] {
      NamesAreOrdered(a[1..], b[1..]);
      assert a == [a[0]] + a[1..] && b == [b[0]] + b[1..];
    }
  }

  lemma {:induction false} NamesChain(a: string, b: string, c: string)
    requires NameLeq(a, b) && NameLeq(b, c)
    ensures NameLeq(a, c)
  {
    if a != "" && a[0] == b[0] == c[0] {
      NamesChain(a[1..], b[1..], c[1..]);
    }
  }

  lemma {:induction false} LeqIsOrder(a: Entry, b: Entry, c: Entry)
    ensures Leq(a, b) || Leq(b, a)
    ensures Leq(a, b) && Leq(b, a) ==> a.id == b.id && a.name == b.name
    ensures Leq(a, b) && Leq(b, c) ==> Leq(a, c)
  {
    NamesAreOrdered(a.name, b.name);
    if NameLeq(a.name, b.name) && NameLeq(b.name, c.name) { NamesChain(a.name, b.name, c.name); }
  }

  /** One name comes before another if the other goes on where it ends, or has the larger character where they first
      differ. */
  ghost predicate InFront(a: string, b: string) {
    exists k :: 0 <= k <= |a| && k < |b| && a[..k] == b[..k] && (k == |a| || a[k] < b[k])
  }

  lemma {:induction false} InFrontOfRest(a: string, b: string)
    requires a != "" && b != "" && a[0] == b[0]
    ensures InFront(a, b) <==> InFront(a[1..], b[1..])
  {
    if InFront(a[1..], b[1..]) {
      var k :| 0 <= k <= |a[1..]| && k < |b[1..]| && a[1..][..k] == b[1..][..k]
               && (k == |a[1..]| || a[1..][k] < b[1..][k]);
      assert a[..k + 1] == [a[0]] + a[1..][..k] && b[..k + 1] == [b[0]] + b[1..][..k];
    }
    if InFront(a, b) {
      var k :| 0 <= k <= |a| && k < |b| && a[..k] == b[..k] && (k == |a| || a[k] < b[k]);
      assert a[1..][..k - 1] == a[..k][1..] && b[1..][..k - 1] == b[..k][1..];
    }
  }

  lemma {:induction false} InFrontAtOnce(a: string, b: string)
    requires a == "" || b == "" || a[0] != b[0]
    ensures InFront(a, b) <==> b != "" && (a == "" || a[0] < b[0])
  {
    assert a[..0] == b[..0];
  }

  lemma {:induction false} NameLeqIs(a: string, b: string)
    ensures NameLeq(a, b) <==> a == b || InFront(a, b)
  {
    hide InFront;
    if a == "" || b == "" || a[0] != b[0] {
      InFrontAtOnce(a, b);
    } else {
      NameLeqIs(a[1..], b[1..]);
      InFrontOfRest(a, b);
      assert a == [a[0]] + a[1..] && b == [b[0]] + b[1..];
    }
  }

  /** The order in which an update is read: by id, and entries of one id by name. */
  lemma {:induction false} LeqIs(a: Entry, b: Entry)
    ensures Leq(a, b) <==> a.id < b.id || (a.id == b.id && (a.name == b.name || InFront(a.name, b.name)))
  {
    NameLeqIs(a.name, b.name);
  }

  lemma {:induction false} InsertKeeps(e: Entry, es: seq<Entry>, x: Entry)
    ensures Occurrences(x, Insert(e, es)) == Occurrences(x, es) + if x == e then 1 else 0
    ensures x in Insert(e, es) <==> x == e || x in es
  {
    if !(es == [] || Leq(e, es[0])) {
      InsertKeeps(e, es[1..], x);
    }
  }

  lemma {:induction false} InsertSorts(e: Entry, es: seq<Entry>)
    requires Sorted(es)
    ensures Sorted(Insert(e, es))
  {
    if es == [] {
    } else if Leq(e, es[0]) {
      forall i | 0 <= i < |es| ensures Leq(e, es[i]) {
        LeqIsOrder(e, es[0], es[i]);
      }
    } else {
      LeqIsOrder(e, es[0], e);
      InsertSorts(e, es[1..]);
      var rest := Insert(e, es[1..]);
      forall i | 0 <= i < |rest| ensures Leq(es[0], rest[i]) {
        InsertKeeps(e, es[1..], rest[i]);
      }
    }
  }

  /** Reading an update in order reads every entry exactly as often as it is stored, by id and then name. */
  lemma {:induction false} OrderedIsSorted(es: seq<Entry>)
    ensures Sorted(Ordered(es)) && Ascending(Ordered(es))
    ensures forall x :: Occurrences(x, Ordered(es)) == Occurrences(x, es)
    ensures forall x :: x in Ordered(es) <==> x in es
  {
    if es != [] {
      OrderedIsSorted(es[1..]);
      InsertSorts(es[0], Ordered(es[1..]));
      forall x ensures Occurrences(x, Ordered(es)) == Occurrences(x, es) && (x in Ordered(es) <==> x in es) {
        InsertKeeps(es[0], Ordered(es[1..]), x);
      }
    }
  }

  /** A sorted list is its own order. The program's sort may leave entries of the same id and name in
      any order: each outcome is the order of the content listed in some other way, and everything
      proved of a pass holds for the content listed in any way. */
  lemma {:induction false} SortedIsOwnOrder(es: seq<Entry>)
    requires Sorted(es)
    ensures Ordered(es) == es
  {
    if es != [] {
      SortedIsOwnOrder(es[1..]);
      assert |es| > 1 ==> Leq(es[0], es[1..][0]);
      assert es == [es[0]] + es[1..];
    }
  }

  lemma {:induction false} OccurrencesIn(e: Entry, es: seq<Entry>)
    ensures Occurrences(e, es) > 0 <==> e in es
  {
    if es != [] { OccurrencesIn(e, es[1..]); }
  }

  lemma {:induction false} HeadOccurs(es: seq<Entry>)
    ensures es != [] ==> Occurrences(es[0], es) > 0
  {
  }

  lemma {:induction false} HeadIsLeast(es: seq<Entry>, x: Entry)
    requires Sorted(es) && x in es
    ensures Leq(es[0], x)
  {
    LeqIsOrder(x, x, x);
  }

  /** Without two entries of the same id and name there is only one sorted order. */
  lemma {:induction false} OneOrder(es: seq<Entry>, fs: seq<Entry>)
    requires Sorted(es) && Sorted(fs)
    requires forall x :: Occurrences(x, es) == Occurrences(x, fs)
    requires forall x, y :: x in es && y in es && x.id == y.id && x.name == y.name ==> x == y
    ensures es == fs
  {
    if es == [] {
      HeadOccurs(fs);
    } else {
      OccurrencesIn(es[0], es);
      OccurrencesIn(es[0], fs);
      OccurrencesIn(fs[0], fs);
      OccurrencesIn(fs[0], es);
      HeadIsLeast(es, fs[0]);
      HeadIsLeast(fs, es[0]);
      LeqIsOrder(es[0], fs[0], es[0]);
      assert es[0] == fs[0];
      forall x ensures Occurrences(x, es[1..]) == Occurrences(x, fs[1..]) {
        assert Occurrences(x, es) == Occurrences(x, fs);
      }
      OneOrder(es[1..], fs[1..]);
      assert es == [es[0]] + es[1..] && fs == [fs[0]] + fs[1..];
    }
  }
}
