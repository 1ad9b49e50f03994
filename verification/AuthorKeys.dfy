/** The text of author keys: cleansed name components joined by commas. */
module AuthorKeys {
  import opened Spaces

  const FIELD_SEP: char := '\U{4}'
  const BAD: char := '\U{FFFD}'

  /** The replacer of `Cleanse`. */
  function Cleanse(s: string): string {
    if s == "" then ""
    else if s[0] == '\r' && |s| > 1 && s[1] == '\n' then " " + Cleanse(s[2..])
    else if s[0] == '\r' || s[0] == FIELD_SEP || s[0] == '\U{A0}' then " " + Cleanse(s[1..])
    else if s[0] == '\n' then Cleanse(s[1..])
    else [s[0]] + Cleanse(s[1..])
  }

  predicate Trimmed(c: char) { c == ' ' || c == ',' || c == ':' }

  /** strings.Trim(s, " ,:"). */
  function Trim(s: string): string
    decreases |s|
  {
    if s != "" && Trimmed(s[0]) then Trim(s[1..])
    else if s != "" && Trimmed(s[|s| - 1]) then Trim(s[..|s| - 1])
    else s
  }

  /** The separators of a key are replaced by their full-width forms. */
  function Widen(s: string): string {
    if s == "" then ""
    else [if s[0] == ',' then '\U{FF0C}' else if s[0] == ':' then '\U{FF1A}' else s[0]] + Widen(s[1..])
  }

  /** `CleanseAuthorComponent`. */
  function CleanseAuthorComponent(value: string): string {
    var v := Squeeze(Cleanse(value));
    if BAD in v then "" else Squeeze(Widen(Trim(v)))
  }

  predicate Allowed(c: char) { c != ',' && c != ':' && c != FIELD_SEP && c != BAD }

  /** Text that is its own cleansed form. */
  predicate Clean(s: string) { Tidy(s) && forall i :: 0 <= i < |s| ==> Allowed(s[i]) }

  lemma {:induction false} CleanseDrops(s: string)
    ensures FIELD_SEP !in Cleanse(s)
  {
    if s == "" {
    } else if s[0] == '\r' && |s| > 1 && s[1] == '\n' {
      CleanseDrops(s[2..]);
    } else {
      CleanseDrops(s[1..]);
    }
  }

  lemma {:induction false} TrimIsPart(s: string)
    ensures forall c :: c in Trim(s) ==> c in s
    decreases |s|
  {
    if s != "" && Trimmed(s[0]) { TrimIsPart(s[1..]); }
    else if s != "" && Trimmed(s[|s| - 1]) { TrimIsPart(s[..|s| - 1]); }
  }

  lemma {:induction false} WidenReplaces(s: string)
    ensures ',' !in Widen(s) && ':' !in Widen(s)
    ensures forall c :: c in Widen(s) ==> c in s || c == '\U{FF0C}' || c == '\U{FF1A}'
  {
    if s != "" { WidenReplaces(s[1..]); }
  }

  /** Cleansing makes text clean. */
  lemma {:induction false} CleansedIsClean(value: string)
    ensures Clean(CleanseAuthorComponent(value))
  {
    var c := Cleanse(value);
    var v := Squeeze(c);
    CleanseDrops(value);
    SqueezeTidies(c);
    if BAD !in v {
      TrimIsPart(v);
      WidenReplaces(Trim(v));
      SqueezeTidies(Widen(Trim(v)));
      var r := Squeeze(Widen(Trim(v)));
      forall i | 0 <= i < |r| ensures Allowed(r[i]) { assert r[i] in r; }
    }
  }

  lemma {:induction false} CleanseKeeps(s: string)
    requires forall i :: 0 <= i < |s| ==> s[i] != '\r' && s[i] != '\n' && s[i] != FIELD_SEP && s[i] != '\U{A0}'
    ensures Cleanse(s) == s
  {
    if s != "" { CleanseKeeps(s[1..]); }
  }

  lemma {:induction false} WidenKeeps(s: string)
    requires forall i :: 0 <= i < |s| ==> s[i] != ',' && s[i] != ':'
    ensures Widen(s) == s
  {
    if s != "" { WidenKeeps(s[1..]); }
  }

  /** Clean text stays as it is. */
  lemma {:induction false} CleanIsKept(s: string)
    requires Clean(s)
    ensures CleanseAuthorComponent(s) == s
  {
    forall i | 0 <= i < |s| ensures s[i] != '\r' && s[i] != '\n' && s[i] != '\U{A0}' {
      if IsSpace(s[i]) { assert s[i] == ' '; }
    }
    CleanseKeeps(s);
    SqueezeKeepsTidy(s);
    assert BAD !in s;
    assert s != "" ==> Allowed(s[0]) && Allowed(s[|s| - 1]);
    WidenKeeps(s);
  }

  // ---------------------------------------------------------------- what is kept

  /** What the replacer does with single characters, and with the one pair it knows. */
  function CleanseOne(c: char): string { if c == '\n' then "" else if c in {'\r', '\U{4}', '\U{A0}'} then " " else [c] }

  lemma {:induction false} CleanseFirst(c: char, rest: string)
    ensures !(c == '\r' && rest != "" && rest[0] == '\n') ==> Cleanse([c] + rest) == CleanseOne(c) + Cleanse(rest)
    ensures c == '\r' && rest != "" && rest[0] == '\n' ==> Cleanse([c] + rest) == " " + Cleanse(rest[1..])
  {
    var s := [c] + rest;
    assert s[1..] == rest;
    if rest != "" { assert s[2..] == rest[1..]; }
  }

  /** Every character is replaced by itself, but for the pair. */
  lemma {:induction false} CleanseTable(c: char)
    ensures Cleanse([c]) == CleanseOne(c) && Cleanse("") == "" && Cleanse("\r\n") == " "
  {
    CleanseFirst(c, "");
    assert [c] + "" == [c];
    CleanseFirst('\r', "\n");
    assert "\n"[1..] == "";
  }

  /** It works on every piece by itself, unless it is cut in the middle of a pair. */
  lemma {:induction false} CleanseJoin(a: string, b: string)
    requires !(a != "" && b != "" && a[|a| - 1] == '\r' && b[0] == '\n')
    ensures Cleanse(a + b) == Cleanse(a) + Cleanse(b)
    decreases |a|
  {
    hide Cleanse;
    if a == "" {
      CleanseTable(' ');
      assert a + b == b;
    } else {
      var rest := a[1..];
      assert a == [a[0]] + rest && a + b == [a[0]] + (rest + b);
      CleanseFirst(a[0], rest);
      CleanseFirst(a[0], rest + b);
      if a[0] == '\r' && rest != "" && rest[0] == '\n' {
        assert (rest + b)[1..] == rest[1..] + b;
        CleanseJoin(rest[1..], b);
      } else {
        CleanseJoin(rest, b);
      }
    }
  }

  lemma {:induction false} WidenAt(s: string)
    ensures |Widen(s)| == |s|
    ensures forall i :: 0 <= i < |s| ==>
      Widen(s)[i] == if s[i] == ',' then '\U{FF0C}' else if s[i] == ':' then '\U{FF1A}' else s[i]
  {
    if s != "" { WidenAt(s[1..]); }
  }

  /** Blanks and separators are cut off on both sides, and all of them. */
  lemma {:induction false} TrimParts(s: string) returns (before: string, after: string)
    ensures s == before + Trim(s) + after
    ensures forall c :: c in before || c in after ==> c in {' ', ',', ':'}
    ensures var t := Trim(s); t != "" ==> t[0] !in {' ', ',', ':'} && t[|t| - 1] !in {' ', ',', ':'}
    decreases |s|
  {
    before, after := "", "";
    if s != "" && Trimmed(s[0]) {
      before, after := TrimParts(s[1..]);
      OneMoreAround(s[0], before, Trim(s), after);
      before := [s[0]] + before;
    } else if s != "" && Trimmed(s[|s| - 1]) {
      before, after := TrimParts(s[..|s| - 1]);
      OneMoreAround(s[|s| - 1], before, Trim(s), after);
      after := after + [s[|s| - 1]];
    }
  }

  /** Neither white space nor a separator of lists or keys, plain or full-width. */
  predicate Letter(c: char) { !IsSpace(c) && c !in {',', ':', '\U{FF0C}', '\U{FF1A}', FIELD_SEP} }

  function Letters(s: string): string {
    if s == "" then "" else (if Letter(s[0]) then [s[0]] else "") + Letters(s[1..])
  }

  lemma {:induction false} LettersOfPair(c: char, rest: string)
    ensures Letters([c] + rest) == (if Letter(c) then [c] else "") + Letters(rest)
  {
    assert ([c] + rest)[1..] == rest;
  }

  lemma {:induction false} LettersJoin(a: string, b: string)
    ensures Letters(a + b) == Letters(a) + Letters(b)
  {
    hide Letter, Letters;
    if a == "" {
      LettersOfNone();
      assert a + b == b;
    } else {
      LettersJoin(a[1..], b);
      LettersOfPair(a[0], a[1..]);
      LettersOfPair(a[0], a[1..] + b);
      assert a == [a[0]] + a[1..] && a + b == [a[0]] + (a[1..] + b);
    }
  }

  lemma {:induction false} LettersOfNone()
    ensures Letters("") == ""
  {
  }

  lemma {:induction false} NoLetters(s: string)
    requires forall c :: c in s ==> !Letter(c)
    ensures Letters(s) == ""
  {
    if s != "" { NoLetters(s[1..]); }
  }

  lemma {:induction false} CleanseKeepsLetters(s: string)
    ensures Letters(Cleanse(s)) == Letters(s)
    ensures BAD in Cleanse(s) <==> BAD in s
    decreases |s|
  {
    hide Cleanse, IsSpace;
    if s == "" {
      CleanseTable(' ');
    } else {
      var c, rest := s[0], s[1..];
      assert s == [c] + rest;
      CleanseFirst(c, rest);
      LettersOfPair(c, rest);
      NoLetter(c);
      if c == '\r' && rest != "" && rest[0] == '\n' {
        CleanseKeepsLetters(rest[1..]);
        LettersOfPair(' ', Cleanse(rest[1..]));
        LettersOfPair('\n', rest[1..]);
        assert rest == ['\n'] + rest[1..];
        NoLetter('\n');
      } else {
        CleanseKeepsLetters(rest);
        LettersJoin(CleanseOne(c), Cleanse(rest));
        LettersOfOne(c);
      }
    }
  }

  lemma {:induction false} NoLetter(c: char)
    ensures CleanseOne(c) != [c] ==> !Letter(c) && c != BAD
    ensures !Letter(' ')
  {
  }

  lemma {:induction false} LettersOfOne(c: char)
    ensures Letters(CleanseOne(c)) == if Letter(c) then [c] else ""
    ensures BAD in CleanseOne(c) <==> c == BAD
  {
    assert [c][1..] == "" && " "[1..] == "";
  }

  lemma {:induction false} SqueezeKeepsLetters(s: string)
    ensures Letters(Squeeze(s)) == Letters(s)
    ensures BAD in Squeeze(s) <==> BAD in s
    decreases |s|
  {
    if s != "" {
      assert s == [s[0]] + s[1..];
      if IsSpace(s[0]) {
        SqueezeKeepsLetters(s[1..]);
        assert BAD in s <==> BAD in s[1..];
      } else {
        var n := WordLength(s);
        var rest := Squeeze(s[n..]);
        SqueezeKeepsLetters(s[n..]);
        assert s == s[..n] + s[n..];
        LettersJoin(s[..n], s[n..]);
        LettersJoin(s[..n], if rest == "" then "" else " " + rest);
        LettersOfPair(' ', rest);
        assert BAD in s <==> BAD in s[..n] || BAD in s[n..];
      }
    }
  }

  lemma {:induction false} TrimKeepsLetters(s: string)
    ensures Letters(Trim(s)) == Letters(s)
  {
    var before, after := TrimParts(s);
    LettersJoin(before + Trim(s), after);
    LettersJoin(before, Trim(s));
    NoLetters(before);
    NoLetters(after);
  }

  lemma {:induction false} WidenKeepsLetters(s: string)
    ensures Letters(Widen(s)) == Letters(s)
  {
    if s != "" {
      WidenKeepsLetters(s[1..]);
      LettersOfPair(if s[0] == ',' then '\U{FF0C}' else if s[0] == ':' then '\U{FF1A}' else s[0], Widen(s[1..]));
    }
  }

  /** Cleansing keeps everything that is no blank and no separator, in order, unless the text is broken. */
  lemma {:induction false} LettersAreKept(value: string)
    ensures Letters(CleanseAuthorComponent(value)) == if '\U{FFFD}' in value then "" else Letters(value)
  {
    hide Cleanse, Squeeze, Trim, Widen;
    CleanseKeepsLetters(value);
    SqueezeKeepsLetters(Cleanse(value));
    var v := Squeeze(Cleanse(value));
    TrimKeepsLetters(v);
    WidenKeepsLetters(Trim(v));
    SqueezeKeepsLetters(Widen(Trim(v)));
  }

  // ---------------------------------------------------------------- keys

  datatype Field = Last | First | Middle

  datatype Person = Person(first: string, middle: string, last: string)

  /** A component with a suffix that is already clean. */
  function WithSuffix(component: string, suffix: string): string { TrimSpace(component + " " + suffix) }

  /** `authorKey`. */
  function AuthorKey(p: Person, suffix: string, field: Field): string {
    var s := CleanseAuthorComponent(suffix);
    var last, first, middle :=
      CleanseAuthorComponent(p.last), CleanseAuthorComponent(p.first), CleanseAuthorComponent(p.middle);
    var last' := if s != "" && field.Last? then WithSuffix(last, s) else last;
    var first' := if s != "" && field.First? then WithSuffix(first, s) else first;
    var middle' := if s != "" && field.Middle? then WithSuffix(middle, s) else middle;
    if last' == "" && first' == "" && middle' == "" then "" else last' + "," + first' + "," + middle'
  }

  function Component(p: Person, field: Field): string {
    CleanseAuthorComponent(match field case Last => p.last case First => p.first case Middle => p.middle)
  }

  /** The component that carries the suffix. */
  function Marked(p: Person, suffix: string, field: Field): string {
    var c := Component(p, field);
    if c == "" then suffix else c + " " + suffix
  }

  lemma {:induction false} CleanJoin(a: string, b: string)
    requires Clean(a) && Clean(b) && a != "" && b != ""
    ensures Clean(a + " " + b)
  {
    assert a[|a| - 1] != ' ' && b[0] != ' ';
  }

  lemma {:induction false} WithSuffixIs(c: string, suffix: string)
    requires Clean(c) && Clean(suffix) && suffix != ""
    ensures WithSuffix(c, suffix) == if c == "" then suffix else c + " " + suffix
    ensures Clean(WithSuffix(c, suffix))
  {
    if c == "" {
      assert (c + " " + suffix)[1..] == suffix;
      TrimKeepsTidy(suffix);
    } else {
      CleanJoin(c, suffix);
      TrimKeepsTidy(c + " " + suffix);
    }
  }

  lemma {:induction false} FirstComma(a: string, b: string, c: string, d: string)
    requires ',' !in a && ',' !in c && a + "," + b == c + "," + d
    ensures a == c && b == d
  {
    var l, r := a + "," + b, c + "," + d;
    assert l[0] == r[0];
    if a != "" && c != "" {
      assert a[1..] + "," + b == l[1..] && c[1..] + "," + d == r[1..];
      FirstComma(a[1..], b, c[1..], d);
      assert a == [a[0]] + a[1..] && c == [c[0]] + c[1..];
    } else {
      assert b == l[|a| + 1..] && d == r[|c| + 1..];
    }
  }

  /** Three comma-free parts are told apart in a key. */
  lemma {:induction false} KeyParts(a: string, b: string, c: string, a': string, b': string, c': string)
    requires ',' !in a && ',' !in b && ',' !in a' && ',' !in b'
    requires a + "," + b + "," + c == a' + "," + b' + "," + c'
    ensures a == a' && b == b' && c == c'
  {
    assert a + "," + b + "," + c == a + "," + (b + "," + c);
    assert a' + "," + b' + "," + c' == a' + "," + (b' + "," + c');
    FirstComma(a, b + "," + c, a', b' + "," + c');
    FirstComma(b, c, b', c');
  }

  lemma {:induction false} KeyIs(p: Person, suffix: string, field: Field)
    requires Clean(suffix) && suffix != ""
    ensures var m := Marked(p, suffix, field);
            && Clean(m) && m != ""
            && AuthorKey(p, suffix, field)
               == (if field.Last? then m else Component(p, Last)) + ","
                + (if field.First? then m else Component(p, First)) + ","
                + (if field.Middle? then m else Component(p, Middle))
  {
    hide Clean, Cleanse;
    CleanIsKept(suffix);
    CleansedIsClean(p.last);
    CleansedIsClean(p.first);
    CleansedIsClean(p.middle);
    WithSuffixIs(Component(p, field), suffix);
  }

  /** Equal keys have equal marked components. */
  lemma {:induction false} EqualKeys(p: Person, s: string, q: Person, t: string, field: Field)
    requires Clean(s) && s != "" && Clean(t) && t != ""
    requires AuthorKey(p, s, field) == AuthorKey(q, t, field)
    ensures Marked(p, s, field) == Marked(q, t, field)
  {
    KeyIs(p, s, field);
    KeyIs(q, t, field);
    CleansedIsClean(p.last);
    CleansedIsClean(p.first);
    CleansedIsClean(q.last);
    CleansedIsClean(q.first);
    var m, n := Marked(p, s, field), Marked(q, t, field);
    CommaFree(m);
    CommaFree(n);
    CommaFree(Component(p, Last));
    CommaFree(Component(p, First));
    CommaFree(Component(q, Last));
    CommaFree(Component(q, First));
    KeyParts(if field.Last? then m else Component(p, Last), if field.First? then m else Component(p, First),
             if field.Middle? then m else Component(p, Middle),
             if field.Last? then n else Component(q, Last), if field.First? then n else Component(q, First),
             if field.Middle? then n else Component(q, Middle));
  }

  lemma {:induction false} CommaFree(s: string)
    requires Clean(s)
    ensures ',' !in s
  {
  }
}
