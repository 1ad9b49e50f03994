/** White space as package unicode defines it. */
module Spaces {

  /** unicode.IsSpace. */
  predicate IsSpace(c: char) {
    || '\t' <= c <= '\r' || c == ' ' || c == '\U{85}' || c == '\U{A0}' || c == '\U{1680}'
    || '\U{2000}' <= c <= '\U{200A}' || c == '\U{2028}' || c == '\U{2029}'
    || c == '\U{202F}' || c == '\U{205F}' || c == '\U{3000}'
  }

  /** strings.TrimSpace. */
  function TrimSpace(s: string): string
    decreases |s|
  {
    if s != "" && IsSpace(s[0]) then TrimSpace(s[1..])
    else if s != "" && IsSpace(s[|s| - 1]) then TrimSpace(s[..|s| - 1])
    else s
  }

  function WordLength(s: string): (n: nat)
    ensures n <= |s| && (forall i :: 0 <= i < n ==> !IsSpace(s[i])) && (n < |s| ==> IsSpace(s[n]))
  {
    if s == "" || IsSpace(s[0]) then 0
    else
      var n := WordLength(s[1..]);
      assert forall i :: 0 < i <= n ==> s[i] == s[1..][i - 1];
      n + 1
  }

  /** strings.Join(strings.Fields(s), " "). */
  function Squeeze(s: string): string
    decreases |s|
  {
    if s == "" then ""
    else if IsSpace(s[0]) then Squeeze(s[1..])
    else
      var n := WordLength(s);
      var rest := Squeeze(s[n..]);
      s[..n] + if rest == "" then "" else " " + rest
  }

  /** Words separated by single spaces. */
  predicate Tidy(s: string) {
    && (forall i :: 0 <= i < |s| && IsSpace(s[i]) ==> s[i] == ' ')
    && (s != "" ==> s[0] != ' ' && s[|s| - 1] != ' ')
    && (forall i :: 0 < i < |s| ==> !(s[i] == ' ' && s[i - 1] == ' '))
  }

  lemma {:induction false} TidyJoin(word: string, rest: string)
    requires word != "" && (forall i :: 0 <= i < |word| ==> !IsSpace(word[i])) && Tidy(rest)
    ensures Tidy(word + if rest == "" then "" else " " + rest)
  {
    assert !IsSpace(word[|word| - 1]);
  }

  lemma {:induction false} SqueezeTidies(s: string)
    ensures Tidy(Squeeze(s))
    ensures forall c :: c in Squeeze(s) ==> c == ' ' || c in s
    decreases |s|
  {
    if s != "" {
      if IsSpace(s[0]) {
        SqueezeTidies(s[1..]);
      } else {
        var n := WordLength(s);
        SqueezeTidies(s[n..]);
        TidyJoin(s[..n], Squeeze(s[n..]));
      }
    }
  }

  lemma {:induction false} TidyRest(s: string, n: nat)
    requires Tidy(s) && n < |s| && s[n] == ' '
    ensures n + 1 < |s| && s[n + 1] != ' ' && Tidy(s[n + 1..])
  {
    var rest := s[n + 1..];
    forall i | 0 < i < |rest| ensures !(rest[i] == ' ' && rest[i - 1] == ' ') {
      assert !(s[n + 1 + i] == ' ' && s[n + i] == ' ');
    }
  }

  lemma {:induction false} SqueezeWord(s: string, rest: string)
    requires s != "" && !IsSpace(s[0]) && Squeeze(s[WordLength(s)..]) == rest && rest != ""
    ensures Squeeze(s) == s[..WordLength(s)] + (" " + rest)
  {
  }

  lemma {:induction false} SqueezeBlank(rest: string)
    ensures Squeeze(" " + rest) == Squeeze(rest)
  {
    assert (" " + rest)[1..] == rest;
  }

  lemma {:induction false} SqueezeKeepsTidy(s: string)
    requires Tidy(s)
    ensures Squeeze(s) == s
    decreases |s|
  {
    if s != "" {
      var n := WordLength(s);
      assert !IsSpace(s[0]);
      if n < |s| {
        TidyRest(s, n);
        var rest := s[n + 1..];
        assert s[n..] == " " + rest && s == s[..n] + (" " + rest);
        SqueezeKeepsTidy(rest);
        SqueezeBlank(rest);
        SqueezeWord(s, rest);
      }
    }
  }

  lemma {:induction false} TrimKeepsTidy(s: string)
    requires Tidy(s)
    ensures TrimSpace(s) == s
  {
  }

  // ---------------------------------------------------------------- what is kept

  /** The words of a text, the first of which has begun with `word`. */
  function WordsFrom(word: string, s: string): seq<string>
    decreases s
  {
    if s == "" then (if word == "" then [] else [word])
    else if IsSpace(s[0]) then (if word == "" then [] else [word]) + WordsFrom("", s[1..])
    else WordsFrom(word + [s[0]], s[1..])
  }

  function Words(s: string): seq<string> { WordsFrom("", s) }

  lemma {:induction false} WordsAfter(word: string, s: string, n: nat)
    requires n <= |s| && forall i :: 0 <= i < n ==> !IsSpace(s[i])
    ensures WordsFrom(word, s) == WordsFrom(word + s[..n], s[n..])
    decreases n
  {
    if n == 0 {
      assert word + s[..0] == word && s[0..] == s;
    } else {
      WordsAfter(word + [s[0]], s[1..], n - 1);
      assert word + [s[0]] + s[1..][..n - 1] == word + s[..n] && s[1..][n - 1..] == s[n..];
    }
  }

  lemma {:induction false} WordsOfFirst(s: string, word: string, rest: string)
    requires s == word + rest && word != "" && (rest == "" || IsSpace(rest[0]))
    requires forall i :: 0 <= i < |word| ==> !IsSpace(word[i])
    ensures Words(s) == [word] + (if rest == "" then [] else Words(rest[1..]))
  {
    assert forall i :: 0 <= i < |word| ==> s[i] == word[i];
    WordsAfter("", s, |word|);
    assert "" + s[..|word|] == word && s[|word|..] == rest;
  }

  /** Squeezing keeps the words; since its result is tidy, there is only one thing it can be. */
  lemma {:induction false} SqueezeKeepsWords(s: string)
    ensures Words(Squeeze(s)) == Words(s)
    ensures Squeeze(s) == "" <==> Words(s) == []
    decreases |s|
  {
    if s != "" {
      if IsSpace(s[0]) {
        SqueezeKeepsWords(s[1..]);
        assert [] + Words(s[1..]) == Words(s[1..]);
      } else {
        var n := WordLength(s);
        var rest := Squeeze(s[n..]);
        assert s == s[..n] + s[n..];
        WordsOfFirst(s, s[..n], s[n..]);
        SqueezeKeepsWords(s[n..]);
        if n < |s| { assert Words(s[n..]) == [] + Words(s[n..][1..]); }
        WordsOfFirst(Squeeze(s), s[..n], if rest == "" then "" else " " + rest);
        if rest != "" { assert (" " + rest)[1..] == rest; }
      }
    }
  }

  lemma {:induction false} OneMoreAround(c: char, before: string, text: string, after: string)
    ensures [c] + (before + text + after) == [c] + before + text + after
    ensures before + text + after + [c] == before + text + (after + [c])
  {
  }

  /** Only white space is cut off, on both sides, and all of it. */
  lemma {:induction false} TrimSpaceParts(s: string) returns (before: string, after: string)
    ensures s == before + TrimSpace(s) + after
    ensures forall c :: c in before || c in after ==> IsSpace(c)
    ensures var t := TrimSpace(s); t != "" ==> !IsSpace(t[0]) && !IsSpace(t[|t| - 1])
    decreases |s|
  {
    hide IsSpace;
    before, after := "", "";
    if s != "" && IsSpace(s[0]) {
      before, after := TrimSpaceParts(s[1..]);
      OneMoreAround(s[0], before, TrimSpace(s), after);
      before := [s[0]] + before;
    } else if s != "" && IsSpace(s[|s| - 1]) {
      before, after := TrimSpaceParts(s[..|s| - 1]);
      OneMoreAround(s[|s| - 1], before, TrimSpace(s), after);
      after := after + [s[|s| - 1]];
    }
  }
}
