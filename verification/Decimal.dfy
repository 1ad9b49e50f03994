/** Decimal numbers as strconv reads and writes them: 64-bit, optional sign, at least one digit. */
module Decimal {
  import opened Wrappers

  const MAX_INT64: int := 0x7fff_ffff_ffff_ffff
  const MIN_INT64: int := -0x8000_0000_0000_0000

  predicate IsDigit(c: char) { '0' <= c <= '9' }

  predicate AllDigits(s: string) { forall i :: 0 <= i < |s| ==> IsDigit(s[i]) }

  function DigitValue(c: char): nat
    requires IsDigit(c)
  {
    c as int - '0' as int
  }

  function Value(s: string): nat
    requires AllDigits(s)
  {
    if s == "" then 0 else Value(s[..|s| - 1]) * 10 + DigitValue(s[|s| - 1])
  }

  function Digit(n: nat): (c: char)
    requires n < 10
    ensures IsDigit(c) && DigitValue(c) == n
  {
    n as char + '0'
  }

  function Format(n: nat): (s: string)
    ensures s != "" && AllDigits(s)
  {
    if n < 10 then [Digit(n)] else Format(n / 10) + [Digit(n % 10)]
  }

  /** strconv.ParseInt(s, 10, 64): None stands for its error. */
  function ParseInt(s: string): (r: Option<int>)
    ensures r.Some? ==> MIN_INT64 <= r.value <= MAX_INT64
  {
    var signed := s != "" && (s[0] == '+' || s[0] == '-');
    var digits := if signed then s[1..] else s;
    if digits == "" || !AllDigits(digits) then None
    else
      var magnitude: int := Value(digits);
      var v := if signed && s[0] == '-' then -magnitude else magnitude;
      if MIN_INT64 <= v <= MAX_INT64 then Some(v) else None
  }

  lemma {:induction false} ValueOfFormat(n: nat)
    ensures Value(Format(n)) == n
  {
    if n >= 10 {
      ValueOfFormat(n / 10);
      assert Format(n)[..|Format(n)| - 1] == Format(n / 10);
    }
  }

  /** Writing a number and reading it back gives the number. */
  lemma {:induction false} ParseOfFormat(n: nat)
    requires n <= MAX_INT64
    ensures ParseInt(Format(n)) == Some(n)
  {
    ValueOfFormat(n);
    assert IsDigit(Format(n)[0]);
  }

  /** No digit can be left out in front. */
  predicate Shortest(s: string) { s != "" && AllDigits(s) && (s[0] != '0' || |s| == 1) }

  lemma {:induction false} ValueIsPositive(s: string)
    requires s != "" && AllDigits(s) && s[0] != '0'
    ensures Value(s) > 0
  {
    if |s| > 1 { ValueIsPositive(s[..|s| - 1]); }
  }

  lemma {:induction false} FormatOfValue(s: string)
    requires Shortest(s)
    ensures Format(Value(s)) == s
  {
    var p := s[..|s| - 1];
    if |s| > 1 {
      ValueIsPositive(p);
      FormatOfValue(p);
      assert s == p + [s[|s| - 1]];
    } else {
      assert p == "" && s == [s[0]];
    }
  }

  lemma {:induction false} FormatIsShortest(n: nat)
    ensures Shortest(Format(n)) && (n > 0 ==> Format(n)[0] != '0')
  {
    if n >= 10 { FormatIsShortest(n / 10); }
  }

  /** What a number looks like: its digits, the most significant first. */
  lemma {:induction false} FormatIs(n: nat, d: nat)
    requires d < 10
    ensures Format(d) == ["0123456789"[d]]
    ensures n > 0 ==> Format(10 * n + d) == Format(n) + Format(d)
  {
  }

  /** What a text is read as: digits by their place, a sign in front, and nothing else. */
  lemma {:induction false} ParseIs(digits: string, c: char)
    requires digits != "" && AllDigits(digits)
    ensures var n: int := Value(digits);
            && ParseInt(digits) == ParseInt("+" + digits) == (if n <= MAX_INT64 then Some(n) else None)
            && ParseInt("-" + digits) == (if -n >= MIN_INT64 then Some(-n) else None)
    ensures IsDigit(c) ==>
      var d := c as int - '0' as int; Value(digits + [c]) == 10 * Value(digits) + d && Value([c]) == d
  {
    assert ("+" + digits)[1..] == digits && ("-" + digits)[1..] == digits;
    assert IsDigit(digits[0]);
    if IsDigit(c) {
      assert (digits + [c])[..|digits|] == digits;
      assert [c][..0] == "";
    }
  }

  lemma {:induction false} ParseFails(text: string, i: nat)
    requires text in {"", "+", "-"} || (i < |text| && !IsDigit(text[i]) && (i > 0 || text[0] !in {'+', '-'}))
    ensures ParseInt(text) == None
  {
    if text in {"", "+", "-"} {
    } else {
      var signed := text[0] == '+' || text[0] == '-';
      if signed { assert text[1..][i - 1] == text[i]; }
    }
  }
}
