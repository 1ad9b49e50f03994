/** The text form of rolling durations: whole days or whole weeks. */
module RollingDuration {
  import opened Wrappers
  import opened Decimal
  import opened Spaces

  const DAY: int := 86_400_000_000_000
  const WEEK: int := 604_800_000_000_000

  datatype Error = Empty | BadUnit | BadAmount | TooLarge

  /** `ParseRollingDuration`, in nanoseconds. */
  function Parse(text: string): Result<int, Error> {
    var value := TrimSpace(text);
    if value == "" then Err(Empty)
    else
      var unit := value[|value| - 1];
      if unit != 'd' && unit != 'w' then Err(BadUnit)
      else
        var multiplier := if unit == 'w' then WEEK else DAY;
        match ParseInt(value[..|value| - 1])
        case None => Err(BadAmount)
        case Some(amount) =>
          if amount <= 0 then Err(BadAmount)
          else if amount > MAX_INT64 / multiplier then Err(TooLarge)
          else Ok(amount * multiplier)
  }

  /** `formatRollingDuration` for the durations the options allow. */
  function FormatDuration(duration: int): string
    requires duration > 0
  {
    if duration % WEEK == 0 then Format(duration / WEEK) + "w" else Format(duration / DAY) + "d"
  }

  lemma {:induction false} MulGrows(k: int, m: int, unit: int)
    requires k <= m && 0 <= unit
    ensures k * unit <= m * unit
  {
    assert (m - k) * unit >= 0;
  }

  /** A duration of k units within 64 bits: k units pass the overflow check. */
  lemma {:induction false} Fits(k: int, unit: int, m: int, rest: int)
    requires 0 < unit && 0 <= rest < unit && k * unit <= m * unit + rest
    ensures k <= m
  {
    if k > m { MulGrows(m + 1, k, unit); }
  }

  lemma {:induction false} Multiples(duration: int, unit: int)
    requires unit in {DAY, WEEK} && 0 < duration <= MAX_INT64 && duration % unit == 0
    ensures duration / unit * unit == duration
    ensures 0 < duration / unit <= MAX_INT64 / unit
  {
    Fits(duration / unit, unit, MAX_INT64 / unit, MAX_INT64 % unit);
  }

  lemma {:induction false} ParseOfAmount(amount: nat, unit: char)
    requires unit == 'd' || unit == 'w'
    requires 0 < amount <= MAX_INT64 / if unit == 'w' then WEEK else DAY
    ensures Parse(Format(amount) + [unit]) == Ok(amount * if unit == 'w' then WEEK else DAY)
  {
    var text := Format(amount) + [unit];
    assert !IsSpace(text[0]) by { assert IsDigit(text[0]); }
    assert !IsSpace(text[|text| - 1]);
    assert TrimSpace(text) == text;
    assert text[..|text| - 1] == Format(amount);
    ParseOfFormat(amount);
  }

  /** The text written into the state for a duration reads back as that duration. */
  lemma {:induction false} ParseOfFormatted(duration: int)
    requires 0 < duration <= MAX_INT64 && duration % DAY == 0
    ensures Parse(FormatDuration(duration)) == Ok(duration)
  {
    if duration % WEEK == 0 {
      Multiples(duration, WEEK);
      ParseOfAmount(duration / WEEK, 'w');
    } else {
      Multiples(duration, DAY);
      ParseOfAmount(duration / DAY, 'd');
    }
  }

  /** Which texts are durations, and of what length: a positive number of days or weeks that fits in 64 bits of
      nanoseconds. */
  lemma {:induction false} ParseIs(text: string, duration: int)
    ensures Parse(text) == Ok(duration)
       <==> var value := TrimSpace(text);
            && value != "" && value[|value| - 1] in {'d', 'w'}
            && var amount := ParseInt(value[..|value| - 1]);
            && amount.Some? && amount.value > 0
            && duration == amount.value * (if value[|value| - 1] == 'w' then 7 else 1) * 86_400_000_000_000
            && duration <= 0x7fff_ffff_ffff_ffff
  {
    var value := TrimSpace(text);
    if value != "" && value[|value| - 1] in {'d', 'w'} && ParseInt(value[..|value| - 1]).Some? {
      var amount := ParseInt(value[..|value| - 1]).value;
      var unit := if value[|value| - 1] == 'w' then WEEK else DAY;
      Fits(if amount <= MAX_INT64 / unit then amount else MAX_INT64 / unit, unit, MAX_INT64 / unit, MAX_INT64 % unit);
      if amount > MAX_INT64 / unit { MulGrows(MAX_INT64 / unit + 1, amount, unit); }
      if 0 < amount <= MAX_INT64 / unit { MulGrows(amount, MAX_INT64 / unit, unit); }
    }
  }

  /** What is written: weeks where the duration is a number of weeks, and days otherwise. */
  lemma {:induction false} FormatDurationIs(n: nat)
    requires n > 0
    ensures FormatDuration(n * 604_800_000_000_000) == Format(n) + "w"
    ensures n % 7 != 0 ==> FormatDuration(n * 86_400_000_000_000) == Format(n) + "d"
  {
    if n % 7 != 0 { assert n * DAY % WEEK != 0; }
  }
}
