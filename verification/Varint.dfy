/** Unsigned varints as encoding/binary writes and reads them: seven bits a byte, low bits first. */
module Varint {
  import opened Wrappers
  import opened Base64

  const TWO64: int := 0x1_0000_0000_0000_0000

  type Uint64 = x: nat | x < TWO64

  /** binary.PutUvarint. */
  function Put(x: nat): (bs: seq<Byte>)
    ensures bs != []
  {
    if x < 128 then [x] else [x % 128 + 128] + Put(x / 128)
  }

  /** What a varint read yields: the value and the number of bytes, or the failures for which
      binary.Uvarint returns n <= 0. */
  datatype Reading = Value(x: int, n: nat) | TooShort | Overflow

  function Power(k: nat): nat { if k == 0 then 1 else 128 * Power(k - 1) }

  /** binary.Uvarint from its byte number `index` on, with the value x of the bytes before it. */
  function ReadFrom(bs: seq<Byte>, index: nat, x: int): Reading
    requires index <= |bs|
    decreases |bs| - index
  {
    if index == |bs| then TooShort
    else if index == 10 then Overflow
    else if bs[index] < 128 then
      if index == 9 && bs[index] > 1 then Overflow
      else Value(x + bs[index] * Power(index), index + 1)
    else ReadFrom(bs, index + 1, x + (bs[index] - 128) * Power(index))
  }

  function Read(bs: seq<Byte>): (r: Reading)
    ensures r.Value? ==> 0 < r.n <= |bs| && 0 <= r.x < TWO64
  {
    ReadIsShort(bs, 0, 0);
    ReadFits(bs, 0, 0);
    ReadFrom(bs, 0, 0)
  }

  lemma {:induction false} ReadIsShort(bs: seq<Byte>, index: nat, x: int)
    requires index <= |bs|
    ensures var r := ReadFrom(bs, index, x); r.Value? ==> index < r.n <= |bs|
    decreases |bs| - index
  {
    if index < |bs| && index != 10 && bs[index] >= 128 {
      ReadIsShort(bs, index + 1, x + (bs[index] - 128) * Power(index));
    }
  }

  lemma {:induction false} PowerIsPositive(k: nat)
    ensures Power(k) > 0
  {
    if k > 0 { PowerIsPositive(k - 1); }
  }

  lemma {:induction false} PowerNine()
    ensures Power(9) == 0x8000_0000_0000_0000
  {
    assert Power(3) == 2097152;
    assert Power(6) == 4398046511104;
  }

  lemma {:induction false} PowerGrows(i: nat, j: nat)
    requires i <= j
    ensures Power(i) <= Power(j)
  {
    if i < j {
      PowerGrows(i, j - 1);
      PowerIsPositive(j - 1);
    }
  }

  lemma {:induction false} PowerNext(k: nat)
    ensures Power(k + 1) == 128 * Power(k)
  {
  }

  lemma {:induction false} TimesKeepsOrder(a: nat, b: nat, p: nat)
    requires a <= b
    ensures 0 <= a * p <= b * p
  {
    if a < b {
      TimesKeepsOrder(a, b - 1, p);
      assert b * p == (b - 1) * p + p;
    } else {
      assert 0 <= a * p;
    }
  }

  lemma {:induction false} SplitProduct(q: nat, r: nat, p: nat)
    ensures (128 * q + r) * p == q * (128 * p) + r * p
  {
    assert (128 * q + r) * p == (128 * q) * p + r * p;
    assert (128 * q) * p == q * (128 * p);
  }

  lemma {:induction false} DigitFits(x: int, digit: nat, index: nat)
    requires 0 <= x < Power(index) && digit < 128 && index <= 9
    ensures 0 <= x + digit * Power(index) < Power(index + 1)
    ensures index < 9 || digit <= 1 ==> x + digit * Power(index) < TWO64
  {
    hide Power;
    PowerNext(index);
    TimesKeepsOrder(digit, 127, Power(index));
    PowerNine();
    if index < 9 {
      PowerGrows(index + 1, 9);
    } else if digit <= 1 {
      TimesKeepsOrder(digit, 1, Power(index));
    }
  }

  /** What a varint reads as fits in 64 bits. */
  lemma {:induction false} ReadFits(bs: seq<Byte>, index: nat, x: int)
    requires index <= |bs| && index <= 10 && 0 <= x < Power(index)
    ensures var r := ReadFrom(bs, index, x); r.Value? ==> 0 <= r.x < TWO64
    decreases |bs| - index
  {
    hide Power;
    if index < |bs| && index != 10 {
      if bs[index] >= 128 {
        DigitFits(x, bs[index] - 128, index);
        ReadFits(bs, index + 1, x + (bs[index] - 128) * Power(index));
      } else {
        DigitFits(x, bs[index], index);
      }
    }
  }

  /** y more digits fit in 64 bits when `index` digits are already there. */
  ghost predicate FitsAt(y: nat, index: nat) { index <= 9 && y * Power(index) < TWO64 }

  lemma {:induction false} FitsNext(y: nat, index: nat)
    requires FitsAt(y, index) && y >= 128
    ensures FitsAt(y / 128, index + 1)
    ensures y % 128 * Power(index) + y / 128 * Power(index + 1) == y * Power(index)
  {
    hide Power;
    PowerNext(index);
    SplitProduct(y / 128, y % 128, Power(index));
    TimesKeepsOrder(0, y % 128, Power(index));
    LastDigit(y, index);
  }

  lemma {:induction false} LastDigit(y: nat, index: nat)
    requires FitsAt(y, index)
    ensures index == 9 ==> y <= 1
  {
    if index == 9 { PowerNine(); }
  }

  lemma {:induction false} ReadLast(bs: seq<Byte>, index: nat, y: nat, x: int)
    requires index < |bs| && bs[index] == y && y < 128 && FitsAt(y, index)
    ensures ReadFrom(bs, index, x) == Value(x + y * Power(index), index + 1)
  {
    LastDigit(y, index);
  }

  lemma {:induction false} ReadMore(bs: seq<Byte>, index: nat, r: nat, x: int)
    requires index < |bs| && index <= 9 && bs[index] == r + 128
    ensures ReadFrom(bs, index, x) == ReadFrom(bs, index + 1, x + r * Power(index))
  {
  }

  lemma {:induction false} ReadOfPut(before: seq<Byte>, y: nat, after: seq<Byte>, x: int)
    requires FitsAt(y, |before|)
    ensures ReadFrom(before + Put(y) + after, |before|, x) == Value(x + y * Power(|before|), |before| + |Put(y)|)
    decreases y
  {
    hide Power, ReadFrom;
    var bs := before + Put(y) + after;
    if y < 128 {
      ReadLast(bs, |before|, y, x);
    } else {
      var r := y % 128;
      var prefix: seq<Byte> := before + [r + 128];
      assert Put(y) == [r + 128] + Put(y / 128);
      assert bs == prefix + Put(y / 128) + after;
      FitsNext(y, |before|);
      ReadMore(bs, |before|, r, x);
      var x' := x + r * Power(|before|);
      ReadOfPut(prefix, y / 128, after, x');
      assert |prefix| == |before| + 1;
      assert x' + y / 128 * Power(|before| + 1) == x + y * Power(|before|);
    }
  }

  /** Reading a 64-bit number that was written, whatever follows it, gives the number and the
      length it was written in. */
  lemma {:induction false} RoundTrip(y: nat, after: seq<Byte>)
    requires y < TWO64
    ensures Read(Put(y) + after) == Value(y, |Put(y)|)
  {
    assert Power(0) == 1;
    ReadOfPut([], y, after, 0);
    assert [] + Put(y) + after == Put(y) + after;
  }

  // ---------------------------------------------------------------- the bytes themselves

  /** The number that bytes stand for: seven bits of each, the low ones first. */
  function Number(bs: seq<Byte>): nat { if bs == [] then 0 else bs[0] % 128 + 128 * Number(bs[1..]) }

  /** The last byte is below 128, all before it are not. */
  ghost predicate OneNumber(bs: seq<Byte>) {
    bs != [] && bs[|bs| - 1] < 128 && forall i :: 0 <= i < |bs| - 1 ==> bs[i] >= 128
  }

  lemma {:induction false} OneMoreByte(b: Byte, rest: seq<Byte>)
    requires b >= 128 && OneNumber(rest)
    ensures OneNumber([b] + rest) && Number([b] + rest) == b - 128 + 128 * Number(rest)
  {
    assert ([b] + rest)[1..] == rest;
  }

  /** What is written for a number. */
  lemma {:induction false} PutIs(x: nat)
    ensures OneNumber(Put(x)) && Number(Put(x)) == x
  {
    if x < 128 {
      assert Put(x)[1..] == [];
    } else {
      PutIs(x / 128);
      OneMoreByte(x % 128 + 128, Put(x / 128));
    }
  }

  lemma {:induction false} OneNumberRest(b: Byte, rest: seq<Byte>)
    requires OneNumber([b] + rest)
    ensures if rest == [] then b < 128 else b >= 128 && OneNumber(rest)
  {
    var bs := [b] + rest;
    assert bs[0] == b && bs[1..] == rest;
    if rest != [] {
      assert rest[|rest| - 1] == bs[|bs| - 1];
      forall i | 0 <= i < |rest| - 1 ensures rest[i] >= 128 { assert bs[i + 1] >= 128; }
    }
  }

  lemma {:induction false} ReadFromLast(bs: seq<Byte>, index: nat, x: int)
    requires index < |bs| && index < 10 && bs[index] < 128 && (index == 9 ==> bs[index] <= 1)
    ensures ReadFrom(bs, index, x) == Value(x + Number(bs[index..index + 1]) * Power(index), index + 1)
  {
    hide Power;
    assert bs[index..index + 1] == [bs[index]] && [bs[index]][1..] == [];
    assert Number([bs[index]]) == bs[index];
  }

  lemma {:induction false} AddDigit(x: int, digit: nat, rest: nat, p: nat, q: nat)
    requires q == 128 * p
    ensures x + digit * p + rest * q == x + (digit + 128 * rest) * p
  {
    SplitProduct(rest, digit, p);
  }

  lemma {:induction false} ReadFromIs(bs: seq<Byte>, index: nat, x: int, n: nat)
    requires index < n <= |bs| && n <= 10 && OneNumber(bs[index..n]) && (n == 10 ==> bs[9] <= 1)
    ensures ReadFrom(bs, index, x) == Value(x + Number(bs[index..n]) * Power(index), n)
    decreases n - index
  {
    hide Power, ReadFrom, Number, OneNumber;
    var rest := bs[index + 1..n];
    assert bs[index..n] == [bs[index]] + rest;
    OneNumberRest(bs[index], rest);
    if n == index + 1 {
      ReadFromLast(bs, index, x);
    } else {
      OneMoreByte(bs[index], rest);
      ReadMore(bs, index, bs[index] - 128, x);
      ReadFromIs(bs, index + 1, x + (bs[index] - 128) * Power(index), n);
      PowerNext(index);
      AddDigit(x, bs[index] - 128, Number(rest), Power(index), Power(index + 1));
    }
  }

  /** What is read: a number that ends after n bytes, if it ends within ten, the tenth of which is at most 1. */
  lemma {:induction false} ReadIs(bs: seq<Byte>, n: nat)
    requires 0 < n <= |bs| && n <= 10 && OneNumber(bs[..n]) && (n == 10 ==> bs[9] <= 1)
    ensures Read(bs) == Value(Number(bs[..n]), n)
  {
    assert Power(0) == 1 && bs[0..n] == bs[..n];
    ReadFromIs(bs, 0, 0, n);
  }

  lemma {:induction false} ReadFromFails(bs: seq<Byte>, index: nat, x: int)
    requires index <= |bs| && index <= 10 && forall i :: index <= i < |bs| && i < 10 ==> bs[i] >= 128
    ensures ReadFrom(bs, index, x) == if |bs| <= 10 then TooShort else Overflow
    decreases |bs| - index
  {
    if index < |bs| && index < 10 { ReadFromFails(bs, index + 1, x + (bs[index] - 128) * Power(index)); }
  }

  /** Where nothing is read: the bytes end before the number does, or it is longer than ten bytes. */
  lemma {:induction false} ReadFails(bs: seq<Byte>)
    requires forall i :: 0 <= i < |bs| && i < 10 ==> bs[i] >= 128
    ensures Read(bs) == if |bs| <= 10 then TooShort else Overflow
  {
    ReadFromFails(bs, 0, 0);
  }
}
