/** Unpadded base64url (RFC 4648 section 5) as Go's encoding/base64.RawURLEncoding reads and
    writes it: line breaks are skipped and unused trailing bits are ignored on reading. */
module Base64 {
  import opened Wrappers

  type Byte = b: nat | b < 256
  type Sextet = s: nat | s < 64

  function CharOf(s: Sextet): char {
    if s < 26 then 'A' + s as char
    else if s < 52 then 'a' + (s - 26) as char
    else if s < 62 then '0' + (s - 52) as char
    else if s == 62 then '-' else '_'
  }

  function SextetOf(c: char): Option<Sextet> {
    if 'A' <= c <= 'Z' then Some(c as int - 'A' as int)
    else if 'a' <= c <= 'z' then Some(c as int - 'a' as int + 26)
    else if '0' <= c <= '9' then Some(c as int - '0' as int + 52)
    else if c == '-' then Some(62)
    else if c == '_' then Some(63)
    else None
  }

  lemma {:induction false} CharRoundTrip(s: Sextet)
    ensures SextetOf(CharOf(s)) == Some(s)
  {
  }

  // ---------------------------------------------------------------- bytes and sextets

  function Pack3(a: Byte, b: Byte, c: Byte): seq<Sextet> {
    [a / 4, a % 4 * 16 + b / 16, b % 16 * 4 + c / 64, c % 64]
  }

  function Pack2(a: Byte, b: Byte): seq<Sextet> { [a / 4, a % 4 * 16 + b / 16, b % 16 * 4] }

  function Pack1(a: Byte): seq<Sextet> { [a / 4, a % 4 * 16] }

  function Sextets(bs: seq<Byte>): seq<Sextet> {
    if |bs| >= 3 then Pack3(bs[0], bs[1], bs[2]) + Sextets(bs[3..])
    else if |bs| == 2 then Pack2(bs[0], bs[1])
    else if |bs| == 1 then Pack1(bs[0])
    else []
  }

  function First(s: Sextet, t: Sextet): Byte { s * 4 + t / 16 }

  function Second(t: Sextet, u: Sextet): Byte { t % 16 * 16 + u / 4 }

  function Third(u: Sextet, v: Sextet): Byte { u % 4 * 64 + v }

  /** None: one sextet alone is no byte. */
  function Bytes(ss: seq<Sextet>): Option<seq<Byte>> {
    if |ss| >= 4 then
      match Bytes(ss[4..])
      case None => None
      case Some(rest) => Some([First(ss[0], ss[1]), Second(ss[1], ss[2]), Third(ss[2], ss[3])] + rest)
    else if |ss| == 3 then Some([First(ss[0], ss[1]), Second(ss[1], ss[2])])
    else if |ss| == 2 then Some([First(ss[0], ss[1])])
    else if |ss| == 1 then None
    else Some([])
  }

  lemma {:induction false} FirstIs(a: Byte, x: Sextet)
    requires x < 16
    ensures First(a / 4, a % 4 * 16 + x) == a
  {
  }

  lemma {:induction false} SecondIs(a: Byte, b: Byte, x: Sextet)
    requires x < 4
    ensures Second(a % 4 * 16 + b / 16, b % 16 * 4 + x) == b
  {
    assert (a % 4 * 16 + b / 16) % 16 == b / 16;
    assert (b % 16 * 4 + x) / 4 == b % 16;
  }

  lemma {:induction false} ThirdIs(b: Byte, c: Byte)
    ensures Third(b % 16 * 4 + c / 64, c % 64) == c
  {
  }

  lemma {:induction false} SextetsRoundTrip(bs: seq<Byte>)
    ensures Bytes(Sextets(bs)) == Some(bs)
  {
    hide First, Second, Third;
    if |bs| >= 3 {
      SextetsRoundTrip(bs[3..]);
      FirstIs(bs[0], bs[1] / 16);
      SecondIs(bs[0], bs[1], bs[2] / 64);
      ThirdIs(bs[1], bs[2]);
      assert Sextets(bs)[4..] == Sextets(bs[3..]);
      assert bs == [bs[0], bs[1], bs[2]] + bs[3..];
    } else if |bs| == 2 {
      FirstIs(bs[0], bs[1] / 16);
      SecondIs(bs[0], bs[1], 0);
      assert bs == [bs[0], bs[1]];
    } else if |bs| == 1 {
      FirstIs(bs[0], 0);
      assert bs == [bs[0]];
    }
  }

  // ---------------------------------------------------------------- text

  function Chars(ss: seq<Sextet>): string {
    if ss == [] then "" else [CharOf(ss[0])] + Chars(ss[1..])
  }

  /** The sextets of a text without its line breaks; None: a character outside the alphabet. */
  function Scan(text: string): Option<seq<Sextet>> {
    if text == "" then Some([])
    else if text[0] == '\r' || text[0] == '\n' then Scan(text[1..])
    else
      match SextetOf(text[0])
      case None => None
      case Some(s) =>
        match Scan(text[1..])
        case None => None
        case Some(rest) => Some([s] + rest)
  }

  lemma {:induction false} ScanOfChars(ss: seq<Sextet>)
    ensures Scan(Chars(ss)) == Some(ss)
  {
    if ss != [] {
      ScanOfChars(ss[1..]);
      CharRoundTrip(ss[0]);
      assert Chars(ss)[1..] == Chars(ss[1..]);
      assert ss == [ss[0]] + ss[1..];
    }
  }

  /** base64.RawURLEncoding.EncodeToString. */
  function Encode(bs: seq<Byte>): string { Chars(Sextets(bs)) }

  /** base64.RawURLEncoding.DecodeString. */
  function Decode(text: string): Option<seq<Byte>> {
    match Scan(text)
    case None => None
    case Some(ss) => Bytes(ss)
  }

  /** Every byte string survives encoding and decoding. */
  lemma {:induction false} RoundTrip(bs: seq<Byte>)
    ensures Decode(Encode(bs)) == Some(bs)
  {
    ScanOfChars(Sextets(bs));
    SextetsRoundTrip(bs);
  }

  lemma {:induction false} EncodeIsEmpty(bs: seq<Byte>)
    ensures Encode(bs) == "" <==> bs == []
  {
  }

  // ---------------------------------------------------------------- the encoding itself

  /** The alphabet of RFC 4648 section 5, both ways. */
  lemma {:induction false} AlphabetIs(s: Sextet, c: char)
    ensures CharOf(0) == 'A' && CharOf(25) == 'Z' && CharOf(26) == 'a' && CharOf(51) == 'z'
    ensures CharOf(52) == '0' && CharOf(61) == '9' && CharOf(62) == '-' && CharOf(63) == '_'
    ensures s !in {25, 51, 61, 62, 63} ==> CharOf(s + 1) as int == CharOf(s) as int + 1
    ensures SextetOf(c) == Some(s) <==> c == CharOf(s)
  {
  }

  function Base256(bs: seq<int>): int { if bs == [] then 0 else 256 * Base256(bs[..|bs| - 1]) + bs[|bs| - 1] }

  function Base64Number(ss: seq<int>): int { if ss == [] then 0 else 64 * Base64Number(ss[..|ss| - 1]) + ss[|ss| - 1] }

  lemma {:induction false} NumbersAre(a: int, b: int, c: int, d: int)
    ensures Base256([a]) == a && Base256([a, b]) == 256 * a + b && Base256([a, b, c]) == 65536 * a + 256 * b + c
    ensures Base64Number([a]) == a && Base64Number([a, b]) == 64 * a + b
    ensures Base64Number([a, b, c]) == 4096 * a + 64 * b + c
    ensures Base64Number([a, b, c, d]) == 262144 * a + 4096 * b + 64 * c + d
  {
    assert [a][..0] == [] && [a, b][..1] == [a] && [a, b, c][..2] == [a, b] && [a, b, c, d][..3] == [a, b, c];
  }

  /** Every three bytes are four characters: the same number in base 256 and in base 64. */
  lemma {:induction false} GroupIs(a: Byte, b: Byte, c: Byte, rest: seq<Byte>) returns (d: seq<Sextet>)
    ensures |d| == 4 && Base256([a, b, c]) == Base64Number(d)
    ensures Encode([a, b, c] + rest) == [CharOf(d[0]), CharOf(d[1]), CharOf(d[2]), CharOf(d[3])] + Encode(rest)
  {
    var bs := [a, b, c] + rest;
    d := Pack3(a, b, c);
    NumbersAre(a, b, c, 0);
    NumbersAre(d[0], d[1], d[2], d[3]);
    assert d == [d[0], d[1], d[2], d[3]];
    assert bs[3..] == rest && Sextets(bs) == d + Sextets(rest);
    CharsOfTwo(d[2], d[3], Sextets(rest));
    CharsOfTwo(d[0], d[1], [d[2], d[3]] + Sextets(rest));
    assert d + Sextets(rest) == [d[0], d[1]] + ([d[2], d[3]] + Sextets(rest));
  }

  lemma {:induction false} CharsOfFirst(s: Sextet, rest: seq<Sextet>)
    ensures Chars([s] + rest) == [CharOf(s)] + Chars(rest)
  {
    assert ([s] + rest)[1..] == rest;
  }

  lemma {:induction false} CharsOfTwo(s: Sextet, t: Sextet, rest: seq<Sextet>)
    ensures Chars([s, t] + rest) == [CharOf(s), CharOf(t)] + Chars(rest)
  {
    hide CharOf;
    CharsOfFirst(t, rest);
    CharsOfFirst(s, [t] + rest);
    assert [s, t] + rest == [s] + ([t] + rest);
  }

  /** One or two bytes at the end are two or three characters; the bits beyond the bytes are zero. */
  lemma {:induction false} LastGroupIs(a: Byte, b: Byte) returns (d: seq<Sextet>, e: seq<Sextet>)
    ensures |d| == 2 && 16 * Base256([a]) == Base64Number(d) && Encode([a]) == [CharOf(d[0]), CharOf(d[1])]
    ensures |e| == 3 && 4 * Base256([a, b]) == Base64Number(e)
    ensures Encode([a, b]) == [CharOf(e[0]), CharOf(e[1]), CharOf(e[2])]
  {
    d, e := Pack1(a), Pack2(a, b);
    NumbersAre(a, b, 0, 0);
    NumbersAre(d[0], d[1], 0, 0);
    NumbersAre(e[0], e[1], e[2], 0);
    assert d == [d[0], d[1]] + [] && e == [e[0], e[1]] + [e[2]] && [e[2]] == [e[2]] + [];
    CharsOfTwo(d[0], d[1], []);
    CharsOfTwo(e[0], e[1], [e[2]]);
    CharsOfFirst(e[2], []);
  }
}
