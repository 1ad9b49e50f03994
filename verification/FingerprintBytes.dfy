/** The bytes of a packed fingerprint: a 16-byte key for the first section, then a varint tag and
    a 16-byte key for each further one. */
module FingerprintBytes {
  import opened Wrappers
  import opened Base64
  import Varint

  const DIGEST_SIZE: nat := 16

  datatype Piece = Piece(tag: Varint.Uint64, key: seq<Byte>)

  datatype Error = ShortPayload | BadTag(at: nat) | Truncated(at: nat)

  predicate Fits(p: Piece) { |p.key| == DIGEST_SIZE }

  ghost predicate AllFit(ps: seq<Piece>) { forall i :: 0 <= i < |ps| ==> Fits(ps[i]) }

  function PieceBytes(p: Piece): seq<Byte> { Varint.Put(p.tag) + p.key }

  function Pack(ps: seq<Piece>): seq<Byte> {
    if ps == [] then [] else Pack(ps[..|ps| - 1]) + PieceBytes(ps[|ps| - 1])
  }

  /** The piece at a byte offset, and the offset after it. */
  function PieceAt(bs: seq<Byte>, offset: nat): (r: Result<(Piece, nat), Error>)
    requires offset <= |bs|
    ensures r.Ok? ==> offset < r.value.1 <= |bs|
  {
    match Varint.Read(bs[offset..])
    case TooShort => Err(BadTag(offset))
    case Overflow => Err(BadTag(offset))
    case Value(tag, n) =>
      var end := offset + n + DIGEST_SIZE;
      if end > |bs| then Err(Truncated(offset + n))
      else Ok((Piece(tag, bs[offset + n..end]), end))
  }

  function Unpack(bs: seq<Byte>, offset: nat): Result<seq<Piece>, Error>
    requires offset <= |bs|
    decreases |bs| - offset
  {
    if offset == |bs| then Ok([])
    else
      match PieceAt(bs, offset)
      case Err(e) => Err(e)
      case Ok((piece, end)) =>
        match Unpack(bs, end)
        case Err(e) => Err(e)
        case Ok(rest) => Ok([piece] + rest)
  }

  lemma {:induction false} PieceRoundTrip(before: seq<Byte>, p: Piece, after: seq<Byte>)
    requires Fits(p)
    ensures PieceAt(before + PieceBytes(p) + after, |before|) == Ok((p, |before| + |PieceBytes(p)|))
  {
    var bs := before + PieceBytes(p) + after;
    assert bs[|before|..] == Varint.Put(p.tag) + (p.key + after);
    Varint.RoundTrip(p.tag, p.key + after);
    var n := |Varint.Put(p.tag)|;
    assert bs[|before| + n..|before| + n + DIGEST_SIZE] == p.key;
  }

  lemma {:induction false} PackLast(ps: seq<Piece>, p: Piece)
    ensures Pack(ps + [p]) == Pack(ps) + PieceBytes(p)
  {
    assert (ps + [p])[..|ps|] == ps;
  }

  lemma {:induction false} PackCons(p: Piece, ps: seq<Piece>)
    ensures Pack([p] + ps) == PieceBytes(p) + Pack(ps)
  {
    hide PieceBytes;
    if ps == [] {
      assert [p][..0] == [] && [p] + ps == [p];
    } else {
      var front, last := ps[..|ps| - 1], ps[|ps| - 1];
      PackCons(p, front);
      PackLast([p] + front, last);
      assert [p] + ps == [p] + front + [last];
    }
  }

  /** Reading what was packed, after anything, gives the pieces. */
  lemma {:induction false} PackRoundTrip(before: seq<Byte>, ps: seq<Piece>)
    requires AllFit(ps)
    ensures Unpack(before + Pack(ps), |before|) == Ok(ps)
    decreases |ps|
  {
    if ps == [] {
      assert before + [] == before;
    } else {
      var rest := ps[1..];
      assert ps == [ps[0]] + rest;
      PackCons(ps[0], rest);
      var next := before + PieceBytes(ps[0]);
      assert before + Pack(ps) == next + Pack(rest);
      PieceRoundTrip(before, ps[0], Pack(rest));
      PackRoundTrip(next, rest);
    }
  }
}
