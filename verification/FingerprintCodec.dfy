/** `encodeFB2BodyFingerprint` and `decodeFB2BodyFingerprint`: sections to text and back. */
module FingerprintCodec {
  import opened Wrappers
  import opened Base64
  import opened FingerprintBytes
  import Varint

  const MAX_INT: int := 0x7fff_ffff_ffff_ffff

  /** `FB2BodySectionFingerprint`. */
  datatype Section = Section(depth: int, key: string, leaf: bool)

  /** The depths are 64-bit ints. */
  predicate Ints(sections: seq<Section>) {
    forall i :: 0 <= i < |sections| ==> -MAX_INT - 1 <= sections[i].depth <= MAX_INT
  }

  datatype CodecError = BadKey | WrongKeySize | NegativeDepth | BadPayload | Malformed(error: FingerprintBytes.Error)

  function KeyBytes(key: string): (r: Result<seq<Byte>, CodecError>)
    ensures r.Ok? ==> |r.value| == DIGEST_SIZE
  {
    match Decode(key)
    case None => Err(BadKey)
    case Some(bytes) => if |bytes| != DIGEST_SIZE then Err(WrongKeySize) else Ok(bytes)
  }

  /** uint64(depth << 1) with the leaf flag in the low bit: where the shifted int turns negative
      the conversion to uint64 makes it twice the depth again. */
  function Tag(depth: int, leaf: bool): Varint.Uint64
    requires 0 <= depth <= MAX_INT
  {
    depth * 2 + if leaf then 1 else 0
  }

  /** What is stored of a section; the depth and leaf flag of the first one are not. */
  function PieceOf(s: Section, first: bool): Result<Piece, CodecError>
    requires s.depth <= MAX_INT
  {
    match KeyBytes(s.key)
    case Err(e) => Err(e)
    case Ok(key) =>
      if first then Ok(Piece(0, key))
      else if s.depth < 0 then Err(NegativeDepth)
      else Ok(Piece(Tag(s.depth, s.leaf), key))
  }

  /** The pieces of the sections, or the first error. */
  function Pieces(sections: seq<Section>): (r: Result<seq<Piece>, CodecError>)
    requires Ints(sections)
    ensures r.Ok? ==> |r.value| == |sections|
  {
    if sections == [] then Ok([])
    else
      match Pieces(sections[..|sections| - 1])
      case Err(e) => Err(e)
      case Ok(ps) =>
        match PieceOf(sections[|sections| - 1], |sections| == 1)
        case Err(e) => Err(e)
        case Ok(p) => Ok(ps + [p])
  }

  function PackAll(ps: seq<Piece>): seq<Byte> {
    if ps == [] then [] else ps[0].key + Pack(ps[1..])
  }

  /** `encodeFB2BodyFingerprint`. */
  function EncodeBody(sections: seq<Section>): Result<string, CodecError>
    requires Ints(sections)
  {
    match Pieces(sections)
    case Err(e) => Err(e)
    case Ok(ps) => Ok(Encode(PackAll(ps)))
  }

  /** The depth is int(tag >> 1). */
  function SectionOf(p: Piece): Section { Section(p.tag / 2, Encode(p.key), p.tag % 2 == 1) }

  function Sections(ps: seq<Piece>): (r: seq<Section>)
    ensures |r| == |ps| && forall i :: 0 <= i < |ps| ==> r[i] == SectionOf(ps[i])
  {
    if ps == [] then [] else [SectionOf(ps[0])] + Sections(ps[1..])
  }

  /** `decodeFB2BodyFingerprint`. */
  function DecodeBody(payload: string): Result<seq<Section>, CodecError> {
    if payload == "" then Ok([])
    else
      match Decode(payload)
      case None => Err(BadPayload)
      case Some(raw) => DecodeRaw(raw)
  }

  function DecodeRaw(raw: seq<Byte>): Result<seq<Section>, CodecError> {
    if |raw| < DIGEST_SIZE then Err(Malformed(ShortPayload))
    else
      match Unpack(raw, DIGEST_SIZE)
      case Err(e) => Err(Malformed(e))
      case Ok(rest) => Ok([Section(0, Encode(raw[..DIGEST_SIZE]), false)] + Sections(rest))
  }

  // ---------------------------------------------------------------- the loops

  method EncodeFingerprint(sections: seq<Section>) returns (r: Result<string, CodecError>)
    requires Ints(sections)
    ensures r == EncodeBody(sections)
  {
    hide Pieces, PackAll, PieceBytes, Encode;
    NothingPacked(sections);
    if |sections| == 0 { return Ok(""); }
    var out: seq<Byte> := [];
    ghost var ps: seq<Piece> := [];
    var idx := 0;
    while idx < |sections|
      invariant idx <= |sections|
      invariant Pieces(sections[..idx]) == Ok(ps) && out == PackAll(ps)
    {
      PiecesNext(sections, idx);
      var piece := PieceOf(sections[idx], idx == 0);
      if piece.Err? {
        PiecesFail(sections, idx + 1);
        return Err(piece.error);
      }
      PackAllAppend(ps, piece.value);
      out := out + if idx == 0 then piece.value.key else PieceBytes(piece.value);
      ps := ps + [piece.value];
      idx := idx + 1;
    }
    assert sections[..idx] == sections;
    return Ok(Encode(out));
  }

  lemma {:induction false} NothingPacked(sections: seq<Section>)
    ensures Pieces(sections[..0]) == Ok([]) && PackAll([]) == []
    ensures sections == [] ==> Ints(sections) && EncodeBody(sections) == Ok("")
  {
    EncodeIsEmpty([]);
  }

  lemma {:induction false} PiecesNext(sections: seq<Section>, idx: nat)
    requires Ints(sections) && idx < |sections| && Pieces(sections[..idx]).Ok?
    ensures Pieces(sections[..idx + 1])
         == match PieceOf(sections[idx], idx == 0)
            case Err(e) => Err(e)
            case Ok(p) => Ok(Pieces(sections[..idx]).value + [p])
  {
    assert sections[..idx + 1][..idx] == sections[..idx];
  }

  lemma {:induction false} PackAllAppend(ps: seq<Piece>, p: Piece)
    ensures PackAll(ps + [p]) == PackAll(ps) + if ps == [] then p.key else PieceBytes(p)
  {
    if ps == [] {
      assert ([] + [p])[1..] == [];
    } else {
      var tail := (ps + [p])[1..];
      assert tail == ps[1..] + [p];
      assert tail[..|tail| - 1] == ps[1..];
    }
  }

  lemma {:induction false} PiecesFail(sections: seq<Section>, n: nat)
    requires Ints(sections) && n <= |sections| && Pieces(sections[..n]).Err?
    ensures Pieces(sections) == Pieces(sections[..n])
  {
    if n == |sections| {
      assert sections[..n] == sections;
    } else {
      var p := sections[..|sections| - 1];
      assert p[..n] == sections[..n];
      PiecesFail(p, n);
    }
  }

  method DecodeFingerprint(payload: string) returns (r: Result<seq<Section>, CodecError>)
    ensures r == DecodeBody(payload)
  {
    if payload == "" { return Ok([]); }
    var decoded := Decode(payload);
    if decoded.None? { return Err(BadPayload); }
    r := DecodeSections(decoded.value);
  }

  /** What is decoded when `sections` have been read and the rest starts at an offset. */
  ghost function DecodedWith(raw: seq<Byte>, offset: nat, sections: seq<Section>): Result<seq<Section>, CodecError>
    requires offset <= |raw|
  {
    match Unpack(raw, offset)
    case Err(e) => Err(Malformed(e))
    case Ok(rest) => Ok(sections + Sections(rest))
  }

  lemma {:induction false} UnpackNext(raw: seq<Byte>, offset: nat, sections: seq<Section>)
    requires offset < |raw|
    ensures DecodedWith(raw, offset, sections)
         == match PieceAt(raw, offset)
            case Err(e) => Err(Malformed(e))
            case Ok((piece, end)) => DecodedWith(raw, end, sections + [SectionOf(piece)])
  {
    hide PieceAt, SectionOf;
    var piece := PieceAt(raw, offset);
    if piece.Ok? && Unpack(raw, piece.value.1).Ok? {
      var rest := Unpack(raw, piece.value.1).value;
      assert ([piece.value.0] + rest)[1..] == rest;
      assert sections + Sections([piece.value.0] + rest) == sections + [SectionOf(piece.value.0)] + Sections(rest);
    }
  }

  lemma {:induction false} NothingLeft(raw: seq<Byte>, sections: seq<Section>)
    ensures DecodedWith(raw, |raw|, sections) == Ok(sections)
  {
    assert sections + Sections([]) == sections;
  }

  method DecodeSections(raw: seq<Byte>) returns (r: Result<seq<Section>, CodecError>)
    ensures r == DecodeRaw(raw)
  {
    hide PieceAt, SectionOf, Unpack, Encode;
    if |raw| < DIGEST_SIZE { return Err(Malformed(ShortPayload)); }
    var sections := [Section(0, Encode(raw[..DIGEST_SIZE]), false)];
    var offset := DIGEST_SIZE;
    while offset < |raw|
      invariant DIGEST_SIZE <= offset <= |raw|
      invariant DecodeRaw(raw) == DecodedWith(raw, offset, sections)
      decreases |raw| - offset
    {
      UnpackNext(raw, offset, sections);
      var piece := PieceAt(raw, offset);
      if piece.Err? { return Err(Malformed(piece.error)); }
      sections := sections + [SectionOf(piece.value.0)];
      offset := piece.value.1;
    }
    NothingLeft(raw, sections);
    return Ok(sections);
  }

  // ---------------------------------------------------------------- round trip

  /** A section whose key holds 16 bytes, and whose depth is not negative unless it is the first. */
  predicate Packable(s: Section, first: bool) { KeyBytes(s.key).Ok? && (first || s.depth >= 0) && s.depth <= MAX_INT }

  ghost predicate AllPackable(sections: seq<Section>) {
    Ints(sections) && forall i :: 0 <= i < |sections| ==> Packable(sections[i], i == 0)
  }

  /** Exactly those are packed. */
  lemma {:induction false} PackableIff(sections: seq<Section>)
    requires Ints(sections)
    ensures EncodeBody(sections).Ok? <==> AllPackable(sections)
  {
    PiecesOkIff(sections);
  }

  lemma {:induction false} PiecesOkIff(sections: seq<Section>)
    requires Ints(sections)
    ensures Pieces(sections).Ok? <==> AllPackable(sections)
  {
    if sections != [] {
      var n := |sections| - 1;
      PiecesOkIff(sections[..n]);
      PackableSnoc(sections);
    }
  }

  lemma {:induction false} PackableSnoc(sections: seq<Section>)
    requires Ints(sections) && sections != []
    ensures AllPackable(sections)
       <==> AllPackable(sections[..|sections| - 1]) && Packable(sections[|sections| - 1], |sections| == 1)
  {
    hide Packable;
    var p := sections[..|sections| - 1];
    if AllPackable(p) && Packable(sections[|p|], |p| == 0) {
      forall i | 0 <= i < |sections| ensures Packable(sections[i], i == 0) {
        if i < |p| { assert p[i] == sections[i]; }
      }
    }
    if AllPackable(sections) {
      forall i | 0 <= i < |p| ensures Packable(p[i], i == 0) {
        assert p[i] == sections[i];
      }
    }
  }

  /** What comes back of a section: its key in canonical form; of the first one nothing else. */
  function Recoded(s: Section, first: bool): Section
    requires KeyBytes(s.key).Ok?
  {
    var key := Encode(KeyBytes(s.key).value);
    if first then Section(0, key, false) else Section(s.depth, key, s.leaf)
  }

  lemma {:induction false} TagRoundTrip(depth: int, leaf: bool)
    requires 0 <= depth <= MAX_INT
    ensures Tag(depth, leaf) / 2 == depth && (Tag(depth, leaf) % 2 == 1) == leaf
  {
  }

  lemma {:induction false} PieceRecodes(s: Section, first: bool)
    requires Packable(s, first)
    ensures PieceOf(s, first).Ok? && Fits(PieceOf(s, first).value)
    ensures SectionOf(PieceOf(s, first).value) == Recoded(s, first)
  {
    if !first { TagRoundTrip(s.depth, s.leaf); }
  }

  lemma {:induction false} PiecesRecode(sections: seq<Section>)
    requires AllPackable(sections)
    ensures Pieces(sections).Ok? && AllFit(Pieces(sections).value)
    ensures forall i :: 0 <= i < |sections| ==> SectionOf(Pieces(sections).value[i]) == Recoded(sections[i], i == 0)
  {
    hide SectionOf, Recoded, PieceOf, Fits, KeyBytes;
    if sections != [] {
      PackableSnoc(sections);
      PiecesRecode(sections[..|sections| - 1]);
      PieceRecodes(sections[|sections| - 1], |sections| == 1);
    }
  }

  lemma {:induction false} DecodeOfPack(ps: seq<Piece>)
    requires AllFit(ps) && (ps != [] ==> ps[0].tag == 0)
    ensures DecodeBody(Encode(PackAll(ps))) == Ok(Sections(ps))
  {
    var out := PackAll(ps);
    EncodeIsEmpty(out);
    if ps != [] {
      Base64.RoundTrip(out);
      PackRoundTrip(ps[0].key, ps[1..]);
      assert out[..DIGEST_SIZE] == ps[0].key;
    }
  }

  lemma {:induction false} FirstTagIsZero(sections: seq<Section>)
    requires Ints(sections) && Pieces(sections).Ok? && sections != []
    ensures Pieces(sections).value[0].tag == 0
  {
    if |sections| > 1 { FirstTagIsZero(sections[..|sections| - 1]); }
  }

  /** What can be packed is, and decoding gives every section back, with its key in canonical form; only
      the first one loses its depth and leaf flag. */
  lemma {:induction false} RoundTrip(sections: seq<Section>) returns (decoded: seq<Section>)
    requires AllPackable(sections)
    ensures EncodeBody(sections).Ok? && DecodeBody(EncodeBody(sections).value) == Ok(decoded)
    ensures |decoded| == |sections|
    ensures forall i :: 0 <= i < |sections| ==> decoded[i] == Recoded(sections[i], i == 0)
  {
    PiecesRecode(sections);
    if sections != [] { FirstTagIsZero(sections); }
    DecodeOfPack(Pieces(sections).value);
    decoded := Sections(Pieces(sections).value);
  }

  /** A key in canonical form is the encoding of 16 bytes. */
  ghost predicate CanonicalKey(key: string) {
    exists bytes: seq<Byte> :: |bytes| == DIGEST_SIZE && key == Encode(bytes)
  }

  lemma {:induction false} CanonicalKeyKept(key: string)
    requires KeyBytes(key).Ok?
    ensures Encode(KeyBytes(key).value) == key <==> CanonicalKey(key)
  {
    if CanonicalKey(key) {
      var bytes: seq<Byte> :| |bytes| == DIGEST_SIZE && key == Encode(bytes);
      Base64.RoundTrip(bytes);
    }
  }

  /** The section is its own recoding. */
  ghost predicate Stable(s: Section, first: bool) {
    CanonicalKey(s.key) && (first ==> s.depth == 0 && !s.leaf)
  }

  lemma {:induction false} RecodedIsSame(s: Section, first: bool)
    requires Packable(s, first)
    ensures Recoded(s, first) == s <==> Stable(s, first)
  {
    CanonicalKeyKept(s.key);
  }

  /** Sections come back unchanged exactly when all keys are canonical and the first section has
      depth 0 and is no leaf. */
  lemma {:induction false} ExactRoundTrip(sections: seq<Section>)
    requires AllPackable(sections)
    ensures EncodeBody(sections).Ok?
    ensures DecodeBody(EncodeBody(sections).value) == Ok(sections)
       <==> forall i :: 0 <= i < |sections| ==> Stable(sections[i], i == 0)
  {
    var decoded := RoundTrip(sections);
    SameWhenStable(sections, decoded);
  }

  lemma {:induction false} SameWhenStable(sections: seq<Section>, decoded: seq<Section>)
    requires AllPackable(sections) && |decoded| == |sections|
    requires forall i :: 0 <= i < |sections| ==> decoded[i] == Recoded(sections[i], i == 0)
    ensures decoded == sections <==> forall i :: 0 <= i < |sections| ==> Stable(sections[i], i == 0)
  {
    forall i | 0 <= i < |sections| ensures decoded[i] == sections[i] <==> Stable(sections[i], i == 0) {
      RecodedIsSame(sections[i], i == 0);
    }
  }

  // ---------------------------------------------------------------- the bytes themselves

  /** The bytes a packed list stands for. */
  function Payload(sections: seq<Section>): seq<Byte>
    requires Ints(sections) && EncodeBody(sections).Ok?
  {
    match Decode(EncodeBody(sections).value) case Some(raw) => raw case None => []
  }

  lemma {:induction false} PayloadIs(sections: seq<Section>)
    requires Ints(sections) && EncodeBody(sections).Ok?
    ensures Decode(EncodeBody(sections).value) == Some(Payload(sections))
    ensures Payload(sections) == PackAll(Pieces(sections).value)
  {
    Base64.RoundTrip(PackAll(Pieces(sections).value));
  }

  /** The first section is the 16 bytes of its key; each further one is the number 2 * depth, plus 1 for a leaf, in
      groups of seven bits, and the 16 bytes of its key. */
  lemma {:induction false} LayoutIs(sections: seq<Section>, s: Section) returns (tag: seq<Byte>)
    requires AllPackable(sections) && AllPackable(sections + [s])
    ensures EncodeBody(sections).Ok? && EncodeBody(sections + [s]).Ok? && Decode(s.key).Some?
    ensures sections == [] ==> Payload(sections + [s]) == Decode(s.key).value
    ensures sections != [] ==>
      && Payload(sections + [s]) == Payload(sections) + tag + Decode(s.key).value
      && Varint.OneNumber(tag) && Varint.Number(tag) == 2 * s.depth + if s.leaf then 1 else 0
  {
    hide PackAll;
    var all, n := sections + [s], |sections|;
    assert all[..n] == sections && all[..n + 1] == all;
    PackableIff(sections);
    PackableIff(all);
    PayloadIs(sections);
    PayloadIs(all);
    assert Packable(all[n], n == 0);
    PiecesNext(all, n);
    var ps := Pieces(sections).value;
    PackAllAppend(ps, PieceOf(s, n == 0).value);
    tag := [];
    if n > 0 {
      tag := Varint.Put(Tag(s.depth, s.leaf));
      Varint.PutIs(Tag(s.depth, s.leaf));
      assert Payload(sections) + (tag + Decode(s.key).value) == Payload(sections) + tag + Decode(s.key).value;
    } else {
      NothingPacked(sections);
      assert [] + Decode(s.key).value == Decode(s.key).value;
    }
  }
}
