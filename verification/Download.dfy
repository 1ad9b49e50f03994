/** Resumable download: partial file plus sidecar, If-Range requests, retries, crashes and restarts. */
module Download {
  import opened Wrappers
  import opened Decimal

  type Bytes = seq<bv8>

  // ---------------------------------------------------------------- representations and responses

  /** One version of the resource at a URL, with the validators the server gives it. */
  datatype Representation = Representation(bytes: Bytes, etag: string, modified: string)

  datatype Response = Response(
    status: int,
    etag: string,
    modified: string,
    contentEncoding: string,
    contentRange: string,
    contentLength: int,    // -1 when unknown
    body: Bytes,           // the bytes that arrive
    clean: bool            // whether the body ended without a read error
  )

  datatype Request = Request(url: string, start: nat, ifRange: string)

  datatype Reply = Unreachable | Answered(resp: Response)

  /** The sidecar: `downloadState`. */
  datatype Saved = Saved(url: string, validator: string, total: int, complete: bool, noRanges: bool)

  datatype Failure = Temporary | BadStatus(code: int) | Fatal | Died

  predicate Quoted(s: string) { s != "" && s[0] == '"' && s[|s| - 1] == '"' }

  predicate StartsQuoted(s: string) { s != "" && s[0] == '"' }

  /** What the world is: which representations each URL has ever served, and which date strings parse. */
  datatype World = World(serves: (string, Representation) -> bool, parsesAsDate: string -> bool) {

    /** Equal strong entity tags mean equal bytes (RFC 9110 section 8.8.1). Of dates nothing is taken for granted. */
    ghost predicate Valid() {
      && (forall d :: parsesAsDate(d) ==> d != "" && d[0] != '"')
      && (forall u, r1, r2 ::
          serves(u, r1) && serves(u, r2) && Quoted(r1.etag) && r1.etag == r2.etag ==> r1.bytes == r2.bytes)
    }

    /** Only one version has the date: it is a strong validator (RFC 9110 section 8.8.2.2). */
    ghost predicate StrongDate(u: string, d: string) {
      forall r1, r2 :: serves(u, r1) && serves(u, r2) && r1.modified == d == r2.modified ==> r1.bytes == r2.bytes
    }

    ghost predicate Dated(u: string, d: string, bytes: Bytes) {
      exists r :: serves(u, r) && r.modified == d && r.bytes == bytes
    }

    /** The beginning of a version with the date and the rest of another one make a version with that date. */
    ghost predicate DateSplices(u: string, d: string) {
      forall r1, r2, n: nat ::
        (serves(u, r1) && serves(u, r2) && r1.modified == d == r2.modified
         && 0 < n <= |r1.bytes| && n < |r2.bytes| <= MAX_INT64) ==> Dated(u, d, r1.bytes[..n] + r2.bytes[n..])
    }

    /** The validator the client keeps for a response; "" when there is no usable one. */
    function ResponseValidator(resp: Response): string {
      if Quoted(resp.etag) then resp.etag
      else if parsesAsDate(resp.modified) then resp.modified
      else ""
    }

    /** `v` is a strong validator of `r`. */
    predicate Names(v: string, r: Representation) {
      if StartsQuoted(v) then Quoted(v) && r.etag == v else parsesAsDate(v) && r.modified == v
    }

    /** Response headers are absent or those of the representation. */
    predicate HeadersOf(resp: Response, r: Representation) {
      && (resp.etag == "" || resp.etag == r.etag)
      && (resp.modified == "" || resp.modified == r.modified)
    }

    /** A full response: RFC 9110 section 15.3.1. A body of unknown length that ends cleanly is complete. */
    predicate HonestFull(resp: Response, r: Representation) {
      && HeadersOf(resp, r)
      && resp.body <= r.bytes
      && (resp.contentLength == -1 || resp.contentLength == |r.bytes|)
      && (resp.contentLength == -1 && resp.clean ==> resp.body == r.bytes)
    }

    /** A partial response: RFC 9110 sections 14.4 and 15.3.7. The server compares If-Range with the
        validators of the version it sends, or at least says which version the part belongs to. */
    predicate HonestPartial(q: Request, resp: Response, r: Representation) {
      && HeadersOf(resp, r)
      && (match ParseContentRange(resp.contentRange)
          case None => true
          case Some((start, end, total)) =>
            total == |r.bytes| && resp.body <= r.bytes[start..end + 1])
      && (q.ifRange != "" ==>
            Names(q.ifRange, r) || (if StartsQuoted(q.ifRange) then resp.etag != "" else resp.modified != ""))
    }

    /** What holds of any server that does not lie. Statuses other than 200 and 206, and encoded bodies, are
        unconstrained. */
    ghost predicate Honest(q: Request, reply: Reply) {
      reply.Answered? && reply.resp.contentEncoding in {"", "identity"} ==>
        && (reply.resp.status == 200 ==> exists r :: serves(q.url, r) && HonestFull(reply.resp, r))
        && (reply.resp.status == 206 ==> exists r :: serves(q.url, r) && HonestPartial(q, reply.resp, r))
    }

    /** A date in If-Range got a part, and the answer does not say that the date has changed. */
    predicate GrantedByDate(q: Request, reply: Reply) {
      && reply.Answered? && reply.resp.status == 206 && reply.resp.contentEncoding in {"", "identity"}
      && q.ifRange != "" && !StartsQuoted(q.ifRange) && reply.resp.modified in {"", q.ifRange}
    }

    /** A server that takes a weak date in If-Range for a false condition: RFC 9110 section 13.1.5. */
    ghost predicate Conforms(q: Request, reply: Reply) {
      Honest(q, reply) && (GrantedByDate(q, reply) ==> StrongDate(q.url, q.ifRange))
    }

    /** What the client relies on: dates that get a part are strong, or mixing versions by them does no harm. */
    ghost predicate Reliable(q: Request, reply: Reply) {
      Honest(q, reply) && (GrantedByDate(q, reply) ==> DateSplices(q.url, q.ifRange))
    }

    lemma {:induction false} StrongSplices(u: string, d: string)
      requires StrongDate(u, d)
      ensures DateSplices(u, d)
    {
      forall r1, r2, n: nat | serves(u, r1) && serves(u, r2) && r1.modified == d == r2.modified
                              && 0 < n <= |r1.bytes| && n < |r2.bytes| <= MAX_INT64
        ensures Dated(u, d, r1.bytes[..n] + r2.bytes[n..])
      {
        assert r1.bytes[..n] + r2.bytes[n..] == r1.bytes;
      }
    }

    /** The client may rely on every server that conforms. */
    lemma {:induction false} ConformingIsReliable(q: Request, reply: Reply)
      requires Conforms(q, reply)
      ensures Reliable(q, reply)
    {
      if GrantedByDate(q, reply) { StrongSplices(q.url, q.ifRange); }
    }
  }

  /** Which validator is kept: a strong entity tag, which is in quotes; or else a date that parses; or else none. */
  lemma {:induction false} ValidatorIs(w: World, resp: Response, tag: string)
    ensures resp.etag == ['"'] + tag + ['"'] ==> w.ResponseValidator(resp) == resp.etag
    ensures resp.etag == "" || resp.etag[0] != '"' || resp.etag[|resp.etag| - 1] != '"' ==>
      w.ResponseValidator(resp) == if w.parsesAsDate(resp.modified) then resp.modified else ""
  {
  }

  predicate ValidatorMatches(resp: Response, v: string) {
    if StartsQuoted(v) then resp.etag == v else v != "" && resp.modified == v
  }

  predicate ValidatorChanged(resp: Response, v: string) {
    if StartsQuoted(v) then resp.etag != "" && !ValidatorMatches(resp, v)
    else resp.modified != "" && !ValidatorMatches(resp, v)
  }

  // ---------------------------------------------------------------- Content-Range

  function IndexOf(s: string, c: char): (k: Option<nat>)
    ensures k.Some? ==> k.value < |s| && s[k.value] == c && c !in s[..k.value]
    ensures k.None? ==> c !in s
  {
    if s == "" then None
    else if s[0] == c then Some(0)
    else match IndexOf(s[1..], c) case None => None case Some(k) => Some(k + 1)
  }

  predicate HasPrefix(s: string, p: string) { p <= s }

  /** strings.Cut: the text before and after the first separator. */
  function Cut(s: string, sep: char): Option<(string, string)> {
    match IndexOf(s, sep)
    case None => None
    case Some(k) => Some((s[..k], s[k + 1..]))
  }

  /** "bytes start-end/total", or None for the source's error. */
  function ParseContentRange(value: string): (r: Option<(nat, nat, nat)>)
    ensures r.Some? ==> r.value.0 <= r.value.1 < r.value.2
  {
    if !HasPrefix(value, "bytes ") then None
    else
      match Cut(value[6..], '/')
      case None => None
      case Some((interval, totalText)) =>
        match Cut(interval, '-')
        case None => None
        case Some((startText, endText)) =>
          match (ParseInt(startText), ParseInt(endText), ParseInt(totalText))
          case (Some(start), Some(end), Some(total)) =>
            if start < 0 || end < start || total <= end then None else Some((start, end, total))
          case _ => None
  }

  function FormatContentRange(start: nat, end: nat, total: nat): string {
    "bytes " + (Format(start) + ['-'] + Format(end) + ['/'] + Format(total))
  }

  lemma {:induction false} CutJoin(a: string, c: char, b: string)
    requires c !in a
    ensures Cut(a + [c] + b, c) == Some((a, b))
  {
    var s := a + [c] + b;
    IndexOfJoin(a, c, b);
    assert s[..|a|] == a && s[|a| + 1..] == b;
  }

  lemma {:induction false} IndexOfJoin(a: string, c: char, b: string)
    requires c !in a
    ensures IndexOf(a + [c] + b, c) == Some(|a|)
  {
    if a != "" {
      IndexOfJoin(a[1..], c, b);
      assert (a + [c] + b)[1..] == a[1..] + [c] + b;
    }
  }

  lemma {:induction false} NotInDigits(s: string, c: char)
    requires AllDigits(s) && !IsDigit(c)
    ensures c !in s
  {
  }

  lemma {:induction false} CutRange(a: string, b: string, t: string)
    requires AllDigits(a) && AllDigits(b) && AllDigits(t)
    ensures Cut(a + ['-'] + b + ['/'] + t, '/') == Some((a + ['-'] + b, t))
    ensures Cut(a + ['-'] + b, '-') == Some((a, b))
  {
    NotInDigits(a, '-');
    CutJoin(a, '-', b);
    NotInDigits(a, '/');
    NotInDigits(b, '/');
    CutJoin(a + ['-'] + b, '/', t);
  }

  /** Every satisfiable range a server can announce is read back exactly. */
  lemma {:induction false} ContentRangeRoundTrip(start: nat, end: nat, total: nat)
    requires start <= end < total <= MAX_INT64
    ensures ParseContentRange(FormatContentRange(start, end, total)) == Some((start, end, total))
  {
    var rest := Format(start) + ['-'] + Format(end) + ['/'] + Format(total);
    assert FormatContentRange(start, end, total)[6..] == rest;
    CutRange(Format(start), Format(end), Format(total));
    ParseOfFormat(start);
    ParseOfFormat(end);
    ParseOfFormat(total);
  }

  // ---------------------------------------------------------------- what the sidecar may claim

  /** The bytes on disk are all of `r`, if the sidecar says the download is complete. */
  predicate WholeOf(s: Saved, part: Option<Bytes>, r: Representation) {
    s.total == |r.bytes| && (part.Some? && |part.value| == s.total ==> part.value == r.bytes)
  }

  /** The bytes on disk are the beginning of `r`, which the saved validator names. */
  predicate PrefixOf(w: World, s: Saved, part: Option<Bytes>, r: Representation) {
    && w.Names(s.validator, r)
    && (s.total >= 0 ==> s.total == |r.bytes|)
    && (part.Some? ==> part.value <= r.bytes)
  }

  /** Whatever the sidecar lets a later run rely on is true of the partial file. */
  ghost predicate Truthful(w: World, s: Saved, part: Option<Bytes>) {
    && (s.complete ==> exists r :: w.serves(s.url, r) && WholeOf(s, part, r))
    && (!s.complete && s.validator != "" ==> exists r :: w.serves(s.url, r) && PrefixOf(w, s, part, r))
  }

  ghost predicate DiskOk(w: World, sidecar: Option<Saved>, part: Option<Bytes>) {
    sidecar.Some? ==> Truthful(w, sidecar.value, part)
  }

  /** `partialFile`: how many bytes may be reused, and under which saved state. */
  function PartialFile(url: string, sidecar: Option<Saved>, part: Option<Bytes>): (nat, Saved) {
    var blank := Saved(url, "", -1, false, false);
    if part.None? || sidecar.None? then (0, blank)
    else
      var saved, size := sidecar.value, |part.value|;
      if saved.url != url || (saved.total >= 0 && size > saved.total)
         || (saved.complete && size != saved.total) then (0, blank)
      else if saved.validator == "" && !saved.complete then (0, blank)
      else (size, saved)
  }

  /** A validator that names one version only: an entity tag, or a strong date. */
  ghost predicate StrongValidator(w: World, url: string, v: string) { StartsQuoted(v) || w.StrongDate(url, v) }

  /** Bytes offered for resuming are a prefix of a version the saved validator names, of every one if it is
      strong; bytes offered as complete are one whole version. */
  lemma {:induction false} ResumeIsPrefix(w: World, url: string, sidecar: Option<Saved>, part: Option<Bytes>,
      r: Representation)
    requires w.Valid() && DiskOk(w, sidecar, part) && w.serves(url, r)
    ensures var (size, saved) := PartialFile(url, sidecar, part);
            && (size > 0 ==> part.Some? && |part.value| == size)
            && (!saved.complete && saved.validator != "" ==>
                  part.Some? && exists v :: w.serves(url, v) && PrefixOf(w, saved, part, v))
            && (!saved.complete && StrongValidator(w, url, saved.validator) && w.Names(saved.validator, r) ==>
                  part.Some? && part.value <= r.bytes && (saved.total >= 0 ==> saved.total == |r.bytes|))
            && (saved.complete ==> exists v :: w.serves(url, v) && part == Some(v.bytes))
  {
    var (size, saved) := PartialFile(url, sidecar, part);
    if saved.complete {
      var v :| w.serves(url, v) && WholeOf(saved, part, v);
      assert part == Some(v.bytes);
    } else if StrongValidator(w, url, saved.validator) && w.Names(saved.validator, r) {
      var v :| w.serves(url, v) && PrefixOf(w, saved, part, v);
      assert v.bytes == r.bytes;
    }
  }
}
