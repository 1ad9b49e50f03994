/** A connection that keeps breaking: while every attempt brings a byte, the download is finished in the end. */
module DownloadProgress {
  import opened Wrappers
  import opened Download
  import opened DownloadAttempts

  /** An answer with the bytes of the version from n on, which may break off early, but not before the first byte. */
  predicate Piece(reply: Reply, n: nat, r: Representation) {
    && reply.Answered? && Plain(reply.resp) && n <= |r.bytes|
    && reply.resp.body <= r.bytes[n..]
    && (n < |r.bytes| ==> |reply.resp.body| > 0)
    && (reply.resp.clean <==> |reply.resp.body| == |r.bytes| - n)
    && (reply.resp.contentLength == -1 || reply.resp.contentLength == |r.bytes| - n)
    && if n == 0 then reply.resp.status == 200 && reply.resp.etag == r.etag
       else reply.resp.status == 206 && reply.resp.etag in {"", r.etag}
            && ParseContentRange(reply.resp.contentRange) == Some((n, |r.bytes| - 1, |r.bytes|))
  }

  /** The server has one version with a strong entity tag, and sends some of it every time. */
  ghost predicate Serving(server: Server, url: string, r: Representation) {
    && Quoted(r.etag)
    && (forall k: nat :: Piece(server(k, Request(url, 0, "")), 0, r))
    && (forall k: nat, n: nat :: 0 < n < |r.bytes| ==> Piece(server(k, Request(url, n, r.etag)), n, r))
  }

  /** The next attempt starts from nothing, or from some bytes of the version. */
  predicate Halfway(a: Attempt, url: string, r: Representation) {
    && GoesOn(a) && a.state.url == url && !a.state.noRanges
    && (Offset(a) > 0 ==>
          && a.state.validator == r.etag && a.part.Some? && |a.part.value| == a.size < |r.bytes|
          && a.part.value <= r.bytes && (a.state.total < 0 || a.state.total == |r.bytes|))
  }

  lemma {:induction false} PiecePasses(resp: Response, state: Saved, n: nat, r: Representation)
    requires Piece(Answered(resp), n, r) && Quoted(r.etag)
    requires n > 0 ==> state.validator == r.etag && (state.total < 0 || state.total == |r.bytes|)
    ensures var checked := CheckResponse(resp, n, state);
            && checked.Some? && checked.value.0 in {-1, |r.bytes|} && checked.value.1 in {-1, |r.bytes| - n}
  {
    hide ParseContentRange;
  }

  lemma {:induction false} Longer(part: Bytes, body: Bytes, whole: Bytes)
    requires part <= whole && body <= whole[|part|..]
    ensures part + body <= whole && (|part + body| == |whole| ==> part + body == whole)
  {
    assert whole == part + whole[|part|..];
  }

  /** A piece from n on finishes the download, or leaves more bytes than before. */
  lemma {:induction false} PieceGrows(w: World, resp: Response, n: nat, state: Saved, part: Option<Bytes>,
      r: Representation)
    requires Piece(Answered(resp), n, r) && Quoted(r.etag) && !state.complete && (n == 0 || !state.noRanges)
    requires n > 0 ==> state.validator == r.etag && (state.total < 0 || state.total == |r.bytes|)
    requires n > 0 ==> part.Some? && |part.value| == n && part.value <= r.bytes
    ensures var a := WithAnswer(w, resp, n, state, part);
            || Finishes(a, r)
            || (GoesOn(a) && a.state.url == state.url && a.state.validator == r.etag
                && a.state.noRanges == state.noRanges && a.part.Some? && |a.part.value| == a.size
                && n < a.size < |r.bytes| && a.part.value <= r.bytes
                && a.state.total in {-1, |r.bytes|})
  {
    hide ParseContentRange, CheckResponse;
    PiecePasses(resp, state, n, r);
    Longer(if n > 0 then part.value else [], resp.body, r.bytes);
  }

  lemma {:induction false} PieceArrives(w: World, server: Server, at: Standing, url: string, r: Representation)
    requires Serving(server, url, r) && Halfway(at.attempt, url, r)
    ensures var a := at.attempt; var reply := server(at.sent, FirstRequest(a));
            && Piece(reply, Offset(a), r) && reply.Answered? && Received(Offset(a), reply)
            && Once(w, server, at) == Standing(WithAnswer(w, reply.resp, Offset(a), a.state, a.part), at.sent + 1)
  {
    hide WithAnswer;
  }

  /** One more attempt finishes the download, or leaves more of it. */
  lemma {:induction false} OnceGrows(w: World, server: Server, at: Standing, url: string, r: Representation)
    requires Serving(server, url, r) && Halfway(at.attempt, url, r)
    ensures var to := Once(w, server, at);
            && to.sent == at.sent + 1
            && (Finishes(to.attempt, r) || (Halfway(to.attempt, url, r) && Offset(to.attempt) > Offset(at.attempt)))
  {
    hide WithAnswer, Piece, Received, Once;
    var a := at.attempt;
    PieceArrives(w, server, at, url, r);
    PieceGrows(w, server(at.sent, FirstRequest(a)).resp, Offset(a), a.state, a.part, r);
  }

  /** Wherever each connection breaks: with as many attempts as bytes are missing, and at least one, the download is
      finished with one request an attempt. */
  lemma {:induction false} BrokenConnectionsFinish(w: World, server: Server, at: Standing, url: string,
      r: Representation, n: nat)
    requires Serving(server, url, r) && Halfway(at.attempt, url, r)
    requires n >= 1 && Offset(at.attempt) + n >= |r.bytes|
    ensures var end := Attempts(w, server, at, n); Finishes(end.attempt, r) && at.sent < end.sent <= at.sent + n
    decreases n
  {
    hide Serving, Once;
    OnceGrows(w, server, at, url, r);
    var to := Once(w, server, at);
    if Finishes(to.attempt, r) {
      FinishedStays(w, server, at, n, r);
    } else {
      BrokenConnectionsFinish(w, server, to, url, r, n - 1);
    }
  }
}
