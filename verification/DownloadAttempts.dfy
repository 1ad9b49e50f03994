/** The attempts of a download without disk faults, as functions of the server's answers, and when they succeed. */
module DownloadAttempts {
  import opened Wrappers
  import opened Download
  import Decimal

  predicate Received(start: nat, reply: Reply) {
    reply.Answered? && (reply.resp.status in {200, 206} || (start > 0 && reply.resp.status == 416))
  }

  /** The error `requestResume` reports for any other answer. */
  function RequestFailure(reply: Reply): Failure {
    if reply.Unreachable? then Temporary
    else
      var code := reply.resp.status;
      if code == 408 || code == 429 || code >= 500 then Temporary else BadStatus(code)
  }

  /** The checks on a response before its body is used: the total and the number of body bytes
      it announces, or None when the download must restart. */
  function CheckResponse(resp: Response, start: nat, state: Saved): Option<(int, int)> {
    if resp.status != 206 then Some((resp.contentLength, resp.contentLength))
    else
      match ParseContentRange(resp.contentRange)
      case None => None
      case Some((rangeStart, end, total)) =>
        var bytes := end - rangeStart + 1;
        if rangeStart != start then None
        else if start > 0 && ((state.total >= 0 && state.total != total)
                        || ValidatorChanged(resp, state.validator)) then None
        else if resp.contentLength >= 0 && resp.contentLength != bytes then None
        else Some((total, bytes))
  }

  /** The total in the Content-Range of a 416 answer. */
  function UnsatisfiedTotal(value: string): Option<int> {
    if !HasPrefix(value, "bytes */") then None
    else match Decimal.ParseInt(value[8..]) case Some(n) => if n < 0 then None else Some(n) case None => None
  }

  // ---------------------------------------------------------------- one attempt without disk faults

  /** What an attempt leaves: the partial file, its size and state as the process knows them, and the failure. */
  datatype Attempt = Attempt(part: Option<Bytes>, size: nat, state: Saved, failure: Option<Failure>)

  function Restarted(part: Option<Bytes>, size: nat, state: Saved): Attempt {
    Attempt(part, size, state.(complete := false, validator := ""), Some(Temporary))
  }

  /** The body of an answer that passed the checks is appended, or replaces the file. */
  function WithBody(w: World, resp: Response, start: nat, state: Saved, part: Option<Bytes>): Attempt
    requires CheckResponse(resp, start, state).Some?
  {
    var (total, responseBytes) := CheckResponse(resp, start, state).value;
    var s := Saved(state.url, if start > 0 then state.validator else w.ResponseValidator(resp),
                   total, false, state.noRanges);
    var now, size := (if start > 0 && part.Some? then part.value else []) + resp.body, start + |resp.body|;
    if !resp.clean || (responseBytes >= 0 && |resp.body| != responseBytes) || (total >= 0 && size != total) then
      Attempt(Some(now), size, s, Some(Temporary))
    else
      Attempt(Some(now), size, s.(complete := true, total := size), None)
  }

  function WithAnswer(w: World, resp: Response, start: nat, state: Saved, part: Option<Bytes>): Attempt {
    if resp.contentEncoding !in {"", "identity"} then Attempt(part, start, state, Some(Fatal))
    else if resp.status == 416 then
      if UnsatisfiedTotal(resp.contentRange) == Some(start) && state.total == start
         && ValidatorMatches(resp, state.validator) then
        Attempt(part, start, state.(complete := true), None)
      else Restarted(part, start, state)
    else if CheckResponse(resp, start, state).None? then Restarted(part, start, state)
    else if resp.status != 206 && start > 0 then
      WithBody(w, resp, 0, if ValidatorMatches(resp, state.validator) then state.(noRanges := true) else state, part)
    else WithBody(w, resp, start, state, part)
  }

  /** `fetchFile`, for the answers to its request and to the plain one it may fall back to. */
  function Fetched(w: World, start: nat, state: Saved, part: Option<Bytes>, reply: Reply, plain: Reply): Attempt {
    if Received(start, reply) then WithAnswer(w, reply.resp, start, state, part)
    else if start > 0 && RequestFailure(reply) == BadStatus(400) then
      var s := state.(noRanges := true);
      if Received(0, plain) then WithAnswer(w, plain.resp, 0, s, part)
      else Attempt(part, start, s, Some(RequestFailure(plain)))
    else Attempt(part, start, state, Some(RequestFailure(reply)))
  }

  // ---------------------------------------------------------------- one attempt after the other

  /** The offset of the next request, as `file` chooses it. */
  function Offset(a: Attempt): nat { if a.state.validator == "" || a.state.noRanges then 0 else a.size }

  function FirstRequest(a: Attempt): Request {
    Request(a.state.url, Offset(a), if Offset(a) > 0 then a.state.validator else "")
  }

  function PlainRequest(a: Attempt): Request { Request(a.state.url, 0, "") }

  predicate GoesOn(a: Attempt) { !a.state.complete && a.failure in {None, Some(Temporary)} }

  function Next(w: World, a: Attempt, replies: (Reply, Reply)): Attempt {
    Fetched(w, Offset(a), a.state, a.part, replies.0, replies.1)
  }

  /** What the next attempt starts from, and the number of requests sent before it. */
  datatype Standing = Standing(attempt: Attempt, sent: nat)

  type Server = (nat, Request) -> Reply

  /** A range was refused with status 400. */
  predicate FallsBack(start: nat, reply: Reply) {
    !Received(start, reply) && start > 0 && RequestFailure(reply) == BadStatus(400)
  }

  function Once(w: World, server: Server, at: Standing): Standing {
    var a := at.attempt;
    var reply := server(at.sent, FirstRequest(a));
    Standing(Next(w, a, (reply, server(at.sent + 1, PlainRequest(a)))),
             at.sent + if FallsBack(Offset(a), reply) then 2 else 1)
  }

  /** The loop of `file`: up to n attempts, while the failures are temporary. */
  function Attempts(w: World, server: Server, at: Standing, n: nat): Standing
    decreases n
  {
    if n == 0 || !GoesOn(at.attempt) then at else Attempts(w, server, Once(w, server, at), n - 1)
  }

  predicate Done(a: Attempt) { a.state.complete && a.failure.None? }

  lemma {:induction false} AttemptsAdd(w: World, server: Server, at: Standing, j: nat, k: nat)
    ensures Attempts(w, server, at, j + k) == Attempts(w, server, Attempts(w, server, at, j), k)
    decreases j
  {
    hide Once, GoesOn;
    if j > 0 && GoesOn(at.attempt) { AttemptsAdd(w, server, Once(w, server, at), j - 1, k); }
  }

  // ---------------------------------------------------------------- answers that finish a download

  predicate Plain(resp: Response) { resp.contentEncoding == "" || resp.contentEncoding == "identity" }

  /** The whole version, in a body that ends cleanly. */
  predicate WholeAnswer(reply: Reply, r: Representation) {
    && reply.Answered? && reply.resp.status == 200 && Plain(reply.resp) && reply.resp.clean
    && reply.resp.body == r.bytes && (reply.resp.contentLength == -1 || reply.resp.contentLength == |r.bytes|)
  }

  /** The bytes of the version from n on, with the validators of the version or none. */
  predicate RestAnswer(reply: Reply, n: nat, validator: string, r: Representation) {
    && reply.Answered? && reply.resp.status == 206 && Plain(reply.resp) && reply.resp.clean
    && n < |r.bytes| && ParseContentRange(reply.resp.contentRange) == Some((n, |r.bytes| - 1, |r.bytes|))
    && reply.resp.body == r.bytes[n..]
    && (reply.resp.contentLength == -1 || reply.resp.contentLength == |r.bytes| - n)
    && (if validator != "" && validator[0] == '"' then reply.resp.etag == "" || reply.resp.etag == validator
        else reply.resp.modified == "" || reply.resp.modified == validator)
  }

  /** Nothing is left beyond the n bytes of the version the validator names. */
  predicate NothingLeft(reply: Reply, n: nat, validator: string) {
    && reply.Answered? && reply.resp.status == 416 && Plain(reply.resp)
    && reply.resp.contentRange == "bytes */" + Decimal.Format(n) && validator != ""
    && (if validator[0] == '"' then reply.resp.etag == validator else reply.resp.modified == validator)
  }

  /** The file is the version, and the state says that it is complete. */
  predicate Finishes(a: Attempt, r: Representation) {
    Done(a) && a.part == Some(r.bytes) && a.size == |r.bytes| == a.state.total
  }

  lemma {:induction false} WholeFinishes(w: World, server: Server, at: Standing, r: Representation)
    requires WholeAnswer(server(at.sent, FirstRequest(at.attempt)), r)
    ensures Finishes(Once(w, server, at).attempt, r) && Once(w, server, at).sent == at.sent + 1
  {
    hide ParseContentRange;
    assert [] + r.bytes == r.bytes;
  }

  lemma {:induction false} RestFinishes(w: World, server: Server, at: Standing, r: Representation)
    requires var a := at.attempt;
             && Offset(a) > 0 && a.part.Some? && |a.part.value| == a.size && a.part.value <= r.bytes
             && (a.state.total < 0 || a.state.total == |r.bytes|)
             && RestAnswer(server(at.sent, FirstRequest(a)), a.size, a.state.validator, r)
    ensures Finishes(Once(w, server, at).attempt, r) && Once(w, server, at).sent == at.sent + 1
  {
    hide ParseContentRange, Fetched;
    var a := at.attempt;
    var reply := server(at.sent, FirstRequest(a));
    FetchedRest(w, a.state, a.part.value, reply, server(at.sent + 1, PlainRequest(a)), r);
  }

  lemma {:induction false} RestIs(reply: Reply, n: nat, validator: string, r: Representation)
    requires RestAnswer(reply, n, validator, r)
    ensures reply.Answered? && reply.resp.status == 206 && Plain(reply.resp) && reply.resp.clean
    ensures n < |r.bytes| && reply.resp.body == r.bytes[n..]
  {
  }

  lemma {:induction false} FetchedRest(w: World, state: Saved, part: Bytes, reply: Reply, plain: Reply,
      r: Representation)
    requires part <= r.bytes && |part| > 0 && (state.total < 0 || state.total == |r.bytes|)
    requires RestAnswer(reply, |part|, state.validator, r)
    ensures Finishes(Fetched(w, |part|, state, Some(part), reply, plain), r)
  {
    hide ParseContentRange, CheckResponse, RestAnswer;
    RestIs(reply, |part|, state.validator, r);
    RestPasses(reply.resp, state, |part|, r);
    assert part + r.bytes[|part|..] == r.bytes;
  }

  lemma {:induction false} RestPasses(resp: Response, state: Saved, n: nat, r: Representation)
    requires RestAnswer(Answered(resp), n, state.validator, r) && (state.total < 0 || state.total == |r.bytes|)
    ensures CheckResponse(resp, n, state) == Some((|r.bytes|, |r.bytes| - n))
  {
    hide ParseContentRange;
  }

  lemma {:induction false} NothingLeftFinishes(w: World, server: Server, at: Standing, r: Representation)
    requires var a := at.attempt;
             && Offset(a) > 0 && a.failure in {None, Some(Temporary)} && a.size == |r.bytes| <= Decimal.MAX_INT64
             && a.part == Some(r.bytes) && a.state.total == |r.bytes|
             && NothingLeft(server(at.sent, FirstRequest(a)), a.size, a.state.validator)
    ensures Finishes(Once(w, server, at).attempt, r) && Once(w, server, at).sent == at.sent + 1
  {
    var n := |r.bytes|;
    var text := "bytes */" + Decimal.Format(n);
    Decimal.ParseOfFormat(n);
    assert text[8..] == Decimal.Format(n);
    assert UnsatisfiedTotal(text) == Some(n);
  }

  /** An answer to a range that does not continue the file, or that refuses the range without being sure of the file:
      the next attempt starts from nothing. */
  predicate Refused(resp: Response, start: nat, state: Saved) {
    && Plain(resp) && start > 0
    && match resp.status
       case 206 =>
         (match ParseContentRange(resp.contentRange)
          case None => true
          case Some((first, last, total)) =>
            || first != start || (state.total >= 0 && state.total != total)
            || (if StartsQuoted(state.validator) then resp.etag !in {"", state.validator}
                else resp.modified !in {"", state.validator})
            || (resp.contentLength >= 0 && resp.contentLength != last - first + 1))
       case 416 =>
         || state.total != start || !("bytes */" <= resp.contentRange)
         || Decimal.ParseInt(resp.contentRange[8..]) != Some(start)
         || (if StartsQuoted(state.validator) then resp.etag != state.validator else resp.modified != state.validator)
       case _ => false
  }

  lemma {:induction false} RefusedRestarts(w: World, resp: Response, start: nat, state: Saved, part: Option<Bytes>)
    requires Refused(resp, start, state) && state.validator != "" && !state.complete
    ensures var a := WithAnswer(w, resp, start, state, part); GoesOn(a) && Offset(a) == 0 && a.part == part
  {
    hide ParseContentRange;
  }

  /** No answer, or a status that a later attempt may not meet. */
  predicate Transient(reply: Reply) {
    reply.Unreachable? || reply.resp.status == 408 || reply.resp.status == 429 || reply.resp.status >= 500
  }

  /** Such an attempt changes nothing. */
  lemma {:induction false} TransientStays(w: World, server: Server, at: Standing)
    requires GoesOn(at.attempt) && Transient(server(at.sent, FirstRequest(at.attempt)))
    ensures var to := Once(w, server, at);
            && GoesOn(to.attempt) && to.sent == at.sent + 1 && Offset(to.attempt) == Offset(at.attempt)
            && to.attempt.state == at.attempt.state && to.attempt.part == at.attempt.part
  {
  }

  /** The answer to the next request is the whole version, or the rest of the one the file begins, or the word that
      the file is all of it. */
  predicate Brings(server: Server, at: Standing, r: Representation) {
    var a := at.attempt; var reply := server(at.sent, FirstRequest(a));
    || WholeAnswer(reply, r)
    || (Offset(a) > 0 && a.failure in {None, Some(Temporary)} && a.size == |r.bytes| <= Decimal.MAX_INT64
        && a.part == Some(r.bytes) && a.state.total == |r.bytes| && NothingLeft(reply, a.size, a.state.validator))
    || (Offset(a) > 0 && a.part.Some? && |a.part.value| == a.size && a.part.value <= r.bytes
        && (a.state.total < 0 || a.state.total == |r.bytes|) && RestAnswer(reply, a.size, a.state.validator, r))
  }

  lemma {:induction false} BroughtFinishes(w: World, server: Server, at: Standing, r: Representation)
    requires Brings(server, at, r)
    ensures Finishes(Once(w, server, at).attempt, r) && Once(w, server, at).sent == at.sent + 1
  {
    hide WholeAnswer, RestAnswer, NothingLeft, Once, Finishes;
    var a := at.attempt;
    if WholeAnswer(server(at.sent, FirstRequest(a)), r) {
      WholeFinishes(w, server, at, r);
    } else if RestAnswer(server(at.sent, FirstRequest(a)), a.size, a.state.validator, r) {
      RestFinishes(w, server, at, r);
    } else {
      NothingLeftFinishes(w, server, at, r);
    }
  }

  /** Any other status ends the download, with nothing changed. */
  lemma {:induction false} OtherStatusEnds(w: World, server: Server, at: Standing)
    requires var reply := server(at.sent, FirstRequest(at.attempt));
             && reply.Answered? && !Transient(reply) && reply.resp.status !in {200, 206}
             && (Offset(at.attempt) > 0 ==> reply.resp.status !in {400, 416})
    ensures var to := Once(w, server, at); var status := server(at.sent, FirstRequest(at.attempt)).resp.status;
            && to.attempt.failure == Some(BadStatus(status)) && !GoesOn(to.attempt) && to.sent == at.sent + 1
            && to.attempt.part == at.attempt.part && to.attempt.state == at.attempt.state
  {
  }

  /** After a 400 to a range the whole file is asked for at once, and ranges are given up. */
  lemma {:induction false} BadRequestFallsBack(w: World, server: Server, at: Standing, r: Representation)
    requires var reply := server(at.sent, FirstRequest(at.attempt));
             Offset(at.attempt) > 0 && reply.Answered? && reply.resp.status == 400
    ensures var to := Once(w, server, at);
            && to.sent == at.sent + 2 && to.attempt.state.noRanges
            && (WholeAnswer(server(at.sent + 1, Request(at.attempt.state.url, 0, "")), r) ==> Finishes(to.attempt, r))
  {
    hide ParseContentRange, UnsatisfiedTotal;
    assert [] + r.bytes == r.bytes;
  }

  /** Where a range is ignored although the file has not changed, no later attempt asks for one. */
  lemma {:induction false} IgnoredRangeIsRemembered(w: World, resp: Response, start: nat, state: Saved,
      part: Option<Bytes>)
    requires resp.status == 200 && Plain(resp) && start > 0 && state.validator != ""
    requires if state.validator[0] == '"' then resp.etag == state.validator else resp.modified == state.validator
    ensures var a := WithAnswer(w, resp, start, state, part);
            a.state.noRanges && Offset(a) == 0 && a.part.Some? && a.part.value == resp.body
  {
    assert [] + resp.body == resp.body;
  }

  lemma {:induction false} FinishedStays(w: World, server: Server, at: Standing, n: nat, r: Representation)
    requires n > 0 && GoesOn(at.attempt) && Finishes(Once(w, server, at).attempt, r)
    ensures Attempts(w, server, at, n) == Once(w, server, at)
  {
    hide Once;
    var once := Once(w, server, at);
    assert !GoesOn(once.attempt);
    assert Attempts(w, server, once, n - 1) == once;
  }

  /** A finishing answer after any number of temporary failures finishes the download. */
  lemma {:induction false} FinishedAfter(w: World, server: Server, at: Standing, k: nat, n: nat, r: Representation)
    requires k < n
    requires var last := Attempts(w, server, at, k);
             GoesOn(last.attempt) && Finishes(Once(w, server, last).attempt, r)
    ensures Attempts(w, server, at, n) == Once(w, server, Attempts(w, server, at, k))
  {
    hide Attempts, Once, GoesOn, Finishes;
    AttemptsAdd(w, server, at, k, n - k);
    FinishedStays(w, server, Attempts(w, server, at, k), n - k, r);
  }

  /** After k temporary failures of any kind the version comes, or the rest of it. */
  predicate ComesAfter(w: World, server: Server, at: Standing, k: nat, r: Representation) {
    var last := Attempts(w, server, at, k); GoesOn(last.attempt) && Brings(server, last, r)
  }

  lemma {:induction false} BroughtAfter(w: World, server: Server, at: Standing, k: nat, n: nat, r: Representation)
    requires k < n && ComesAfter(w, server, at, k, r)
    ensures var end := Attempts(w, server, at, n);
            Finishes(end.attempt, r) && end.sent == Attempts(w, server, at, k).sent + 1
  {
    hide Attempts, Once, GoesOn, Finishes, Brings;
    BroughtFinishes(w, server, Attempts(w, server, at, k), r);
    FinishedAfter(w, server, at, k, n, r);
  }

  /** The next k answers to a request are transient failures. */
  ghost predicate Delays(server: Server, sent: nat, q: Request, k: nat) {
    forall i :: sent <= i < sent + k ==> Transient(server(i, q))
  }

  /** After k transient failures the version comes. */
  ghost predicate WholeComes(server: Server, sent: nat, q: Request, k: nat, r: Representation) {
    Delays(server, sent, q, k) && WholeAnswer(server(sent + k, q), r)
  }

  /** After k transient failures the rest of the version comes whose first bytes have been saved. */
  ghost predicate RestComes(server: Server, sent: nat, q: Request, k: nat, part: Bytes, saved: Saved,
      r: Representation)
  {
    && Delays(server, sent, q, k) && RestAnswer(server(sent + k, q), |part|, saved.validator, r)
    && part <= r.bytes && (saved.total < 0 || saved.total == |r.bytes|)
  }

  lemma {:induction false} DelaysStay(w: World, server: Server, at: Standing, k: nat)
    requires GoesOn(at.attempt) && Delays(server, at.sent, FirstRequest(at.attempt), k)
    ensures var to := Attempts(w, server, at, k);
            && GoesOn(to.attempt) && to.sent == at.sent + k && Offset(to.attempt) == Offset(at.attempt)
            && to.attempt.state == at.attempt.state && to.attempt.part == at.attempt.part
    decreases k
  {
    hide Once, Transient;
    if k > 0 {
      TransientStays(w, server, at);
      DelaysStay(w, server, Once(w, server, at), k - 1);
    }
  }
}
