/** What a date is worth as a validator. The client keeps any Last-Modified date that parses and sends it as If-Range;
    a server that only compares dates may answer with a part of another version that has the same date. Whether that
    can do harm is decided by the versions alone. */
module DownloadDates {
  import opened Wrappers
  import opened Decimal
  import opened Download
  import opened DownloadAttempts
  import opened Downloader

  /** The loop of `file`: an attempt for each pair of answers, while the failures are temporary. */
  function Run(w: World, a: Attempt, replies: seq<(Reply, Reply)>): Attempt
    decreases |replies|
  {
    if replies == [] || !GoesOn(a) then a else Run(w, Next(w, a, replies[0]), replies[1..])
  }

  /** The answers come from a server that does not lie, but may compare dates without asking whether they are strong. */
  ghost predicate HonestRun(w: World, a: Attempt, replies: seq<(Reply, Reply)>)
    decreases |replies|
  {
    replies != [] && GoesOn(a) ==>
      && w.Honest(FirstRequest(a), replies[0].0) && w.Honest(PlainRequest(a), replies[0].1)
      && HonestRun(w, Next(w, a, replies[0]), replies[1..])
  }

  function Fresh(url: string): Attempt { Attempt(None, 0, Saved(url, "", -1, false, false), None) }

  /** The state identifies the version the file is, or is the beginning of. */
  ghost predicate Identifies(w: World, a: Attempt, r: Representation) {
    && w.serves(a.state.url, r) && (a.state.validator != "" ==> w.Names(a.state.validator, r))
    && a.part.Some? && a.part.value <= r.bytes && (a.state.total >= 0 ==> a.state.total == |r.bytes|)
    && (a.state.complete ==> a.part.value == r.bytes)
  }

  ghost predicate Identified(w: World, a: Attempt) {
    (a.state.validator != "" || a.state.complete) ==> exists r :: Identifies(w, a, r)
  }

  /** What the loop relies on. */
  ghost predicate Kept(w: World, a: Attempt) {
    && Identified(w, a)
    && (Offset(a) > 0 ==> a.part.Some? && |a.part.value| == a.size)
  }

  // ---------------------------------------------------------------- where dates splice

  ghost predicate DatesSplice(w: World, url: string) { forall d :: w.parsesAsDate(d) ==> w.DateSplices(url, d) }

  lemma {:induction false} HonestIsReliable(w: World, q: Request, reply: Reply)
    requires DatesSplice(w, q.url) && w.Honest(q, reply)
             && (q.ifRange != "" && !StartsQuoted(q.ifRange) ==> w.parsesAsDate(q.ifRange))
    ensures w.Reliable(q, reply)
  {
  }

  /** A body that passed the checks leaves a file its state identifies. */
  lemma {:induction false} BodyIsIdentified(w: World, q: Request, resp: Response, start: nat, state: Saved,
      part: Option<Bytes>)
    requires w.Valid() && w.Reliable(q, Answered(resp)) && resp.status in {200, 206}
    requires resp.contentEncoding in {"", "identity"} && state.url == q.url && !state.complete
    requires CheckResponse(resp, start, state).Some?
    requires start > 0 ==> resp.status == 206 && q.ifRange == state.validator != ""
    requires start > 0 ==> part.Some? && |part.value| == start && Truthful(w, state, part)
    ensures Kept(w, WithBody(w, resp, start, state, part))
  {
    var before := if start > 0 then part.value else [];
    var t := NewStateTruthful(w, q, resp, start, state, Some(before));
    BodyContinues(resp, start, before, t, |resp.body|);
    assert resp.body[..|resp.body|] == resp.body;
    var a := WithBody(w, resp, start, state, part);
    if a.state.complete {
      CompleteIsWhole(resp, start, state, a.state.(total := CheckResponse(resp, start, state).value.0), before, t);
    }
    assert Identifies(w, a, t);
  }

  lemma {:induction false} IdentifiedIsTruthful(w: World, a: Attempt)
    requires Identified(w, a) && !a.state.complete
    ensures Truthful(w, a.state, a.part)
  {
    if a.state.validator != "" {
      var r :| Identifies(w, a, r);
      assert PrefixOf(w, a.state, a.part, r);
    }
  }

  /** Only the claims matter, not the size in memory or the failure. */
  lemma {:induction false} SameClaims(w: World, a: Attempt, b: Attempt)
    requires Identified(w, a) && b.part == a.part && b.state.(noRanges := a.state.noRanges) == a.state
    ensures Identified(w, b)
  {
    if a.state.validator != "" || a.state.complete {
      var r :| Identifies(w, a, r);
      assert Identifies(w, b, r);
    }
  }

  lemma {:induction false} UnsatisfiedIsIdentified(w: World, a: Attempt)
    requires Identified(w, a) && !a.state.complete && a.state.validator != ""
    requires a.part.Some? && a.state.total == |a.part.value|
    ensures Identified(w, a.(state := a.state.(complete := true)))
  {
    var r :| Identifies(w, a, r);
    assert Identifies(w, a.(state := a.state.(complete := true)), r);
  }

  lemma {:induction false} AnswerIsIdentified(w: World, q: Request, resp: Response, start: nat, state: Saved,
      part: Option<Bytes>)
    requires w.Valid() && w.Reliable(q, Answered(resp)) && Received(start, Answered(resp)) && state.url == q.url
    requires start > 0 ==> q.ifRange == state.validator != "" && part.Some? && |part.value| == start
    requires Identified(w, Attempt(part, start, state, None)) && !state.complete
    ensures Kept(w, WithAnswer(w, resp, start, state, part))
  {
    hide WithBody, Identified, Truthful, Source;
    var a := Attempt(part, start, state, None);
    IdentifiedIsTruthful(w, a);
    SameClaims(w, a, Attempt(part, start, state, Some(Fatal)));
    if resp.contentEncoding in {"", "identity"} {
      if resp.status == 416 {
        UnsatisfiedOrRestarted(w, resp, a);
      } else if CheckResponse(resp, start, state).None? {
        RestartIsIdentified(w, part, start, state);
      } else if resp.status != 206 && start > 0 {
        var s := if ValidatorMatches(resp, state.validator) then state.(noRanges := true) else state;
        BodyIsIdentified(w, q, resp, 0, s, part);
      } else {
        BodyIsIdentified(w, q, resp, start, state, part);
      }
    }
  }

  lemma {:induction false} RestartIsIdentified(w: World, part: Option<Bytes>, size: nat, state: Saved)
    ensures Kept(w, Restarted(part, size, state))
  {
  }

  lemma {:induction false} UnsatisfiedOrRestarted(w: World, resp: Response, a: Attempt)
    requires Identified(w, a) && !a.state.complete && a.state.validator != "" && a.failure == None
    requires a.size > 0 && a.part.Some? && |a.part.value| == a.size && resp.status == 416
    ensures resp.contentEncoding in {"", "identity"} ==> Kept(w, WithAnswer(w, resp, a.size, a.state, a.part))
  {
    hide Identified;
    RestartIsIdentified(w, a.part, a.size, a.state);
    if a.state.total == a.size { UnsatisfiedIsIdentified(w, a); }
  }

  // ---------------------------------------------------------------- the loop

  lemma {:induction false} FetchIsIdentified(w: World, a: Attempt, reply: Reply, plain: Reply)
    requires w.Valid() && Kept(w, a) && GoesOn(a)
    requires w.Reliable(FirstRequest(a), reply) && w.Reliable(PlainRequest(a), plain)
    ensures Kept(w, Next(w, a, (reply, plain))) && Next(w, a, (reply, plain)).state.url == a.state.url
  {
    hide WithAnswer, Identified;
    var start := Offset(a);
    SameClaims(w, a, Attempt(a.part, start, a.state, None));
    if Received(start, reply) {
      AnswerIsIdentified(w, FirstRequest(a), reply.resp, start, a.state, a.part);
      AnswerKeepsUrl(w, reply.resp, start, a.state, a.part);
    } else if start > 0 && RequestFailure(reply) == BadStatus(400) {
      var s := a.state.(noRanges := true);
      SameClaims(w, a, Attempt(a.part, 0, s, None));
      SameClaims(w, a, Attempt(a.part, start, s, Some(RequestFailure(plain))));
      if Received(0, plain) {
        AnswerIsIdentified(w, PlainRequest(a), plain.resp, 0, s, a.part);
        AnswerKeepsUrl(w, plain.resp, 0, s, a.part);
      }
    } else {
      SameClaims(w, a, Attempt(a.part, start, a.state, Some(RequestFailure(reply))));
    }
  }

  lemma {:induction false} AnswerKeepsUrl(w: World, resp: Response, start: nat, state: Saved, part: Option<Bytes>)
    ensures WithAnswer(w, resp, start, state, part).state.url == state.url
  {
    hide CheckResponse;
  }

  lemma {:induction false} AskedByName(w: World, a: Attempt)
    requires Identified(w, a)
    ensures var v := FirstRequest(a).ifRange; v != "" && !StartsQuoted(v) ==> w.parsesAsDate(v)
  {
    if a.state.validator != "" {
      var r :| Identifies(w, a, r);
    }
  }

  /** Where dates splice no honest server makes the client mix versions. */
  lemma {:induction false} RunIsIdentified(w: World, a: Attempt, replies: seq<(Reply, Reply)>)
    requires w.Valid() && Kept(w, a) && DatesSplice(w, a.state.url) && HonestRun(w, a, replies)
    ensures Identified(w, Run(w, a, replies))
    decreases |replies|
  {
    if replies != [] && GoesOn(a) {
      AskedByName(w, a);
      HonestIsReliable(w, FirstRequest(a), replies[0].0);
      HonestIsReliable(w, PlainRequest(a), replies[0].1);
      FetchIsIdentified(w, a, replies[0].0, replies[0].1);
      RunIsIdentified(w, Next(w, a, replies[0]), replies[1..]);
    }
  }

  // ---------------------------------------------------------------- where they do not matter

  /** Every answer names its version by an entity tag. */
  ghost predicate Tagged(replies: seq<(Reply, Reply)>) {
    forall k :: 0 <= k < |replies| ==> HasTag(replies[k].0) && HasTag(replies[k].1)
  }

  predicate HasTag(reply: Reply) { reply.Answered? ==> Quoted(reply.resp.etag) }

  predicate NoDate(state: Saved) { state.validator == "" || StartsQuoted(state.validator) }

  lemma {:induction false} BodyHasNoDate(w: World, resp: Response, start: nat, state: Saved, part: Option<Bytes>)
    requires CheckResponse(resp, start, state).Some? && NoDate(state) && Quoted(resp.etag)
    ensures NoDate(WithBody(w, resp, start, state, part).state)
  {
    hide CheckResponse;
  }

  lemma {:induction false} AnswerHasNoDate(w: World, resp: Response, start: nat, state: Saved, part: Option<Bytes>)
    requires NoDate(state) && Quoted(resp.etag)
    ensures NoDate(WithAnswer(w, resp, start, state, part).state)
  {
    hide WithBody, Quoted;
    if CheckResponse(resp, start, state).Some? {
      BodyHasNoDate(w, resp, start, state, part);
      if resp.status != 206 {
        BodyHasNoDate(w, resp, 0, state, part);
        BodyHasNoDate(w, resp, 0, state.(noRanges := true), part);
      }
    }
  }

  lemma {:induction false} NextHasNoDate(w: World, a: Attempt, replies: (Reply, Reply))
    requires NoDate(a.state) && HasTag(replies.0) && HasTag(replies.1)
    ensures NoDate(Next(w, a, replies).state)
  {
    hide WithAnswer, Quoted;
    if replies.0.Answered? { AnswerHasNoDate(w, replies.0.resp, Offset(a), a.state, a.part); }
    if replies.1.Answered? { AnswerHasNoDate(w, replies.1.resp, 0, a.state.(noRanges := true), a.part); }
  }

  /** With entity tags in all answers no date is ever kept, and versions may share dates as they like. */
  lemma {:induction false} TaggedRunIsIdentified(w: World, a: Attempt, replies: seq<(Reply, Reply)>)
    requires w.Valid() && Kept(w, a) && NoDate(a.state) && HonestRun(w, a, replies) && Tagged(replies)
    ensures Identified(w, Run(w, a, replies))
    decreases |replies|
  {
    hide Kept, Identified, Next, HasTag;
    if replies != [] && GoesOn(a) {
      assert HasTag(replies[0].0) && HasTag(replies[0].1);
      assert w.Reliable(FirstRequest(a), replies[0].0) && w.Reliable(PlainRequest(a), replies[0].1);
      FetchIsIdentified(w, a, replies[0].0, replies[0].1);
      NextHasNoDate(w, a, replies[0]);
      TaggedRunIsIdentified(w, Next(w, a, replies[0]), replies[1..]);
    } else {
      KeptIsIdentified(w, a);
    }
  }

  lemma {:induction false} KeptIsIdentified(w: World, a: Attempt)
    requires Kept(w, a)
    ensures Identified(w, a)
  {
  }

  // ---------------------------------------------------------------- where they do not

  /** The beginning of one version, cut off by the network, and then the rest of another one with the same date. */
  function TwoAnswers(d: string, r1: Representation, r2: Representation, n: nat, length: int): seq<(Reply, Reply)>
    requires 0 < n <= |r1.bytes| && n < |r2.bytes|
  {
    var first := Response(200, "", d, "", "", length, r1.bytes[..n], false);
    var rest := Response(206, "", d, "", FormatContentRange(n, |r2.bytes| - 1, |r2.bytes|), -1, r2.bytes[n..], true);
    [(Answered(first), Unreachable), (Answered(rest), Unreachable)]
  }

  lemma {:induction false} FirstAnswer(w: World, url: string, d: string, r1: Representation, r2: Representation,
      n: nat, length: int)
    requires 0 < n <= |r1.bytes| && n < |r2.bytes| && w.Valid() && w.parsesAsDate(d) && length in {-1, |r1.bytes|}
    ensures Next(w, Fresh(url), TwoAnswers(d, r1, r2, n, length)[0])
         == Attempt(Some(r1.bytes[..n]), n, Saved(url, d, length, false, false), Some(Temporary))
  {
    assert [] + r1.bytes[..n] == r1.bytes[..n];
  }

  lemma {:induction false} SecondAnswer(w: World, url: string, d: string, r1: Representation, r2: Representation,
      n: nat, length: int)
    requires 0 < n <= |r1.bytes| && n < |r2.bytes| <= MAX_INT64 && w.Valid() && w.parsesAsDate(d)
    requires length == -1 || length == |r2.bytes|
    ensures Next(w, Attempt(Some(r1.bytes[..n]), n, Saved(url, d, length, false, false), Some(Temporary)),
                 TwoAnswers(d, r1, r2, n, length)[1])
         == Attempt(Some(r1.bytes[..n] + r2.bytes[n..]), |r2.bytes|, Saved(url, d, |r2.bytes|, true, false), None)
  {
    hide ParseContentRange, FormatContentRange;
    ContentRangeRoundTrip(n, |r2.bytes| - 1, |r2.bytes|);
  }

  lemma {:induction false} TwoAreHonest(w: World, url: string, d: string, r1: Representation, r2: Representation,
      n: nat, length: int)
    requires 0 < n <= |r1.bytes| && n < |r2.bytes| <= MAX_INT64 && w.Valid() && w.parsesAsDate(d)
    requires length in {-1, |r1.bytes|} && (length == -1 || length == |r2.bytes|)
    requires w.serves(url, r1) && w.serves(url, r2) && r1.modified == d == r2.modified
    ensures HonestRun(w, Fresh(url), TwoAnswers(d, r1, r2, n, length))
  {
    hide ParseContentRange, FormatContentRange;
    var replies := TwoAnswers(d, r1, r2, n, length);
    FirstAnswer(w, url, d, r1, r2, n, length);
    SecondAnswer(w, url, d, r1, r2, n, length);
    ContentRangeRoundTrip(n, |r2.bytes| - 1, |r2.bytes|);
    assert w.HonestFull(replies[0].0.resp, r1);
    var a := Next(w, Fresh(url), replies[0]);
    assert w.HonestPartial(FirstRequest(a), replies[1].0.resp, r2);
    assert HonestRun(w, a, replies[1..]);
  }

  /** The client puts the two together and calls the result complete. */
  lemma {:induction false} TwoAreMixed(w: World, url: string, d: string, r1: Representation, r2: Representation,
      n: nat, length: int)
    requires 0 < n <= |r1.bytes| && n < |r2.bytes| <= MAX_INT64 && w.Valid() && w.parsesAsDate(d)
    requires length in {-1, |r1.bytes|} && (length == -1 || length == |r2.bytes|)
    ensures Run(w, Fresh(url), TwoAnswers(d, r1, r2, n, length))
         == Attempt(Some(r1.bytes[..n] + r2.bytes[n..]), |r2.bytes|, Saved(url, d, |r2.bytes|, true, false), None)
  {
    hide Next;
    var replies := TwoAnswers(d, r1, r2, n, length);
    FirstAnswer(w, url, d, r1, r2, n, length);
    SecondAnswer(w, url, d, r1, r2, n, length);
    var first, second := Next(w, Fresh(url), replies[0]), Next(w, Next(w, Fresh(url), replies[0]), replies[1]);
    assert Run(w, second, []) == second;
    assert replies[1..][0] == replies[1] && replies[1..][1..] == [];
    assert Run(w, first, replies[1..]) == second;
  }

  /** Against servers that compare dates without asking whether they are strong, the state of a download identifies
      the version its bytes are of, in every run, if and only if the versions of the file splice by date: the beginning
      of one and the rest of another with the same date make a third one with that date. */
  lemma {:induction false} DatesDecide(w: World, url: string)
    requires w.Valid()
    ensures (forall replies :: HonestRun(w, Fresh(url), replies) ==> Identified(w, Run(w, Fresh(url), replies)))
       <==> DatesSplice(w, url)
  {
    if DatesSplice(w, url) {
      forall replies | HonestRun(w, Fresh(url), replies) ensures Identified(w, Run(w, Fresh(url), replies)) {
        RunIsIdentified(w, Fresh(url), replies);
      }
    } else {
      var d :| w.parsesAsDate(d) && !w.DateSplices(url, d);
      NotIdentified(w, url, d);
    }
  }

  lemma {:induction false} NotIdentified(w: World, url: string, d: string)
    requires w.Valid() && w.parsesAsDate(d) && !w.DateSplices(url, d)
    ensures exists replies :: HonestRun(w, Fresh(url), replies) && !Identified(w, Run(w, Fresh(url), replies))
  {
    var r1, r2, n: nat :| w.serves(url, r1) && w.serves(url, r2) && r1.modified == d == r2.modified
      && 0 < n <= |r1.bytes| && n < |r2.bytes| <= MAX_INT64 && !w.Dated(url, d, r1.bytes[..n] + r2.bytes[n..]);
    var replies := TwoAnswers(d, r1, r2, n, -1);
    TwoAreHonest(w, url, d, r1, r2, n, -1);
    TwoAreMixed(w, url, d, r1, r2, n, -1);
    NoVersion(w, Run(w, Fresh(url), replies), d);
  }

  lemma {:induction false} NoVersion(w: World, a: Attempt, d: string)
    requires w.Valid() && w.parsesAsDate(d) && a.state.validator == d && a.state.complete && a.part.Some?
    requires !w.Dated(a.state.url, d, a.part.value)
    ensures !Identified(w, a)
  {
  }

  // ---------------------------------------------------------------- an instance

  function OnlyDate(d: string): string -> bool { s => s == d }

  function BothOf(r1: Representation, r2: Representation): (string, Representation) -> bool {
    (u, r) => r == r1 || r == r2
  }

  /** Two versions of two bytes with one date and no entity tag: half of each is kept as a complete download, which
      is no version at all. */
  lemma {:induction false} VersionsAreMixed(url: string, d: string) returns (w: World, replies: seq<(Reply, Reply)>)
    requires d != "" && d[0] != '"'
    ensures w.Valid() && HonestRun(w, Fresh(url), replies)
    ensures var a := Run(w, Fresh(url), replies);
            && a.state.complete && a.failure == None && a.part == Some([1, 2])
            && forall r :: w.serves(url, r) ==> r.bytes != [1, 2]
  {
    var r1, r2 := Representation([1, 1], "", d), Representation([2, 2], "", d);
    w := World(BothOf(r1, r2), OnlyDate(d));
    replies := TwoAnswers(d, r1, r2, 1, 2);
    TwoAreHonest(w, url, d, r1, r2, 1, 2);
    TwoAreMixed(w, url, d, r1, r2, 1, 2);
    assert r1.bytes[..1] + r2.bytes[1..] == [1, 2];
  }
}
