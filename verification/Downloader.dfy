/** The downloading process itself. Every disk operation takes its outcome from `script`: it
    works, fails, or the process dies in the middle of it. Since every method keeps
    `DiskOk` for every script, it holds at every point where a run can be cut off. */
module Downloader {
  import opened Wrappers
  import opened Download
  import opened DownloadAttempts
  import Decimal

  datatype Fault = Works | Fails(progress: nat) | Dies(progress: nat)

  /** What publishing does with the downloaded bytes: `processFile`. */
  datatype Processed = Output(bytes: Bytes) | Invalid | Refused

  // ---------------------------------------------------------------- claims and how they are kept

  /** What the state in memory may rely on when the next request goes out. */
  ghost predicate MemoryOk(w: World, url: string, s: Saved, part: Option<Bytes>, size: nat) {
    && s.url == url && !s.complete
    && (s.validator != "" && !s.noRanges ==> part.Some? && |part.value| == size && Truthful(w, s, part))
  }

  lemma {:induction false} TruncateKeeps(w: World, sidecar: Option<Saved>, part: Option<Bytes>)
    requires DiskOk(w, sidecar, part)
    ensures DiskOk(w, sidecar, Some([]))
  {
    if sidecar.Some? {
      var s := sidecar.value;
      if s.complete {
        var r :| w.serves(s.url, r) && WholeOf(s, part, r);
        assert WholeOf(s, Some([]), r);
      } else if s.validator != "" {
        var r :| w.serves(s.url, r) && PrefixOf(w, s, part, r);
        assert PrefixOf(w, s, Some([]), r);
      }
    }
  }

  lemma {:induction false} ClearedIsTruthful(w: World, s: Saved, part: Option<Bytes>)
    requires !s.complete && s.validator == ""
    ensures Truthful(w, s, part)
  {
  }

  /** The version a response belongs to. */
  ghost predicate Source(w: World, q: Request, resp: Response, r: Representation) {
    && w.serves(q.url, r) && w.HeadersOf(resp, r)
    && (resp.status != 206 ==> w.HonestFull(resp, r))
    && (resp.status == 206 ==> w.HonestPartial(q, resp, r))
  }

  lemma {:induction false} SourceOf(w: World, q: Request, reply: Reply) returns (r: Representation)
    requires w.Honest(q, reply) && reply.Answered? && reply.resp.status in {200, 206}
    requires reply.resp.contentEncoding in {"", "identity"}
    ensures Source(w, q, reply.resp, r)
  {
    if reply.resp.status == 200 {
      r :| w.serves(q.url, r) && w.HonestFull(reply.resp, r);
    } else {
      r :| w.serves(q.url, r) && w.HonestPartial(q, reply.resp, r);
    }
  }

  /** A validator taken from a response names the version it belongs to. */
  lemma {:induction false} ResponseValidatorNames(w: World, resp: Response, r: Representation)
    requires w.Valid() && w.HeadersOf(resp, r) && w.ResponseValidator(resp) != ""
    ensures w.Names(w.ResponseValidator(resp), r)
  {
  }

  /** An answer that gets past the checks of a resume belongs to a version the saved validator names, and if that
      is strong to one with the very bytes the partial file begins with. */
  lemma {:induction false} ResumeSameVersion(w: World, q: Request, resp: Response, state: Saved, r: Representation,
      r0: Representation)
    requires w.Valid() && Source(w, q, resp, r) && resp.status == 206
    requires q.ifRange == state.validator != "" && !ValidatorChanged(resp, state.validator)
    requires w.serves(q.url, r0) && w.Names(state.validator, r0)
    ensures w.Names(state.validator, r)
    ensures StrongValidator(w, q.url, state.validator) ==> r.bytes == r0.bytes
  {
  }

  /** The body of a response is, or begins, what a version holds from an offset on. */
  predicate Delivers(resp: Response, start: nat, r: Representation) {
    if resp.status == 206 then
      match ParseContentRange(resp.contentRange)
      case None => false
      case Some((rangeStart, end, total)) =>
        rangeStart == start && total == |r.bytes| && resp.body <= r.bytes[rangeStart..end + 1]
    else
      && resp.body <= r.bytes
      && (resp.contentLength == -1 || resp.contentLength == |r.bytes|)
      && (resp.contentLength == -1 && resp.clean ==> resp.body == r.bytes)
  }

  lemma {:induction false} CheckedIsUnchanged(resp: Response, start: nat, state: Saved)
    requires CheckResponse(resp, start, state).Some? && resp.status == 206 && start > 0
    ensures !ValidatorChanged(resp, state.validator)
  {
  }

  lemma {:induction false} SourceDelivers(w: World, q: Request, resp: Response, start: nat, state: Saved,
      r: Representation)
    requires Source(w, q, resp, r) && CheckResponse(resp, start, state).Some?
    ensures Delivers(resp, start, r)
  {
  }

  /** A range that was granted ends in the version, and begins before its end. */
  lemma {:induction false} DeliversRest(resp: Response, start: nat, r: Representation)
    requires Delivers(resp, start, r) && resp.status == 206
    ensures start < |r.bytes| <= Decimal.MAX_INT64
  {
  }

  lemma {:induction false} SpliceSlice(part: Bytes, whole: Bytes, stop: nat)
    requires |part| <= stop <= |whole|
    ensures (part + whole[|part|..])[|part|..stop] == whole[|part|..stop]
    ensures part <= part + whole[|part|..] && |part + whole[|part|..]| == |whole|
  {
  }

  lemma {:induction false} SpliceDelivers(resp: Response, start: nat, part: Bytes, r: Representation, t: Representation)
    requires Delivers(resp, start, r) && resp.status == 206 && |part| == start
    requires start <= |r.bytes| && t.bytes == part + r.bytes[start..]
    ensures Delivers(resp, start, t)
  {
    hide ParseContentRange;
    var (rangeStart, end, total) := ParseContentRange(resp.contentRange).value;
    SpliceSlice(part, r.bytes, end + 1);
  }

  lemma {:induction false} SplicedVersion(w: World, url: string, d: string, r0: Representation, r: Representation,
      n: nat)
    returns (t: Representation)
    requires w.DateSplices(url, d) && w.serves(url, r0) && w.serves(url, r) && r0.modified == d == r.modified
    requires 0 < n <= |r0.bytes| && n < |r.bytes| <= Decimal.MAX_INT64
    ensures w.serves(url, t) && t.modified == d && t.bytes == r0.bytes[..n] + r.bytes[n..]
  {
    assert w.Dated(url, d, r0.bytes[..n] + r.bytes[n..]);
    t :| w.serves(url, t) && t.modified == d && t.bytes == r0.bytes[..n] + r.bytes[n..];
  }

  /** The version the partial file will be when the body of an accepted 206 answer has been appended. With a strong
      validator it is the one that was sent. */
  lemma {:induction false} ResumeContinues(w: World, q: Request, resp: Response, start: nat, state: Saved, part: Bytes,
      r: Representation, r0: Representation)
    returns (t: Representation)
    requires w.Valid() && Source(w, q, resp, r) && resp.status == 206
    requires resp.contentEncoding in {"", "identity"} && w.Reliable(q, Answered(resp))
    requires CheckResponse(resp, start, state).Some? && |part| == start > 0 && part <= r0.bytes
    requires q.ifRange == state.validator != "" && w.serves(q.url, r0) && w.Names(state.validator, r0)
    ensures w.serves(q.url, t) && w.Names(state.validator, t) && Delivers(resp, start, t) && part <= t.bytes
    ensures StrongValidator(w, q.url, state.validator) ==> t.bytes == r.bytes
  {
    hide CheckResponse, Delivers, ParseContentRange;
    SourceDelivers(w, q, resp, start, state, r);
    CheckedIsUnchanged(resp, start, state);
    ResumeSameVersion(w, q, resp, state, r, r0);
    if StrongValidator(w, q.url, state.validator) {
      t := r;
    } else {
      DeliversRest(resp, start, r);
      SpliceSlice(part, r.bytes, start);
      t := SplicedVersion(w, q.url, q.ifRange, r0, r, start);
      SpliceDelivers(resp, start, part, r, t);
    }
  }

  /** Before the body: the version the file is going to be, of which the state just saved is true. */
  lemma {:induction false} NewStateTruthful(w: World, q: Request, resp: Response, start: nat, state: Saved,
      part: Option<Bytes>)
    returns (t: Representation)
    requires w.Valid() && w.Reliable(q, Answered(resp)) && resp.status in {200, 206}
    requires resp.contentEncoding in {"", "identity"} && state.url == q.url && !state.complete
    requires CheckResponse(resp, start, state).Some?
    requires start > 0 ==> resp.status == 206 && q.ifRange == state.validator != ""
    requires start > 0 ==> part.Some? && |part.value| == start && Truthful(w, state, part)
    requires start == 0 ==> part == Some([])
    ensures w.serves(q.url, t) && Delivers(resp, start, t)
    ensures var total := CheckResponse(resp, start, state).value.0;
            var v := if start > 0 then state.validator else w.ResponseValidator(resp);
            var s := Saved(q.url, v, total, false, state.noRanges);
            && Truthful(w, s, part) && (total >= 0 ==> total == |t.bytes|) && part.Some? && part.value <= t.bytes
            && (v != "" ==> w.Names(v, t))
  {
    var r := SourceOf(w, q, Answered(resp));
    var total := CheckResponse(resp, start, state).value.0;
    var v := if start > 0 then state.validator else w.ResponseValidator(resp);
    if start > 0 {
      var r0 :| w.serves(q.url, r0) && PrefixOf(w, state, part, r0);
      t := ResumeContinues(w, q, resp, start, state, part.value, r, r0);
    } else {
      t := r;
      if v != "" { ResponseValidatorNames(w, resp, r); }
    }
    PrefixIsTruthful(w, Saved(q.url, v, total, false, state.noRanges), part.value, t);
  }

  lemma {:induction false} SliceExtends(whole: Bytes, part: Bytes, stop: nat, body: Bytes, n: nat)
    requires part <= whole && |part| <= stop <= |whole| && body <= whole[|part|..stop] && n <= |body|
    ensures part + body[..n] <= whole
  {
    assert part + body[..n] == whole[..|part| + n];
  }

  /** The body continues the bytes already on disk. */
  lemma {:induction false} BodyContinues(resp: Response, start: nat, part: Bytes, r: Representation, n: nat)
    requires Delivers(resp, start, r) && (start > 0 ==> resp.status == 206)
    requires part <= r.bytes && |part| == start && n <= |resp.body|
    ensures part + resp.body[..n] <= r.bytes
  {
    if resp.status == 206 {
      var (rangeStart, end, total) := ParseContentRange(resp.contentRange).value;
      SliceExtends(r.bytes, part, end + 1, resp.body, n);
    } else {
      assert resp.body <= r.bytes[0..|r.bytes|];
      SliceExtends(r.bytes, part, |r.bytes|, resp.body, n);
    }
  }

  /** While the body arrives: whatever part of it is on disk, the saved state stays true. */
  lemma {:induction false} PrefixIsTruthful(w: World, s: Saved, part: Bytes, r: Representation)
    requires w.serves(s.url, r) && !s.complete && (s.validator != "" ==> w.Names(s.validator, r))
    requires (s.total >= 0 ==> s.total == |r.bytes|) && part <= r.bytes
    ensures Truthful(w, s, Some(part))
  {
    assert s.validator != "" ==> PrefixOf(w, s, Some(part), r);
  }

  lemma {:induction false} BodyIsTruthful(w: World, resp: Response, start: nat, s: Saved, part: Bytes,
      r: Representation)
    requires Delivers(resp, start, r) && (start > 0 ==> resp.status == 206)
    requires part <= r.bytes && |part| == start
    requires w.serves(s.url, r) && !s.complete && (s.validator != "" ==> w.Names(s.validator, r))
    requires s.total >= 0 ==> s.total == |r.bytes|
    ensures forall n: nat :: n <= |resp.body| ==>
      part + resp.body[..n] <= r.bytes && Truthful(w, s, Some(part + resp.body[..n]))
  {
    hide Delivers, Truthful;
    forall n: nat | n <= |resp.body|
      ensures part + resp.body[..n] <= r.bytes && Truthful(w, s, Some(part + resp.body[..n]))
    {
      BodyContinues(resp, start, part, r, n);
      PrefixIsTruthful(w, s, part + resp.body[..n], r);
    }
  }

  lemma {:induction false} WholeBody(part: Bytes, body: Bytes, whole: Bytes)
    requires forall n: nat :: n <= |body| ==> part + body[..n] <= whole
    ensures body[..|body|] == body && part + body <= whole
  {
    assert part + body[..|body|] <= whole;
  }

  lemma {:induction false} TruthfulOnDisk(w: World, s: Saved, body: Bytes, part: Bytes)
    requires forall n: nat :: n <= |body| ==> Truthful(w, s, Some(part + body[..n]))
    ensures forall n: nat :: n <= |body| ==> DiskOk(w, Some(s), Some(part + body[..n]))
  {
    hide Truthful;
  }

  lemma {:induction false} TruthfulInMemory(w: World, s: Saved, part: Option<Bytes>, size: nat)
    requires !s.complete && part.Some? && |part.value| == size && Truthful(w, s, part)
    ensures MemoryOk(w, s.url, s, part, size)
  {
  }

  /** After the body: a download the client calls complete is one whole version. */
  lemma {:induction false} CompleteIsWhole(resp: Response, start: nat, state: Saved, s: Saved, part: Bytes,
      r: Representation)
    requires Delivers(resp, start, r)
    requires CheckResponse(resp, start, state).Some? && s.total == CheckResponse(resp, start, state).value.0
    requires start > 0 ==> resp.status == 206
    requires part <= r.bytes && |part| == start && resp.clean
    requires part + resp.body <= r.bytes
    requires s.total >= 0 ==> |part + resp.body| == s.total
    requires s.total >= 0 ==> s.total == |r.bytes|
    ensures part + resp.body == r.bytes
  {
    if s.total < 0 {
      assert resp.contentLength == -1;
    }
  }

  /** A 416 whose total, saved total and offset all agree means the file already ends there. */
  lemma {:induction false} UnsatisfiedIsWhole(w: World, state: Saved, part: Bytes)
    requires Truthful(w, state, Some(part)) && !state.complete && state.validator != ""
    requires state.total == |part|
    ensures exists r :: w.serves(state.url, r) && r.bytes == part
    ensures Truthful(w, state.(complete := true), Some(part))
  {
    var r :| w.serves(state.url, r) && PrefixOf(w, state, Some(part), r);
    assert WholeOf(state.(complete := true), Some(part), r);
  }

  lemma {:induction false} WholeIsTruthful(w: World, s: Saved, r: Representation)
    requires w.serves(s.url, r) && s.complete && s.total == |r.bytes|
    ensures Truthful(w, s, Some(r.bytes))
  {
    assert WholeOf(s, Some(r.bytes), r);
  }

  // ---------------------------------------------------------------- the process

  /** One partial file with its sidecar and destination, across any number of processes. */
  class Downloader {
    const world: World
    const server: (nat, Request) -> Reply     // the answer to the n-th request ever sent
    const process: Bytes -> Processed
    var sent: nat
    var script: seq<Fault>
    var part: Option<Bytes>
    var sidecar: Option<Saved>
    var published: Option<Bytes>

    ghost predicate Valid()
      reads this
    {
      && world.Valid()
      && (forall n, q :: world.Reliable(q, server(n, q)))
      && DiskOk(world, sidecar, part)
      && PublishedOk(published)
    }

    /** Whatever has been published comes from one whole version. */
    ghost predicate PublishedOk(p: Option<Bytes>) {
      p.Some? ==> exists url, r :: world.serves(url, r) && process(r.bytes) == Output(p.value)
    }

    constructor (world: World, server: (nat, Request) -> Reply, process: Bytes -> Processed)
      requires world.Valid() && forall n, q :: world.Reliable(q, server(n, q))
      ensures Valid() && part == None && sidecar == None && published == None && sent == 0
    {
      this.world, this.server, this.process := world, server, process;
      sent, script, part, sidecar, published := 0, [], None, None, None;
    }

    /** The outcome of the next disk operation. */
    method NextFault() returns (f: Fault)
      modifies this`script
      ensures old(script) == [] ==> f.Works? && script == []
    {
      if script == [] { return Works; }
      f := script[0];
      script := script[1..];
    }

    method SaveState(s: Saved) returns (failure: Option<Failure>)
      requires Valid() && Truthful(world, s, part)
      modifies this`script, this`sidecar
      ensures Valid() && failure in {None, Some(Fatal), Some(Died)}
      ensures sidecar == Some(s) || sidecar == old(sidecar)
      ensures failure == None ==> sidecar == Some(s)
      ensures failure == Some(Fatal) ==> sidecar == old(sidecar)
      ensures old(script) == [] ==> failure == None && script == []
    {
      var f := NextFault();
      if f.Works? || (f.Dies? && f.progress > 0) {
        sidecar := Some(s);
      }
      failure := match f case Works => None case Fails(_) => Some(Fatal) case Dies(_) => Some(Died);
    }

    /** Open the partial file: truncated for a fresh body, or as it is for appending. */
    method Open(start: nat) returns (failure: Option<Failure>)
      requires Valid() && (start > 0 ==> part.Some?)
      modifies this`script, this`part
      ensures Valid() && failure in {None, Some(Fatal), Some(Died)}
      ensures start > 0 ==> part == old(part)
      ensures start == 0 ==> part == Some([]) || part == old(part)
      ensures failure == None && start == 0 ==> part == Some([])
      ensures old(script) == [] ==> failure == None && script == []
    {
      var f := NextFault();
      if start == 0 && (f.Works? || (f.Dies? && f.progress > 0)) {
        TruncateKeeps(world, sidecar, part);
        part := Some([]);
      }
      failure := match f case Works => None case Fails(_) => Some(Fatal) case Dies(_) => Some(Died);
    }

    /** Copy the body to the end of the file; any part of it may have been written when this stops. */
    method CopyBody(resp: Response) returns (failure: Option<Failure>, written: nat)
      requires Valid() && part.Some?
      requires forall n: nat :: n <= |resp.body| ==> DiskOk(world, sidecar, Some(part.value + resp.body[..n]))
      modifies this`script, this`part
      ensures Valid() && failure in {None, Some(Temporary), Some(Fatal), Some(Died)}
      ensures written <= |resp.body| && part == Some(old(part).value + resp.body[..written])
      ensures failure == None ==> resp.clean
      ensures failure in {None, Some(Temporary)} ==> written == |resp.body|
      ensures old(script) == [] ==> script == [] && failure == if resp.clean then None else Some(Temporary)
    {
      var f := NextFault();
      written := if f.Works? then |resp.body| else if f.progress <= |resp.body| then f.progress else |resp.body|;
      part := Some(part.value + resp.body[..written]);
      failure := match f
                 case Works => (if resp.clean then None else Some(Temporary))
                 case Fails(_) => Some(Fatal)
                 case Dies(_) => Some(Died);
    }

    /** Sync, close and other operations that do not change the file. */
    method Barrier() returns (failure: Option<Failure>)
      modifies this`script
      ensures failure in {None, Some(Fatal), Some(Died)}
      ensures old(script) == [] ==> failure == None && script == []
    {
      var f := NextFault();
      failure := match f case Works => None case Fails(_) => Some(Fatal) case Dies(_) => Some(Died);
    }

    method Send(q: Request) returns (reply: Reply)
      requires Valid()
      modifies this`sent
      ensures Valid() && world.Reliable(q, reply) && reply == server(old(sent), q) && sent == old(sent) + 1
    {
      reply := server(sent, q);
      sent := sent + 1;
    }

    function AnswerOf(start: nat, reply: Reply): Result<Response, Failure> {
      if Received(start, reply) then Ok(reply.resp) else Err(RequestFailure(reply))
    }

    /** `requestResume`: If-Range goes with every range request. */
    method RequestResume(url: string, start: nat, validator: string)
      returns (answer: Result<Response, Failure>, ghost q: Request)
      requires Valid()
      modifies this`sent
      ensures Valid() && q == Request(url, start, if start > 0 then validator else "")
      ensures answer.Ok? ==> Received(start, Answered(answer.value)) && world.Reliable(q, Answered(answer.value))
      ensures answer.Err? ==> !answer.error.Fatal? && !answer.error.Died?
      ensures sent == old(sent) + 1
      ensures answer == AnswerOf(start, server(old(sent), q))
    {
      q := Request(url, start, if start > 0 then validator else "");
      var reply := Send(Request(url, start, if start > 0 then validator else ""));
      answer := AnswerOf(start, reply);
    }

    /** `restartDownload`: forget the validator, on disk and in memory. */
    method RestartDownload(state: Saved) returns (state': Saved, failure: Option<Failure>)
      requires Valid()
      modifies this`script, this`sidecar
      ensures Valid() && state' == state.(complete := false, validator := "")
      ensures failure in {Some(Temporary), Some(Fatal), Some(Died)}
      ensures old(script) == [] ==> failure == Some(Temporary) && script == []
    {
      state' := state.(complete := false, validator := "");
      ClearedIsTruthful(world, state', part);
      failure := SaveState(state');
      if failure == None { failure := Some(Temporary); }
    }

    /** The answer to the first request of an attempt. */
    function FirstReply(n: nat, url: string, start: nat, state: Saved): Reply {
      server(n, Request(url, start, if start > 0 then state.validator else ""))
    }

    /** The request of one attempt. A 400 answer to a range falls back to a plain GET, once,
        and is remembered; the old bytes stay until a full answer replaces them. */
    method RequestWithFallback(url: string, start0: nat, state0: Saved)
      returns (start: nat, state: Saved, answer: Result<Response, Failure>, ghost q: Request)
      requires Valid() && MemoryOk(world, url, state0, part, start0)
      requires start0 > 0 ==> state0.validator != "" && !state0.noRanges
      modifies this`sent, this`script, this`sidecar
      ensures Valid() && MemoryOk(world, url, state, part, start) && q.url == url
      ensures answer.Ok? ==> q.start == start && Received(start, Answered(answer.value))
      ensures answer.Ok? ==> world.Reliable(q, Answered(answer.value))
      ensures answer.Ok? && start > 0 ==> state == state0 && start == start0 && q.ifRange == state.validator
      ensures old(script) == [] ==> script == []
      ensures old(script) == [] ==>
        var reply, plain := FirstReply(old(sent), url, start0, state0), server(old(sent) + 1, Request(url, 0, ""));
        var falls := FallsBack(start0, reply);
        && sent == old(sent) + (if falls then 2 else 1)
        && state == (if falls then state0.(noRanges := true) else state0)
        && start == (if falls && Received(0, plain) then 0 else start0)
        && answer == (if falls then AnswerOf(0, plain) else AnswerOf(start0, reply))
    {
      start, state := start0, state0;
      answer, q := RequestResume(url, start, state.validator);
      if start > 0 && answer == Err(BadStatus(400)) {
        assert Truthful(world, state.(noRanges := true), part) by { NoRangesKeeps(world, state, part); }
        state := state.(noRanges := true);
        var failure := SaveState(state);
        if failure.Some? {
          answer := Err(failure.value);
          return;
        }
        answer, q := RequestResume(url, 0, "");
        if answer.Ok? { start := 0; }
      }
    }

    /** A 416 answer: complete if everything agrees, otherwise restart. */
    method Unsatisfied(url: string, resp: Response, start: nat, state0: Saved)
      returns (state: Saved, failure: Option<Failure>)
      requires Valid() && start > 0 && part.Some? && |part.value| == start
      requires state0.url == url && !state0.complete && state0.validator != "" && Truthful(world, state0, part)
      modifies this`script, this`sidecar
      ensures Valid() && state.url == url
      ensures failure == None ==>
        sidecar == Some(state) && state.complete && state.total == start && WholeVersion(url, part)
      ensures failure == Some(Temporary) ==> MemoryOk(world, url, state, part, start)
      ensures old(script) == [] ==>
        script == [] && state.complete == failure.None? && failure in {None, Some(Temporary)}
      ensures old(script) == [] ==>
        if UnsatisfiedTotal(resp.contentRange) == Some(start) && state0.total == start
           && ValidatorMatches(resp, state0.validator) then failure == None && state == state0.(complete := true)
        else failure == Some(Temporary) && state == state0.(complete := false, validator := "")
    {
      var total := UnsatisfiedTotal(resp.contentRange);
      if total == Some(start) && state0.total == start && ValidatorMatches(resp, state0.validator) {
        UnsatisfiedIsWhole(world, state0, part.value);
        state := state0.(complete := true);
        failure := SaveState(state);
        if failure.Some? { state := state0; }
      } else {
        state, failure := RestartDownload(state0);
      }
    }

    ghost predicate WholeVersion(url: string, p: Option<Bytes>) {
      exists r :: world.serves(url, r) && p == Some(r.bytes)
    }

    /** The file is synced and closed and the state marked complete. */
    method MarkComplete(state0: Saved, size: nat, ghost r: Representation)
      returns (state: Saved, failure: Option<Failure>)
      requires Valid() && world.serves(state0.url, r) && part == Some(r.bytes) && |r.bytes| == size && !state0.complete
      modifies this`script, this`sidecar
      ensures Valid() && state.url == state0.url && failure in {None, Some(Fatal), Some(Died)}
      ensures failure == None ==>
        && sidecar == Some(state) && state.complete && state.total == size && WholeVersion(state0.url, part)
      ensures old(script) == [] ==> script == [] && failure == None && state == state0.(complete := true, total := size)
    {
      state := state0;
      failure := Barrier();
      if failure.Some? { return; }
      WholeIsTruthful(world, state.(complete := true, total := size), r);
      state := state.(complete := true, total := size);
      failure := SaveState(state);
      if failure.Some? { state := state.(complete := false); }
    }

    /** Prepare the file for the body and save the new state: `r` is the version the file is going to be. */
    method Prepare(url: string, resp: Response, start: nat, state0: Saved, ghost q: Request)
      returns (state: Saved, failure: Option<Failure>, ghost r: Representation)
      requires Valid() && q.url == url && resp.status in {200, 206} && resp.contentEncoding in {"", "identity"}
      requires world.Reliable(q, Answered(resp)) && CheckResponse(resp, start, state0).Some?
      requires state0.url == url && !state0.complete
      requires start > 0 ==> resp.status == 206 && q.ifRange == state0.validator != ""
      requires start > 0 ==> part.Some? && |part.value| == start && Truthful(world, state0, part)
      modifies this`script, this`sidecar, this`part
      ensures Valid() && state.url == url && failure in {None, Some(Fatal), Some(Died)}
      ensures failure == None ==>
        && state == Saved(url, if start > 0 then state0.validator else world.ResponseValidator(resp),
                    CheckResponse(resp, start, state0).value.0, false, state0.noRanges)
        && sidecar == Some(state) && world.serves(url, r) && Delivers(resp, start, r)
        && (state.total >= 0 ==> state.total == |r.bytes|)
        && part == Some(if start > 0 then old(part).value else []) && |part.value| == start
      ensures failure == None ==> forall n: nat :: n <= |resp.body| ==>
        part.value + resp.body[..n] <= r.bytes && Truthful(world, state, Some(part.value + resp.body[..n]))
      ensures old(script) == [] ==> failure == None && script == []
    {
      hide Truthful, CheckResponse, DiskOk, Delivers;
      state := state0;
      failure := Open(start);
      if failure.Some? {
        r := SourceOf(world, q, Answered(resp));
        return;
      }
      r := NewStateTruthful(world, q, resp, start, state0, part);
      var (total, _) := CheckResponse(resp, start, state0).value;
      state := Saved(url, if start > 0 then state0.validator else world.ResponseValidator(resp),
                     total, false, state0.noRanges);
      failure := SaveState(state);
      if failure.Some? { return; }
      BodyIsTruthful(world, resp, start, state, part.value, r);
    }

    /** Copy the body to the file as long as every part of it keeps the saved state true. */
    method AppendBody(resp: Response, state: Saved, ghost whole: Bytes) returns (failure: Option<Failure>, written: nat)
      requires Valid() && part.Some? && sidecar == Some(state) && !state.complete
      requires forall n: nat :: n <= |resp.body| ==>
        part.value + resp.body[..n] <= whole && Truthful(world, state, Some(part.value + resp.body[..n]))
      modifies this`script, this`part
      ensures Valid() && failure in {None, Some(Temporary), Some(Fatal), Some(Died)} && (failure == None ==> resp.clean)
      ensures failure in {None, Some(Temporary)} ==>
        && written == |resp.body| && part == Some(old(part).value + resp.body) && part.value <= whole
        && MemoryOk(world, state.url, state, part, |part.value|)
      ensures old(script) == [] ==> script == [] && failure == if resp.clean then None else Some(Temporary)
    {
      hide Truthful, MemoryOk, DiskOk;
      WholeBody(part.value, resp.body, whole);
      TruthfulOnDisk(world, state, resp.body, part.value);
      failure, written := CopyBody(resp);
      if failure in {None, Some(Temporary)} { TruthfulInMemory(world, state, part, |part.value|); }
    }

    /** Use a 200 or 206 answer: prepare, copy the body, mark it complete. */
    method ReceiveBody(url: string, resp: Response, start: nat, state0: Saved, ghost q: Request)
      returns (size: nat, state: Saved, failure: Option<Failure>)
      requires Valid() && q.url == url && resp.status in {200, 206} && resp.contentEncoding in {"", "identity"}
      requires world.Reliable(q, Answered(resp)) && CheckResponse(resp, start, state0).Some?
      requires state0.url == url && !state0.complete
      requires start > 0 ==> resp.status == 206 && q.ifRange == state0.validator != ""
      requires start > 0 ==> part.Some? && |part.value| == start && Truthful(world, state0, part)
      modifies this`script, this`sidecar, this`part
      ensures Valid() && state.url == url
      ensures failure == None ==>
        && sidecar == Some(state) && state.complete && state.total == size
        && part.Some? && |part.value| == size && WholeVersion(url, part)
      ensures failure == Some(Temporary) ==> MemoryOk(world, url, state, part, size)
      ensures old(script) == [] ==>
        script == [] && Attempt(part, size, state, failure) == WithBody(world, resp, start, state0, old(part))
    {
      hide Valid, Truthful, WholeVersion, MemoryOk, CheckResponse, DiskOk, Delivers, ParseContentRange;
      ghost var r;
      state, failure, r := Prepare(url, resp, start, state0, q);
      size := start;
      if failure.Some? { return; }
      var (total, responseBytes) := CheckResponse(resp, start, state0).value;
      ghost var before := part.value;
      var written;
      failure, written := AppendBody(resp, state, r.bytes);
      size := start + written;
      if failure.Some? { return; }
      if (responseBytes >= 0 && written != responseBytes) || (total >= 0 && size != total) {
        return size, state, Some(Temporary);
      }
      CompleteIsWhole(resp, start, state0, state, before, r);
      state, failure := MarkComplete(state, size, r);
    }

    /** One attempt: `fetchFile`. */
    method FetchFile(url: string, start0: nat, state0: Saved)
      returns (size: nat, state: Saved, failure: Option<Failure>)
      requires Valid() && MemoryOk(world, url, state0, part, start0)
      requires start0 > 0 ==> state0.validator != "" && !state0.noRanges
      modifies this`sent, this`script, this`sidecar, this`part
      ensures Valid() && state.url == url
      ensures failure == None ==>
        && sidecar == Some(state) && state.complete && state.total == size
        && part.Some? && |part.value| == size && WholeVersion(url, part)
      ensures failure == Some(Temporary) ==> MemoryOk(world, url, state, part, size)
      ensures old(script) == [] ==>
        && script == []
        && Attempt(part, size, state, failure)
           == Fetched(world, start0, state0, old(part), FirstReply(old(sent), url, start0, state0),
                      server(old(sent) + 1, Request(url, 0, "")))
        && sent == old(sent) + if FallsBack(start0, FirstReply(old(sent), url, start0, state0)) then 2 else 1
    {
      var start: nat, answer;
      ghost var q;
      start, state, answer, q := RequestWithFallback(url, start0, state0);
      size := start;
      if answer.Err? {
        failure := Some(answer.error);
        return;
      }
      var resp := answer.value;
      if resp.contentEncoding !in {"", "identity"} {
        failure := Some(Fatal);
        return;
      }
      if resp.status == 416 {
        state, failure := Unsatisfied(url, resp, start, state);
        return;
      }
      if CheckResponse(resp, start, state).None? {
        state, failure := RestartDownload(state);
        return;
      }
      if resp.status != 206 && start > 0 {
        if ValidatorMatches(resp, state.validator) { state := state.(noRanges := true); }
        start := 0;
      }
      size, state, failure := ReceiveBody(url, resp, start, state, q);
    }

    /** The file has been published, and what it was made of is still there. */
    ghost predicate CleanupLeft(url: string)
      reads this
    {
      && published.Some? && part.Some? && process(part.value) == Output(published.value)
      && PartialFile(url, sidecar, part).1.complete
    }

    /** What the process knows when it starts, if it finds these files. */
    function Start(url: string, sidecar: Option<Saved>, part: Option<Bytes>, sent: nat): Standing {
      var (size, state) := PartialFile(url, sidecar, part);
      Standing(Attempt(part, size, state, None), sent)
    }

    /** One round of the loop of `file`. */
    method TryOnce(url: string, size0: nat, state0: Saved, ghost failed: Option<Failure>)
      returns (size: nat, state: Saved, failure: Option<Failure>)
      requires Valid() && MemoryOk(world, url, state0, part, size0)
      modifies this`sent, this`script, this`sidecar, this`part
      ensures Valid()
      ensures failure == None ==> sidecar == Some(state) && state.complete && Finished(url, state, part)
      ensures failure == Some(Temporary) ==> !state.complete && MemoryOk(world, url, state, part, size)
      ensures old(script) == [] ==>
        && script == []
        && Standing(Attempt(part, size, state, failure), sent)
           == Once(world, server, Standing(Attempt(old(part), size0, state0, failed), old(sent)))
    {
      hide DiskOk, Truthful, Fetched, FallsBack, PublishedOk;
      size, state := size0, state0;
      failure := Barrier();
      if failure.Some? { return; }
      var start := if state.validator == "" || state.noRanges then 0 else size;
      size, state, failure := FetchFile(url, start, state);
    }

    /** The loop of `file`: up to `retry` attempts; `ok` says that the file is complete. */
    method TryAll(url: string, retry: nat) returns (state: Saved, ok: bool)
      requires Valid()
      modifies this`sent, this`script, this`sidecar, this`part
      ensures Valid() && (ok ==> sidecar == Some(state) && Finished(url, state, part))
      ensures var (_, state0) := old(PartialFile(url, sidecar, part));
              state0.complete ==>
                ok && state == state0 && sent == old(sent)
                && part == old(part) && sidecar == old(sidecar) && script == old(script)
      ensures old(script) == [] ==>
        var end := Attempts(world, server, old(Start(url, sidecar, part, sent)), retry);
        && script == [] && sent == end.sent && part == end.attempt.part && ok == Done(end.attempt)
    {
      hide Valid, Once, MemoryOk, Finished;
      var (size0, state0) := PartialFile(url, sidecar, part);
      var size: nat;
      size, state := size0, state0;
      ResumeFacts(url);
      var attempt := 0;
      ghost var failed: Option<Failure> := None;
      while !state.complete && attempt < retry
        invariant Valid() && failed in {None, Some(Temporary)} && (state.complete ==> failed.None?)
        invariant state.complete ==> sidecar == Some(state) && Finished(url, state, part)
        invariant !state.complete ==> MemoryOk(world, url, state, part, size)
        invariant state0.complete ==>
          state == state0 && sent == old(sent) && part == old(part) && sidecar == old(sidecar) && script == old(script)
        invariant attempt <= retry
        invariant old(script) == [] ==>
          && script == []
          && Attempts(world, server, old(Start(url, sidecar, part, sent)), retry)
             == Attempts(world, server, Standing(Attempt(part, size, state, failed), sent), retry - attempt)
        decreases retry - attempt
      {
        var failure;
        size, state, failure := TryOnce(url, size, state, failed);
        if failure.Some? && !failure.value.Temporary? { return state, false; }
        failed := failure;
        attempt := attempt + 1;
      }
      ok := state.complete;
    }

    /** Bytes to resume from, with a validator, where ranges have not been refused. */
    predicate Resumable(url: string, sidecar: Option<Saved>, part: Option<Bytes>) {
      && part.Some? && part.value != [] && sidecar.Some?
      && sidecar.value.url == url && sidecar.value.validator != "" && !sidecar.value.complete && !sidecar.value.noRanges
      && (sidecar.value.total < 0 || |part.value| <= sidecar.value.total)
    }

    lemma {:induction false} AllDeliveries(from: Standing, retry: nat)
      ensures forall k: nat, r: Representation :: k < retry && ComesAfter(world, server, from, k, r) ==>
          var end := Attempts(world, server, from, retry);
          Finishes(end.attempt, r) && end.sent == Attempts(world, server, from, k).sent + 1
    {
      hide Attempts, ComesAfter, Finishes;
      forall k: nat, r: Representation | k < retry && ComesAfter(world, server, from, k, r)
        ensures var end := Attempts(world, server, from, retry);
                Finishes(end.attempt, r) && end.sent == Attempts(world, server, from, k).sent + 1
      {
        BroughtAfter(world, server, from, k, retry, r);
      }
    }

    /** What the last attempt leaves if the version comes after k transient failures. */
    ghost predicate Delivered(from: Standing, k: nat, retry: nat, r: Representation) {
      var end := Attempts(world, server, from, retry); Finishes(end.attempt, r) && end.sent == from.sent + k + 1
    }

    lemma {:induction false} FirstDelivery(from: Standing, k: nat, retry: nat, r: Representation)
      requires GoesOn(from.attempt) && k < retry && Delays(server, from.sent, FirstRequest(from.attempt), k)
      requires Brings(server, from.(sent := from.sent + k), r)
      ensures Delivered(from, k, retry, r)
    {
      hide Attempts, Finishes, WholeAnswer, RestAnswer, NothingLeft, Delays;
      DelaysStay(world, server, from, k);
      assert Brings(server, Attempts(world, server, from, k), r);
      BroughtAfter(world, server, from, k, retry, r);
    }

    lemma {:induction false} FreshDelivery(url: string, sidecar: Option<Saved>, part: Option<Bytes>, from: Standing,
        k: nat, retry: nat, r: Representation)
      requires from == Start(url, sidecar, part, from.sent) && (part.None? || sidecar.None?)
      requires k < retry && WholeComes(server, from.sent, Request(url, 0, ""), k, r)
      ensures Delivered(from, k, retry, r)
    {
      hide WholeAnswer, Delays, Delivered;
      FirstDelivery(from, k, retry, r);
    }

    lemma {:induction false} ResumedDelivery(url: string, sidecar: Option<Saved>, part: Option<Bytes>, from: Standing,
        k: nat, retry: nat, r: Representation)
      requires from == Start(url, sidecar, part, from.sent) && Resumable(url, sidecar, part)
      requires k < retry
      requires RestComes(server, from.sent, Request(url, |part.value|, sidecar.value.validator), k, part.value,
                         sidecar.value, r)
      ensures Delivered(from, k, retry, r)
    {
      hide RestAnswer, Delays, Delivered;
      FirstDelivery(from, k, retry, r);
    }

    lemma {:induction false} FirstDeliveries(url: string, sidecar: Option<Saved>, part: Option<Bytes>, from: Standing,
        retry: nat)
      requires from == Start(url, sidecar, part, from.sent)
      ensures part.None? || sidecar.None? ==>
        forall k: nat, r: Representation ::
          k < retry && WholeComes(server, from.sent, Request(url, 0, ""), k, r) ==> Delivered(from, k, retry, r)
      ensures Resumable(url, sidecar, part) ==>
        var was, saved := part.value, sidecar.value;
        forall k: nat, r: Representation ::
          k < retry && RestComes(server, from.sent, Request(url, |was|, saved.validator), k, was, saved, r) ==>
            Delivered(from, k, retry, r)
    {
      hide Delivered, WholeComes, RestComes, Start;
      if part.None? || sidecar.None? {
        forall k: nat, r: Representation | k < retry && WholeComes(server, from.sent, Request(url, 0, ""), k, r)
          ensures Delivered(from, k, retry, r)
        {
          FreshDelivery(url, sidecar, part, from, k, retry, r);
        }
      }
      if Resumable(url, sidecar, part) {
        var was, saved := part.value, sidecar.value;
        forall k: nat, r: Representation |
          k < retry && RestComes(server, from.sent, Request(url, |was|, saved.validator), k, was, saved, r)
          ensures Delivered(from, k, retry, r)
        {
          ResumedDelivery(url, sidecar, part, from, k, retry, r);
        }
      }
    }

    /** `file` with --continue: up to `retry` attempts, then publish and clean up. A process that finds a file
        published before, with the part and the sidecar still there, requests nothing and publishes the same. */
    method File(url: string, retry: nat) returns (ok: bool, ghost out: bool)
      requires Valid()
      modifies this`sent, this`script, this`sidecar, this`part, this`published
      ensures Valid() && (ok ==> out && part == None && sidecar == None)
      ensures out ==> published.Some? && exists r :: world.serves(url, r) && process(r.bytes) == Output(published.value)
      ensures !out ==> published == old(published)
      ensures out ==> CleanupLeft(url) || part.None? || sidecar.None?
      ensures var (_, saved) := old(PartialFile(url, sidecar, part));
              saved.complete && process(old(part).value).Output? ==>
                && sent == old(sent)
                && published in {old(published), Some(process(old(part).value).bytes)}
                && (old(script) == [] ==> ok)
      ensures old(CleanupLeft(url)) ==> CleanupLeft(url) || part.None? || sidecar.None?
      ensures old(script) == [] ==>
        var end := Attempts(world, server, old(Start(url, sidecar, part, sent)), retry);
        && sent == end.sent
        && ok == (Done(end.attempt) && end.attempt.part.Some? && process(end.attempt.part.value).Output?)
        && (ok ==> published == Some(process(end.attempt.part.value).bytes))
      ensures old(script) == [] && old(part.None? || sidecar.None?) ==>
        forall k: nat, r: Representation ::
          k < retry && WholeComes(server, old(sent), Request(url, 0, ""), k, r) && process(r.bytes).Output? ==>
            ok && published == Some(process(r.bytes).bytes) && sent == old(sent) + k + 1
      ensures old(script) == [] && old(Resumable(url, sidecar, part)) ==>
        var was, saved := old(part).value, old(sidecar).value;
        forall k: nat, r: Representation ::
          (k < retry && RestComes(server, old(sent), Request(url, |was|, saved.validator), k, was, saved, r)
           && process(r.bytes).Output?) ==>
            ok && published == Some(process(r.bytes).bytes) && sent == old(sent) + k + 1
      ensures old(script) == [] ==>
        var from := old(Start(url, sidecar, part, sent));
        forall k: nat, r: Representation ::
          k < retry && ComesAfter(world, server, from, k, r) && process(r.bytes).Output? ==>
            ok && published == Some(process(r.bytes).bytes) && sent == Attempts(world, server, from, k).sent + 1
    {
      hide Attempts, ComesAfter, WholeComes, RestComes, DiskOk, Truthful, Resumable;
      ghost var from := Start(url, sidecar, part, sent);
      ghost var p0, s0 := part, sidecar;
      var state, complete := TryAll(url, retry);
      AllDeliveries(from, retry);
      FirstDeliveries(url, s0, p0, from, retry);
      if !complete { return false, false; }
      var cancelled := Barrier();
      if cancelled.Some? { return false, false; }
      ok, out := Publish(state);
    }

    /** The part is one whole version and the state says so. */
    ghost predicate Finished(url: string, state: Saved, p: Option<Bytes>) {
      state.complete && state.url == url && p.Some? && |p.value| == state.total && WholeVersion(url, p)
    }

    /** After a crash between publishing and cleaning up the process may be started again, with any faults, as often as
        it takes: while both files are there it requests nothing and what is published does not change. */
    method Reruns(url: string, sessions: seq<(nat, seq<Fault>)>) returns (ok: bool)
      requires Valid() && CleanupLeft(url)
      modifies this
      ensures Valid() && published == old(published) && sent == old(sent)
      ensures CleanupLeft(url) || part.None? || sidecar.None?
      ensures ok ==> part == None && sidecar == None
      ensures sessions != [] && sessions[0].1 == [] ==> ok
    {
      ok := false;
      var i := 0;
      while i < |sessions| && part.Some? && sidecar.Some?
        invariant Valid() && published == old(published) && sent == old(sent) && i <= |sessions|
        invariant CleanupLeft(url) || (i > 0 && (part.None? || sidecar.None?))
        invariant ok ==> part == None && sidecar == None
        invariant i > 0 && sessions[0].1 == [] ==> ok
      {
        script := sessions[i].1;
        ghost var out;
        ok, out := File(url, sessions[i].0);
        i := i + 1;
      }
    }

    /** Any number of processes, one after another, each with its own URL, retry limit and faults. */
    method Sessions(sessions: seq<(string, nat, seq<Fault>)>)
      requires Valid()
      modifies this
      ensures Valid()
    {
      for i := 0 to |sessions|
        invariant Valid()
      {
        var (url, retry, faults) := sessions[i];
        script := faults;
        var _, _ := File(url, retry);
      }
    }

    lemma {:induction false} ResumeFacts(url: string)
      requires Valid()
      ensures var (size, state) := PartialFile(url, sidecar, part);
              && (state.complete ==> sidecar == Some(state) && Finished(url, state, part))
              && (!state.complete ==> MemoryOk(world, url, state, part, size))
    {
      var (size, state) := PartialFile(url, sidecar, part);
      if state.complete {
        var r :| world.serves(url, r) && WholeOf(state, part, r);
        assert part == Some(r.bytes);
      }
    }

    /** Publish the finished file, then remove the partial file and, after it, the sidecar; `out` says that it has
        been published. */
    method Publish(state0: Saved) returns (ok: bool, ghost out: bool)
      requires Valid() && part.Some? && WholeVersion(state0.url, part)
      modifies this`script, this`sidecar, this`part, this`published
      ensures Valid() && (ok ==> out)
      ensures out ==> process(old(part).value).Output? && published == Some(process(old(part).value).bytes)
      ensures out ==> part in {old(part), None} && sidecar in {old(sidecar), None}
      ensures !out ==> published == old(published)
      ensures !out && process(old(part).value).Output? ==> part == old(part) && sidecar == old(sidecar)
      ensures ok ==> part == None && sidecar == None
      ensures old(script) == [] && process(old(part).value).Output? ==> ok
    {
      ghost var r :| world.serves(state0.url, r) && part == Some(r.bytes);
      var f := NextFault();
      var outcome := process(part.value);
      out := outcome.Output? && (f.Works? || (f.Dies? && f.progress > 0));
      if outcome.Output? && (f.Works? || (f.Dies? && f.progress > 0)) {
        published := Some(outcome.bytes);
      }
      if !f.Works? { return false, out; }
      match outcome
      case Output(_) =>
        ok := RemovePartial();
      case Invalid =>
        var cleared := state0.(complete := false, validator := "");
        ClearedIsTruthful(world, cleared, part);
        var _ := SaveState(cleared);
        ok := false;
      case Refused =>
        ok := false;
    }

    /** `removePartial`: the sidecar is removed even if the part could not be. */
    method RemovePartial() returns (ok: bool)
      requires Valid()
      modifies this`script, this`sidecar, this`part
      ensures Valid() && part in {old(part), None} && sidecar in {old(sidecar), None}
      ensures ok ==> part == None && sidecar == None
      ensures old(script) == [] ==> ok
    {
      var f := NextFault();
      if f.Works? || (f.Dies? && f.progress > 0) {
        RemoveKeeps(world, sidecar, part);
        part := None;
      }
      if f.Dies? { return false; }
      var g := NextFault();
      if g.Works? || (g.Dies? && g.progress > 0) { sidecar := None; }
      ok := f.Works? && g.Works?;
    }
  }

  lemma {:induction false} NoRangesKeeps(w: World, s: Saved, part: Option<Bytes>)
    requires Truthful(w, s, part)
    ensures Truthful(w, s.(noRanges := true), part)
  {
    if s.complete {
      var r :| w.serves(s.url, r) && WholeOf(s, part, r);
      assert WholeOf(s.(noRanges := true), part, r);
    } else if s.validator != "" {
      var r :| w.serves(s.url, r) && PrefixOf(w, s, part, r);
      assert PrefixOf(w, s.(noRanges := true), part, r);
    }
  }

  lemma {:induction false} RemoveKeeps(w: World, sidecar: Option<Saved>, part: Option<Bytes>)
    requires DiskOk(w, sidecar, part)
    ensures DiskOk(w, sidecar, None)
  {
    if sidecar.Some? {
      var s := sidecar.value;
      if s.complete {
        var r :| w.serves(s.url, r) && WholeOf(s, part, r);
        assert WholeOf(s, None, r);
      } else if s.validator != "" {
        var r :| w.serves(s.url, r) && PrefixOf(w, s, part, r);
        assert PrefixOf(w, s, None, r);
      }
    }
  }
}
