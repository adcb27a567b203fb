/** The collaboration handler: a client that keeps a local copy of a
    session's dataset (`state`) and its `version` in step with the server.
    Its fields are an immutable record threaded through one pure function
    per call; the server, the patch engine and the hash are parameters. */
module Collaboration {
  import opened Wrappers
  import opened Document
  import opened Chunking
  import opened Protocol

  /** The handler's three fields; `None` is the `null` each starts as. */
  datatype Handler = Handler(sessionId: Option<SessionId>, state: State, version: Option<Version>)

  /** The outcome of one call: the handler's fields afterwards (also when it
      throws), the requests it sent in order, and what it returned or threw. */
  datatype Step<+T> = Step(handler: Handler, sent: seq<Request>, result: Result<T, Error>)

  // ---------------------------------------------------------------------
  // createSession

  /** The dataset as the upload has sent it before pass k (loop index
      i = 40 * k): the original fields with `samples.slice(0, 40 * k)`.
      Pass 0's snapshot is the baseline with the samples emptied. */
  function Snapshot(d: Doc, k: nat): Doc {
    Doc(d.fields, Uploaded(d.samples, k))
  }

  /** The patch pass k submits: from its snapshot to the next one. */
  function UploadPatch(e: Engine, d: Doc, k: nat): Patch {
    e.diff(Some(Snapshot(d, k)), Some(Snapshot(d, k + 1)))
  }

  /** The patches of passes k .. k+m-1, in order. */
  function UploadPatches(e: Engine, d: Doc, k: nat, m: nat): seq<Patch>
    decreases m
  {
    if m == 0 then [] else [UploadPatch(e, d, k)] + UploadPatches(e, d, k + 1, m - 1)
  }

  /** The PATCH requests that submit `ps` in order. */
  function Submissions(sid: Option<SessionId>, ps: seq<Patch>): seq<Request>
    decreases |ps|
  {
    if |ps| == 0 then [] else [PatchSession(sid, ps[0])] + Submissions(sid, ps[1..])
  }

  /** The server accepted the patches of passes k .. k+a-1. */
  ghost predicate Accepted(e: Engine, srv: Server, sid: Option<SessionId>, d: Doc, k: nat, a: nat) {
    forall j :: k <= j < k + a ==> srv.submit(sid, UploadPatch(e, d, j)).Success?
  }

  /** The version the handler holds after passes k .. k+a-1, starting from
      `v`: each accepted pass records its reply's `latestVersion`. The loop
      throws at a rejected pass, so it only ever asks for passes that were
      all accepted (every use sits under `Accepted`); a rejected pass here
      simply keeps the version. */
  function VersionAfter(e: Engine, srv: Server, sid: Option<SessionId>, v: Option<Version>, d: Doc, k: nat, a: nat): Option<Version>
    decreases a
  {
    if a == 0 then v
    else
      var next := match srv.submit(sid, UploadPatch(e, d, k))
        case Success(reply) => Some(reply.latestVersion)
        case Failure(_) => v;
      VersionAfter(e, srv, sid, next, d, k + 1, a - 1)
  }

  /** Accepting passes k .. k+a is accepting pass k, then k+1 .. k+a. */
  lemma AcceptedStep(e: Engine, srv: Server, sid: Option<SessionId>, d: Doc, k: nat, a: nat)
    ensures Accepted(e, srv, sid, d, k, a + 1)
        <==> srv.submit(sid, UploadPatch(e, d, k)).Success? && Accepted(e, srv, sid, d, k + 1, a)
  {
  }

  /** Once passes k .. k+a-1 were all accepted, the version held is the
      last one's `latestVersion`, or `v` if there were none. */
  lemma {:induction false} VersionIsLastAccepted(e: Engine, srv: Server, sid: Option<SessionId>, v: Option<Version>, d: Doc, k: nat, a: nat)
    requires Accepted(e, srv, sid, d, k, a)
    ensures a == 0 ==> VersionAfter(e, srv, sid, v, d, k, a) == v
    ensures a > 0 ==> VersionAfter(e, srv, sid, v, d, k, a) == Some(srv.submit(sid, UploadPatch(e, d, k + a - 1)).value.latestVersion)
    decreases a
  {
    if a > 0 {
      AcceptedStep(e, srv, sid, d, k, a - 1);
      var next := Some(srv.submit(sid, UploadPatch(e, d, k)).value.latestVersion);
      VersionIsLastAccepted(e, srv, sid, next, d, k + 1, a - 1);
    }
  }

  /** Both step facts, for the m passes after an accepted pass k and for
      the m - 1 accepted before a rejected one. */
  lemma UploadStep(e: Engine, srv: Server, sid: Option<SessionId>, v: Option<Version>, d: Doc, k: nat, m: nat, reply: Submitted)
    requires srv.submit(sid, UploadPatch(e, d, k)) == Success(reply)
    ensures Submissions(sid, UploadPatches(e, d, k, m + 1))
         == [PatchSession(sid, UploadPatch(e, d, k))] + Submissions(sid, UploadPatches(e, d, k + 1, m))
    ensures Accepted(e, srv, sid, d, k, m + 1) <==> Accepted(e, srv, sid, d, k + 1, m)
    ensures VersionAfter(e, srv, sid, v, d, k, m + 1) == VersionAfter(e, srv, sid, Some(reply.latestVersion), d, k + 1, m)
    ensures m > 0 ==> (Accepted(e, srv, sid, d, k, m) <==> Accepted(e, srv, sid, d, k + 1, m - 1))
    ensures m > 0 ==> VersionAfter(e, srv, sid, v, d, k, m) == VersionAfter(e, srv, sid, Some(reply.latestVersion), d, k + 1, m - 1)
  {
    AcceptedStep(e, srv, sid, d, k, m);
    assert UploadPatches(e, d, k, m + 1)[1..] == UploadPatches(e, d, k + 1, m);
    if m > 0 {
      AcceptedStep(e, srv, sid, d, k, m - 1);
    }
  }

  /** The requests of an upload run from pass k that ended in `r`: the
      patches of consecutive passes from k, one request each, never more
      than the passes left; the session id is kept. */
  ghost predicate UploadSent(e: Engine, h: Handler, d: Doc, k: nat, r: Step<()>) {
    && r.handler.sessionId == h.sessionId
    && |r.sent| <= UploadPasses(|d.samples|) - k
    && r.sent == Submissions(h.sessionId, UploadPatches(e, d, k, |r.sent|))
  }

  /** A finished upload run from pass k sent every remaining pass, all were
      accepted, `state` is the dataset and `version` the last pass's. */
  ghost predicate UploadFinished(e: Engine, srv: Server, h: Handler, d: Doc, k: nat, r: Step<()>) {
    r.result.Success? ==>
      && |r.sent| == UploadPasses(|d.samples|) - k
      && Accepted(e, srv, h.sessionId, d, k, |r.sent|)
      && r.handler.state == Some(d)
      && r.handler.version == VersionAfter(e, srv, h.sessionId, h.version, d, k, |r.sent|)
  }

  /** An upload run from pass k that threw: the last pass sent was rejected
      with that reason, those before it were accepted, `state` is as it was
      and `version` the last accepted one. */
  ghost predicate UploadThrew(e: Engine, srv: Server, h: Handler, d: Doc, k: nat, r: Step<()>) {
    r.result.Failure? ==>
      && |r.sent| >= 1
      && Accepted(e, srv, h.sessionId, d, k, |r.sent| - 1)
      && srv.submit(h.sessionId, UploadPatch(e, d, k + |r.sent| - 1)).Failure?
      && r.result.error == Transport(srv.submit(h.sessionId, UploadPatch(e, d, k + |r.sent| - 1)).error)
      && r.handler.state == h.state
      && r.handler.version == VersionAfter(e, srv, h.sessionId, h.version, d, k, |r.sent| - 1)
  }

  /** What the upload loop from pass k on does, for a run that ended in `r`. */
  ghost predicate UploadRun(e: Engine, srv: Server, h: Handler, d: Doc, k: nat, r: Step<()>) {
    UploadSent(e, h, d, k, r) && UploadFinished(e, srv, h, d, k, r) && UploadThrew(e, srv, h, d, k, r)
  }

  /** An accepted pass k followed by a run from pass k + 1 is a run from k. */
  lemma UploadRunStep(e: Engine, srv: Server, h: Handler, d: Doc, k: nat, reply: Submitted, rest: Step<()>)
    requires UploadChunk * k < |d.samples|
    requires srv.submit(h.sessionId, UploadPatch(e, d, k)) == Success(reply)
    requires UploadRun(e, srv, h.(version := Some(reply.latestVersion)), d, k + 1, rest)
    ensures UploadRun(e, srv, h, d, k, Step(rest.handler, [PatchSession(h.sessionId, UploadPatch(e, d, k))] + rest.sent, rest.result))
  {
    UploadSentStep(e, h, d, k, Some(reply.latestVersion), rest);
    UploadFinishedStep(e, srv, h, d, k, reply, rest);
    UploadThrewStep(e, srv, h, d, k, reply, rest);
  }

  /** Pass k's request followed by a run's requests from pass k + 1 are the
      requests of a run from pass k. */
  lemma UploadSentStep(e: Engine, h: Handler, d: Doc, k: nat, v: Option<Version>, rest: Step<()>)
    requires UploadChunk * k < |d.samples|
    requires UploadSent(e, h.(version := v), d, k + 1, rest)
    ensures UploadSent(e, h, d, k, Step(rest.handler, [PatchSession(h.sessionId, UploadPatch(e, d, k))] + rest.sent, rest.result))
  {
    UploadPassRuns(|d.samples|, k);
    assert UploadPatches(e, d, k, |rest.sent| + 1)[1..] == UploadPatches(e, d, k + 1, |rest.sent|);
  }

  /** A finished run from pass k + 1 after an accepted pass k is a finished
      run from pass k. */
  lemma UploadFinishedStep(e: Engine, srv: Server, h: Handler, d: Doc, k: nat, reply: Submitted, rest: Step<()>)
    requires srv.submit(h.sessionId, UploadPatch(e, d, k)) == Success(reply)
    requires UploadFinished(e, srv, h.(version := Some(reply.latestVersion)), d, k + 1, rest)
    ensures UploadFinished(e, srv, h, d, k, Step(rest.handler, [PatchSession(h.sessionId, UploadPatch(e, d, k))] + rest.sent, rest.result))
  {
    if rest.result.Success? {
      UploadStep(e, srv, h.sessionId, h.version, d, k, |rest.sent|, reply);
    }
  }

  /** A run from pass k + 1 that threw, after an accepted pass k, is a run
      from pass k that threw. */
  lemma UploadThrewStep(e: Engine, srv: Server, h: Handler, d: Doc, k: nat, reply: Submitted, rest: Step<()>)
    requires srv.submit(h.sessionId, UploadPatch(e, d, k)) == Success(reply)
    requires UploadThrew(e, srv, h.(version := Some(reply.latestVersion)), d, k + 1, rest)
    ensures UploadThrew(e, srv, h, d, k, Step(rest.handler, [PatchSession(h.sessionId, UploadPatch(e, d, k))] + rest.sent, rest.result))
  {
    if rest.result.Failure? {
      var m := |rest.sent|;
      UploadStep(e, srv, h.sessionId, h.version, d, k, m - 1, reply);
      assert k + (m + 1) - 1 == k + 1 + m - 1;
    }
  }

  /** The upload loop from pass k on (loop index i = 40 * k). Each pass
      submits one patch and records the reply's version; a rejected pass
      throws; after the last pass `state` becomes the dataset. */
  function Upload(e: Engine, srv: Server, h: Handler, d: Doc, k: nat): (r: Step<()>)
    requires k <= UploadPasses(|d.samples|)
    ensures UploadRun(e, srv, h, d, k, r)
    decreases |d.samples| - UploadChunk * k
  {
    UploadPassRuns(|d.samples|, k);
    if UploadChunk * k >= |d.samples| then
      Step(h.(state := Some(d)), [], Success(()))
    else
      var patch := UploadPatch(e, d, k);
      var req := PatchSession(h.sessionId, patch);
      match srv.submit(h.sessionId, patch)
      case Failure(reason) =>
        assert [req] == Submissions(h.sessionId, UploadPatches(e, d, k, 1));
        Step(h, [req], Failure(Transport(reason)))
      case Success(reply) =>
        var rest := Upload(e, srv, h.(version := Some(reply.latestVersion)), d, k + 1);
        UploadRunStep(e, srv, h, d, k, reply, rest);
        Step(rest.handler, [req] + rest.sent, rest.result)
  }

  /** `createSession`: posts the dataset with its samples emptied, takes the
      session id and version from the reply, then uploads the samples 40 at
      a time, and on success holds the whole dataset at the version of the
      last accepted pass. */
  function CreateSession(e: Engine, srv: Server, h: Handler, initial: Doc): (r: Step<()>)
    ensures |r.sent| >= 1 && r.sent[0] == PostSession(Doc(initial.fields, []))
    ensures srv.create(Doc(initial.fields, [])).Failure? ==>
      r == Step(h, [r.sent[0]], Failure(Transport(srv.create(Doc(initial.fields, [])).error)))
    ensures srv.create(Doc(initial.fields, [])).Success? ==>
      var c := srv.create(Doc(initial.fields, [])).value;
      var passes := |r.sent| - 1;
      && r.handler.sessionId == Some(c.shortId)
      && passes <= UploadPasses(|initial.samples|)
      && r.sent[1..] == Submissions(Some(c.shortId), UploadPatches(e, initial, 0, passes))
      && (r.result.Success? ==>
            && passes == UploadPasses(|initial.samples|)
            && r.handler.state == Some(initial)
            && r.handler.version == VersionAfter(e, srv, Some(c.shortId), Some(c.version), initial, 0, passes))
      && (r.result.Failure? ==>
            && passes >= 1
            && Accepted(e, srv, Some(c.shortId), initial, 0, passes - 1)
            && var q := srv.submit(Some(c.shortId), UploadPatch(e, initial, passes - 1));
            && q.Failure?
            && r.result.error == Transport(q.error)
            && r.handler.state == h.state
            && r.handler.version == VersionAfter(e, srv, Some(c.shortId), Some(c.version), initial, 0, passes - 1))
  {
    var baseline := Doc(initial.fields, []);
    match srv.create(baseline)
    case Failure(reason) =>
      Step(h, [PostSession(baseline)], Failure(Transport(reason)))
    case Success(c) =>
      var up := Upload(e, srv, h.(sessionId := Some(c.shortId), version := Some(c.version)), initial, 0);
      assert ([PostSession(baseline)] + up.sent)[1..] == up.sent;
      Step(up.handler, [PostSession(baseline)] + up.sent, up.result)
  }

  // ---------------------------------------------------------------------
  // getLatestState

  /** What getLatestState returns, plus whether the reassembled dataset's
      hash matched the server's (a mismatch is only logged). */
  datatype Fetched = Fetched(state: Doc, version: Version, hashMatched: bool)

  /** The error the inner `catch` holds: the direct fetch's own rejection,
      or else the one thrown right after it succeeds. */
  function FallbackCause(srv: Server, sid: Option<SessionId>): Error {
    match srv.fetch(sid)
    case Failure(reason) => Transport(reason)
    case Success(_) => RangeRequired
  }

  /** The request for window k, `sample_range=i-(i+50)` with i = 50 * k. */
  function WindowRequest(sid: Option<SessionId>, k: nat): Request {
    GetRange(sid, RangeSize * k, RangeSize * k + RangeSize)
  }

  /** The requests for windows k .. k+m-1, in order. */
  function WindowRequests(sid: Option<SessionId>, k: nat, m: nat): seq<Request>
    decreases m
  {
    if m == 0 then [] else [WindowRequest(sid, k)] + WindowRequests(sid, k + 1, m - 1)
  }

  /** The server's reply to the request for window k. */
  function WindowReply(ranges: RangeService, sid: Option<SessionId>, k: nat): Result<Ranged, string> {
    ranges(sid, RangeSize * k, RangeSize * k + RangeSize)
  }

  /** Window k is served with samples: the loop appends them and goes on. */
  predicate Continues(ranges: RangeService, sid: Option<SessionId>, k: nat) {
    && WindowReply(ranges, sid, k).Success?
    && WindowReply(ranges, sid, k).value.hasSampleRange
    && |WindowReply(ranges, sid, k).value.udt.samples| > 0
  }

  /** Window k is served empty: the loop stops there. */
  predicate Ends(ranges: RangeService, sid: Option<SessionId>, k: nat) {
    && WindowReply(ranges, sid, k).Success?
    && WindowReply(ranges, sid, k).value.hasSampleRange
    && |WindowReply(ranges, sid, k).value.udt.samples| == 0
  }

  /** The samples window k was served with (none if it was rejected). */
  function WindowSamples(ranges: RangeService, sid: Option<SessionId>, k: nat): seq<Sample> {
    match WindowReply(ranges, sid, k)
    case Success(w) => w.udt.samples
    case Failure(_) => []
  }

  /** The samples of windows k .. k+m-1, concatenated in request order. */
  function Received(ranges: RangeService, sid: Option<SessionId>, k: nat, m: nat): seq<Sample>
    decreases m
  {
    if m == 0 then [] else WindowSamples(ranges, sid, k) + Received(ranges, sid, k + 1, m - 1)
  }

  /** How the window loop ended: at an empty window, by a throw, or (in the
      model only) by running out of fuel. */
  datatype Transfer = Ended(last: Ranged, samples: seq<Sample>) | Threw(error: Error) | OutOfFuel

  datatype Downloaded = Downloaded(sent: seq<Request>, outcome: Transfer)

  /** What the window loop from window k on did, for a run with at most
      `fuel` requests that ended in `r`: it requested consecutive windows
      from k; every window but the last it requested was served with
      samples; it stopped at a window served empty, having gathered the
      samples of the windows before it in request order, or threw the
      reason of a rejected request, or threw `cause` at a reply without
      `sampleRange`, or used up its fuel on windows served with samples. */
  ghost predicate WindowRun(ranges: RangeService, sid: Option<SessionId>, cause: Error, k: nat, fuel: nat, r: Downloaded) {
    && |r.sent| <= fuel
    && r.sent == WindowRequests(sid, k, |r.sent|)
    && (forall j :: k <= j < k + |r.sent| - 1 ==> Continues(ranges, sid, j))
    && (r.outcome.OutOfFuel? ==> |r.sent| == fuel && (fuel > 0 ==> Continues(ranges, sid, k + fuel - 1)))
    && (r.outcome.Ended? ==>
          && |r.sent| >= 1
          && Ends(ranges, sid, k + |r.sent| - 1)
          && r.outcome.last == WindowReply(ranges, sid, k + |r.sent| - 1).value
          && r.outcome.samples == Received(ranges, sid, k, |r.sent| - 1))
    && (r.outcome.Threw? ==>
          && |r.sent| >= 1
          && var w := WindowReply(ranges, sid, k + |r.sent| - 1);
          || (w.Failure? && r.outcome.error == Transport(w.error))
          || (w.Success? && !w.value.hasSampleRange && r.outcome.error == cause))
  }

  /** A window served with samples followed by a run from window k + 1 is
      a run from window k. */
  lemma WindowRunStep(ranges: RangeService, sid: Option<SessionId>, cause: Error, k: nat, fuel: nat, rest: Downloaded)
    requires Continues(ranges, sid, k)
    requires WindowRun(ranges, sid, cause, k + 1, fuel, rest)
    ensures WindowRun(ranges, sid, cause, k, fuel + 1,
      Downloaded([WindowRequest(sid, k)] + rest.sent,
        match rest.outcome
        case Ended(last, more) => Ended(last, WindowReply(ranges, sid, k).value.udt.samples + more)
        case other => other))
  {
    assert ([WindowRequest(sid, k)] + rest.sent)[1..] == rest.sent;
  }

  /** The window loop from window k on, with at most `fuel` more requests.
      A rejected request throws its reason; a reply without `sampleRange`
      throws `cause`; an empty window ends the loop with the samples of the
      windows before it. */
  function Windows(ranges: RangeService, sid: Option<SessionId>, cause: Error, k: nat, fuel: nat): (r: Downloaded)
    ensures WindowRun(ranges, sid, cause, k, fuel, r)
    decreases fuel
  {
    if fuel == 0 then Downloaded([], OutOfFuel)
    else
      var req := WindowRequest(sid, k);
      assert [req] == WindowRequests(sid, k, 1);
      match WindowReply(ranges, sid, k)
      case Failure(reason) => Downloaded([req], Threw(Transport(reason)))
      case Success(w) =>
        if !w.hasSampleRange then Downloaded([req], Threw(cause))
        else if |w.udt.samples| == 0 then Downloaded([req], Ended(w, []))
        else
          var rest := Windows(ranges, sid, cause, k + 1, fuel - 1);
          WindowRunStep(ranges, sid, cause, k, fuel - 1, rest);
          Downloaded([req] + rest.sent,
            match rest.outcome
            case Ended(last, more) => Ended(last, w.udt.samples + more)
            case other => other)
  }

  /** `getLatestState`: sends the direct fetch, discards its reply, and
      always reads the session through the window loop; the reassembled
      dataset keeps the last reply's other fields and version. Every throw
      is wrapped with the session id. */
  function GetLatestState(e: Engine, srv: Server, h: Handler, fuel: nat): (r: Step<Fetched>)
    ensures r.handler == h
    ensures |r.sent| >= 1 && r.sent[0] == GetSession(h.sessionId)
    ensures r.sent[1..] == WindowRequests(h.sessionId, 0, |r.sent| - 1)
    ensures forall j :: 0 <= j < |r.sent| - 2 ==> Continues(srv.range, h.sessionId, j)
    ensures r.result.Success? ==>
      var m := |r.sent| - 1;
      && m >= 1
      && Ends(srv.range, h.sessionId, m - 1)
      && var last := WindowReply(srv.range, h.sessionId, m - 1).value;
      && r.result.value.state == Doc(last.udt.fields, Received(srv.range, h.sessionId, 0, m - 1))
      && r.result.value.version == last.version
      && (r.result.value.hashMatched <==> e.hash(Some(r.result.value.state)) == last.hashOfLatestState)
    ensures r.result.Failure? ==>
      || (r.result.error == Diverged && |r.sent| == fuel + 1)
      || (&& |r.sent| >= 2
          && var w := WindowReply(srv.range, h.sessionId, |r.sent| - 2);
          || (w.Failure? && r.result.error == Wrapped(h.sessionId, Transport(w.error)))
          || (w.Success? && !w.value.hasSampleRange
              && r.result.error == Wrapped(h.sessionId, FallbackCause(srv, h.sessionId))))
  {
    var sid := h.sessionId;
    var t := Windows(srv.range, sid, FallbackCause(srv, sid), 0, fuel);
    assert ([GetSession(sid)] + t.sent)[1..] == t.sent;
    Step(h, [GetSession(sid)] + t.sent,
      match t.outcome
      case Ended(last, samples) =>
        var doc := Doc(last.udt.fields, samples);
        Success(Fetched(doc, last.version, e.hash(Some(doc)) == last.hashOfLatestState))
      case Threw(err) => Failure(Wrapped(sid, err))
      case OutOfFuel => Failure(Diverged))
  }

  // ---------------------------------------------------------------------
  // updateToLatestState, joinSession

  /** `updateToLatestState`: overwrites `state` and `version` with whatever
      the fetch returns; a failed fetch changes nothing and rethrows. */
  function UpdateToLatestState(e: Engine, srv: Server, h: Handler, fuel: nat): (r: Step<()>)
    ensures r.handler.sessionId == h.sessionId
    ensures r.sent == GetLatestState(e, srv, h, fuel).sent
    ensures var g := GetLatestState(e, srv, h, fuel).result;
      && (g.Success? ==>
            r.result.Success? && r.handler.state == Some(g.value.state) && r.handler.version == Some(g.value.version))
      && (g.Failure? ==> r.result == Failure(g.error) && r.handler == h)
  {
    var g := GetLatestState(e, srv, h, fuel);
    match g.result
    case Success(f) => Step(h.(state := Some(f.state), version := Some(f.version)), g.sent, Success(()))
    case Failure(err) => Step(h, g.sent, Failure(err))
  }

  /** `joinSession`: takes the session id, then refetches under it. */
  function JoinSession(e: Engine, srv: Server, h: Handler, sid: SessionId, fuel: nat): (r: Step<()>)
    ensures r.handler.sessionId == Some(sid)
    ensures |r.sent| >= 1 && r.sent[0] == GetSession(Some(sid))
    ensures r.sent == GetLatestState(e, srv, h.(sessionId := Some(sid)), fuel).sent
    ensures var g := GetLatestState(e, srv, h.(sessionId := Some(sid)), fuel).result;
      && (g.Success? ==>
            r.result.Success? && r.handler.state == Some(g.value.state) && r.handler.version == Some(g.value.version))
      && (g.Failure? ==> r.result == Failure(g.error) && r.handler == h.(sessionId := Some(sid)))
  {
    UpdateToLatestState(e, srv, h.(sessionId := Some(sid)), fuel)
  }

  // ---------------------------------------------------------------------
  // The hash check shared by applyLatestPatches and sendPatchIfChanged

  /** After a mutating exchange: commits `candidate` at `latest` when its
      hash equals the one the server declared, and otherwise discards the
      local copy and refetches. No request is sent exactly when the hashes
      agree, and a commit without a refetch is always hash-verified. */
  function Reconcile(e: Engine, srv: Server, h: Handler, candidate: State, latest: Version, declared: Hash, fuel: nat): (r: Step<()>)
    ensures r.handler.sessionId == h.sessionId
    ensures |r.sent| == 0 <==> e.hash(candidate) == declared
    ensures |r.sent| == 0 ==>
      && r.result.Success?
      && r.handler == h.(state := candidate, version := Some(latest))
      && e.hash(r.handler.state) == declared
    ensures |r.sent| > 0 ==> r == UpdateToLatestState(e, srv, h, fuel)
  {
    if e.hash(candidate) != declared then UpdateToLatestState(e, srv, h, fuel)
    else Step(h.(state := candidate, version := Some(latest)), [], Success(()))
  }

  // ---------------------------------------------------------------------
  // applyLatestPatches

  /** What applyLatestPatches returns when there was something to apply. */
  datatype Applied = Applied(patch: Patch, changeLog: HumanLog)

  /** The pending change needs applying: a non-empty patch to a version
      other than the one held. */
  predicate Pending(q: Diffs, v: Option<Version>) {
    |q.patch| > 0 && Some(q.latestVersion) != v
  }

  /** `applyLatestPatches`, with `readable` for `getHumanReadableLog`:
      asks for the patches since the held version. Nothing pending is a
      no-op returning null; otherwise the patch is applied locally and
      kept only if the result's hash is the server's, else the handler
      refetches; either way the patch and change log are returned. */
  function ApplyLatestPatches(e: Engine, srv: Server, readable: ChangeLog -> HumanLog, h: Handler, fuel: nat): (r: Step<Option<Applied>>)
    ensures r.handler.sessionId == h.sessionId
    ensures |r.sent| >= 1 && r.sent[0] == GetDiffs(h.sessionId, h.version)
    ensures var q := srv.diffs(h.sessionId, h.version);
      && (q.Failure? ==> r == Step(h, [r.sent[0]], Failure(Transport(q.error))))
      && (r.result == Success(None) <==> q.Success? && !Pending(q.value, h.version))
      && (r.result == Success(None) ==> r.handler == h && |r.sent| == 1)
      && (q.Success? && Pending(q.value, h.version) ==>
            var candidate := e.apply(h.state, q.value.patch);
            var returned := Some(Applied(q.value.patch, readable(q.value.changeLog)));
            && (e.hash(candidate) == q.value.hashOfLatestState ==>
                  r == Step(h.(state := candidate, version := Some(q.value.latestVersion)), [r.sent[0]], Success(returned)))
            && (e.hash(candidate) != q.value.hashOfLatestState ==>
                  var u := UpdateToLatestState(e, srv, h, fuel);
                  && r.handler == u.handler
                  && r.sent == [r.sent[0]] + u.sent
                  && r.result == (if u.result.Success? then Success(returned) else Failure(u.result.error))))
  {
    var req := GetDiffs(h.sessionId, h.version);
    match srv.diffs(h.sessionId, h.version)
    case Failure(reason) => Step(h, [req], Failure(Transport(reason)))
    case Success(q) =>
      if !Pending(q, h.version) then Step(h, [req], Success(None))
      else
        var log := readable(q.changeLog);
        var rec := Reconcile(e, srv, h, e.apply(h.state, q.patch), q.latestVersion, q.hashOfLatestState, fuel);
        Step(rec.handler, [req] + rec.sent,
          match rec.result
          case Success(_) => Success(Some(Applied(q.patch, log)))
          case Failure(err) => Failure(err))
  }

  // ---------------------------------------------------------------------
  // sendPatchIfChanged

  /** `sendPatchIfChanged`: diffs the held state against `newState`; an
      empty diff sends nothing and returns null. Otherwise it submits the
      patch and commits `newState` at the reply's version only when
      `newState`'s hash is the server's, else refetches; either way it
      returns the handler itself. */
  function SendPatchIfChanged(e: Engine, srv: Server, h: Handler, newState: Doc, fuel: nat): (r: Step<Option<Handler>>)
    ensures r.handler.sessionId == h.sessionId
    ensures var p := e.diff(h.state, Some(newState));
      && (|p| == 0 ==> r == Step(h, [], Success(None)))
      && (|p| > 0 ==>
            && |r.sent| >= 1
            && r.sent[0] == PatchSession(h.sessionId, p)
            && (r.result.Success? ==> r.result.value == Some(r.handler))
            && var q := srv.submit(h.sessionId, p);
            && (q.Failure? ==> r == Step(h, [r.sent[0]], Failure(Transport(q.error))))
            && (q.Success? && e.hash(Some(newState)) == q.value.hashOfLatestState ==>
                  && r.handler == h.(state := Some(newState), version := Some(q.value.latestVersion))
                  && |r.sent| == 1
                  && r.result == Success(Some(r.handler)))
            && (q.Success? && e.hash(Some(newState)) != q.value.hashOfLatestState ==>
                  var u := UpdateToLatestState(e, srv, h, fuel);
                  && r.handler == u.handler && r.sent == [r.sent[0]] + u.sent
                  && r.result == (if u.result.Success? then Success(Some(u.handler)) else Failure(u.result.error))))
  {
    var p := e.diff(h.state, Some(newState));
    if |p| == 0 then Step(h, [], Success(None))
    else
      var req := PatchSession(h.sessionId, p);
      match srv.submit(h.sessionId, p)
      case Failure(reason) => Step(h, [req], Failure(Transport(reason)))
      case Success(q) =>
        var rec := Reconcile(e, srv, h, Some(newState), q.latestVersion, q.hashOfLatestState, fuel);
        Step(rec.handler, [req] + rec.sent,
          match rec.result
          case Success(_) => Success(Some(rec.handler))
          case Failure(err) => Failure(err))
  }
}
