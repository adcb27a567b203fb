/** Properties of the collaboration handler that relate several calls, or a
    call to an independent description of what it should achieve. */
module SyncProperties {
  import opened Wrappers
  import opened Document
  import opened Chunking
  import opened Protocol
  import opened Collaboration

  // ---------------------------------------------------------------------
  // Chunked upload

  /** Applying the patches of passes k .. k+m-1 to pass k's snapshot gives
      the snapshot after them. */
  lemma {:induction false} UploadPatchesAdvance(e: Engine, d: Doc, k: nat, m: nat)
    requires Lawful(e)
    ensures ApplyAll(e, Some(Snapshot(d, k)), UploadPatches(e, d, k, m)) == Some(Snapshot(d, k + m))
    decreases m
  {
    if m > 0 {
      var ps := UploadPatches(e, d, k, m);
      assert ps[0] == UploadPatch(e, d, k);
      assert ps[1..] == UploadPatches(e, d, k + 1, m - 1);
      assert e.apply(Some(Snapshot(d, k)), ps[0]) == Some(Snapshot(d, k + 1));
      UploadPatchesAdvance(e, d, k + 1, m - 1);
    }
  }

  /** The upload's patches, applied in order to the emptied baseline,
      rebuild the dataset, whether or not 40 divides the sample count. */
  lemma UploadRebuildsDocument(e: Engine, d: Doc)
    requires Lawful(e)
    ensures ApplyAll(e, Some(Doc(d.fields, [])), UploadPatches(e, d, 0, UploadPasses(|d.samples|))) == Some(d)
  {
    UploadPatchesAdvance(e, d, 0, UploadPasses(|d.samples|));
    UploadGrowth(d.samples, 0);
    assert Snapshot(d, 0) == Doc(d.fields, []);
    assert Snapshot(d, UploadPasses(|d.samples|)) == d;
  }

  /** A successful createSession ends holding the dataset, and the server,
      applying what it was sent to what it was posted, arrives at the same
      dataset. */
  lemma CreateSessionOutcome(e: Engine, srv: Server, h: Handler, d: Doc)
    requires Lawful(e)
    requires srv.create(Doc(d.fields, [])).Success?
    requires CreateSession(e, srv, h, d).result.Success?
    ensures var r := CreateSession(e, srv, h, d);
      var ps := UploadPatches(e, d, 0, UploadPasses(|d.samples|));
      && r.handler.sessionId == Some(srv.create(Doc(d.fields, [])).value.shortId)
      && r.handler.state == Some(d)
      && r.sent == [PostSession(Doc(d.fields, []))] + Submissions(r.handler.sessionId, ps)
      && ApplyAll(e, Some(r.sent[0].udt), ps) == r.handler.state
  {
    var r := CreateSession(e, srv, h, d);
    assert r.sent == [r.sent[0]] + r.sent[1..];
    UploadRebuildsDocument(e, d);
  }

  /** A successful createSession ends at the version of the last pass it
      submitted, or at the creation reply's version when there were no
      samples. */
  lemma CreateSessionVersion(e: Engine, srv: Server, h: Handler, d: Doc)
    requires srv.create(Doc(d.fields, [])).Success?
    requires CreateSession(e, srv, h, d).result.Success?
    ensures var c := srv.create(Doc(d.fields, [])).value;
      var v := CreateSession(e, srv, h, d).handler.version;
      && (|d.samples| == 0 ==> v == Some(c.version))
      && (|d.samples| > 0 ==>
            v == Some(srv.submit(Some(c.shortId), UploadPatch(e, d, UploadPasses(|d.samples|) - 1)).value.latestVersion))
  {
    var c := srv.create(Doc(d.fields, [])).value;
    VersionIsLastAccepted(e, srv, Some(c.shortId), Some(c.version), d, 0, UploadPasses(|d.samples|));
  }

  /** createSession succeeds exactly when the creation request and every
      upload pass are accepted. */
  lemma CreateSessionSucceeds(e: Engine, srv: Server, h: Handler, d: Doc)
    requires srv.create(Doc(d.fields, [])).Success?
    ensures var sid := Some(srv.create(Doc(d.fields, [])).value.shortId);
      (CreateSession(e, srv, h, d).result.Success? <==> Accepted(e, srv, sid, d, 0, UploadPasses(|d.samples|)))
  {
    var sid := Some(srv.create(Doc(d.fields, [])).value.shortId);
    var r := CreateSession(e, srv, h, d);
    var passes := |r.sent| - 1;
    if r.result.Failure? {
      // The rejected pass is one of the passes the loop had to run.
      assert 0 <= passes - 1 < UploadPasses(|d.samples|);
      assert !srv.submit(sid, UploadPatch(e, d, passes - 1)).Success?;
    }
  }

  /** One hundred samples go up in three passes of 40, 40 and 20. */
  lemma UploadOfHundred(e: Engine, srv: Server, h: Handler, d: Doc)
    requires |d.samples| == 100
    requires srv.create(Doc(d.fields, [])).Success?
    requires CreateSession(e, srv, h, d).result.Success?
    ensures |CreateSession(e, srv, h, d).sent| == 1 + 3
    ensures |Snapshot(d, 1).samples| == 40
    ensures |Snapshot(d, 2).samples| - |Snapshot(d, 1).samples| == 40
    ensures |Snapshot(d, 3).samples| - |Snapshot(d, 2).samples| == 20
    ensures Snapshot(d, 3) == d
  {
  }

  /** With no samples, createSession posts once, submits nothing, and keeps
      the creation reply's version. */
  lemma CreateWithoutSamples(e: Engine, srv: Server, h: Handler, d: Doc)
    requires |d.samples| == 0
    requires srv.create(Doc(d.fields, [])).Success?
    ensures var c := srv.create(Doc(d.fields, [])).value;
      CreateSession(e, srv, h, d)
        == Step(Handler(Some(c.shortId), Some(d), Some(c.version)), [PostSession(Doc(d.fields, []))], Success(()))
  {
    assert d == Doc(d.fields, []);
  }

  // ---------------------------------------------------------------------
  // Ranged download

  /** The server answers every window request from the loop with that
      window of `s`, echoing `sampleRange`. */
  ghost predicate ServesSlices(ranges: RangeService, sid: Option<SessionId>, s: seq<Sample>) {
    forall k: nat :: WindowReply(ranges, sid, k).Success?
      && WindowReply(ranges, sid, k).value.hasSampleRange
      && WindowReply(ranges, sid, k).value.udt.samples == Window(s, k)
  }

  /** Against a server serving slices of `s`, window k is served with
      samples exactly before window RangeWindows(|s|), and empty from there. */
  lemma SliceWindowKinds(ranges: RangeService, sid: Option<SessionId>, s: seq<Sample>, k: nat)
    requires ServesSlices(ranges, sid, s)
    ensures Continues(ranges, sid, k) <==> k < RangeWindows(|s|)
    ensures Ends(ranges, sid, k) <==> RangeWindows(|s|) <= k
    ensures WindowSamples(ranges, sid, k) == Window(s, k)
  {
    WindowStep(s, k);
  }

  /** Against a server serving slices of `s`, the loop gathers exactly the
      windows of `s` it requested. */
  lemma {:induction false} ReceivedSlices(ranges: RangeService, sid: Option<SessionId>, s: seq<Sample>, k: nat, m: nat)
    requires ServesSlices(ranges, sid, s)
    ensures Received(ranges, sid, k, m) == Windowed(s, k, m)
    decreases m
  {
    if m > 0 {
      assert WindowSamples(ranges, sid, k) == Window(s, k);
      ReceivedSlices(ranges, sid, s, k + 1, m - 1);
    }
  }

  /** A window loop with enough fuel, against a server that serves windows
      0 .. m-1 with samples and window m empty, requests exactly those
      m + 1 windows and ends at window m. */
  lemma WindowsEndAt(ranges: RangeService, sid: Option<SessionId>, cause: Error, m: nat, fuel: nat)
    requires m < fuel
    requires forall j :: 0 <= j < m ==> Continues(ranges, sid, j)
    requires Ends(ranges, sid, m)
    ensures var t := Windows(ranges, sid, cause, 0, fuel);
      && t.outcome.Ended?
      && |t.sent| == m + 1
      && t.outcome.last == WindowReply(ranges, sid, m).value
      && t.outcome.samples == Received(ranges, sid, 0, m)
  {
    var t := Windows(ranges, sid, cause, 0, fuel);
    // Window m is not served with samples, so the loop cannot go past it.
    assert !Continues(ranges, sid, m);
    assert |t.sent| <= m + 1;
    // Nor can it stop before it: windows before m are served with samples.
    assert 0 < |t.sent| <= m ==> Continues(ranges, sid, |t.sent| - 1);
  }

  /** Against a server serving slices of `s`, the window loop with enough
      fuel ends at window ceil(n / 50), the first empty one, having
      gathered exactly `s`. */
  lemma SlicedWindows(ranges: RangeService, sid: Option<SessionId>, cause: Error, s: seq<Sample>, fuel: nat)
    requires ServesSlices(ranges, sid, s)
    requires RangeWindows(|s|) < fuel
    ensures var t := Windows(ranges, sid, cause, 0, fuel);
      && t.outcome.Ended?
      && |t.sent| == RangeWindows(|s|) + 1
      && t.outcome.samples == s
      && t.outcome.last == WindowReply(ranges, sid, RangeWindows(|s|)).value
  {
    var m := RangeWindows(|s|);
    forall j | 0 <= j < m
      ensures Continues(ranges, sid, j)
    {
      SliceWindowKinds(ranges, sid, s, j);
    }
    SliceWindowKinds(ranges, sid, s, m);
    WindowsEndAt(ranges, sid, cause, m, fuel);
    ReceivedSlices(ranges, sid, s, 0, m);
    WindowsCover(s);
  }

  /** getLatestState against a server serving slices of `s`: one direct
      fetch, then ceil(n / 50) non-empty windows and one empty one, and the
      reassembled samples are exactly `s`. */
  lemma RangedFetchReassembles(e: Engine, srv: Server, h: Handler, s: seq<Sample>, fuel: nat)
    requires ServesSlices(srv.range, h.sessionId, s)
    requires RangeWindows(|s|) < fuel
    ensures var r := GetLatestState(e, srv, h, fuel);
      && r.result.Success?
      && r.result.value.state.samples == s
      && |r.sent| == 1 + RangeWindows(|s|) + 1
      && r.result.value.version == WindowReply(srv.range, h.sessionId, RangeWindows(|s|)).value.version
      && r.result.value.state.fields == WindowReply(srv.range, h.sessionId, RangeWindows(|s|)).value.udt.fields
  {
    SlicedWindows(srv.range, h.sessionId, FallbackCause(srv, h.sessionId), s, fuel);
  }

  /** 120 samples are read with the windows 0-50, 50-100, 100-150 and the
      empty 150-200. */
  lemma RangedFetchOf120(e: Engine, srv: Server, h: Handler, s: seq<Sample>, fuel: nat)
    requires |s| == 120 && ServesSlices(srv.range, h.sessionId, s)
    requires fuel >= 4
    ensures GetLatestState(e, srv, h, fuel).sent == [
      GetSession(h.sessionId),
      GetRange(h.sessionId, 0, 50), GetRange(h.sessionId, 50, 100),
      GetRange(h.sessionId, 100, 150), GetRange(h.sessionId, 150, 200)]
  {
    assert RangeWindows(120) == 3;
    RangedFetchReassembles(e, srv, h, s, fuel);
    FourWindowFetch(e, srv, h, fuel);
  }

  /** A getLatestState that sent five requests sent the direct fetch and
      the windows 0-50, 50-100, 100-150 and 150-200. */
  lemma FourWindowFetch(e: Engine, srv: Server, h: Handler, fuel: nat)
    requires |GetLatestState(e, srv, h, fuel).sent| == 5
    ensures GetLatestState(e, srv, h, fuel).sent == [
      GetSession(h.sessionId),
      GetRange(h.sessionId, 0, 50), GetRange(h.sessionId, 50, 100),
      GetRange(h.sessionId, 100, 150), GetRange(h.sessionId, 150, 200)]
  {
    FourWindowRequests(h.sessionId);
    var r := GetLatestState(e, srv, h, fuel);
    assert r.sent == [r.sent[0]] + r.sent[1..];
  }

  /** The first four window requests cover 0-200 in steps of 50. */
  lemma FourWindowRequests(sid: Option<SessionId>)
    ensures WindowRequests(sid, 0, 4) == [
      GetRange(sid, 0, 50), GetRange(sid, 50, 100), GetRange(sid, 100, 150), GetRange(sid, 150, 200)]
  {
    assert WindowRequests(sid, 3, 1) == [GetRange(sid, 150, 200)];
    assert WindowRequests(sid, 2, 2) == [GetRange(sid, 100, 150), GetRange(sid, 150, 200)];
    assert WindowRequests(sid, 1, 3) == [GetRange(sid, 50, 100), GetRange(sid, 100, 150), GetRange(sid, 150, 200)];
  }

  /** The direct fetch's reply is thrown away: two servers whose direct
      fetches both succeed, with whatever content, and that serve the same
      windows, give the same outcome. */
  lemma DirectReplyDiscarded(e: Engine, srv1: Server, srv2: Server, h: Handler, fuel: nat)
    requires srv1.fetch(h.sessionId).Success? && srv2.fetch(h.sessionId).Success?
    requires srv1.range == srv2.range
    ensures GetLatestState(e, srv1, h, fuel) == GetLatestState(e, srv2, h, fuel)
  {
    assert FallbackCause(srv1, h.sessionId) == FallbackCause(srv2, h.sessionId);
  }

  /** A hash mismatch after reassembly is only logged: whatever the hash,
      getLatestState sends the same requests and returns the same dataset
      and version, so the refetch does not depend on it at all. */
  lemma HashMismatchOnlyLogged(e1: Engine, e2: Engine, srv: Server, h: Handler, fuel: nat)
    ensures var r1 := GetLatestState(e1, srv, h, fuel);
      var r2 := GetLatestState(e2, srv, h, fuel);
      && r1.sent == r2.sent
      && r1.result.Success? == r2.result.Success?
      && (r1.result.Failure? ==> r1.result.error == r2.result.error)
      && (r1.result.Success? ==>
            r1.result.value.state == r2.result.value.state && r1.result.value.version == r2.result.value.version)
    ensures UpdateToLatestState(e1, srv, h, fuel) == UpdateToLatestState(e2, srv, h, fuel)
  {
  }

  // ---------------------------------------------------------------------
  // Refetch and join

  /** The refetch overwrites: what the handler holds afterwards depends on
      its session id only, not on the state or version it held before. */
  lemma RefetchForgetsLocalCopy(e: Engine, srv: Server, h1: Handler, h2: Handler, fuel: nat)
    requires h1.sessionId == h2.sessionId
    ensures UpdateToLatestState(e, srv, h1, fuel).sent == UpdateToLatestState(e, srv, h2, fuel).sent
    ensures UpdateToLatestState(e, srv, h1, fuel).result == UpdateToLatestState(e, srv, h2, fuel).result
    ensures UpdateToLatestState(e, srv, h1, fuel).result.Success? ==>
      UpdateToLatestState(e, srv, h1, fuel).handler == UpdateToLatestState(e, srv, h2, fuel).handler
  {
    assert h1.(state := h2.state, version := h2.version) == h2;
  }

  /** Joining a session that serves slices of `s` leaves any handler, fresh
      or not, holding those samples under the joined id. */
  lemma JoinAdoptsServerCopy(e: Engine, srv: Server, h: Handler, sid: SessionId, s: seq<Sample>, fuel: nat)
    requires ServesSlices(srv.range, Some(sid), s)
    requires RangeWindows(|s|) < fuel
    ensures var r := JoinSession(e, srv, h, sid, fuel);
      && r.result.Success?
      && r.handler.sessionId == Some(sid)
      && r.handler.state.Some?
      && r.handler.state.value.samples == s
      && r.handler.version == Some(WindowReply(srv.range, Some(sid), RangeWindows(|s|)).value.version)
  {
    RangedFetchReassembles(e, srv, h.(sessionId := Some(sid)), s, fuel);
  }

  // ---------------------------------------------------------------------
  // Pull

  /** A pull that found nothing pending changed nothing, so repeating it
      against the same server repeats it exactly. */
  lemma NoOpPullRepeats(e: Engine, srv: Server, readable: ChangeLog -> HumanLog, h: Handler, fuel: nat)
    requires ApplyLatestPatches(e, srv, readable, h, fuel).result == Success(None)
    ensures var r := ApplyLatestPatches(e, srv, readable, h, fuel);
      ApplyLatestPatches(e, srv, readable, r.handler, fuel) == r
  {
  }

  /** After a pull that committed, a second pull while the server still
      reports the committed version returns null and changes nothing. */
  lemma SecondPullIsNoOp(e: Engine, srv: Server, later: Server, readable: ChangeLog -> HumanLog, h: Handler, fuel: nat)
    requires ApplyLatestPatches(e, srv, readable, h, fuel).result.Success?
    requires var h1 := ApplyLatestPatches(e, srv, readable, h, fuel).handler;
      later.diffs(h1.sessionId, h1.version).Success?
      && Some(later.diffs(h1.sessionId, h1.version).value.latestVersion) == h1.version
    ensures var h1 := ApplyLatestPatches(e, srv, readable, h, fuel).handler;
      ApplyLatestPatches(e, later, readable, h1, fuel) == Step(h1, [GetDiffs(h1.sessionId, h1.version)], Success(None))
  {
  }

  /** A pull that receives the diff from the held state to `b`, with `b`'s
      hash, commits `b` at the reported version without refetching. */
  lemma PullCatchesUp(e: Engine, srv: Server, readable: ChangeLog -> HumanLog, h: Handler, b: Doc, latest: Version, log: ChangeLog, fuel: nat)
    requires Lawful(e)
    requires h.state != Some(b) && Some(latest) != h.version
    requires srv.diffs(h.sessionId, h.version) == Success(Diffs(e.diff(h.state, Some(b)), e.hash(Some(b)), latest, log))
    ensures ApplyLatestPatches(e, srv, readable, h, fuel)
      == Step(h.(state := Some(b), version := Some(latest)), [GetDiffs(h.sessionId, h.version)],
              Success(Some(Applied(e.diff(h.state, Some(b)), readable(log)))))
  {
    EmptyDiffIffEqual(e, h.state, Some(b));
  }

  // ---------------------------------------------------------------------
  // Push

  /** For a lawful engine, a push sends nothing and returns null exactly
      when the new state is the one already held. */
  lemma PushOnlyWhenChanged(e: Engine, srv: Server, h: Handler, newState: Doc, fuel: nat)
    requires Lawful(e)
    ensures SendPatchIfChanged(e, srv, h, newState, fuel) == Step(h, [], Success(None)) <==> h.state == Some(newState)
  {
    EmptyDiffIffEqual(e, h.state, Some(newState));
  }

  /** A successful push never leaves the handler at an unverified state:
      either it holds `newState`, whose hash the server declared, at the
      reply's version, or it holds what the refetch returned. */
  lemma PushLeavesVerifiedState(e: Engine, srv: Server, h: Handler, newState: Doc, fuel: nat)
    requires e.diff(h.state, Some(newState)) != []
    requires SendPatchIfChanged(e, srv, h, newState, fuel).result.Success?
    ensures var q := srv.submit(h.sessionId, e.diff(h.state, Some(newState))).value;
      var r := SendPatchIfChanged(e, srv, h, newState, fuel);
      || (&& r.handler == h.(state := Some(newState), version := Some(q.latestVersion))
          && e.hash(r.handler.state) == q.hashOfLatestState)
      || (&& e.hash(Some(newState)) != q.hashOfLatestState
          && UpdateToLatestState(e, srv, h, fuel).result.Success?
          && r.handler == UpdateToLatestState(e, srv, h, fuel).handler)
  {
  }

  /** Two handlers at the same state and version: one pushes `b` and the
      server confirms it; the other then pulls the same change. Both end at
      `b` and the same version, neither refetching. */
  lemma PushThenPullConverge(e: Engine, srv: Server, later: Server, readable: ChangeLog -> HumanLog, hA: Handler, hB: Handler, b: Doc, latest: Version, log: ChangeLog, fuel: nat)
    requires Lawful(e)
    requires hA == hB && hA.state != Some(b) && Some(latest) != hA.version
    requires srv.submit(hA.sessionId, e.diff(hA.state, Some(b))) == Success(Submitted(e.hash(Some(b)), latest))
    requires later.diffs(hB.sessionId, hB.version) == Success(Diffs(e.diff(hB.state, Some(b)), e.hash(Some(b)), latest, log))
    ensures var a := SendPatchIfChanged(e, srv, hA, b, fuel);
      var p := ApplyLatestPatches(e, later, readable, hB, fuel);
      && a.handler == p.handler
      && a.handler.state == Some(b) && a.handler.version == Some(latest)
      && |a.sent| == 1 && |p.sent| == 1
  {
    EmptyDiffIffEqual(e, hA.state, Some(b));
    PullCatchesUp(e, later, readable, hB, b, latest, log, fuel);
  }
}
