/** The exchanges between the handler and the session server: the requests
    it sends, the replies it reads, and the errors it can throw. */
module Protocol {
  import opened Wrappers
  import opened Document

  /** The `short_id` the server assigns to a session. */
  type SessionId = string

  /** The server's version token; compared for equality only. */
  type Version(==)

  /** The raw `changeLog` of a diff reply. */
  type ChangeLog

  /** What `getHumanReadableLog` makes of a change log. */
  type HumanLog

  /** A request as it goes on the wire. A `None` session id or version is
      the `null` the handler starts with, interpolated into the path. */
  datatype Request =
    | PostSession(udt: Doc)                                          // POST /api/session
    | PatchSession(sessionId: Option<SessionId>, patch: Patch)       // PATCH /api/session/<id>
    | GetSession(sessionId: Option<SessionId>)                       // GET /api/session/<id>
    | GetRange(sessionId: Option<SessionId>, start: nat, end: nat)   // ...?sample_range=<start>-<end>
    | GetDiffs(sessionId: Option<SessionId>, since: Option<Version>) // .../diffs?since=<version>

  /** Reply to the creation request. */
  datatype Created = Created(shortId: SessionId, version: Version)

  /** Reply to a submitted patch. */
  datatype Submitted = Submitted(hashOfLatestState: Hash, latestVersion: Version)

  /** Reply to the direct fetch of a whole session. */
  datatype Full = Full(udt: Doc, version: Version)

  /** Reply to a ranged fetch: `udt` carries only the requested window of
      samples, and `hasSampleRange` says whether the `sampleRange` echo was
      present. */
  datatype Ranged = Ranged(hasSampleRange: bool, udt: Doc, version: Version, hashOfLatestState: Hash)

  /** Reply to a request for the patches accepted since a version. */
  datatype Diffs = Diffs(patch: Patch, hashOfLatestState: Hash, latestVersion: Version, changeLog: ChangeLog)

  /** The server's answers to ranged fetches, by session id, window start
      and window end. */
  type RangeService = (Option<SessionId>, nat, nat) -> Result<Ranged, string>

  /** The server, one reply function per kind of request. A failed request
      gives the HTTP client's rejection reason. */
  datatype Server = Server(
    create: Doc -> Result<Created, string>,
    submit: (Option<SessionId>, Patch) -> Result<Submitted, string>,
    fetch: Option<SessionId> -> Result<Full, string>,
    range: RangeService,
    diffs: (Option<SessionId>, Option<Version>) -> Result<Diffs, string>)

  /** What the handler's calls throw. */
  datatype Error =
    | Transport(reason: string)                            // a request was rejected
    | RangeRequired                                        // thrown right after the direct fetch
    | Wrapped(sessionId: Option<SessionId>, cause: Error)  // `error getting session "<id>": <cause>`
    | Diverged                                             // the window loop ran out of fuel (model only)
}
