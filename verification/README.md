# Collaboration handler — a Dafny model

This project models the session-synchronisation client of the Universal Data
Tool, the `CollaborationHandler` class. The handler keeps a local copy of a
collaborative dataset (`state`) and its server `version` in step with the
session server:

- `createSession` posts the dataset with its `samples` emptied. It then uploads
  the samples in passes of 40, one JSON patch per pass.
- `getLatestState` sends a direct fetch whose reply it always discards. It then
  reads the samples back in windows `i-(i+50)` until a window comes back empty,
  and concatenates them.
- `updateToLatestState` and `joinSession` overwrite the local copy with that
  refetch.
- `applyLatestPatches` pulls the server's pending patch. `sendPatchIfChanged`
  pushes the local change. Each one keeps its result only when its canonical
  hash equals the hash the server declares, and otherwise refetches everything.

The model is functional. The handler's three fields are an immutable record
`Handler(sessionId, state, version)`, where `None` is JavaScript's `null`. Each
call is a pure function that returns a `Step`: the fields afterwards (also when
the call throws), the requests it sent in order, and its return value or thrown
error. The server is a record of reply functions, one per kind of request
(`Protocol.Server`). The patch engine (`rfc6902.createPatch`,
`applySeamlessPatch`) and the canonical hash are a record of functions
(`Document.Engine`). `getHumanReadableLog` is a function parameter. A dataset is
`Doc(fields, samples)`, mirroring the `{ ...initialContent, samples }` spreads.
Lemmas that need the patch engine to be correct assume `Document.Lawful`:
applying `diff(a, b)` to `a` gives `b`, and `diff(a, a)` is empty.

Files: `wrappers.dfy` (Option, Result), `document.dfy` (dataset, engine),
`chunking.dfy` (the slicing arithmetic of the two loops), `protocol.dfy`
(requests, replies, errors), `collaboration.dfy` (the handler's calls),
`properties.dfy` (lemmas that relate calls to one another).

Points of the code that a reader might not expect, all modelled as written:
- The upload loop steps by 40 samples, although the comment at `handler.js:38`
  speaks of increments of 100.
- Line 67 throws as soon as the direct fetch succeeds. The direct fetch's reply
  is therefore never used, and every successful read goes through the windows.
- For 120 samples the windows are 0-50, 50-100, 100-150 and then the empty
  150-200, because the index steps by 50.
- A failed creation request throws the HTTP client's own error, unwrapped.

## Model

| member | source | states |
|---|---|---|
| `Collaboration.CreateSession` | src/utils/file-handlers/use-server/handler.js:30-58 | The creation request carries the dataset with `samples = []`. A rejected creation throws and leaves the handler untouched. Otherwise the session id is the reply's `short_id`. The PATCH requests submit, in order, the patch of each pass from snapshot k to snapshot k+1, never more than ceil(n/40) of them. On success there are exactly ceil(n/40), `state` is the initial dataset, and `version` is threaded through the replies, starting from the creation reply's version. A throw comes from the last pass sent: that pass was rejected, the error is its rejection reason, and the passes before it were accepted. `state` is then unchanged, and `version` is the last accepted one. |
| `SyncProperties.CreateSessionSucceeds` | src/utils/file-handlers/use-server/handler.js:32-57 | Once the creation request is accepted, createSession succeeds if and only if the server accepts every one of the ceil(n/40) upload passes. |
| `Collaboration.Upload` | src/utils/file-handlers/use-server/handler.js:38-55 | The upload loop from pass k. It sends one PATCH per remaining pass and never more than the passes left. It finishes only when every pass was accepted. It throws the reason of the first rejected pass, and the passes before that one were accepted. |
| `Chunking.UploadPassRuns` | src/utils/file-handlers/use-server/handler.js:40 | Pass k, with loop index i = 40k, runs exactly when k < ceil(n/40). |
| `Chunking.UploadGrowth` | src/utils/file-handlers/use-server/handler.js:39-44 | Each pass's samples `slice(0, 40(k+1))` extend the previous snapshot's samples, by at most 40. They grow strictly exactly while the loop still runs. After the last pass the snapshot holds the full list. |
| `Collaboration.VersionIsLastAccepted` | src/utils/file-handlers/use-server/handler.js:46-54 | After accepted passes, `version` is the `latestVersion` of the last one, or the starting version if there were none. |
| `SyncProperties.UploadRebuildsDocument` | src/utils/file-handlers/use-server/handler.js:39-53 | For a lawful engine, applying the upload's patches in order to the emptied baseline rebuilds the dataset, whether or not 40 divides the sample count. |
| `SyncProperties.CreateSessionOutcome` | src/utils/file-handlers/use-server/handler.js:32-57 | After a successful createSession, the session id is the creation reply's id. The requests are the post plus ceil(n/40) patches. Applying those patches to the posted baseline yields the `state` now held, which is the initial dataset. |
| `SyncProperties.CreateSessionVersion` | src/utils/file-handlers/use-server/handler.js:35-54 | After a successful createSession, `version` is the `latestVersion` of the last pass, or the creation reply's version when there are no samples. |
| `SyncProperties.UploadOfHundred` | src/utils/file-handlers/use-server/handler.js:40-44 | 100 samples take three passes, adding 40, 40 and 20 samples, and the third snapshot is the whole dataset. |
| `SyncProperties.CreateWithoutSamples` | src/utils/file-handlers/use-server/handler.js:32-57 | With 0 samples, only the post is sent and nothing is submitted. The handler ends at the creation reply's id and version, holding the dataset. |
| `Collaboration.Windows` | src/utils/file-handlers/use-server/handler.js:70-80 | The window loop requests consecutive windows `50k-(50k+50)`. Every window before the last one it requested was served with samples. It stops at the first empty window and returns the earlier windows' samples, concatenated in request order. A rejected request throws its reason. A reply without `sampleRange` throws the held error. |
| `Collaboration.GetLatestState` | src/utils/file-handlers/use-server/handler.js:60-96 | It sends the direct fetch first and then always takes the ranged path. It never changes the handler. On success it returns the last (empty) reply's other fields with the concatenated samples, and that reply's version. It also reports whether the hashes matched. Every throw is wrapped with the session id. A reply without `sampleRange` throws the direct fetch's own error, or the forced one from line 67. |
| `Chunking.WindowStep` | src/utils/file-handlers/use-server/handler.js:71-79 | Appending window k to the samples before it gives the prefix up to window k+1. A window is empty exactly from window ceil(n/50) on. |
| `Chunking.WindowTail` | src/utils/file-handlers/use-server/handler.js:71-79 | Window k followed by the rest is the list from window k's start. Nothing is left from window ceil(n/50) on. |
| `SyncProperties.SliceWindowKinds` | src/utils/file-handlers/use-server/handler.js:77-79 | Take a server that returns `s[min(i,n)..min(i+50,n)]` for each window. It serves samples exactly for windows before ceil(n/50) and empty windows from there on. |
| `Chunking.WindowsFill` | src/utils/file-handlers/use-server/handler.js:78-81 | Windows k .. k+m-1, appended to the prefix before window k, give the prefix before window k+m. |
| `Chunking.WindowsCover` | src/utils/file-handlers/use-server/handler.js:71-81 | The windows before the first empty one, concatenated, give back the whole list. |
| `SyncProperties.ReceivedSlices` | src/utils/file-handlers/use-server/handler.js:78-81 | Against such a server, the samples the loop gathers are exactly the requested windows of `s`, concatenated in request order. |
| `SyncProperties.WindowsEndAt` | src/utils/file-handlers/use-server/handler.js:71-80 | Given enough fuel, and a server that serves windows 0 .. m-1 with samples and window m empty, the loop requests exactly m+1 windows. It ends at window m with that reply and the samples of the windows before it. |
| `SyncProperties.SlicedWindows` | src/utils/file-handlers/use-server/handler.js:70-81 | Against a server serving slices of `s`, given enough fuel, the loop ends at window ceil(n/50) and has gathered exactly `s`. |
| `SyncProperties.RangedFetchReassembles` | src/utils/file-handlers/use-server/handler.js:70-90 | Against such a server, getLatestState succeeds. It sends 1 + ceil(n/50) + 1 requests and returns exactly `s`, with the last reply's fields and version. |
| `SyncProperties.RangedFetchOf120` | src/utils/file-handlers/use-server/handler.js:71-78 | For 120 samples the requests are the direct fetch, then 0-50, 50-100, 100-150 and 150-200. |
| `SyncProperties.FourWindowFetch` | src/utils/file-handlers/use-server/handler.js:64-78 | A getLatestState that sent five requests sent the direct fetch and then the windows 0-50, 50-100, 100-150 and 150-200, in that order. |
| `SyncProperties.DirectReplyDiscarded` | src/utils/file-handlers/use-server/handler.js:63-68 | Two servers give the same outcome, whatever their direct fetches return, as long as both direct fetches succeed and they answer the window requests the same way. |
| `SyncProperties.HashMismatchOnlyLogged` | src/utils/file-handlers/use-server/handler.js:83-85 | Any hash gives the same requests, the same dataset and version, and the same refetch. A mismatch is only logged. |
| `Collaboration.UpdateToLatestState` | src/utils/file-handlers/use-server/handler.js:98-102 | On success, `state` and `version` are overwritten with the fetched values and the session id is kept. A failed fetch rethrows and changes nothing. |
| `SyncProperties.RefetchForgetsLocalCopy` | src/utils/file-handlers/use-server/handler.js:98-102 | The outcome of a refetch depends only on the session id, not on the state or version held before. |
| `Collaboration.JoinSession` | src/utils/file-handlers/use-server/handler.js:104-107 | The session id is set first, even if the refetch then fails. The requests are exactly those of the refetch under the new id. On success `state` and `version` are its values, and a failed refetch rethrows. |
| `SyncProperties.JoinAdoptsServerCopy` | src/utils/file-handlers/use-server/handler.js:104-107 | Any handler that joins a session serving slices of `s` ends holding exactly `s` under the joined id. |
| `Collaboration.Reconcile` | src/utils/file-handlers/use-server/handler.js:129-136 | This is the hash check that both mutating calls make; sendPatchIfChanged makes the same check at lines 152-161. No request is sent exactly when the candidate's hash equals the declared one, and then the candidate is committed at the latest version, hash-verified. Otherwise the result is the full refetch. |
| `Collaboration.ApplyLatestPatches` | src/utils/file-handlers/use-server/handler.js:109-138 | The call asks for the diffs since the held version. It returns null exactly when the reply's patch is empty or its `latestVersion` equals the held version, and then the handler is unchanged. Otherwise, when the hashes match, it commits `apply(state, patch)` at `latestVersion` with no other request. When they do not match, it takes the refetch's fields. It returns `{patch, changeLog}` in both cases, unless the refetch throws. |
| `SyncProperties.NoOpPullRepeats` | src/utils/file-handlers/use-server/handler.js:121-123 | A pull that returned null changed nothing, so the same pull again returns null again. |
| `SyncProperties.SecondPullIsNoOp` | src/utils/file-handlers/use-server/handler.js:116-123 | After a successful pull, a second pull returns null and leaves the handler unchanged, as long as the server still reports the held version. |
| `SyncProperties.PullCatchesUp` | src/utils/file-handlers/use-server/handler.js:125-137 | For a lawful engine, suppose a pull receives the diff from the held state to `b`, together with `b`'s hash. It then commits `b` at the reported version without refetching. |
| `Collaboration.SendPatchIfChanged` | src/utils/file-handlers/use-server/handler.js:140-163 | An empty diff sends no request and returns null. Otherwise the call submits the diff. When `hash(newState)` equals `hashOfLatestState`, it commits `newState` at the reply's `latestVersion` with no other request and returns the handler. Otherwise it takes the refetch's fields and requests, and returns the handler, or rethrows the refetch's error. A rejected submit throws and changes nothing. |
| `Document.EmptyDiffIffEqual` | src/utils/file-handlers/use-server/handler.js:141-142 | For a lawful engine, the diff is empty exactly when the new state equals the held one. |
| `SyncProperties.PushOnlyWhenChanged` | src/utils/file-handlers/use-server/handler.js:141-142 | For a lawful engine, a push sends nothing and returns null if and only if the new state is the one already held. |
| `SyncProperties.PushLeavesVerifiedState` | src/utils/file-handlers/use-server/handler.js:152-162 | After a successful push, the handler is in one of two states. Either it holds `newState`, whose hash the server declared, at the reply's version, or it holds the result of a refetch that was triggered by a hash mismatch. |
| `SyncProperties.PushThenPullConverge` | src/utils/file-handlers/use-server/handler.js:127-161 | Take two handlers at the same point. One pushes `b` and the server confirms it. The other pulls that change. Both end at `b` and at the same version, and neither refetches. |

## Left out

- The `bent` HTTP clients, `serverUrl` and the async sequencing. Each request is a pure reply function of the request's contents, so two identical requests within one call would get the same reply.
- The `userName` sent with each PATCH, including its random anonymous default. It is nondeterministic and plays no part in the state logic, so PATCH requests carry only the session id and the patch.
- `encodeURIComponent`, `console.log`/`console.error`, and the text of error messages. The wrapped error keeps the session id and the cause instead of the formatted string. Only whether the hashes matched after reassembly is kept.
- The internals of `rfc6902`, `apply-seamless-patch.js`, `server-hash.js` and `get-human-readable-log.js`. These files are not part of this model, so they are parameters. Applying a patch is total. A throw from `applySeamlessPatch` would propagate out of `applyLatestPatches`, and that is not modelled.
- Collaboration.Windows: the loop at line 71 has no bound and keeps requesting for as long as the server serves samples. The model allows at most `fuel` window requests and reports `Diverged` when they run out. Servers that never serve an empty window within that bound are therefore not described.
- Type errors from malformed replies, such as a missing `udt_json` or a `patch` that is not an array. Replies are well-formed records.
- Sharing of the `initialContent` object between `state` and the caller. Values are immutable here.
- Floating-point behaviour of the loop indexes beyond 2^53.
- `cypress/integration/create-and-visit-collobration-session.spec.js`, a browser UI test with no logic to model.
