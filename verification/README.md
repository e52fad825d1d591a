# s3-wire: a verified model of its protocol cores

`s3-wire` is an S3 client. This project models the parts of it where a mistake would silently
damage an object, a signature or a retry budget, and proves what those parts promise:

- **Managed multipart upload** (`MultipartParts`, `ManagedUpload`, `ManagedUploadSafety`,
  `ManagedUploadRun`, `ManagedUploadProgress`, `ManagedUploadRules`). The scheduler, the server, the clock and the caller
  are one state machine; an execution is any sequence of enabled actions, so every interleaving is
  covered. The server keeps every accepted version of every part and may assemble any of those that
  match the submitted list. Success implies that the assembled object is the source. The imperative
  worker is proved to follow the machine step by step. While parts are being uploaded some
  continuation still completes the upload; from every state some continuation ends the run, and the
  worker's own actions never exceed the number of parts plus four.
- **Retry loop and shared token bucket** (`RetryPolicy`, `RetryQuota`, `RegionRedirect`, `RetryLoop`,
  `RetryRules`, `RetrySystem`, `RetryRun`). One run is proved against a bucket that others change at will; then any
  number of runs are interleaved over one bucket and the ledger of tokens, live permits and spent
  cost is balanced in every state. A redirect is proved to stay within the endpoint's own service.
- **SigV4 canonicalisation** (`Wire`, `Utf8`, `TextOrder`, `TextSplit`, `PercentCodec`, `CanonicalQuery`,
  `CanonicalHeaders`, `CanonicalRequest`, `CanonicalLayout`, `Endpoint`, `EndpointReading`). Round trips, idempotence, and exact
  characterisations (if and only if) of when two requests have the same canonical text.
- **Checksums** (`Gf2`, `Crc`, `CrcStandards`, `Base64`, `ChecksumHeader`). The table-driven CRCs equal the
  bit-serial definition and the remainder of polynomial division over GF(2); the digest validator
  accepts exactly the base64 encodings of section 4 of RFC 4648, with the zero trailing bits of its
  section 3.5.
- **Verified streams and paging** (`ByteSource`, `UploadBody`, `DownloadStream`, `Pagination`).

Conventions. Text is its UTF-8 bytes. `u32` and `u64` words are natural numbers, with the bound, the
saturation or the checked operation written out where the code has one. SHA-256 is an arbitrary
function on byte sequences. Time is a natural number, local computation takes none, and timers are
exact. A network answer is any value of its type. Where code waits (`select!`, `await`), a *script*
supplies what happens next: every script is allowed, and a step that cannot happen at that point is
passed over. In the retry loop and the streams a signature, an answer or a chunk may come at any time,
however late, and the timers that the code sets decide whether it still counts; in the managed upload
the clock stops at a timer until it has fired. `hide` statements inside proofs only keep definitions
away from the solver.

Every operation is stated twice: as the code computes it, and in terms of what can be seen from outside,
in the modules ending in `Rules`, `Layout`, `Reading` and `Standards` and in the lemmas ending in
`Exactly`. Those statements name none of the functions they are about but the one observed.

Two places where the code and a natural expectation part ways, both stated as lemmas:

- An endpoint's base path is kept as given, so the signed path equals the wire path if and only if
  that base path is itself canonical (`Endpoint.SignedPathIsWirePath`); the base path `/+/` is one
  that is not (`Endpoint.UncanonicalBase`).
- The seen-set of `list_parts_all` never decides anything, because the markers it accepts strictly
  increase (`Pagination.SeenSetIsRedundant`).

## Model

| member | source | states |
|---|---|---|
| `MultipartParts.NewOptions` | src/operation/multipart/managed.rs:31-56 | Options are accepted exactly from 5 MiB to 5 GiB and from 1 to 64 requests, with the part size checked first; the checked product never overflows there. |
| `MultipartParts.ReadPartSucceeds` | src/client/multipart_upload.rs:433-470 | Every part number of the plan reads successfully, is non-empty and at most one part size long, and lies exactly between its boundaries; no overflow branch is taken. |
| `MultipartParts.ReadPartRefuses` | src/client/multipart_upload.rs:450-470 | An offset beyond the source is refused, as an overflow exactly when it does not fit in `u64`. |
| `MultipartParts.PartsAreTheSource` | src/client/multipart_upload.rs:433-470 | The parts of the plan, in order, concatenate to the source. |
| `MultipartParts.RecordMeaning` | src/operation/multipart/managed.rs:379-390 | Recording keeps strict order, adds exactly one part and its number, and refuses exactly the numbers already recorded, naming the number. |
| `MultipartParts.BinarySearch` | src/operation/multipart/managed.rs:379-390 | The search finds the unique insertion position of a part number and says whether it is present. |
| `MultipartParts.MultipartUpload.RecordPart` | src/operation/multipart/managed.rs:379-390 | In-place insertion equals the specification; a duplicate leaves the list alone. |
| `MultipartParts.ValidateMeaning` | src/operation/multipart/completion.rs:138-151 | The window scan accepts exactly the non-empty strictly ascending lists; otherwise it names the first pair out of order. |
| `MultipartParts.AscendingRange` | src/operation/multipart/completion.rs:138-151 | An ascending list whose numbers are 1..n is 1..n in order. |
| `ManagedUploadSafety.StepKeeps` | src/client/multipart_upload.rs:123-351 | Every action of scheduler, server, clock or caller keeps the protocol invariant. |
| `ManagedUploadSafety.RunKeeps` | src/client/multipart_upload.rs:123-351 | The invariant holds after every execution. |
| `ManagedUploadSafety.AssembledIsSource` | src/client/multipart_upload.rs:190-221 | Whatever stored versions the server picks for the submitted list, their concatenation is the source. |
| `ManagedUploadSafety.SuccessIsTheSource` | src/client/multipart_upload.rs:190-221 | A successful run submitted exactly parts 1..n in order, completed once, never aborted, and the object is the source. |
| `ManagedUploadSafety.InFlightIsBounded` | src/client/multipart_upload.rs:252-287 | In every reachable state the window is bounded in parts and in bytes; while uploading, started parts are the disjoint union of in flight and recorded, and the window is full unless all parts have started. |
| `ManagedUploadSafety.NoDefect` | src/client/multipart_upload.rs:190-206 | The duplicate-part, lost-part and rejected-completion branches are unreachable, and no part is started twice. |
| `ManagedUploadSafety.CompletedOrAbortedOnce` | src/client/multipart_upload.rs:177-230 | A finished run with an upload ID completed it and sent no abort, or sent exactly one abort that returned and no successful completion. |
| `ManagedUploadSafety.NoWorkAfterFailure` | src/client/multipart_upload.rs:266-287 | After the part phase fails, no later log entry starts a part or sends a completion. |
| `ManagedUploadSafety.WorkAfterFailureMeaning` | src/client/multipart_upload.rs:266-287 | The observer's flag means what it says about positions in the log. |
| `ManagedUploadSafety.AbortedUnsettledMeaning` | src/client/multipart_upload.rs:306-351 | Without the observer's flag, every part started before an abort had settled before it. |
| `ManagedUploadSafety.FailureReport` | src/client/multipart_upload.rs:332-395 | From the log alone: the returned error is the primary; attached is the abort's error, or the quiesce timeout if a part never settled, or the abort's error with that timeout attached; without either, nothing, and then the abort succeeded after every started part had settled. |
| `ManagedUploadSafety.CleanupTime` | src/client/multipart_upload.rs:306-351 | The abort always has at least half the cleanup time, and a finished run took at most the transfer deadline plus the cleanup time. |
| `ManagedUploadSafety.FullWindow` | src/operation/multipart/managed.rs:106-108 | The byte bound is reached by a full window of full parts. |
| `ManagedUploadRules.EveryStepFollowsTheRules` | src/client/multipart_upload.rs:123-395 | Every step of every run does what the event calls for, said on the log, clock and request: which error becomes the primary, when parts start, settle and are given up, which deadline the abort gets, what is reported. |
| `ManagedUploadRules.CountExactly` | src/client/multipart_upload.rs:433-448 | The plan is the one number of parts n up to 10,000 with (n - 1) * size < length <= n * size; an empty or too long source is refused as such. |
| `ManagedUploadRules.CountIsUnique` | src/client/multipart_upload.rs:433-448 | No other number of parts would do. |
| `ManagedUploadRules.TimersCanFire` | src/client/multipart_upload.rs:258-330 | In every reachable state the timer the code waits for can be waited for, and then fires. |
| `ManagedUploadRules.AnythingCanHappen` | src/client/multipart_upload.rs:123-351 | Every outcome of a request, the caller or the server is possible while the run waits for it. |
| `ManagedUploadRun.ReplayIsRun` | src/client/multipart_upload.rs:123-351 | Every script, with impossible steps passed over, is an execution of the state machine. |
| `ManagedUploadRun.Worker.Wait` | src/client/multipart_upload.rs:261-268 | A wait changes only time, cancellation and the server, and returns an event that is enabled. |
| `ManagedUploadRun.Worker.UploadParts` | src/client/multipart_upload.rs:245-288 | The scheduler's loops reach the machine's completion with every part recorded, or its abort with the recorded failure. |
| `ManagedUploadRun.Worker.React` | src/client/multipart_upload.rs:261-287 | One finished wait records a part and returns to the loop head, or quiesces with the right primary error. |
| `ManagedUploadRun.Worker.QuiescePartRequests` | src/client/multipart_upload.rs:306-330 | The settling loop ends in the machine's abort, with a quiesce failure exactly when parts were abandoned. |
| `ManagedUploadRun.Worker.FailWithAbort` | src/client/multipart_upload.rs:332-351 | One abort request, whose result and the quiesce failure are combined into the returned error. |
| `ManagedUploadRun.Worker.Complete` | src/client/multipart_upload.rs:190-230 | The completion request and its outcome, or the abort that follows it. |
| `ManagedUploadRun.Worker.Execute` | src/client/multipart_upload.rs:123-231 | The whole worker follows the machine to its end. |
| `ManagedUploadRun.MultipartUploadRun` | src/client/multipart_upload.rs:123-231 | For every script the imperative run returns exactly when the machine is done, with its outcome; a success is the source. |
| `ManagedUploadProgress.UploadCanFinish` | src/client/multipart_upload.rs:245-288 | From every reachable state of the part phase some continuation completes the upload with the source. |
| `ManagedUploadProgress.RunCanEnd` | src/client/multipart_upload.rs:123-351 | From every reachable state some continuation ends the run, within the work it has left. |
| `ManagedUploadProgress.WorkIsBounded` | src/client/multipart_upload.rs:123-351 | Over every run, the worker's actions so far and those it can still need are at most the number of parts plus four. |
| `ManagedUploadProgress.SuccessIsPossibleIffPlanned` | src/client/multipart_upload.rs:433-448 | Some run succeeds if and only if the source can be split into parts. |
| `RetryPolicy.CeilingMonotone` | src/retry/mod.rs:144-157 | Jitter ceilings never shrink with attempts and stay between the base delay and `max_delay`. |
| `RetryPolicy.CeilingDoubles` | src/retry/mod.rs:144-157 | The ceiling starts at the base delay, at least one second for throttling, doubles with every attempt up to the 32nd, and is capped by `max_delay`. |
| `RetryPolicy.EveryDelayCanBeDrawn` | src/retry/mod.rs:116-142 | Every delay up to ceiling and budget can be drawn. |
| `RetryPolicy.NoDelayWithoutRetry` | src/retry/mod.rs:116-142 | Outside the guards there is no delay. |
| `RetryPolicy.NewPolicy` | src/retry/mod.rs:28-60 | A policy is refused exactly for no attempts, a zero base delay, a cap below it, or no time. |
| `RetryPolicy.DelayForMeaning` | src/retry/mod.rs:116-142 | Inside the loop a delay is refused exactly for a Retry-After beyond the budget; otherwise it fits the budget and the ceiling, or is the Retry-After itself. |
| `RetryQuota.Quota.Acquire` | src/client/mod.rs:48-71 | One atomic step takes exactly the cost of the class, or nothing when the bucket is short. |
| `RetryQuota.Quota.ReplenishAfterSuccess` | src/client/mod.rs:73-80 | Success restores the last retry's cost, or one token, up to the capacity. |
| `RetryQuota.Permit.Drop` | src/client/mod.rs:90-96 | Dropping returns the cost of an uncommitted permit and nothing for a committed one. |
| `RetryQuota.FreshBucketPaysFor` | src/client/mod.rs:27-71 | A bucket of 500 tokens pays for exactly 35 transient or 100 throttled retries. |
| `RetryQuota.SuccessRestores` | src/client/mod.rs:73-80 | Success restores the last cost or one token, up to 500. |
| `RetryLoop.StepKeeps` | src/client/request/execute.rs:171-399 | Every step of the loop keeps the accounting, trace and deadline invariant, whatever level the bucket has. |
| `RetryLoop.RunKeeps` | src/client/request/execute.rs:171-399 | The invariant holds after every sequence of steps interleaved with any use of the bucket by others. |
| `RetryRules.EveryStepFollowsTheRules` | src/client/request/execute.rs:171-399 | Every step of every run does what the event calls for, said on the answer, the clock and the limits: success with its event and credit, the redirect with its target and region, each stop reason exactly when it applies, a retry with its delay and its 5 or 14 tokens, expiry, backoff and cancellation. |
| `RetryRules.SuccessAndRedirectExactly` | src/client/request/execute.rs:203-293 | A run succeeds exactly at a success heard and read in time, and is redirected exactly by a redirect in time with an acceptable authority. |
| `RetryRules.AnythingCanHappen` | src/client/request/execute.rs:171-399 | Every answer at every later moment is possible while the run waits for it. |
| `RetryLoop.DecisionsAreSound` | src/client/request/execute.rs:309-398 | Along every run, the stop reason attached to a failure holds at that moment; a run sleeps only for a retry within attempts, budget, deadline and quota, with exactly the permit of its class. |
| `RetryLoop.AttemptsArePaid` | src/client/request/execute.rs:164-201 | Sends never exceed `max_attempts`; each is the first, the one redirect, or paid by a permit committed before it; every other permit was returned. |
| `RetryLoop.OneShotBodyOnce` | src/stream/upload.rs:188-216 | A one-shot body is requested at most once, so its "sent twice" error is unreachable. |
| `RetryLoop.TraceGrammar` | src/client/request/execute.rs:191-398 | Starts are numbered from 1 and each is followed by one event carrying its number; succeeded or failed comes last; failed occurs exactly when the error carries retry context, whose count is the number of starts. |
| `RetryLoop.EndsByDeadline` | src/client/request/execute.rs:171-201 | However late signatures and answers come, no run goes past its deadline; nothing is sent when it had passed at the start; each attempt's own limit lies within it, and each backoff ends before it and within `max_elapsed`. |
| `RetryLoop.AttemptsAreCutOff` | src/client/request/execute.rs:187-201 | An answer whose head has not come by the earlier of attempt timeout and deadline ends the attempt at exactly that moment, as a failure; a success ends when its body was read, by the deadline. |
| `RetryLoop.RunsEnd` | src/client/request/execute.rs:171-399 | A run takes at most three steps for each attempt and one more, so at most `3 * max_attempts + 1`, and until it has ended some step is possible. |
| `RetryLoop.TargetIsKept` | src/client/request/execute.rs:260-293 | Every attempt keeps the scheme, path and query that were asked for; before a redirect it keeps authority and signing region too, after it both belong to the announced region of the same AWS service, over HTTPS. |
| `RegionRedirect.RedirectKeepsService` | src/client/request/retry.rs:9-49 | A redirected authority belongs to the same service and domain as the endpoint, and redirecting again from there leads where redirecting from the endpoint would. |
| `RegionRedirect.RedirectExactly` | src/client/request/retry.rs:9-36 | An authority is redirected exactly over HTTPS and from an S3 host of AWS, to the same service and domain with the region put in. |
| `RegionRedirect.ServiceExactly` | src/client/request/retry.rs:9-49 | A host belongs to a service exactly when it is the global S3 name or a regional name of one of the four services, in one of the two domains. |
| `RegionRedirect.RegionExactly` | src/client/request/retry.rs:75-96 | A region is up to 64 letters, digits and hyphens. |
| `RegionRedirect.HostExactly` | src/client/request/retry.rs:14-17 | The host is what comes before the first colon. |
| `RetrySystem.LedgerHolds` | src/client/mod.rs:27-96 | The ledger of tokens, live permits, committed cost and credits balances in every state of every interleaving of any number of runs. |
| `RetrySystem.RetriesAreBounded` | src/client/mod.rs:27-96 | Tokens + live permits + committed cost lies between 500 and 500 + credits, so at most 100 retries without a success, and at most 2 sends per run plus the retries. |
| `RetrySystem.TransientRetriesAreBounded` | src/client/mod.rs:27-96 | If no answer in the interleaving was a throttling error, at most 35 retries without a success. |
| `RetrySystem.NothingHeldAtTheEnd` | src/client/mod.rs:90-96 | When all runs have ended no tokens are held, and the bucket lacks at most what was committed. |
| `RetryRun.Sender.SignAndSend` | src/client/request/execute.rs:171-199 | The head of the loop, with its two deadline checks around signing, is one step of the machine, on run and bucket alike. |
| `RetryRun.Sender.AfterFailure` | src/client/request/execute.rs:309-398 | The retry decision, permit and trace are those of the machine. |
| `RetryRun.Sender.Receive` | src/client/request/execute.rs:200-307 | Success, redirect, failure and timeout each take the machine's step. |
| `RetryRun.Sender.Redirect` | src/client/request/execute.rs:266-292 | The new target, signing region, flag and event are those of the machine, or the run ends with the authority error. |
| `RetryRun.Sender.EndAttempt` | src/client/request/execute.rs:200-307 | The attempt timeout, the deadline on the body, success and failure lead where the machine's do. |
| `RetryRun.Sender.Execute` | src/client/request/execute.rs:146-400 | The imperative loop ends in the state its script leads to. |
| `RetryRun.SendSigned` | src/client/request/execute.rs:146-400 | For every script, outcome and event trace of a whole request are those of the machine, and the bucket is left at the level its last step left. |
| `PercentCodec.AwsUriEncode` | src/signing/canonical.rs:56-73 | The pushing loop is the byte-wise encoding, in both slash modes. |
| `PercentCodec.DecodeUrlField` | src/protocol/listing.rs:118-152 | The index loop is percent decoding followed by the UTF-8 check. |
| `PercentCodec.CanonicalUriFromEncoded` | src/signing/canonical.rs:97-147 | The character loop is the byte-wise re-canonicalisation, with the same rejections. |
| `PercentCodec.DecodeInvertsEncode` | src/signing/canonical.rs:56-73 | Decoding inverts encoding for every byte string and both slash modes. |
| `PercentCodec.EncodedByteExactly` | src/signing/canonical.rs:56-73 | A byte is kept exactly when it is unreserved by section 2.3 of RFC 3986, or a slash in that mode; otherwise it becomes its triplet in upper case. |
| `PercentCodec.HexValueExactly` | src/signing/canonical.rs:140-147 | A hexadecimal digit is read in either case, and nothing else is. |
| `PercentCodec.DecodedTokenExactly` | src/protocol/listing.rs:118-152 | Decoding goes token by token and rejects a percent sign without two digits. |
| `PercentCodec.RecodedTokenExactly` | src/signing/canonical.rs:97-138 | A triplet survives with its digits in upper case; any other byte is encoded. |
| `PercentCodec.DecodeFieldExactly` | src/protocol/listing.rs:118-152 | The two errors of the listing decoder, each exactly when it applies. |
| `Utf8.ValidUtf8IffScalars` | src/protocol/listing.rs:118-143 | The text test accepts exactly the encodings of Unicode scalar values by section 3 of RFC 3629. |
| `PercentCodec.DecodeFieldInvertsEncode` | src/protocol/listing.rs:118-152 | `decode_url_field` returns every text that `aws_uri_encode` encoded. |
| `PercentCodec.EncodeInjective` | src/signing/canonical.rs:56-73 | Different inputs have different encodings. |
| `PercentCodec.RecodeProperties` | src/signing/canonical.rs:97-147 | Re-canonicalisation fails exactly where decoding does, keeps the decoded bytes and is idempotent. |
| `PercentCodec.CanonicalUriProperties` | src/signing/canonical.rs:97-147 | Canonical paths are fixed points that start with a slash and keep the decoded bytes up to it; failure is exactly `decode_url_field`'s triplet error. |
| `CanonicalQuery.SortSorts` | src/signing/canonical.rs:151-177 | The sorted list is ordered and a permutation of the input. |
| `CanonicalQuery.SortedUnique` | src/signing/canonical.rs:151-177 | A multiset of pairs has only one sorted order, so an unstable sort is determined. |
| `CanonicalQuery.CanonicalQueryText` | src/signing/canonical.rs:151-177 | The building loop yields the joined, sorted, encoded pairs. |
| `CanonicalQuery.QueryTextIffSameMultiset` | src/signing/canonical.rs:151-177 | Two parameter lists have the same canonical query if and only if they are the same multiset of pairs. |
| `CanonicalLayout.QueryLayout` | src/signing/canonical.rs:151-177 | Split at ampersands, the query is all parameters, encoded as `name=value`, in byte order of encoded name and then encoded value. |
| `TextOrder.TextLeMeaning` | src/signing/canonical.rs:151-177 | The order is that of the first differing byte, a prefix coming first. |
| `TextSplit.SplitThenGlue` | src/signing/canonical.rs:151-177 | The splitter loses nothing and leaves no separator in a piece. |
| `CanonicalHeaders.NormalizeHeaderValue` | src/signing/canonical.rs:245-267 | The scanning loop rejects control characters and returns the words one space apart. |
| `CanonicalHeaders.NormalizedIdempotent` | src/signing/canonical.rs:245-267 | Normalisation keeps the words and is idempotent. |
| `CanonicalHeaders.CollectMeaning` | src/signing/canonical.rs:180-218 | The ordered map holds each lower-cased name once, in order, with exactly its values in arrival order; it fails exactly when some name or value is invalid. |
| `CanonicalHeaders.CanonicalizeHeaders` | src/signing/canonical.rs:180-218 | The loops compute that block and signed list, with the first defect as the error. |
| `CanonicalHeaders.SameBlockIffSameMeaning` | src/signing/canonical.rs:180-218 | Header blocks coincide if and only if every name has the same combined value, and then the signed lists do too. |
| `CanonicalLayout.HeaderLayout` | src/signing/canonical.rs:180-218 | The signed list is the given names up to case, in lower case, each once, in byte order, joined by semicolons; the block has one line for each: name, colon, its values in order joined by commas. |
| `CanonicalLayout.CaseDoesNotMatter` | src/signing/canonical.rs:186-192 | Header lists whose names agree up to ASCII case canonicalise to the same result. |
| `CanonicalLayout.NormalizedExactly` | src/signing/canonical.rs:245-267 | A value is words separated by blanks, and its normal form is those words one space apart. |
| `CanonicalLayout.ValidValueExactly` | src/signing/canonical.rs:245-251 | Control characters other than the tab are refused. |
| `CanonicalLayout.TokenBytesExactly` | src/signing/canonical.rs:221-243 | A name byte is visible ASCII without the delimiters of section 3.2.6 of RFC 7230. |
| `CanonicalLayout.HostRule` | src/signing/canonical.rs:207-216 | With valid headers the request is refused exactly for no host, several, or a blank one. |
| `CanonicalLayout.FirstBadHeader` | src/signing/canonical.rs:182-192 | The first bad header decides the error, its name before its value. |
| `CanonicalRequest.CanonicalRequestDetermines` | src/signing/request/common.rs:13-83 | Canonical requests are equal if and only if method, canonical path, query multiset, combined header values and payload hash are. |
| `CanonicalLayout.RequestLayout` | src/signing/request/common.rs:69-83 | Split at newlines: method, canonical path, query, the header lines and a blank one, signed names, payload hash. |
| `CanonicalLayout.MethodAndHashExactly` | src/signing/request/common.rs:33-60 | Which methods and payload hashes are accepted, byte by byte. |
| `CanonicalLayout.RefusalsInOrder` | src/signing/request/header.rs:13-36 | Each refusal exactly when it applies and none before it does. |
| `CanonicalRequest.CanonicalRequestFixesPath` | src/signing/request/common.rs:69-83 | Equal canonical requests sign the same decoded path bytes. |
| `Endpoint.PushEncoded` | src/endpoint/mod.rs:328-357 | The endpoint's two encoders append exactly the signing encoder's output. |
| `Endpoint.ObjectUrl` | src/endpoint/mod.rs:262-302 | The URL has the authority of the addressing style, bucket label and port included, and the wire path; bucket, virtual-host, authority, IP and URI errors come in the code's order. |
| `EndpointReading.ObjectUrlReads` | src/endpoint/mod.rs:262-302 | A built URL has the endpoint's authority, or the bucket as a label before its host, with the port in decimal, and parses as a whole. |
| `EndpointReading.ObjectUrlRefusals` | src/endpoint/mod.rs:262-302 | Each refusal exactly when it applies. |
| `EndpointReading.BucketRules` | src/endpoint/mod.rs:371-399 | Which bucket names each style accepts, byte by byte. |
| `EndpointReading.TrimExactly` | src/endpoint/mod.rs:273 | Trimming takes brackets off both ends of the host, and only those. |
| `EndpointReading.PathStyleReads` | src/endpoint/mod.rs:287-301 | Below the base path, the bucket decodes up to the first slash and the key after it. |
| `EndpointReading.VirtualHostedReads` | src/endpoint/mod.rs:287-301 | Below the base path, the key decodes; without one the last slash goes, never the first. |
| `Utf8.DecimalIsRead` | src/endpoint/mod.rs:278-281 | A port is written in decimal digits of its value, without leading zeros. |
| `Endpoint.SignedPathIsWirePath` | src/endpoint/mod.rs:262-357 | For every bucket, key and addressing style, signing leaves the wire path alone if and only if the base path is canonical. |
| `Endpoint.UncanonicalBase` | src/endpoint/mod.rs:262-302 | With the base path `/+/` the signed path differs from the wire path, for every bucket, key and style. |
| `Endpoint.PathStyleInjective` | src/endpoint/mod.rs:262-357 | Bucket and optional key are determined by the path-style wire path. |
| `Endpoint.VirtualHostedInjective` | src/endpoint/mod.rs:262-357 | Two virtual-hosted URLs of one endpoint are equal if and only if bucket and key are, no key and the empty key being one place below the root path. |
| `Endpoint.TargetPathIsStable` | src/endpoint/mod.rs:89-114 | Attaching a query keeps the path, scheme and authority; replacing the authority keeps everything else. |
| `EndpointReading.QueryReads` | src/endpoint/mod.rs:89-105 | The given query is the one sent after the path's question mark, and is refused exactly for a leading question mark or a fragment. |
| `EndpointReading.PathOfExactly` | src/endpoint/mod.rs:95-98 | The path ends at the first question mark. |
| `EndpointReading.AuthorityRules` | src/endpoint/mod.rs:107-114 | An authority is replaced exactly when it parses, has a host and no user information, and the URL parses. |
| `Endpoint.CanonicalQueryIsAccepted` | src/endpoint/mod.rs:89-105 | A canonical query never trips the query check. |
| `Endpoint.SignedTarget` | src/endpoint/mod.rs:89-114 | After any query and any redirect, the path that is signed is the path that was built. |
| `Crc.BuildTable` | src/operation/checksum.rs:130-168 | Table entry i is eight bit steps applied to i, and a word of the register's width. |
| `Crc.UpdateState` | src/operation/checksum.rs:110-128 | The table-driven loop equals feeding every message bit in turn. |
| `Crc.TableStep` | src/operation/checksum.rs:110-128 | One look-up replaces eight bit steps, by linearity over XOR. |
| `Crc.Calculate` | src/operation/checksum.rs:98-128 | The whole-buffer checksum is the bit-serial one. |
| `Crc.CalculateCooperatively` | src/operation/checksum.rs:47-79 | The chunked checksum is the same, for every chunk size. |
| `Crc.ChecksumIsRemainder` | src/operation/checksum.rs:94-168 | The checksum is the one word whose reflected complement is the remainder of the shifted message polynomial by the generator. |
| `Crc.Generators` | src/operation/checksum.rs:94-96 | The three constants are w-bit words with their top bit set. |
| `CrcStandards.Crc32Generator` | src/operation/checksum.rs:94 | The CRC32 constant is the reflected generator 0x104C11DB7. |
| `CrcStandards.Crc32cGenerator` | src/operation/checksum.rs:95 | The CRC32C constant is the reflected generator 0x11EDC6F41. |
| `CrcStandards.Crc64NvmeGenerator` | src/operation/checksum.rs:96 | The CRC64/NVME constant is the reflected generator 0x1AD93D23594C93659. |
| `CrcStandards.ChecksumIffCrc` | src/operation/checksum.rs:94-168 | A word is the checksum if and only if it is the CRC by the definition of the standards: preset ones, low bits first, remainder reflected and complemented. |
| `CrcStandards.ReflectTurnsAround` | src/operation/checksum.rs:94-168 | Reflection turns a word around bit by bit. |
| `CrcStandards.MessageIsTurnedBytes` | src/operation/checksum.rs:110-128 | The message polynomial is the bytes in order, each turned around. |
| `Crc.BurstDetection` | src/operation/checksum.rs:94-168 | Messages that differ only within 4 (8 for CRC64) consecutive bytes never share a checksum. |
| `Crc.BitBurstDetection` | src/operation/checksum.rs:94-168 | Messages whose difference is one burst of at most w bits, starting at any bit, never share a checksum. |
| `Crc.SameChecksumDivides` | src/operation/checksum.rs:94-168 | Equally long messages with one checksum differ by a polynomial multiple of the generator. |
| `Base64.ValidDigestIffEncoding` | src/client/multipart/headers.rs:105-146 | The validator accepts exactly the base64 encodings of n-byte strings, for every n > 0. |
| `Base64.EncodeInjective` | src/client/multipart/headers.rs:105-146 | A digest is determined by its text. |
| `Base64.BlockIsItsNumber` | src/client/multipart/headers.rs:105-146 | Each block carries its bytes as one big-endian number, padded with zero bits and pad characters. |
| `Base64.TestVectors` | src/client/multipart/headers.rs:105-146 | Values of section 10 of RFC 4648, and the last two symbols. |
| `ChecksumHeader.FieldIffChecksum` | src/operation/checksum.rs:24-45 | Checksum fields are equal exactly when the checksums are. |
| `ChecksumHeader.FieldIsValidAndDetects` | src/operation/checksum.rs:24-79 | Every calculated field passes the validator of its width, and shows every change confined to that many consecutive bytes. |
| `ChecksumHeader.FieldShowsBurst` | src/operation/checksum.rs:24-79 | The field differs for every burst of at most its width, wherever it starts. |
| `ChecksumHeader.Calculate` | src/operation/checksum.rs:24-45 | Per algorithm, exactly the one field is set, to the base64 of the big-endian CRC by that standard's generator or of the SHA-256 digest; SHA-1 is refused. |
| `ChecksumHeader.CalculateCooperatively` | src/operation/checksum.rs:47-91 | The same, in chunks. |
| `ChecksumHeader.CalculationIsDetermined` | src/operation/checksum.rs:24-91 | That specification leaves only one result, so both calculations agree. |
| `ChecksumHeader.NumberOfBigEndian` | src/operation/checksum.rs:30-36 | The field's bytes are the checksum, most significant first. |
| `UploadBody.TransportBody.PollFrame` | src/stream/upload.rs:252-352 | The looping poll equals the specification, field by field. |
| `UploadBody.TransportBody.SizeHint` | src/stream/upload.rs:354-360 | After any polls, the exact hint and what was sent add up to the declared length until the end, and the hint is zero then. |
| `UploadBody.PollsInvariant` | src/stream/upload.rs:231-352 | After any number of polls the body is running on a prefix, ended well or ended badly, and it ends within one poll more than the source has items. |
| `UploadBody.EmittedIsPrefix` | src/stream/upload.rs:252-360 | Emitted bytes are a prefix of the source; until the end, emitted + `remaining` is the declared length. |
| `UploadBody.FullLengthOnlyIfVerified` | src/stream/upload.rs:252-352 | A non-zero declared length is fully emitted only if the source ended there and the digest matched. |
| `UploadBody.EndsCleanlyIffGood` | src/stream/upload.rs:252-352 | The body ends without error exactly when length and digest match and the source raised none; otherwise exactly one error, then only end-of-stream. |
| `UploadBody.ErrorExactly` | src/stream/upload.rs:252-352 | An error frame names what went wrong first: too much, a source error, too little, or the digest. |
| `UploadBody.BlameIsUnique` | src/stream/upload.rs:252-352 | Only one of these can have happened first. |
| `DownloadStream.ResponseStream.PollNext` | src/stream/download.rs:114-205 | One poll equals the specification: both timers, the idle timer's reset by a chunk, and the hasher fed only when a digest is expected. |
| `DownloadStream.EmittedIsPrefix` | src/stream/download.rs:114-205 | Yielded bytes are a prefix of the transfer and never exceed the declared length. |
| `DownloadStream.EndsCleanlyIffGood` | src/stream/download.rs:114-205 | A finished stream is error-free exactly when the transfer was good and no timer ended it, and then everything was yielded. |
| `DownloadStream.ErrorExactly` | src/stream/download.rs:114-205 | Every error of the stream holds at the poll that raises it. |
| `DownloadStream.IdleErrorMeaning` | src/stream/download.rs:133-146 | The idle error is raised exactly when the deadline has not passed and the last chunk with bytes, or the start, is at least the idle timeout ago. |
| `DownloadStream.AlwaysEnds` | src/stream/download.rs:114-205 | The stream ends within one poll more than the transport has items. |
| `DownloadStream.WriteTo` | src/stream/download.rs:72-90 | Success means that exactly the verified bytes were written and counted; whatever happens, what was written is a prefix of them; a stream error is one the stream raised; the count never overflows; a good transfer with a willing writer and no timeout succeeds. |
| `Pagination.ListAll` | src/client/object/listing.rs:33-77 | The page loop makes at most `maximum_pages` requests, each named by the page before it, never repeats a marker, ends as the last answer demands, and returns what the recursive specification does. |
| `Pagination.ListingIsComplete` | src/client/object/listing.rs:33-77 | Against any server that pages faithfully through the requests it recognises, whatever it answers to others, the pages concatenate to exactly the remaining listing, or the page limit is reported; never a false loop error. |
| `Pagination.EnoughPagesSucceed` | src/client/object/listing.rs:33-77 | If truncated pages are never empty, more pages than remaining items always yield the whole listing. |
| `Pagination.OffsetServerIsFaithful` | src/client/multipart/listing.rs:34-69 | A server with fixed-size pages that answers an error to every marker it never issued is faithful. |
| `Pagination.LimitMeansMorePages` | src/client/object/listing.rs:33-77 | If n pages hit the limit, so does every smaller number. |
| `Pagination.SeenSetIsRedundant` | src/client/multipart/listing.rs:34-69 | Against any server `list_parts_all` behaves the same without its seen-set. |
| `Pagination.ListPartsAll` | src/client/multipart/listing.rs:34-69 | The parts loop equals its seen-set-free form, its markers strictly increase, and each of its errors is the one the last answer demands. |
| `Pagination.ListByTokenAll` | src/client/multipart/listing.rs:77-114 | The token and key-marker loops follow the same specification, with distinct markers; a repetition is reported exactly for a marker already used. |

## Left out

- HTTP and TLS transport, connectors, response header parsing and service-error tables: an attempt's outcome is an arbitrary value.
- SHA-256, HMAC and signing-key derivation: SHA-256 is an arbitrary function, and the model ends at the canonical request.
- XML parsing and serialisation: pages and responses are values.
- Credential checks, scope checks and reserved headers of `validate_common` and `sign_headers`: single-branch facts; method and payload-hash validation are kept.
- Presigned URLs and the raw-path variant `canonical_uri`: they reuse the modelled codecs.
- ObjectUrl: the HTTP library's parsers of URIs, authorities and IP addresses are parameters, because their code is not part of the repository; so they are in `WithQuery` and `WithAuthority`.
- File snapshots and their I/O: a source is an immutable byte sequence, and a part that cannot be read is a part failure.
- Task panics, runtime shutdown and fairness: a run may stop waiting for ever; a script that ends early models it.
- `biased` selection: when several branches of a `select!` are ready, any may be taken, which includes what the code does.
- Error texts: configuration, bookkeeping and remote errors are distinguished by kind; the literal messages are kept only where the code builds them itself as constants.
- Time spent in local computation, and timers that fire late: with them every bound in time holds up to that delay.
- Random jitter: an arbitrary draw brought into the range that the code draws from.
- `usize` narrower than 64 bits, and lengths that do not fit in `u64`.
- Server behaviour that changes between page requests: since no marker is asked twice, one function of the request covers one listing.
