# storage-service gateway, modelled in Dafny

The storage service is an authenticated HTTP gateway in front of an
S3-compatible object store. Objects live under logical buckets
(`cloudnet-…`). Each logical bucket is split into partitions, which are
physical buckets named `<bucket>` for partition 0 and `<bucket>-<id>` after
that. A PostgreSQL database keeps two kinds of data. The `bucketstats`
table holds one row per bucket with `n_objects` and the current
`bucket_id`. One table per bucket maps each object key to the partition
that holds it. When a new key arrives and the bucket's recorded
`n_objects`, counted over all its partitions, has reached
`max * (bucket_id + 1)`, `bucket_id` moves on by one.

The model covers:

- the request handlers of `Routes` (`putFile`, `getFile`,
  `deleteVolatileFile`, `checkHash`, `getFullBucketName`) as pure steps on
  a backend state made of the metadata store and the object store
  (`routes.dfy`, with the properties in `routes_lemmas.dfy`);
- the partition growth of a run of PUTs (`growth.dfy`);
- the `DB` query methods as transitions of an immutable record
  (`db.dfy`);
- the object store the handlers talk to (`objectstore.dfy`);
- the block-reading state machine `S3ReadStream` with a driver that reads
  an object to the end (`readstream.dfy`);
- the middleware `validateDeleteBucket` and `validateParams`
  (`middleware.dfy`);
- the Basic-auth middleware, the route/middleware order and the error
  handler of `server.ts` (`server.dfy`, `http.dfy`);
- decimal rendering of numbers, as JavaScript interpolates them into names
  and headers (`base.dfy`).

Some collaborators are parameters of the model:

- `bucketToS3Format` (from `src/lib`, which is not part of this model);
- the base64 MD5 digest and the hex SHA-256 digest;
- the `to_regclass` lookup behind `selectBucket`;
- `config.maxObjectsPerBucket`, whose bucket argument the code ignores.

Where the code and its description differ, the model follows the code:

- `deleteVolatileFile` sends a GetObject, so it only reads the object
  store. The metadata row goes, but the object stays.
- `putFile` has no special case that keeps volatile buckets in partition 0.
  A test expects that behaviour, but no code path implements it.
- A `getFile` whose S3 request fails (for example an unknown version) passes
  the raw S3 error to `next`. That error has no `status` and no `msg`, so
  the error handler answers 500 with an empty body, not 404 "Version not
  found". The latter only comes from errors raised while the body is
  streaming.
- `saveObject` and `deleteObject` run their two statements independently.
  The count changes even when the INSERT or DELETE fails, and `deleteObject`
  lowers the count even when no row matched.

## Model

| member | source | states |
|---|---|---|
| Base.ParseNatRoundTrip | src/routes.ts:172-175 | the decimal text interpolated for a whole number reads back as that number |
| Base.IntToDecimal | src/routes.ts:174 | the text `${bucketId}` puts in a name: never empty, starting with "-" exactly for a negative id, and all digits otherwise |
| Base.IntToDecimalInjective | src/routes.ts:174 | distinct ids print as distinct decimal strings, so partition names never collide |
| Http.ErrorHandler | src/server.ts:57-70 | with headers already sent, the committed response is kept unchanged; otherwise the status is `err.status`, or 500 when unset; the body is "Upstream error: <code>" when `msg` is an error carrying a code, the text for a string `msg`, nothing for no `msg` |
| Http.ClientErrorPassesThrough | src/server.ts:63-69 | a `{status, msg}` error made by the gateway reaches the client with that status and message |
| Http.UpstreamErrorHidesCause | src/server.ts:64-66 | a 502 wrapping an S3 error answers 502 with only the error code |
| MetadataDb.QueryOne | src/db/index.ts:77-82 | the first row when there is one, null exactly when the result is empty |
| MetadataDb.SelectObjectCountAndBucketId | src/db/index.ts:16-23 | read-only; answers the bucket's stats row, and rejects exactly when the row is missing |
| MetadataDb.IncreaseBucketId | src/db/index.ts:25-33 | raises `bucket_id` by one and answers the new value; `n_objects`, the other rows and the tables are unchanged; without a row it rejects and nothing changes |
| MetadataDb.AddToCount | src/db/index.ts:41-44 | the UPDATE of `n_objects` changes only the named bucket's count, by the given amount, and only when its row exists |
| MetadataDb.SaveObject | src/db/index.ts:35-46 | `n_objects` goes up by one; the row `(key, bucketId)` is inserted exactly when the table exists and lacks the key; otherwise the tables are unchanged and the call rejects |
| MetadataDb.SelectBucketId | src/db/index.ts:48-55 | read-only; null exactly when the key has no row, otherwise the recorded `bucket_id`; rejects exactly when the table is missing |
| MetadataDb.DeleteObject | src/db/index.ts:57-68 | `n_objects` goes down by one whether or not a row matched; the key's row is removed; rejects exactly when the table is missing |
| MetadataDb.CountedStep | src/db/index.ts:35-68 | one query keeps `n_objects` equal to the row count when inserts add only new keys and deletes remove only present ones |
| MetadataDb.RunKeepsCount | src/db/index.ts:35-68 | the same over any run of queries obeying that discipline |
| MetadataDb.DeleteOfAbsentKeyUndercounts | src/db/index.ts:57-68 | deleting a key without a row leaves the table as it was but the count one below the row count |
| MetadataDb.ApplyBucketId | src/db/index.ts:16-68 | only `increaseBucketId` moves `bucket_id`, and by exactly one |
| MetadataDb.RunBucketIdMonotone | src/db/index.ts:16-68 | over any run of queries `bucket_id` never decreases and grows by the number of `increaseBucketId` calls |
| ObjectStore.PutObject | src/routes.ts:64-79 | the upload stores the body as the key's latest version in the named physical bucket: a versioned bucket appends a version whose id is the history length and answers that id, an unversioned one replaces the history by a single `null` version; every other object, every bucket's `versioned` flag and every bucket's key set (plus the new key) stay as they were; a missing bucket fails with 404 NoSuchBucket |
| ObjectStore.HeadObject | src/routes.ts:166-170 | the size is the length of the key's latest body; it fails exactly when the bucket or the key is missing |
| ObjectStore.GetObject | src/routes.ts:117-123 | succeeds exactly when the bucket and a non-empty history for the key exist and the version, if one is named, is in it; answers the latest body without a version and that version's body with one; any failure is a 404 S3 error with no `status` or `msg` |
| ObjectStore.FindVersion | src/routes.ts:117-121 | a version id is found exactly when some version of the history has it, and the body answered is that version's |
| ObjectStore.GetAfterPut | tests/routes.test.ts:271-276 | after a put, a plain get returns the body just put |
| ObjectStore.VersionedPutKeepsHistory | tests/routes.test.ts:313-331 | in a versioned bucket a put answers a new version id, keeps the store well formed, and every earlier version stays readable with its old body |
| Routes.FullBucketName | src/routes.ts:172-175 | the logical name is a prefix of the physical name; the names are equal exactly for partition 0; otherwise the name goes on with "-" and the id in decimal |
| Routes.FullBucketNameInjective | src/routes.ts:172-175 | two partitions of one bucket never share a physical bucket |
| Routes.CatchPutError | src/routes.ts:93-99 | an error with a truthy status and msg passes as a client error; otherwise one with an S3 `statusCode` becomes a 502 wrapping it; anything else passes unchanged |
| Routes.CheckHash | src/routes.ts:151-164 | resolves exactly when the digest of the body equals `Content-MD5`, else rejects with 400 "Checksum does not match file contents" |
| Routes.AssignPartition | src/routes.ts:48-56 | for a key without a row, `bucket_id` advances by one exactly when `n_objects >= max * (bucket_id + 1)`, and that id is used; otherwise the current id is used and nothing changes; without a stats row it rejects |
| Routes.PutFile | src/routes.ts:31-100 | a missing `Content-MD5` is answered 400 with nothing changed; a sent answer is 200 or 201; no physical bucket is created or removed |
| Routes.Upload | src/routes.ts:59-92 | an existing key answers 200 and leaves the metadata alone; a new key answers 201, and its metadata is either untouched (the upload failed) or exactly what `saveObject` leaves |
| Routes.GetFile | src/routes.ts:102-134 | never changes the backend; a repeated `version` is answered 400 "Multiple versions given" |
| Routes.DeleteVolatileFile | src/routes.ts:136-149 | never changes the object store; success is 200 "OK"; every failure is 502 |
| RouteLemmas.AssignPartitionMovesOnlyBucketId | src/routes.ts:48-56 | choosing a partition changes at most the bucket's `bucket_id`, and only by one |
| RouteLemmas.PutExistingKey | src/routes.ts:39-45 | a key with a row is written to its recorded partition; the metadata is untouched; the answer is 200 with the stored size and version |
| RouteLemmas.PutNewKey | src/routes.ts:48-87 | a new key with a valid checksum has its body stored in the chosen partition exactly as `PutObject` stores it, its row `(key, bucket_id)` is inserted, `n_objects` goes up by one, and the answer is 201 |
| RouteLemmas.PutChecksumMismatch | src/routes.ts:76-79 | a wrong checksum is answered 400 with the message; nothing is stored, inserted or counted; only `bucket_id` may have moved |
| RouteLemmas.PutThenGet | tests/routes.test.ts:271-276 | after a successful PUT, a GET of the key returns exactly the bytes put, provided `bucketToS3Format` commutes with partition naming for the one partition the key is recorded in |
| RouteLemmas.PutThenGetPartitionZero | src/routes.ts:172-175 | for a key recorded in partition 0 the round trip holds with no condition on `bucketToS3Format`, because partition 0 is the bucket's own name |
| RouteLemmas.PartitionNameMismatch | src/routes.ts:115-118 | `putFile` formats the bucket and then adds the partition suffix (lines 59-60), `getFile` does it the other way round; with a concrete `bucketToS3Format` a PUT to partition 1 answers 200 and the following GET fails |
| RouteLemmas.GetStoreFailure | src/routes.ts:123-133 | when the S3 request of `getFile` fails, the raw S3 error goes to `next`, and the client gets 500 with an empty body; nothing changes |
| RouteLemmas.GetMissingKey | src/routes.ts:109-114 | a key without a row is answered 404 "File not found" |
| RouteLemmas.GetOldVersion | src/routes.ts:107-123 | a named version is served from the key's recorded partition |
| RouteLemmas.DeleteGatedOnBackend | src/routes.ts:142-148 | the row is deleted only after the backend read succeeds; a failed read leaves everything unchanged and answers 502 wrapping the error |
| RouteLemmas.DeleteLeavesObject | src/routes.ts:138-145 | after a successful DELETE, GET answers 404 while the object is still in the store |
| RouteLemmas.RepeatedDeleteUndercounts | src/routes.ts:136-149 | deleting the same key twice succeeds both times and leaves `n_objects` one below the row count |
| Growth.ThresholdPicksQuotient | src/routes.ts:48-56 | on a bucket holding n new-key objects, the threshold test picks partition `n div max`, which is the `bucket_id` recorded afterwards |
| Growth.NthPut | src/routes.ts:48-87 | the PUT of key number m of a fresh run lands in partition `m div max`, answers 201, and leaves the stats at `(m + 1, m div max)` |
| Growth.PartitionGrowth | src/routes.ts:48-56 | PUTs of distinct new keys into a fresh bucket all answer 201; key number k sits in partition `k div max`; there is one row per key; the stats hold the count and the last partition |
| Growth.EleventhKeyOpensPartitionOne | tests/routes.test.ts:137-163 | with ten objects per partition, the eleventh new key goes to partition 1, the first ten stay in 0, and the stats read (11, 1) |
| ReadStream.RangeHeaderRoundTrip | src/s3readstream.ts:76-78 | the `Range` header `_downloadRange` builds for a non-empty block at a non-negative offset reads back as its first and last byte, both inclusive |
| ReadStream.NextDownload | src/s3readstream.ts:104-112 | `_nextDownload` sends one ranged GET under the known ETag; while bytes remain it asks for the block that starts at the read position and is `NextLength` long; a pushed reply moves the position on by its `ContentLength` and pushes its `Body` |
| ReadStream.Finish | src/s3readstream.ts:114-117 | `_done` resets the read position to 0, keeps the other fields, sends no request and emits only the end |
| ReadStream.NextLength | src/s3readstream.ts:104-112 | while bytes remain, the next block is non-empty, at most a block long, does not run past the end, and is shorter than a block only when it is the last |
| ReadStream.DownloadRange | src/s3readstream.ts:76-102 | one ranged GET under the known ETag; a failed GET is a backend error carrying the S3 error; a reply without length or body is an "Invalid chunk" error; a non-empty one is pushed and advances the position by its length; a zero-length one ends the stream through `_done`, resetting the position; errors leave the state alone |
| ReadStream.FetchMetadata | src/s3readstream.ts:56-74 | a HEAD error or an undefined length is emitted as an error with no download; a positive length is recorded with the ETag and a block is fetched; otherwise the stream ends |
| ReadStream.Read | src/s3readstream.ts:46-54 | each `_read` emits exactly one event and sends at most one ranged GET; with everything read it ends the stream and resets the position |
| ReadStream.FirstReadAsksHead | src/s3readstream.ts:46-74 | the first `_read` starts with HEAD; an empty object ends without any range request; a non-empty one requests its first block |
| ReadStream.ContinueAsksNextBlock | src/s3readstream.ts:104-112 | a later `_read` asks for the range starting at the read position, no longer than a block and not past the end |
| ReadStream.LastRead | src/s3readstream.ts:114-117 | once every byte is pushed, the next `_read` resets the position and ends the stream |
| ReadStream.ReadAll | src/s3readstream.ts:37-117 | against any backend that answers each block request with those bytes, reading an object to the end pushes exactly its bytes in non-empty blocks of at most 64 MiB and then ends; it sends `ceil(size / 64 MiB)` ranged GETs, and request i covers block i |
| ReadStream.HonestIsFaithful | src/s3readstream.ts:76-102 | a server that honours `Range` and `If-Match` answers every request `_downloadRange` can send for a block inside the object with exactly those bytes, so `ReadAll` applies to it |
| Middleware.ValidateDeleteBucket | src/middleware.ts:11-20 | passes exactly the two volatile buckets; every other bucket gets 405 "DELETE not allowed for the bucket" |
| Middleware.ValidateParams | src/middleware.ts:22-32 | passes exactly when the name starts with "cloudnet-" and the lookup finds a non-empty table name, which replaces the bucket; otherwise 404 "Unknown bucket: <bucket>" |
| Middleware.PrefixCheckedFirst | src/middleware.ts:24-25 | a name without the prefix is refused whatever the lookup would answer |
| Middleware.JoinKey | src/middleware.ts:30 | `join("/")`: the key starts with the first segment, a "/" follows it when more segments come, and it holds at least one character per separator; `SplitJoin` and `JoinSplit` make it the inverse of `SplitKey` |
| Middleware.SplitKey | src/middleware.ts:30 | splitting a key yields at least one segment, and no segment contains "/" |
| Middleware.JoinSplit | src/middleware.ts:30 | joining the segments of a split key gives the key back |
| Middleware.SplitJoin | src/middleware.ts:30 | splitting joined segments that contain no "/" gives the segments back |
| Middleware.ValidatedKeySegments | src/middleware.ts:29-30 | the key the handlers receive splits back into the path segments of the request |
| Middleware.DeletableAreServed | src/middleware.ts:13-16 | both deletable buckets carry the "cloudnet-" prefix |
| Server.Authenticate | src/server.ts:25-41 | missing credentials, an unknown user or a wrong password digest are all refused with 401 "Unauthorized"; which requests pass is stated by `AuthenticateAdmits` |
| Server.FindCredential | src/server.ts:34-36 | the first configured entry for the user, and none exactly when no entry has that user |
| Server.AuthenticateAdmits | src/server.ts:25-41 | a request is let through exactly when it carries Basic credentials and the first entry for the user holds the SHA-256 of the password |
| Server.FirstEntryDecides | src/server.ts:34-38 | a later entry for the same user is never consulted |
| Server.Serve | src/server.ts:25-70 | a request that fails authentication gets 401 "Unauthorized"; the backend changes only for authenticated requests that pass the middleware |
| Server.UnauthenticatedFirst | src/server.ts:25-55 | without valid credentials every request gets 401 "Unauthorized" and the backend is untouched, even a DELETE on a non-deletable bucket |
| Server.DeleteAllowListBeforeLookup | src/server.ts:50-55 | an authenticated DELETE on a bucket outside the allow-list gets 405 before any lookup, and nothing changes |
| Server.UnknownBucketRefused | src/server.ts:48-55 | an authenticated request on a bucket that is not served gets 404 "Unknown bucket: <bucket>" and nothing changes |
| Server.PutReachesHandler | src/server.ts:48 | an authenticated PUT on a served bucket runs `putFile` on the table name and the joined key; a missing `Content-MD5` gets 400 |
| Server.GetIsReadOnly | src/server.ts:49 | GET never changes the backend; a repeated `version` gets 400 "Multiple versions given" |
| Server.DeleteFailureIsUpstream | src/server.ts:50-55 | an authenticated DELETE that passes both middleware gets 200 "OK" or 502 |

## Left out

- Concurrency: the handlers are atomic steps. The `Promise.all` of the
  checksum and the upload is sequential in the model: the checksum verdict
  comes first, and a mismatch aborts the upload before anything is stored.
  Interleavings of concurrent requests are not modelled, including the
  race between two new-key PUTs that both read the same `n_objects`.
- The two statements of `saveObject` and `deleteObject` are one step with
  both effects applied. Their partial failures are not modelled separately.
- Aborting an upload is taken to leave the store unchanged. The timing of
  the `AbortController` against a multipart upload already in flight is not
  modelled.
- Errors raised while a GET body is streaming ("Version not found", or 502
  after headers went out) are not modelled. The error handler takes the
  committed response as a parameter.
- The `Content-Type` of uploads, pino logging, `listen`, the request timeout
  and the SIGTERM shutdown are I/O and lifecycle.
- The AWS SDK and pg driver are foreign. S3 is an abstract store of version
  histories, and its errors are objects with an HTTP `statusCode` and a
  `code`. The `S3ReadStream` backend is a HEAD reply and a function from
  ranged GETs to replies. `ReadAll` assumes only that each block request
  is answered with its bytes. The server `Honest` that meets this follows
  `If-Match` (section 3.1 of RFC 7232) and byte ranges (sections 2.1 and
  4.4 of RFC 7233) only as far as the requests the stream sends.
- The table schema is not part of this model. The key column is taken to be
  unique, so a second INSERT of a key fails.
- MD5, SHA-256, `bucketToS3Format` and `to_regclass` are uninterpreted
  function parameters.
- `config`: `maxObjectsPerBucket` is a whole-number parameter. The lemmas
  that need it require it to be at least 1, because the code does not check
  the `parseInt` of the environment variable.
- Basic-auth header decoding (`basic-auth`) is replaced by its result: the
  decoded name and password, or none.
- Express routing of other methods and paths is left out. Only the three
  routes on bucket and key are modelled.
- Routes.PutFile: the JavaScript `res.send` of a `size` that `HeadObject`
  left undefined is not modelled. A size is always present.
- RouteLemmas.PutThenGet: for a key recorded in a partition other than 0,
  it holds only when `bucketToS3Format` commutes with naming that
  partition. `putFile` formats before naming and `getFile` after, and the
  function is not part of this model. `PartitionNameMismatch` shows a
  `bucketToS3Format` for which the round trip fails.
- Numbers are JavaScript doubles in the code (`n_objects`, `bucket_id`,
  `_readSize`, `ContentLength`) and unbounded integers here. The two agree
  up to 2^53, and nothing in the core goes near that.
- The test that expects volatile buckets to stay in partition 0 is not
  encoded, because no code path implements it.
