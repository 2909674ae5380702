/** The request handlers of class `Routes` (src/routes.ts): partition
    choice and metadata recording for PUT, lookup for GET, and the
    volatile-bucket DELETE. Each handler is a pure step from the backend
    state (metadata store and object store) to a new state and an outcome:
    a response sent, or an error passed to `next`.

    The upload and the checksum computation run concurrently in `putFile`;
    here the checksum is taken over the same body that is uploaded, and its
    verdict is settled before the upload completes, so a mismatch aborts the
    upload and nothing is stored. */
module Routes {
  import opened Base
  import opened Http
  import opened MetadataDb
  import opened ObjectStore

  /** The collaborators the handlers take from outside: `bucketToS3Format`,
      the base64 MD5 digest of a body, and `config.maxObjectsPerBucket`. */
  datatype Env = Env(fmt: string -> string, md5Base64: seq<Byte> -> string, maxObjectsPerBucket: int)

  datatype Backend = Backend(db: Db, store: Store)

  /** A handler's effect: the backend afterwards and what was sent. */
  datatype Handled = Handled(backend: Backend, outcome: Outcome)

  /** A PUT after the middleware: registry bucket name, joined key, the
      `Content-MD5` header ("" when absent) and the body. */
  datatype PutRequest = PutRequest(bucket: string, key: string, contentMd5: string, body: seq<Byte>)

  /** The `version` query parameter: absent, given once, or repeated. */
  datatype VersionQuery = NoVersion | OneVersion(id: string) | ManyVersions(ids: seq<string>)

  datatype GetRequest = GetRequest(bucket: string, key: string, version: VersionQuery)

  datatype DeleteRequest = DeleteRequest(bucket: string, key: string)

  const MissingChecksum: string := "Content-MD5 header is missing"
  const ChecksumMismatch: string := "Checksum does not match file contents"
  const MultipleVersions: string := "Multiple versions given"
  const FileNotFound: string := "File not found"

  /** Physical bucket of partition `bucketId` of a logical bucket: the bucket
      itself for partition 0, `<bucket>-<bucketId>` otherwise. */
  function FullBucketName(bucket: string, bucketId: int): (r: string)
    ensures |r| >= |bucket| && r[..|bucket|] == bucket
    ensures r == bucket <==> bucketId == 0
    ensures bucketId != 0 ==> r[|bucket|..] == "-" + IntToDecimal(bucketId)
  {
    if bucketId == 0 then bucket else bucket + "-" + IntToDecimal(bucketId)
  }

  /** Distinct partitions of one logical bucket never share a physical bucket. */
  lemma FullBucketNameInjective(bucket: string, i: int, j: int)
    ensures FullBucketName(bucket, i) == FullBucketName(bucket, j) ==> i == j
  {
    if FullBucketName(bucket, i) == FullBucketName(bucket, j) && i != 0 && j != 0 {
      var n := FullBucketName(bucket, i);
      assert n[|bucket| + 1..] == IntToDecimal(i);
      assert n[|bucket| + 1..] == IntToDecimal(j);
      IntToDecimalInjective(i, j);
    }
  }

  /** The error object a failed database call rejects with: a pg error
      carries its SQLSTATE in `code`, and the TypeError from destructuring
      a `null` row carries neither a status nor a code. */
  function DbErrorObject(e: DbError): ErrorObject {
    match e
    case NullRow => ErrorObject(0, NoMsg, 0, "")
    case UndefinedTable => ErrorObject(0, NoMsg, 0, "42P01")
    case UniqueViolation => ErrorObject(0, NoMsg, 0, "23505")
  }

  /** The `catch` of `putFile`: a `{status, msg}` client error is passed on
      as such, an error with an HTTP `statusCode` becomes a 502 wrapping it,
      anything else is passed on unchanged. */
  function CatchPutError(err: ErrorObject): (r: ErrorObject)
    ensures err.status != 0 && Truthy(err.msg) ==> r == ClientErrorOf(err)
    ensures !(err.status != 0 && Truthy(err.msg)) && err.statusCode != 0 ==> r == Upstream(err)
    ensures !(err.status != 0 && Truthy(err.msg)) && err.statusCode == 0 ==> r == err
  {
    if err.status != 0 && Truthy(err.msg) then ClientErrorOf(err)
    else if err.statusCode != 0 then Upstream(err)
    else err
  }

  /** `{ status: err.status, msg: err.msg }`. */
  function ClientErrorOf(err: ErrorObject): ErrorObject {
    ErrorObject(err.status, err.msg, 0, "")
  }

  /** `checkHash`: resolves when the digest of the body equals the header,
      rejects with `{400, ...}` otherwise. */
  function CheckHash(env: Env, body: seq<Byte>, expected: string): (r: Option<ErrorObject>)
    ensures r.None? <==> env.md5Base64(body) == expected
    ensures r.Some? ==> r.value == ClientError(400, ChecksumMismatch)
  {
    if env.md5Base64(body) == expected then None else Some(ClientError(400, ChecksumMismatch))
  }

  /** Partition for a key that has no row yet: the current `bucket_id`,
      unless the bucket already holds `max * (bucket_id + 1)` objects, in
      which case `bucket_id` is first advanced by one. */
  function AssignPartition(env: Env, db: Db, bucket: string): (s: Step<int>)
    ensures s.db.tables == db.tables
    ensures s.answer.Fail? <==> env.fmt(bucket) !in db.stats
    ensures s.answer.Fail? ==> s.db == db
    ensures s.answer.Ok? ==>
              var row := db.stats[env.fmt(bucket)];
              && (row.nObjects >= env.maxObjectsPerBucket * (row.bucketId + 1) ==>
                    s.answer.value == row.bucketId + 1
                    && s.db.stats == db.stats[env.fmt(bucket) := BucketStats(row.nObjects, row.bucketId + 1)])
              && (row.nObjects < env.maxObjectsPerBucket * (row.bucketId + 1) ==>
                    s.answer.value == row.bucketId && s.db == db)
  {
    var current := SelectObjectCountAndBucketId(db, env.fmt, bucket);
    match current.answer
    case Fail(e) => Step(current.db, Fail(e))
    case Ok(row) =>
      if row.nObjects >= env.maxObjectsPerBucket * (row.bucketId + 1) then
        IncreaseBucketId(current.db, env.fmt, bucket)
      else Step(current.db, Ok(row.bucketId))
  }

  /** `putFile`. */
  function PutFile(env: Env, st: Backend, req: PutRequest): (h: Handled)
    ensures req.contentMd5 == "" ==> h == Handled(st, Next(ClientError(400, MissingChecksum)))
    ensures h.outcome.Sent? ==> h.outcome.response.status in {200, 201}
    ensures h.backend.store.buckets.Keys == st.store.buckets.Keys
  {
    if req.contentMd5 == "" then Handled(st, Next(ClientError(400, MissingChecksum)))
    else
      var found := SelectBucketId(st.db, req.bucket, req.key);
      match found.answer
      case Fail(e) => Handled(st.(db := found.db), Next(CatchPutError(DbErrorObject(e))))
      case Ok(existing) =>
        var target := if existing.Some? then Step(found.db, Ok(existing.value)) else AssignPartition(env, found.db, req.bucket);
        match target.answer
        case Fail(e) => Handled(st.(db := target.db), Next(CatchPutError(DbErrorObject(e))))
        case Ok(bucketId) => Upload(env, Backend(target.db, st.store), req, bucketId, existing.Some?)
  }

  /** The part of `putFile` after the partition is known: upload with the
      checksum check, size lookup, and for a new key the metadata insert
      and the 201/200 choice. */
  function Upload(env: Env, st: Backend, req: PutRequest, bucketId: int, exists_: bool): (h: Handled)
    ensures h.outcome.Sent? ==> h.outcome.response.status == (if exists_ then 200 else 201)
    ensures h.backend.store.buckets.Keys == st.store.buckets.Keys
    ensures exists_ ==> h.backend.db == st.db
    ensures !exists_ ==> h.backend.db == st.db || h.backend.db == SaveObject(st.db, env.fmt, req.bucket, bucketId, req.key).db
  {
    var name := FullBucketName(env.fmt(req.bucket), bucketId);
    match CheckHash(env, req.body, req.contentMd5)
    case Some(e) => Handled(st, Next(CatchPutError(e)))
    case None =>
      match PutObject(st.store, name, req.key, req.body)
      case S3Fail(e) => Handled(st, Next(CatchPutError(e)))
      case Done(Written(store', version)) =>
        match HeadObject(store', name, req.key)
        case S3Fail(e) => Handled(st.(store := store'), Next(CatchPutError(e)))
        case Done(size) =>
          if exists_ then Handled(Backend(st.db, store'), Sent(Response(200, PutResult(size, version))))
          else
            var saved := SaveObject(st.db, env.fmt, req.bucket, bucketId, req.key);
            match saved.answer
            case Fail(e) => Handled(Backend(saved.db, store'), Next(CatchPutError(DbErrorObject(e))))
            case Ok(_) => Handled(Backend(saved.db, store'), Sent(Response(201, PutResult(size, version))))
  }

  /** `getFile`. */
  function GetFile(env: Env, st: Backend, req: GetRequest): (h: Handled)
    ensures h.backend == st
    ensures req.version.ManyVersions? ==> h.outcome == Next(ClientError(400, MultipleVersions))
  {
    if req.version.ManyVersions? then Handled(st, Next(ClientError(400, MultipleVersions)))
    else
      var version := if req.version.OneVersion? && req.version.id != "" then Some(req.version.id) else None;
      var found := SelectBucketId(st.db, req.bucket, req.key);
      match found.answer
      case Fail(e) => Handled(st, Next(DbErrorObject(e)))
      case Ok(None) => Handled(st, Next(ClientError(404, FileNotFound)))
      case Ok(Some(bucketId)) =>
        var name := env.fmt(FullBucketName(req.bucket, bucketId));
        match GetObject(st.store, name, req.key, version)
        case S3Fail(e) => Handled(st, Next(e))
        case Done(data) => Handled(st, Sent(Response(200, Bytes(data))))
  }

  /** `deleteVolatileFile`. The backend command it sends is a GetObject on
      the logical bucket's partition-0 name, so the object store is only
      read; the metadata row goes only after that read succeeds. */
  function DeleteVolatileFile(env: Env, st: Backend, req: DeleteRequest): (h: Handled)
    ensures h.backend.store == st.store
    ensures h.outcome.Sent? ==> h.outcome.response == Response(200, TextBody("OK"))
    ensures h.outcome.Next? ==> h.outcome.err.status == 502
  {
    match GetObject(st.store, env.fmt(req.bucket), req.key, None)
    case S3Fail(e) => Handled(st, Next(Upstream(e)))
    case Done(_) =>
      var deleted := DeleteObject(st.db, env.fmt, req.bucket, req.key);
      match deleted.answer
      case Fail(e) => Handled(st.(db := deleted.db), Next(Upstream(DbErrorObject(e))))
      case Ok(_) => Handled(st.(db := deleted.db), Sent(Response(200, TextBody("OK"))))
  }
}
