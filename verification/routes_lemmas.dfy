/** What the handlers of `Routes` promise, stated over all inputs. */
module RouteLemmas {
  import opened Base
  import opened Http
  import opened MetadataDb
  import opened ObjectStore
  import opened Routes

  /** The stats rows agree everywhere except possibly on `bucket_id` of
      `name`, which is either kept or advanced by one. */
  ghost predicate OnlyBucketIdMoved(before: map<string, BucketStats>, after: map<string, BucketStats>, name: string) {
    && after.Keys == before.Keys
    && (forall n :: n in before && n != name ==> after[n] == before[n])
    && (name in before ==>
          && after[name].nObjects == before[name].nObjects
          && after[name].bucketId in {before[name].bucketId, before[name].bucketId + 1})
  }

  lemma AssignPartitionMovesOnlyBucketId(env: Env, db: Db, bucket: string)
    ensures OnlyBucketIdMoved(db.stats, AssignPartition(env, db, bucket).db.stats, env.fmt(bucket))
  {
  }

  /** Overwriting a key that has a row: the body goes to the partition the
      row records, the metadata store is left exactly as it was, and the
      answer is 200 with the stored size. */
  lemma PutExistingKey(env: Env, st: Backend, req: PutRequest)
    requires req.contentMd5 != ""
    requires req.bucket in st.db.tables && req.key in st.db.tables[req.bucket]
    ensures var h := PutFile(env, st, req);
            var name := FullBucketName(env.fmt(req.bucket), st.db.tables[req.bucket][req.key]);
            && h.backend.db == st.db
            && (h.outcome.Sent? ==> h.outcome.response.status == 200)
            && (env.md5Base64(req.body) == req.contentMd5 && name in st.store.buckets ==>
                  var w := PutObject(st.store, name, req.key, req.body);
                  h == Handled(Backend(st.db, w.value.store), Sent(Response(200, PutResult(|req.body|, w.value.version)))))
  {
  }

  /** A key without a row: `bucket_id` advances by exactly one iff
      `n_objects >= max * (bucket_id + 1)`, and when the checksum matches and
      the partition's physical bucket exists, the body is stored in that
      partition, the row `(key, bucket_id)` is inserted, `n_objects` goes
      up by one and the answer is 201. */
  lemma PutNewKey(env: Env, st: Backend, req: PutRequest)
    requires req.contentMd5 != ""
    requires req.bucket in st.db.tables && req.key !in st.db.tables[req.bucket]
    requires env.fmt(req.bucket) in st.db.stats
    ensures var h := PutFile(env, st, req);
            var row := st.db.stats[env.fmt(req.bucket)];
            var advance := row.nObjects >= env.maxObjectsPerBucket * (row.bucketId + 1);
            var id := if advance then row.bucketId + 1 else row.bucketId;
            var name := FullBucketName(env.fmt(req.bucket), id);
            && env.fmt(req.bucket) in h.backend.db.stats
            && h.backend.db.stats[env.fmt(req.bucket)].bucketId == id
            && (h.outcome.Sent? ==> h.outcome.response.status == 201)
            && (env.md5Base64(req.body) == req.contentMd5 && name in st.store.buckets ==>
                  && h.outcome == Sent(Response(201, PutResult(|req.body|, PutObject(st.store, name, req.key, req.body).value.version)))
                  && h.backend.store == PutObject(st.store, name, req.key, req.body).value.store
                  && h.backend.db.tables == st.db.tables[req.bucket := st.db.tables[req.bucket][req.key := id]]
                  && h.backend.db.stats[env.fmt(req.bucket)] == BucketStats(row.nObjects + 1, id))
  {
  }

  /** A body whose digest differs from `Content-MD5` is refused with 400 and
      that message; nothing is stored, no row is inserted and no count
      changes. Only `bucket_id` may have advanced, since the partition is
      chosen before the body is checked. */
  lemma PutChecksumMismatch(env: Env, st: Backend, req: PutRequest)
    requires req.contentMd5 != "" && env.md5Base64(req.body) != req.contentMd5
    ensures var h := PutFile(env, st, req);
            && h.backend.store == st.store
            && h.backend.db.tables == st.db.tables
            && OnlyBucketIdMoved(st.db.stats, h.backend.db.stats, env.fmt(req.bucket))
            && (req.bucket in st.db.tables && (req.key in st.db.tables[req.bucket] || env.fmt(req.bucket) in st.db.stats) ==>
                  h.outcome == Next(ClientError(400, ChecksumMismatch)))
  {
    AssignPartitionMovesOnlyBucketId(env, st.db, req.bucket);
  }

  /** `bucketToS3Format` gives the same physical name for partition `id`
      whether it is applied before the partition suffix (as `putFile` does)
      or after it (as `getFile` does). */
  predicate Commutes(fmt: string -> string, bucket: string, id: int) {
    fmt(FullBucketName(bucket, id)) == FullBucketName(fmt(bucket), id)
  }

  /** After a PUT that succeeded, a GET of the same key without a version
      returns exactly the bytes that were put, provided `bucketToS3Format`
      commutes with partition naming for the partition the key is recorded
      in. */
  lemma PutThenGet(env: Env, st: Backend, req: PutRequest)
    requires PutFile(env, st, req).outcome.Sent?
    requires var found := SelectBucketId(PutFile(env, st, req).backend.db, req.bucket, req.key).answer;
             found.Ok? && found.value.Some? ==> Commutes(env.fmt, req.bucket, found.value.value)
    ensures GetFile(env, PutFile(env, st, req).backend, GetRequest(req.bucket, req.key, NoVersion)).outcome
            == Sent(Response(200, Bytes(req.body)))
  {
    var h := PutFile(env, st, req);
    var found := SelectBucketId(st.db, req.bucket, req.key);
    assert found.answer.Ok?;
    var id: int;
    if found.answer.value.Some? {
      id := found.answer.value.value;
    } else {
      id := AssignPartition(env, st.db, req.bucket).answer.value;
    }
    var name := FullBucketName(env.fmt(req.bucket), id);
    assert h.backend.db.tables[req.bucket][req.key] == id;
    assert SelectBucketId(h.backend.db, req.bucket, req.key).answer == Ok(Some(id));
    assert env.fmt(FullBucketName(req.bucket, id)) == name;
    GetAfterPut(st.store, name, req.key, req.body);
  }

  /** A key recorded in partition 0 reads back after a successful PUT
      whatever `bucketToS3Format` does: partition 0 is the bucket's own
      name, so both handlers ask for the same physical bucket. */
  lemma PutThenGetPartitionZero(env: Env, st: Backend, req: PutRequest)
    requires PutFile(env, st, req).outcome.Sent?
    requires SelectBucketId(PutFile(env, st, req).backend.db, req.bucket, req.key).answer == Ok(Some(0))
    ensures GetFile(env, PutFile(env, st, req).backend, GetRequest(req.bucket, req.key, NoVersion)).outcome
            == Sent(Response(200, Bytes(req.body)))
  {
    assert Commutes(env.fmt, req.bucket, 0);
    PutThenGet(env, st, req);
  }

  /** Without that agreement the round trip breaks, as the code is written:
      with a `bucketToS3Format` that appends "x", a PUT of a key recorded
      in partition 1 writes to "bx-1" and answers 200, and the GET that
      follows asks for "b-1x", which does not exist. */
  lemma PartitionNameMismatch()
    ensures var env := Env(s => s + "x", _ => "h", 1);
            var st := Backend(Db(map["bx" := BucketStats(1, 1)], map["b" := map["k" := 1]]),
                              Store(map["bx-1" := PhysicalBucket(false, map[])]));
            var req := PutRequest("b", "k", "h", [1]);
            var h := PutFile(env, st, req);
            && h.outcome == Sent(Response(200, PutResult(1, None)))
            && GetFile(env, h.backend, GetRequest("b", "k", NoVersion)).outcome.Next?
  {
    var env := Env(s => s + "x", _ => "h", 1);
    var st := Backend(Db(map["bx" := BucketStats(1, 1)], map["b" := map["k" := 1]]),
                      Store(map["bx-1" := PhysicalBucket(false, map[])]));
    var req := PutRequest("b", "k", "h", [1]);
    assert IntToDecimal(1) == "1";
    assert FullBucketName(env.fmt("b"), 1) == "bx-1";
    assert env.fmt(FullBucketName("b", 1)) == "b-1x";
    var w := PutObject(st.store, "bx-1", "k", [1]);
    assert w.Done? && w.value.version == None;
    assert HeadObject(w.value.store, "bx-1", "k") == Done(1);
    assert PutFile(env, st, req) == Handled(Backend(st.db, w.value.store), Sent(Response(200, PutResult(1, None))));
    assert "b-1x" !in w.value.store.buckets;
  }

  /** A GET whose S3 request fails (no such bucket, key or version) passes
      the raw S3 error on; it carries no `status` and no `msg`, so the
      client gets 500 with an empty body. */
  lemma GetStoreFailure(env: Env, st: Backend, req: GetRequest)
    requires !req.version.ManyVersions?
    requires req.bucket in st.db.tables && req.key in st.db.tables[req.bucket]
    requires var version := if req.version.OneVersion? && req.version.id != "" then Some(req.version.id) else None;
             GetObject(st.store, env.fmt(FullBucketName(req.bucket, st.db.tables[req.bucket][req.key])), req.key, version).S3Fail?
    ensures GetFile(env, st, req).backend == st
    ensures GetFile(env, st, req).outcome.Next?
    ensures ErrorHandler(GetFile(env, st, req).outcome.err, None) == Response(500, NoBody)
  {
  }

  /** GET of a key without a row answers 404 "File not found". */
  lemma GetMissingKey(env: Env, st: Backend, req: GetRequest)
    requires !req.version.ManyVersions?
    requires req.bucket in st.db.tables && req.key !in st.db.tables[req.bucket]
    ensures GetFile(env, st, req) == Handled(st, Next(ClientError(404, FileNotFound)))
  {
  }

  /** GET of an old version of a key in a versioned partition returns that
      version's bytes even after later overwrites. */
  lemma GetOldVersion(env: Env, st: Backend, req: GetRequest, oldData: seq<Byte>)
    requires req.version.OneVersion? && req.version.id != ""
    requires req.bucket in st.db.tables && req.key in st.db.tables[req.bucket]
    requires GetObject(st.store, env.fmt(FullBucketName(req.bucket, st.db.tables[req.bucket][req.key])),
                       req.key, Some(req.version.id)) == Done(oldData)
    ensures GetFile(env, st, req) == Handled(st, Sent(Response(200, Bytes(oldData))))
  {
  }

  /** DELETE: when the backend read of the partition-0 object fails, the
      metadata store is untouched and the answer is a 502 wrapping the
      backend error; when it succeeds, the row is deleted and `n_objects`
      lowered by one (whether a row existed or not). */
  lemma DeleteGatedOnBackend(env: Env, st: Backend, req: DeleteRequest)
    ensures var h := DeleteVolatileFile(env, st, req);
            var read := GetObject(st.store, env.fmt(req.bucket), req.key, None);
            && (read.S3Fail? ==> h == Handled(st, Next(Upstream(read.err))))
            && (read.Done? ==> h.backend.db == DeleteObject(st.db, env.fmt, req.bucket, req.key).db)
            && (read.Done? && req.bucket in st.db.tables ==> h.outcome == Sent(Response(200, TextBody("OK"))))
  {
  }

  /** A successful DELETE removes the row but leaves the object in the store:
      afterwards GET answers 404 while the object is still readable from the
      backend. */
  lemma DeleteLeavesObject(env: Env, st: Backend, req: DeleteRequest)
    requires DeleteVolatileFile(env, st, req).outcome.Sent?
    ensures var h := DeleteVolatileFile(env, st, req);
            && GetObject(h.backend.store, env.fmt(req.bucket), req.key, None).Done?
            && GetFile(env, h.backend, GetRequest(req.bucket, req.key, NoVersion)).outcome
               == Next(ClientError(404, FileNotFound))
  {
  }

  /** Because the object survives, a second DELETE of the same key succeeds
      too and lowers `n_objects` again: from a consistent bucket, two
      DELETEs of one key leave the count one below the number of rows. */
  lemma RepeatedDeleteUndercounts(env: Env, st: Backend, req: DeleteRequest)
    requires Counted(st.db, env.fmt, req.bucket)
    requires req.key in st.db.tables[req.bucket]
    requires DeleteVolatileFile(env, st, req).outcome.Sent?
    ensures var h1 := DeleteVolatileFile(env, st, req);
            var h2 := DeleteVolatileFile(env, h1.backend, req);
            && h2.outcome.Sent?
            && h2.backend.db.stats[env.fmt(req.bucket)].nObjects == |h2.backend.db.tables[req.bucket]| - 1
  {
    var h1 := DeleteVolatileFile(env, st, req);
    CountedStep(st.db, env.fmt, req.bucket, Delete(req.key));
    DeleteOfAbsentKeyUndercounts(h1.backend.db, env.fmt, req.bucket, req.key);
  }
}
