/** The relational metadata store (src/db/index.ts) as an immutable record,
    with one pure transition per query method of class `DB`.

    `stats` is the `bucketstats` table, keyed by the S3-format bucket name
    (`bucketToS3Format(bucket)`, passed in as `fmt`); `tables` holds one
    table per logical bucket, keyed by the bucket name as given, mapping an
    object key to the `bucket_id` of the partition that holds it. The key
    column is taken to be unique, so a second INSERT of a key fails. */
module MetadataDb {
  import opened Base

  datatype BucketStats = BucketStats(nObjects: int, bucketId: int)

  datatype Db = Db(stats: map<string, BucketStats>, tables: map<string, map<string, int>>)

  /** Why a query method rejects: destructuring the `null` that `queryOne`
      returns for an empty result (a TypeError), a table that does not
      exist (SQLSTATE 42P01), or a duplicate key (SQLSTATE 23505). */
  datatype DbError = NullRow | UndefinedTable | UniqueViolation

  datatype Answer<+T> = Ok(value: T) | Fail(error: DbError)

  /** The store after a query method, and what the method resolved to. */
  datatype Step<+T> = Step(db: Db, answer: Answer<T>)

  /** `queryOne`: the first row of a result, or `null` when there is none. */
  function QueryOne<R>(rows: seq<R>): (r: Option<R>)
    ensures r.None? <==> |rows| == 0
    ensures r.Some? ==> r.value == rows[0]
  {
    if |rows| > 0 then Some(rows[0]) else None
  }

  /** Rows of `bucketstats` whose `bucket` column is `fmt(bucket)`. */
  function StatsRows(db: Db, fmt: string -> string, bucket: string): seq<BucketStats> {
    if fmt(bucket) in db.stats then [db.stats[fmt(bucket)]] else []
  }

  /** `n_objects` and `bucket_id` of the bucket's stats row; a missing row
      makes the method reject. Nothing is written. */
  function SelectObjectCountAndBucketId(db: Db, fmt: string -> string, bucket: string): (s: Step<BucketStats>)
    ensures s.db == db
    ensures s.answer.Ok? <==> fmt(bucket) in db.stats
    ensures s.answer.Ok? ==> s.answer.value == db.stats[fmt(bucket)]
    ensures s.answer.Fail? ==> s.answer.error == NullRow
  {
    match QueryOne(StatsRows(db, fmt, bucket))
    case None => Step(db, Fail(NullRow))
    case Some(row) => Step(db, Ok(row))
  }

  /** `UPDATE ... SET bucket_id = bucket_id + 1 ... RETURNING bucket_id`:
      raises the partition counter by one and answers the new value;
      `n_objects` and every other row are untouched. Without a stats row
      the UPDATE changes nothing and the method rejects. */
  function IncreaseBucketId(db: Db, fmt: string -> string, bucket: string): (s: Step<int>)
    ensures s.db.tables == db.tables
    ensures s.answer.Ok? <==> fmt(bucket) in db.stats
    ensures s.answer.Fail? ==> s.db == db && s.answer.error == NullRow
    ensures s.answer.Ok? ==>
              && s.answer.value == db.stats[fmt(bucket)].bucketId + 1
              && s.db.stats == db.stats[fmt(bucket) := BucketStats(db.stats[fmt(bucket)].nObjects, s.answer.value)]
  {
    if fmt(bucket) in db.stats then
      var row := db.stats[fmt(bucket)];
      var row' := row.(bucketId := row.bucketId + 1);
      Step(db.(stats := db.stats[fmt(bucket) := row']), Ok(row'.bucketId))
    else Step(db, Fail(NullRow))
  }

  /** Adds one to `n_objects` when the stats row exists; the UPDATE matches
      nothing otherwise. Shared by `saveObject` and `deleteObject`. */
  function AddToCount(stats: map<string, BucketStats>, name: string, delta: int): (r: map<string, BucketStats>)
    ensures r.Keys == stats.Keys
    ensures name in stats ==> r[name] == stats[name].(nObjects := stats[name].nObjects + delta)
    ensures forall n :: n in stats && n != name ==> r[n] == stats[n]
  {
    if name in stats then stats[name := stats[name].(nObjects := stats[name].nObjects + delta)] else stats
  }

  /** `saveObject`: INSERT the row `(key, bucketId)` into the bucket's table
      and add one to `n_objects`. The two statements are independent: the
      count goes up even when the INSERT fails, and the method then rejects
      with the INSERT's error. */
  function SaveObject(db: Db, fmt: string -> string, bucket: string, bucketId: int, key: string): (s: Step<()>)
    ensures s.db.stats == AddToCount(db.stats, fmt(bucket), 1)
    ensures s.answer.Ok? <==> bucket in db.tables && key !in db.tables[bucket]
    ensures s.answer.Ok? ==> s.db.tables == db.tables[bucket := db.tables[bucket][key := bucketId]]
    ensures s.answer.Fail? ==> s.db.tables == db.tables
  {
    var stats' := AddToCount(db.stats, fmt(bucket), 1);
    if bucket !in db.tables then Step(Db(stats', db.tables), Fail(UndefinedTable))
    else if key in db.tables[bucket] then Step(Db(stats', db.tables), Fail(UniqueViolation))
    else Step(Db(stats', db.tables[bucket := db.tables[bucket][key := bucketId]]), Ok(()))
  }

  /** `selectBucketId`: the partition recorded for `key`, or `null` (None)
      when the table has no row for it. Nothing is written. */
  function SelectBucketId(db: Db, bucket: string, key: string): (s: Step<Option<int>>)
    ensures s.db == db
    ensures s.answer.Fail? <==> bucket !in db.tables
    ensures s.answer.Ok? ==> (s.answer.value.None? <==> key !in db.tables[bucket])
    ensures s.answer.Ok? && s.answer.value.Some? ==> s.answer.value.value == db.tables[bucket][key]
  {
    if bucket !in db.tables then Step(db, Fail(UndefinedTable))
    else
      var table := db.tables[bucket];
      var rows := if key in table then [table[key]] else [];
      Step(db, Ok(QueryOne(rows)))
  }

  /** `deleteObject`: DELETE the key's row and subtract one from `n_objects`.
      The subtraction happens whether or not a row matched, and even when
      the table is missing (then the method rejects). */
  function DeleteObject(db: Db, fmt: string -> string, bucket: string, key: string): (s: Step<()>)
    ensures s.db.stats == AddToCount(db.stats, fmt(bucket), -1)
    ensures s.answer.Ok? <==> bucket in db.tables
    ensures s.answer.Ok? ==> s.db.tables == db.tables[bucket := db.tables[bucket] - {key}]
    ensures s.answer.Fail? ==> s.db.tables == db.tables
  {
    var stats' := AddToCount(db.stats, fmt(bucket), -1);
    if bucket !in db.tables then Step(Db(stats', db.tables), Fail(UndefinedTable))
    else Step(Db(stats', db.tables[bucket := db.tables[bucket] - {key}]), Ok(()))
  }

  // ---------------------------------------------------------------------
  // Runs of queries against one logical bucket

  datatype Query =
    | SelectStats
    | Increase
    | Save(bucketId: int, key: string)
    | SelectId(key: string)
    | Delete(key: string)

  function Apply(db: Db, fmt: string -> string, bucket: string, q: Query): Db {
    match q
    case SelectStats => SelectObjectCountAndBucketId(db, fmt, bucket).db
    case Increase => IncreaseBucketId(db, fmt, bucket).db
    case Save(id, key) => SaveObject(db, fmt, bucket, id, key).db
    case SelectId(key) => SelectBucketId(db, bucket, key).db
    case Delete(key) => DeleteObject(db, fmt, bucket, key).db
  }

  /** The store after the queries `qs`, issued one after the other. */
  function Run(db: Db, fmt: string -> string, bucket: string, qs: seq<Query>): Db
    decreases |qs|
  {
    if |qs| == 0 then db else Run(Apply(db, fmt, bucket, qs[0]), fmt, bucket, qs[1..])
  }

  /** The bucket's stats row agrees with its table: `n_objects` is the
      number of rows. */
  ghost predicate Counted(db: Db, fmt: string -> string, bucket: string) {
    && fmt(bucket) in db.stats
    && bucket in db.tables
    && db.stats[fmt(bucket)].nObjects == |db.tables[bucket]|
  }

  /** Every `Save` in `qs` inserts a key that has no row yet, and every
      `Delete` removes a key that has one, at the moment it is issued. */
  ghost predicate Disciplined(db: Db, fmt: string -> string, bucket: string, qs: seq<Query>)
    decreases |qs|
  {
    |qs| > 0 ==>
      && (qs[0].Save? ==> bucket in db.tables && qs[0].key !in db.tables[bucket])
      && (qs[0].Delete? ==> bucket in db.tables && qs[0].key in db.tables[bucket])
      && Disciplined(Apply(db, fmt, bucket, qs[0]), fmt, bucket, qs[1..])
  }

  lemma CountedStep(db: Db, fmt: string -> string, bucket: string, q: Query)
    requires Counted(db, fmt, bucket)
    requires q.Save? ==> q.key !in db.tables[bucket]
    requires q.Delete? ==> q.key in db.tables[bucket]
    ensures Counted(Apply(db, fmt, bucket, q), fmt, bucket)
  {
    var t := db.tables[bucket];
    match q
    case Save(id, key) =>
      assert |t[key := id]| == |t| + 1;
    case Delete(key) =>
      assert (t - {key}).Keys == t.Keys - {key};
      assert |t - {key}| == |t| - 1;
    case _ =>
  }

  /** `n_objects` counts the rows as long as inserts only add new keys and
      deletes only remove existing ones. */
  lemma {:induction false} RunKeepsCount(db: Db, fmt: string -> string, bucket: string, qs: seq<Query>)
    requires Counted(db, fmt, bucket)
    requires Disciplined(db, fmt, bucket, qs)
    ensures Counted(Run(db, fmt, bucket, qs), fmt, bucket)
    decreases |qs|
  {
    if |qs| > 0 {
      CountedStep(db, fmt, bucket, qs[0]);
      RunKeepsCount(Apply(db, fmt, bucket, qs[0]), fmt, bucket, qs[1..]);
    }
  }

  /** A delete of a key without a row still lowers the count: from a
      consistent state it leaves `n_objects` one below the number of rows. */
  lemma DeleteOfAbsentKeyUndercounts(db: Db, fmt: string -> string, bucket: string, key: string)
    requires Counted(db, fmt, bucket)
    requires key !in db.tables[bucket]
    ensures var db' := DeleteObject(db, fmt, bucket, key).db;
            db'.tables[bucket] == db.tables[bucket]
            && db'.stats[fmt(bucket)].nObjects == |db'.tables[bucket]| - 1
  {
    assert db.tables[bucket] - {key} == db.tables[bucket];
  }

  /** Only `Increase` moves `bucket_id`, and it only moves it up by one. */
  lemma ApplyBucketId(db: Db, fmt: string -> string, bucket: string, q: Query)
    requires fmt(bucket) in db.stats
    ensures fmt(bucket) in Apply(db, fmt, bucket, q).stats
    ensures Apply(db, fmt, bucket, q).stats[fmt(bucket)].bucketId
            == db.stats[fmt(bucket)].bucketId + (if q.Increase? then 1 else 0)
  {
  }

  /** Over any run, `bucket_id` never decreases; it grows by exactly the
      number of `Increase` queries in the run. */
  lemma {:induction false} RunBucketIdMonotone(db: Db, fmt: string -> string, bucket: string, qs: seq<Query>)
    requires fmt(bucket) in db.stats
    ensures fmt(bucket) in Run(db, fmt, bucket, qs).stats
    ensures Run(db, fmt, bucket, qs).stats[fmt(bucket)].bucketId
            == db.stats[fmt(bucket)].bucketId + Increases(qs)
    ensures Run(db, fmt, bucket, qs).stats[fmt(bucket)].bucketId >= db.stats[fmt(bucket)].bucketId
    decreases |qs|
  {
    if |qs| > 0 {
      ApplyBucketId(db, fmt, bucket, qs[0]);
      RunBucketIdMonotone(Apply(db, fmt, bucket, qs[0]), fmt, bucket, qs[1..]);
    }
  }

  /** Number of `Increase` queries in `qs`. */
  function Increases(qs: seq<Query>): nat
    decreases |qs|
  {
    if |qs| == 0 then 0 else (if qs[0].Increase? then 1 else 0) + Increases(qs[1..])
  }
}
