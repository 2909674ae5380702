/** Partition growth: what a run of PUTs of distinct new keys does to a
    fresh logical bucket. With `maxObjectsPerBucket = max >= 1`, key number
    k of the run (counting from 0) lands in partition `k div max`. */
module Growth {
  import opened Base
  import opened Http
  import opened MetadataDb
  import opened Routes
  import opened RouteLemmas

  /** The backend after the PUTs `reqs`, one after the other, and what each
      PUT answered. */
  datatype Trace = Trace(backend: Backend, outcomes: seq<Outcome>)

  function RunPuts(env: Env, st: Backend, reqs: seq<PutRequest>): (t: Trace)
    ensures |t.outcomes| == |reqs|
    decreases |reqs|
  {
    if |reqs| == 0 then Trace(st, [])
    else
      PutStep(env, RunPuts(env, st, reqs[..|reqs| - 1]), reqs[|reqs| - 1])
  }

  function PutStep(env: Env, t: Trace, req: PutRequest): (t': Trace)
    ensures |t'.outcomes| == |t.outcomes| + 1
  {
    var h := PutFile(env, t.backend, req);
    Trace(h.backend, t.outcomes + [h.outcome])
  }

  /** `bucket_id` of a fresh bucket once it holds `count` objects placed by
      new-key PUTs. */
  function PartitionAfter(count: nat, max: int): int
    requires max >= 1
  {
    if count == 0 then 0 else (count - 1) / max
  }

  /** The threshold test of `putFile` on a bucket holding `n` objects in
      partition `PartitionAfter(n, max)` picks partition `n div max`, and
      that is the partition recorded afterwards. */
  lemma ThresholdPicksQuotient(n: nat, max: int)
    requires max >= 1
    ensures var bid := PartitionAfter(n, max);
            var id := if n >= max * (bid + 1) then bid + 1 else bid;
            id == n / max && id == PartitionAfter(n + 1, max)
  {
    if n == 0 {
      DivUnique(0, max, 0, 0);
    } else {
      var q := (n - 1) / max;
      var r := (n - 1) % max;
      assert n - 1 == max * q + r;
      assert max * (q + 1) == max * q + max;
      if r == max - 1 {
        DivUnique(n, max, q + 1, 0);
      } else {
        DivUnique(n, max, q, r + 1);
      }
    }
  }

  /** A run of PUTs of distinct new keys into bucket `b`, each with the
      right checksum. */
  ghost predicate FreshPuts(env: Env, b: string, reqs: seq<PutRequest>) {
    && (forall i :: 0 <= i < |reqs| ==>
          reqs[i].bucket == b && reqs[i].contentMd5 != "" && env.md5Base64(reqs[i].body) == reqs[i].contentMd5)
    && (forall i, j :: 0 <= i < j < |reqs| ==> reqs[i].key != reqs[j].key)
  }

  /** The table the first `n` PUTs of the run should leave behind: key
      number i mapped to partition `i div max`. */
  function Expected(reqs: seq<PutRequest>, n: nat, max: int): map<string, int>
    requires n <= |reqs| && max >= 1
  {
    if n == 0 then map[] else Expected(reqs, n - 1, max)[reqs[n - 1].key := (n - 1) / max]
  }

  /** With distinct keys the expected table has one row per request. */
  lemma {:induction false} ExpectedSize(reqs: seq<PutRequest>, n: nat, max: int)
    requires n <= |reqs| && max >= 1
    requires forall i, j :: 0 <= i < j < |reqs| ==> reqs[i].key != reqs[j].key
    ensures |Expected(reqs, n, max)| == n
    decreases n
  {
    if n > 0 {
      ExpectedSize(reqs, n - 1, max);
      NextKeyIsNew(reqs, n - 1, max);
      ExpectedGrows(reqs, n, max);
    }
  }

  /** A request whose key is not yet in the table adds one row. */
  lemma ExpectedGrows(reqs: seq<PutRequest>, n: nat, max: int)
    requires 1 <= n <= |reqs| && max >= 1
    requires reqs[n - 1].key !in Expected(reqs, n - 1, max)
    ensures |Expected(reqs, n, max)| == |Expected(reqs, n - 1, max)| + 1
  {
    var prev := Expected(reqs, n - 1, max);
    assert |prev[reqs[n - 1].key := (n - 1) / max]| == |prev| + 1;
  }

  /** With distinct keys, key number i is in partition `i div max`. */
  lemma {:induction false} ExpectedAt(reqs: seq<PutRequest>, n: nat, max: int, i: nat)
    requires i < n <= |reqs| && max >= 1
    requires forall i, j :: 0 <= i < j < |reqs| ==> reqs[i].key != reqs[j].key
    ensures reqs[i].key in Expected(reqs, n, max)
    ensures Expected(reqs, n, max)[reqs[i].key] == i / max
    decreases n
  {
    var prev := Expected(reqs, n - 1, max);
    assert Expected(reqs, n, max) == prev[reqs[n - 1].key := (n - 1) / max];
    if i < n - 1 {
      assert reqs[i].key != reqs[n - 1].key;
      ExpectedAt(reqs, n - 1, max, i);
    }
  }

  /** The bucket's state after the first `n` PUTs of the run. */
  ghost predicate GrownTo(env: Env, st0: Backend, b: string, reqs: seq<PutRequest>, n: nat, t: Trace)
    requires env.maxObjectsPerBucket >= 1 && n <= |reqs|
  {
    && env.fmt(b) in t.backend.db.stats
    && b in t.backend.db.tables
    && t.backend.db.stats[env.fmt(b)] == BucketStats(n, PartitionAfter(n, env.maxObjectsPerBucket))
    && t.backend.db.tables[b] == Expected(reqs, n, env.maxObjectsPerBucket)
    && t.backend.store.buckets.Keys == st0.store.buckets.Keys
    && |t.outcomes| == n
    && AllCreated(t.outcomes)
  }

  /** Every answer in `outs` is a 201. */
  ghost predicate AllCreated(outs: seq<Outcome>) {
    forall i :: 0 <= i < |outs| ==> outs[i].Sent? && outs[i].response.status == 201
  }

  lemma AllCreatedAppend(outs: seq<Outcome>, o: Outcome)
    requires AllCreated(outs)
    requires o.Sent? && o.response.status == 201
    ensures AllCreated(outs + [o])
  {
    forall i | 0 <= i < |outs| + 1
      ensures (outs + [o])[i].Sent? && (outs + [o])[i].response.status == 201
    {
      if i < |outs| {
        assert (outs + [o])[i] == outs[i];
      }
    }
  }

  /** Preconditions of a run shared by the growth lemmas. */
  ghost predicate FreshStart(env: Env, st: Backend, b: string, reqs: seq<PutRequest>) {
    && env.maxObjectsPerBucket >= 1
    && FreshPuts(env, b, reqs)
    && env.fmt(b) in st.db.stats && st.db.stats[env.fmt(b)] == BucketStats(0, 0)
    && b in st.db.tables && st.db.tables[b] == map[]
    && forall p :: 0 <= p <= (|reqs| - 1) / env.maxObjectsPerBucket ==> FullBucketName(env.fmt(b), p) in st.store.buckets
  }

  /** The effect of the PUT of key number `m` on its own: it lands in
      partition `m div max`, the row is inserted, `n_objects` becomes
      `m + 1`, and the answer is 201. */
  lemma NthPut(env: Env, st: Backend, req: PutRequest, m: nat)
    requires env.maxObjectsPerBucket >= 1
    requires req.contentMd5 != "" && env.md5Base64(req.body) == req.contentMd5
    requires req.bucket in st.db.tables && req.key !in st.db.tables[req.bucket]
    requires env.fmt(req.bucket) in st.db.stats
    requires st.db.stats[env.fmt(req.bucket)] == BucketStats(m, PartitionAfter(m, env.maxObjectsPerBucket))
    requires FullBucketName(env.fmt(req.bucket), m / env.maxObjectsPerBucket) in st.store.buckets
    ensures var h := PutFile(env, st, req);
            && h.outcome.Sent? && h.outcome.response.status == 201
            && h.backend.db.tables == st.db.tables[req.bucket := st.db.tables[req.bucket][req.key := m / env.maxObjectsPerBucket]]
            && env.fmt(req.bucket) in h.backend.db.stats
            && h.backend.db.stats[env.fmt(req.bucket)] == BucketStats(m + 1, PartitionAfter(m + 1, env.maxObjectsPerBucket))
            && h.backend.store.buckets.Keys == st.store.buckets.Keys
  {
    ThresholdPicksQuotient(m, env.maxObjectsPerBucket);
    PutNewKey(env, st, req);
  }

  /** Bookkeeping of one more PUT of the run, given what that PUT did to
      the bucket (`NthPut`): `GrownTo` holds one step further. */
  lemma GrowthStep(env: Env, st: Backend, b: string, reqs: seq<PutRequest>, m: nat, t: Trace, h: Handled)
    requires env.maxObjectsPerBucket >= 1
    requires m < |reqs|
    requires GrownTo(env, st, b, reqs, m, t)
    requires h.outcome.Sent? && h.outcome.response.status == 201
    requires h.backend.db.tables == t.backend.db.tables[b := t.backend.db.tables[b][reqs[m].key := m / env.maxObjectsPerBucket]]
    requires env.fmt(b) in h.backend.db.stats
    requires h.backend.db.stats[env.fmt(b)] == BucketStats(m + 1, PartitionAfter(m + 1, env.maxObjectsPerBucket))
    requires h.backend.store.buckets.Keys == t.backend.store.buckets.Keys
    ensures GrownTo(env, st, b, reqs, m + 1, Trace(h.backend, t.outcomes + [h.outcome]))
  {
    AllCreatedAppend(t.outcomes, h.outcome);
  }

  /** The next key of a run of distinct keys has no row yet. */
  lemma NextKeyIsNew(reqs: seq<PutRequest>, m: nat, max: int)
    requires m < |reqs| && max >= 1
    requires forall i, j :: 0 <= i < j < |reqs| ==> reqs[i].key != reqs[j].key
    ensures reqs[m].key !in Expected(reqs, m, max)
  {
    ExpectedKeys(reqs, m, max, reqs[m].key);
    forall i | 0 <= i < m
      ensures reqs[i].key != reqs[m].key
    {
    }
  }

  /** Every key of the expected table is the key of one of its requests. */
  lemma {:induction false} ExpectedKeys(reqs: seq<PutRequest>, n: nat, max: int, k: string)
    requires n <= |reqs| && max >= 1
    ensures k in Expected(reqs, n, max) ==> exists i :: 0 <= i < n && reqs[i].key == k
    decreases n
  {
    if n > 0 && k != reqs[n - 1].key {
      ExpectedKeys(reqs, n - 1, max, k);
    }
  }

  /** The partition the next PUT of a fresh run picks has a physical bucket. */
  lemma NextPartitionExists(env: Env, st: Backend, b: string, reqs: seq<PutRequest>, m: nat)
    requires FreshStart(env, st, b, reqs)
    requires m < |reqs|
    ensures FullBucketName(env.fmt(b), m / env.maxObjectsPerBucket) in st.store.buckets
  {
    var max := env.maxObjectsPerBucket;
    var p := m / max;
    DivMonotone(0, m, max);
    DivMonotone(m, |reqs| - 1, max);
    assert 0 <= p <= (|reqs| - 1) / max;
  }

  lemma RunPutsSnoc(env: Env, st: Backend, reqs: seq<PutRequest>, m: nat)
    requires m < |reqs|
    ensures RunPuts(env, st, reqs[..m + 1]) == PutStep(env, RunPuts(env, st, reqs[..m]), reqs[m])
  {
    assert reqs[..m + 1][..m] == reqs[..m];
  }

  /** The PUT of key number `m` takes a run grown to `m` keys to `m + 1`. */
  lemma GrowthNext(env: Env, st: Backend, b: string, reqs: seq<PutRequest>, m: nat)
    requires FreshStart(env, st, b, reqs)
    requires m < |reqs|
    requires GrownTo(env, st, b, reqs, m, RunPuts(env, st, reqs[..m]))
    ensures GrownTo(env, st, b, reqs, m + 1, RunPuts(env, st, reqs[..m + 1]))
  {
    var t := RunPuts(env, st, reqs[..m]);
    NextKeyIsNew(reqs, m, env.maxObjectsPerBucket);
    NextPartitionExists(env, st, b, reqs, m);
    NthPut(env, t.backend, reqs[m], m);
    var h := PutFile(env, t.backend, reqs[m]);
    RunPutsSnoc(env, st, reqs, m);
    GrowthStep(env, st, b, reqs, m, t, h);
  }

  lemma {:induction false} GrowthPrefix(env: Env, st: Backend, b: string, reqs: seq<PutRequest>, n: nat)
    requires FreshStart(env, st, b, reqs)
    requires n <= |reqs|
    ensures GrownTo(env, st, b, reqs, n, RunPuts(env, st, reqs[..n]))
    decreases n
  {
    if n == 0 {
      assert reqs[..0] == [];
    } else {
      GrowthPrefix(env, st, b, reqs, n - 1);
      GrowthNext(env, st, b, reqs, n - 1);
    }
  }

  /** Partition growth: after PUTs of distinct new keys into a fresh bucket
      (`n_objects = 0`, `bucket_id = 0`, empty table) whose partitions all
      exist, every PUT answered 201, key number k sits in partition
      `k div max`, and the stats row holds the number of keys and the last
      partition used. */
  lemma PartitionGrowth(env: Env, st: Backend, b: string, reqs: seq<PutRequest>)
    requires env.maxObjectsPerBucket >= 1
    requires FreshPuts(env, b, reqs)
    requires env.fmt(b) in st.db.stats && st.db.stats[env.fmt(b)] == BucketStats(0, 0)
    requires b in st.db.tables && st.db.tables[b] == map[]
    requires forall p :: 0 <= p <= (|reqs| - 1) / env.maxObjectsPerBucket ==> FullBucketName(env.fmt(b), p) in st.store.buckets
    ensures var t := RunPuts(env, st, reqs);
            && (forall i :: 0 <= i < |reqs| ==> t.outcomes[i].Sent? && t.outcomes[i].response.status == 201)
            && b in t.backend.db.tables && env.fmt(b) in t.backend.db.stats
            && (forall i :: 0 <= i < |reqs| ==>
                  (reqs[i].key in t.backend.db.tables[b] && t.backend.db.tables[b][reqs[i].key] == i / env.maxObjectsPerBucket))
            && |t.backend.db.tables[b]| == |reqs|
            && t.backend.db.stats[env.fmt(b)] == BucketStats(|reqs|, PartitionAfter(|reqs|, env.maxObjectsPerBucket))
  {
    GrowthPrefix(env, st, b, reqs, |reqs|);
    assert reqs[..|reqs|] == reqs;
    ExpectedSize(reqs, |reqs|, env.maxObjectsPerBucket);
    forall i | 0 <= i < |reqs|
      ensures reqs[i].key in Expected(reqs, |reqs|, env.maxObjectsPerBucket)
      ensures Expected(reqs, |reqs|, env.maxObjectsPerBucket)[reqs[i].key] == i / env.maxObjectsPerBucket
    {
      ExpectedAt(reqs, |reqs|, env.maxObjectsPerBucket, i);
    }
  }

  /** With 10 objects per partition, the eleventh new key opens partition
      1: it is recorded there, the first ten stay in partition 0, and the
      stats row reads (11, 1). */
  lemma EleventhKeyOpensPartitionOne(env: Env, st: Backend, b: string, reqs: seq<PutRequest>)
    requires env.maxObjectsPerBucket == 10 && |reqs| == 11
    requires FreshPuts(env, b, reqs)
    requires env.fmt(b) in st.db.stats && st.db.stats[env.fmt(b)] == BucketStats(0, 0)
    requires b in st.db.tables && st.db.tables[b] == map[]
    requires FullBucketName(env.fmt(b), 0) in st.store.buckets && FullBucketName(env.fmt(b), 1) in st.store.buckets
    ensures var t := RunPuts(env, st, reqs);
            && b in t.backend.db.tables && env.fmt(b) in t.backend.db.stats
            && reqs[10].key in t.backend.db.tables[b] && t.backend.db.tables[b][reqs[10].key] == 1
            && (forall i :: 0 <= i < 10 ==> reqs[i].key in t.backend.db.tables[b] && t.backend.db.tables[b][reqs[i].key] == 0)
            && t.backend.db.stats[env.fmt(b)] == BucketStats(11, 1)
  {
    forall p | 0 <= p <= (|reqs| - 1) / env.maxObjectsPerBucket
      ensures FullBucketName(env.fmt(b), p) in st.store.buckets
    {
      assert p == 0 || p == 1;
    }
    PartitionGrowth(env, st, b, reqs);
  }
}
