/** The S3-compatible backend, reduced to what the gateway relies on: named
    physical buckets holding, per key, a history of versions (latest last).
    A versioned bucket appends a version with a fresh id on every put; an
    unversioned one keeps only the latest body. Failures are the error
    objects the handlers see: an HTTP `statusCode` and an S3 error `code`. */
module ObjectStore {
  import opened Base
  import opened Http

  datatype Version = Version(id: string, data: seq<Byte>)

  datatype PhysicalBucket = PhysicalBucket(versioned: bool, objects: map<string, seq<Version>>)

  datatype Store = Store(buckets: map<string, PhysicalBucket>)

  datatype S3Result<+T> = Done(value: T) | S3Fail(err: ErrorObject)

  datatype Written = Written(store: Store, version: Option<string>)

  /** The id an unversioned bucket reports for its only version. */
  const NullVersion: string := "null"

  function NotFound(code: string): ErrorObject {
    ErrorObject(0, NoMsg, 404, code)
  }

  /** Version ids of a versioned history are the positions in decimal; an
      unversioned key holds exactly one body. */
  ghost predicate WellFormedHistory(versioned: bool, h: seq<Version>) {
    if versioned then forall i :: 0 <= i < |h| ==> h[i].id == NatToDecimal(i)
    else |h| == 1 && h[0].id == NullVersion
  }

  ghost predicate WellFormed(s: Store) {
    forall b, k :: b in s.buckets && k in s.buckets[b].objects ==>
      WellFormedHistory(s.buckets[b].versioned, s.buckets[b].objects[k])
  }

  /** Stores `data` under `key`; answers the new version id for a versioned
      bucket (`VersionId` of the upload), nothing otherwise. */
  function PutObject(s: Store, bucket: string, key: string, data: seq<Byte>): (r: S3Result<Written>)
    ensures r.S3Fail? <==> bucket !in s.buckets
    ensures r.S3Fail? ==> r.err == NotFound("NoSuchBucket")
    ensures r.Done? ==>
              && r.value.store.buckets.Keys == s.buckets.Keys
              && key in r.value.store.buckets[bucket].objects
              && |r.value.store.buckets[bucket].objects[key]| > 0
              && Last(r.value.store.buckets[bucket].objects[key]).data == data
              && (r.value.version.Some? <==> s.buckets[bucket].versioned)
              && forall b, k :: b in s.buckets && k in s.buckets[b].objects && (b, k) != (bucket, key) ==>
                   k in r.value.store.buckets[b].objects && r.value.store.buckets[b].objects[k] == s.buckets[b].objects[k]
    ensures r.Done? ==>
              forall b :: b in s.buckets ==>
                && r.value.store.buckets[b].versioned == s.buckets[b].versioned
                && r.value.store.buckets[b].objects.Keys == s.buckets[b].objects.Keys + (if b == bucket then {key} else {})
    ensures r.Done? && s.buckets[bucket].versioned ==>
              var h := if key in s.buckets[bucket].objects then s.buckets[bucket].objects[key] else [];
              && r.value.store.buckets[bucket].objects[key] == h + [Version(NatToDecimal(|h|), data)]
              && r.value.version == Some(NatToDecimal(|h|))
    ensures r.Done? && !s.buckets[bucket].versioned ==>
              r.value.store.buckets[bucket].objects[key] == [Version(NullVersion, data)]
  {
    if bucket !in s.buckets then S3Fail(NotFound("NoSuchBucket"))
    else
      var pb := s.buckets[bucket];
      var old_ := if key in pb.objects then pb.objects[key] else [];
      if pb.versioned then
        var id := NatToDecimal(|old_|);
        var pb' := pb.(objects := pb.objects[key := old_ + [Version(id, data)]]);
        Done(Written(Store(s.buckets[bucket := pb']), Some(id)))
      else
        var pb' := pb.(objects := pb.objects[key := [Version(NullVersion, data)]]);
        Done(Written(Store(s.buckets[bucket := pb']), None))
  }

  function Last(h: seq<Version>): Version
    requires |h| > 0
  {
    h[|h| - 1]
  }

  /** The latest version in `h` with the given id. */
  function FindVersion(h: seq<Version>, id: string): (r: Option<seq<Byte>>)
    ensures r.Some? <==> exists i :: 0 <= i < |h| && h[i].id == id
    ensures r.Some? ==> exists i :: 0 <= i < |h| && h[i].id == id && h[i].data == r.value
    decreases |h|
  {
    if |h| == 0 then None
    else if Last(h).id == id then Some(Last(h).data)
    else
      var r := FindVersion(h[..|h| - 1], id);
      assert forall i :: 0 <= i < |h| - 1 ==> h[..|h| - 1][i] == h[i];
      r
  }

  /** `HeadObject`: the size (`ContentLength`) of the latest body. */
  function HeadObject(s: Store, bucket: string, key: string): (r: S3Result<nat>)
    ensures r.Done? <==> bucket in s.buckets && key in s.buckets[bucket].objects && |s.buckets[bucket].objects[key]| > 0
    ensures r.Done? ==> r.value == |Last(s.buckets[bucket].objects[key]).data|
  {
    if bucket !in s.buckets then S3Fail(NotFound("NoSuchBucket"))
    else if key !in s.buckets[bucket].objects || |s.buckets[bucket].objects[key]| == 0 then S3Fail(NotFound("NoSuchKey"))
    else Done(|Last(s.buckets[bucket].objects[key]).data|)
  }

  /** `GetObject`: the latest body, or the body of the named version. */
  function GetObject(s: Store, bucket: string, key: string, version: Option<string>): (r: S3Result<seq<Byte>>)
    ensures r.Done? <==> bucket in s.buckets && key in s.buckets[bucket].objects && |s.buckets[bucket].objects[key]| > 0
                         && (version.None? || FindVersion(s.buckets[bucket].objects[key], version.value).Some?)
    ensures r.Done? && version.None? ==> r.value == Last(s.buckets[bucket].objects[key]).data
    ensures r.Done? && version.Some? ==> Some(r.value) == FindVersion(s.buckets[bucket].objects[key], version.value)
    ensures r.S3Fail? ==> r.err.statusCode == 404 && r.err.status == 0 && r.err.msg == NoMsg
  {
    if bucket !in s.buckets then S3Fail(NotFound("NoSuchBucket"))
    else if key !in s.buckets[bucket].objects || |s.buckets[bucket].objects[key]| == 0 then S3Fail(NotFound("NoSuchKey"))
    else if version.None? then Done(Last(s.buckets[bucket].objects[key]).data)
    else match FindVersion(s.buckets[bucket].objects[key], version.value)
      case None => S3Fail(NotFound("NoSuchVersion"))
      case Some(data) => Done(data)
  }

  /** What was put is what a plain get returns. */
  lemma GetAfterPut(s: Store, bucket: string, key: string, data: seq<Byte>)
    requires bucket in s.buckets
    ensures var w := PutObject(s, bucket, key, data);
            w.Done? && GetObject(w.value.store, bucket, key, None) == Done(data)
  {
  }

  lemma FindVersionSkipsLast(h: seq<Version>, v: Version, id: string)
    requires v.id != id
    ensures FindVersion(h + [v], id) == FindVersion(h, id)
  {
    assert (h + [v])[..|h + [v]| - 1] == h;
  }

  lemma VersionedPutWellFormed(s: Store, bucket: string, key: string, data: seq<Byte>)
    requires WellFormed(s)
    requires bucket in s.buckets && s.buckets[bucket].versioned
    ensures PutObject(s, bucket, key, data).Done?
    ensures WellFormed(PutObject(s, bucket, key, data).value.store)
  {
    var h := if key in s.buckets[bucket].objects then s.buckets[bucket].objects[key] else [];
    var h' := h + [Version(NatToDecimal(|h|), data)];
    assert WellFormedHistory(true, h');
  }

  /** In a versioned bucket a put keeps the store well formed, answers an
      id no earlier version of the key had, and every earlier version stays
      readable with its old body. */
  lemma VersionedPutKeepsHistory(s: Store, bucket: string, key: string, data: seq<Byte>, oldId: string, oldData: seq<Byte>)
    requires WellFormed(s)
    requires bucket in s.buckets && s.buckets[bucket].versioned
    requires GetObject(s, bucket, key, Some(oldId)) == Done(oldData)
    ensures var w := PutObject(s, bucket, key, data);
            && w.Done?
            && WellFormed(w.value.store)
            && w.value.version.Some?
            && w.value.version.value != oldId
            && GetObject(w.value.store, bucket, key, Some(oldId)) == Done(oldData)
            && GetObject(w.value.store, bucket, key, w.value.version) == Done(data)
  {
    VersionedPutWellFormed(s, bucket, key, data);
    var h := s.buckets[bucket].objects[key];
    var v := Version(NatToDecimal(|h|), data);
    assert WellFormedHistory(true, h);
    var i :| 0 <= i < |h| && h[i].id == oldId;
    NatToDecimalInjective(i, |h|);
    FindVersionSkipsLast(h, v, oldId);
  }
}
