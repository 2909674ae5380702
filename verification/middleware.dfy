/** The request middleware (src/middleware.ts): the DELETE allow-list and
    the bucket check that maps a public bucket name to its metadata table
    and joins the key's path segments. */
module Middleware {
  import opened Base
  import opened Http

  /** The only buckets DELETE may touch. */
  const DeletableBuckets: seq<string> := ["cloudnet-product-volatile", "cloudnet-test-volatile"]

  const DeleteNotAllowed: string := "DELETE not allowed for the bucket"

  /** The prefix every served bucket name carries. */
  const BucketPrefix: string := "cloudnet-"

  /** `validateDeleteBucket`: `None` lets the request through (`next()`),
      otherwise the error passed to `next`. */
  function ValidateDeleteBucket(bucket: string): (r: Option<ErrorObject>)
    ensures r.None? <==> bucket in DeletableBuckets
    ensures r.Some? ==> r.value == ClientError(405, DeleteNotAllowed)
  {
    if bucket in DeletableBuckets then None else Some(ClientError(405, DeleteNotAllowed))
  }

  function UnknownBucket(bucket: string): ErrorObject {
    ClientError(404, "Unknown bucket: " + bucket)
  }

  predicate HasPrefix(s: string, p: string) {
    |p| <= |s| && s[..|p|] == p
  }

  /** The wildcard key's path segments joined with "/": the key starts
      with the first segment, a "/" follows it when more segments come,
      and it is never shorter than the separators it needs. */
  function JoinKey(segments: seq<string>): (key: string)
    ensures |segments| >= 1 ==> HasPrefix(key, segments[0])
    ensures |segments| >= 2 ==> |key| > |segments[0]| && key[|segments[0]|] == '/'
    ensures |key| >= |segments| - 1
    decreases |segments|
  {
    if |segments| == 0 then ""
    else if |segments| == 1 then segments[0]
    else segments[0] + "/" + JoinKey(segments[1..])
  }

  predicate NoSlash(s: string) {
    forall i :: 0 <= i < |s| ==> s[i] != '/'
  }

  /** A key cut at every "/": the segments `JoinKey` came from. */
  function SplitKey(key: string): (segments: seq<string>)
    ensures |segments| >= 1
    ensures forall i :: 0 <= i < |segments| ==> NoSlash(segments[i])
    decreases |key|
  {
    match FirstIndex(key, '/')
    case None => [key]
    case Some(i) => [key[..i]] + SplitKey(key[i + 1..])
  }

  /** Splitting a key and joining the segments gives the key back. */
  lemma {:induction false} JoinSplit(key: string)
    ensures JoinKey(SplitKey(key)) == key
    decreases |key|
  {
    match FirstIndex(key, '/')
    case None =>
    case Some(i) =>
      JoinSplit(key[i + 1..]);
      JoinCons(key[..i], SplitKey(key[i + 1..]));
      CutAtSlash(key, i);
  }

  /** Joining a segment in front of at least one more puts a "/" between. */
  lemma JoinCons(head: string, rest: seq<string>)
    requires |rest| >= 1
    ensures JoinKey([head] + rest) == head + "/" + JoinKey(rest)
  {
    assert ([head] + rest)[1..] == rest;
  }

  /** A key is the part before a "/" at `i`, the "/", and the part after. */
  lemma CutAtSlash(key: string, i: nat)
    requires i < |key| && key[i] == '/'
    ensures key == key[..i] + "/" + key[i + 1..]
  {
  }

  /** Joining segments that contain no "/" and splitting the result gives
      the segments back. */
  lemma {:induction false} SplitJoin(segments: seq<string>)
    requires |segments| >= 1
    requires forall i :: 0 <= i < |segments| ==> NoSlash(segments[i])
    ensures SplitKey(JoinKey(segments)) == segments
    decreases |segments|
  {
    if |segments| == 1 {
      assert FirstIndex(segments[0], '/').None?;
    } else {
      var rest := JoinKey(segments[1..]);
      SplitJoin(segments[1..]);
      assert JoinKey(segments) == segments[0] + "/" + rest;
      SplitAtFirstSlash(segments[0], rest);
      assert segments == [segments[0]] + segments[1..];
    }
  }

  /** A key cut at its first "/" splits into that first piece and the
      split of the rest. */
  lemma SplitAtFirstSlash(head: string, rest: string)
    requires NoSlash(head)
    ensures SplitKey(head + "/" + rest) == [head] + SplitKey(rest)
  {
    var key := head + "/" + rest;
    FirstIndexAfter(head, rest, '/');
    assert key == head + ['/'] + rest;
    assert key[..|head|] == head;
    assert key[|head| + 1..] == rest;
  }

  /** What `validateParams` leaves in `req.params`, or the error it passes
      to `next`. */
  datatype Validation = Valid(bucket: string, key: string) | Invalid(err: ErrorObject)

  /** `validateParams`. `regclass` stands for `selectBucket`, the
      `to_regclass` lookup of the name in the metadata database: the name of
      the matching table, or `None` for SQL NULL. A name without the
      "cloudnet-" prefix is refused before any lookup; a lookup that finds
      nothing (or an empty name) is refused the same way; otherwise the
      bucket becomes the table's name and the key the joined segments. */
  function ValidateParams(regclass: string -> Option<string>, bucket: string, segments: seq<string>): (r: Validation)
    ensures r.Invalid? ==> r.err == UnknownBucket(bucket)
    ensures r.Valid? <==> HasPrefix(bucket, BucketPrefix) && regclass(bucket).Some? && regclass(bucket).value != ""
    ensures r.Valid? ==> r.bucket == regclass(bucket).value
  {
    if !HasPrefix(bucket, BucketPrefix) then Invalid(UnknownBucket(bucket))
    else
      var table := regclass(bucket);
      if table.None? || table.value == "" then Invalid(UnknownBucket(bucket))
      else Valid(table.value, JoinKey(segments))
  }

  /** A name without the prefix is refused whatever the database holds:
      the lookup does not matter. */
  lemma PrefixCheckedFirst(regclass1: string -> Option<string>, regclass2: string -> Option<string>, bucket: string, segments: seq<string>)
    requires !HasPrefix(bucket, BucketPrefix)
    ensures ValidateParams(regclass1, bucket, segments) == ValidateParams(regclass2, bucket, segments)
    ensures ValidateParams(regclass1, bucket, segments) == Invalid(UnknownBucket(bucket))
  {
  }

  /** The handlers see the key the client's path spelled out: when the
      path segments hold no "/", the joined key splits back into them. */
  lemma ValidatedKeySegments(regclass: string -> Option<string>, bucket: string, segments: seq<string>)
    requires |segments| >= 1
    requires forall i :: 0 <= i < |segments| ==> NoSlash(segments[i])
    requires ValidateParams(regclass, bucket, segments).Valid?
    ensures SplitKey(ValidateParams(regclass, bucket, segments).key) == segments
  {
    SplitJoin(segments);
  }

  /** Only the two volatile product buckets pass the DELETE allow-list,
      and both carry the served prefix. */
  lemma DeletableAreServed(bucket: string)
    requires ValidateDeleteBucket(bucket).None?
    ensures HasPrefix(bucket, BucketPrefix)
  {
  }
}
