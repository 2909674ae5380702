/** `S3ReadStream` (src/s3readstream.ts): a readable stream that serves an
    object in blocks of at most 64 MiB. The first `_read` asks HEAD for the
    length and ETag and fetches the first block; each later `_read` fetches
    the next block with a `Range` header and `If-Match` on that ETag; once
    every byte is read the stream ends.

    The backend answers are parameters: `head` is the reply to HEAD and
    `get` maps a ranged GET to its reply. Each callback runs to completion
    inside its `_read`, so one `_read` is one step from a stream state to
    a new state, the ranged GETs it sent, and what it emitted. */
module ReadStream {
  import opened Base
  import opened Http

  /** `_blockSize`: 64 MiB. */
  const BlockSize: int := 64 * 1024 * 1024

  /** The private fields `_readSize`, `_fileSize`, `_blockSize`, `_eTag`. */
  datatype Stream = Stream(readSize: int, fileSize: int, blockSize: int, eTag: Option<string>)

  /** What the constructor sets: nothing read, size unknown (-1). */
  const Fresh: Stream := Stream(0, -1, BlockSize, None)

  datatype StreamError = BackendError(err: ErrorObject) | InvalidContentLength | InvalidChunk

  /** What a step emits: a pushed block, the end (`push(null)`), or an
      `error` event. */
  datatype Event = Push(data: seq<Byte>) | End | Error(reason: StreamError)

  /** Reply to HEAD: an error, or `ContentLength` and `ETag` (each possibly
      undefined). */
  datatype HeadReply = HeadFailed(err: ErrorObject) | HeadOk(contentLength: Option<int>, eTag: Option<string>)

  /** A ranged GET: the `Range` header and the `If-Match` condition. */
  datatype RangeGet = RangeGet(range: string, ifMatch: Option<string>)

  /** Reply to a ranged GET: an error, or `ContentLength` and `Body`. */
  datatype ChunkReply = ChunkFailed(err: ErrorObject) | ChunkOk(contentLength: Option<int>, body: Option<seq<Byte>>)

  datatype Reaction = Reaction(stream: Stream, gets: seq<RangeGet>, events: seq<Event>)

  /** The `Range` header `_downloadRange` builds: the first and the last
      byte position, both inclusive, in the `bytes` unit. */
  function RangeHeader(offset: int, length: int): string {
    "bytes=" + IntToDecimal(offset) + "-" + IntToDecimal(offset + length - 1)
  }

  /** For a non-empty range at a non-negative offset the header reads back
      as exactly its first and last position. */
  lemma RangeHeaderRoundTrip(offset: int, length: int)
    requires offset >= 0 && length >= 1
    ensures ParseRange(RangeHeader(offset, length)) == Some((offset, offset + length - 1))
  {
    ParseRangeOf(NatToDecimal(offset), NatToDecimal(offset + length - 1));
    DigitsValueOfDecimal(offset);
    DigitsValueOfDecimal(offset + length - 1);
  }

  /** Reads a `bytes=<first>-<last>` header back into its two positions. */
  function ParseRange(h: string): (r: Option<(nat, nat)>)
    ensures r.Some? ==> |h| > 6 && h[..6] == "bytes="
  {
    if |h| < 6 || h[..6] != "bytes=" then None
    else
      var spec := h[6..];
      match FirstIndex(spec, '-')
      case None => None
      case Some(i) =>
        match (ParseNat(spec[..i]), ParseNat(spec[i + 1..]))
        case (Some(first), Some(last)) => Some((first, last))
        case _ => None
  }

  lemma ParseRangeOf(first: string, last: string)
    requires |first| >= 1 && AllDigits(first) && |last| >= 1 && AllDigits(last)
    ensures ParseRange("bytes=" + first + "-" + last) == Some((DigitsValue(first), DigitsValue(last)))
  {
    var h := "bytes=" + first + "-" + last;
    assert h[..6] == "bytes=";
    var spec := h[6..];
    assert spec == first + ['-'] + last;
    assert forall i :: 0 <= i < |first| ==> first[i] != '-' by {
      forall i | 0 <= i < |first| ensures first[i] != '-' {
        assert IsDigit(first[i]);
      }
    }
    FirstIndexAfter(first, last, '-');
    assert spec[..|first|] == first;
    assert spec[|first| + 1..] == last;
  }

  /** `_done`: forget the read position and end the stream. */
  function Finish(s: Stream): (r: Reaction)
    ensures r.stream == s.(readSize := 0)
    ensures r.gets == [] && r.events == [End]
  {
    Reaction(s.(readSize := 0), [], [End])
  }

  /** Length of the next block `_nextDownload` asks for: a whole block
      while more than a block remains, otherwise the rest. */
  function NextLength(s: Stream): (len: int)
    ensures 0 <= s.readSize < s.fileSize && s.blockSize >= 1 ==>
              && 0 < len <= s.blockSize
              && s.readSize + len <= s.fileSize
              && (len < s.blockSize ==> s.readSize + len == s.fileSize)
    ensures s.readSize + s.blockSize < s.fileSize ==> len == s.blockSize
  {
    if s.readSize + s.blockSize < s.fileSize then s.blockSize else s.fileSize - s.readSize
  }

  /** `_downloadRange(offset, length)`: one ranged GET conditioned on the
      known ETag; a reply without length or body is an "Invalid chunk", a
      non-empty one advances the read position by its `ContentLength` and
      is pushed, an empty one ends the stream. */
  function DownloadRange(s: Stream, offset: int, length: int, get: RangeGet -> ChunkReply): (r: Reaction)
    ensures r.gets == [RangeGet(RangeHeader(offset, length), s.eTag)]
    ensures |r.events| == 1
    ensures r.stream.fileSize == s.fileSize && r.stream.blockSize == s.blockSize && r.stream.eTag == s.eTag
    ensures r.events[0].Push? <==>
              (get(r.gets[0]).ChunkOk? && get(r.gets[0]).contentLength.Some? && get(r.gets[0]).body.Some?
               && get(r.gets[0]).contentLength.value > 0)
    ensures r.events[0].Push? ==>
              && r.events[0].data == get(r.gets[0]).body.value
              && r.stream.readSize == s.readSize + get(r.gets[0]).contentLength.value
    ensures r.events[0].Error? ==> r.stream == s
    ensures get(r.gets[0]).ChunkFailed? ==> r.events == [Error(BackendError(get(r.gets[0]).err))]
    ensures get(r.gets[0]).ChunkOk? && (get(r.gets[0]).contentLength.None? || get(r.gets[0]).body.None?) ==>
              r.events == [Error(InvalidChunk)]
    ensures get(r.gets[0]).ChunkOk? && get(r.gets[0]).contentLength.Some? && get(r.gets[0]).body.Some?
            && get(r.gets[0]).contentLength.value <= 0 ==>
              r.stream == s.(readSize := 0) && r.events == [End]
  {
    var g := RangeGet(RangeHeader(offset, length), s.eTag);
    match get(g)
    case ChunkFailed(e) => Reaction(s, [g], [Error(BackendError(e))])
    case ChunkOk(n, body) =>
      if n.None? || body.None? then Reaction(s, [g], [Error(InvalidChunk)])
      else if n.value > 0 then Reaction(s.(readSize := s.readSize + n.value), [g], [Push(body.value)])
      else
        var f := Finish(s);
        Reaction(f.stream, [g], f.events)
  }

  /** `_nextDownload`: one ranged GET, under the known ETag, for the block
      that starts at the read position; a pushed reply moves the position
      on by its length. */
  function NextDownload(s: Stream, get: RangeGet -> ChunkReply): (r: Reaction)
    ensures |r.gets| == 1 && r.gets[0].ifMatch == s.eTag && |r.events| == 1
    ensures 0 <= s.readSize < s.fileSize && s.blockSize >= 1 ==>
              ParseRange(r.gets[0].range) == Some((s.readSize, s.readSize + NextLength(s) - 1))
    ensures r.events[0].Push? ==>
              && get(r.gets[0]).ChunkOk?
              && get(r.gets[0]).body == Some(r.events[0].data)
              && get(r.gets[0]).contentLength == Some(r.stream.readSize - s.readSize)
  {
    // Both branches send the same request; the test only guards the lemma
    // call that proves the range clause above.
    if 0 <= s.readSize < s.fileSize && s.blockSize >= 1 then
      RangeHeaderRoundTrip(s.readSize, NextLength(s));
      DownloadRange(s, s.readSize, NextLength(s), get)
    else DownloadRange(s, s.readSize, NextLength(s), get)
  }

  /** `_fetchMetadata`: HEAD; an error or an undefined length is emitted as
      an error; a positive length is recorded with the ETag and the first
      block is fetched; a zero (or negative) length ends the stream. */
  function FetchMetadata(s: Stream, head: HeadReply, get: RangeGet -> ChunkReply): (r: Reaction)
    ensures head.HeadFailed? ==> r == Reaction(s, [], [Error(BackendError(head.err))])
    ensures head.HeadOk? && head.contentLength.None? ==> r == Reaction(s, [], [Error(InvalidContentLength)])
    ensures head.HeadOk? && head.contentLength.Some? && head.contentLength.value <= 0 ==> r == Finish(s)
    ensures head.HeadOk? && head.contentLength.Some? && head.contentLength.value > 0 ==>
              && r.stream.fileSize == head.contentLength.value
              && r.stream.eTag == head.eTag
              && |r.gets| == 1
              && r.gets[0].ifMatch == head.eTag
  {
    match head
    case HeadFailed(e) => Reaction(s, [], [Error(BackendError(e))])
    case HeadOk(n, eTag) =>
      if n.None? then Reaction(s, [], [Error(InvalidContentLength)])
      else if n.value > 0 then NextDownload(s.(fileSize := n.value, eTag := eTag), get)
      else Finish(s)
  }

  /** `_read`: end when everything is read, continue when something is,
      otherwise start with HEAD. */
  function Read(s: Stream, head: HeadReply, get: RangeGet -> ChunkReply): (r: Reaction)
    ensures |r.events| == 1 && |r.gets| <= 1
    ensures r.stream.blockSize == s.blockSize
    ensures s.readSize == s.fileSize ==> r == Finish(s)
    ensures s.readSize != s.fileSize && s.readSize != 0 ==> |r.gets| == 1 && r.gets[0].ifMatch == s.eTag
  {
    if s.readSize == s.fileSize then Finish(s)
    else if s.readSize != 0 then NextDownload(s, get)
    else FetchMetadata(s, head, get)
  }

  /** The first `_read` of a stream starts with HEAD: a failed HEAD or
      one without a length is an error and no range is requested, an empty
      object ends the stream without any range request, and a non-empty
      one has its first block requested under the reported ETag. */
  lemma FirstReadAsksHead(head: HeadReply, get: RangeGet -> ChunkReply)
    ensures var r := Read(Fresh, head, get);
            && (head.HeadFailed? ==> r.gets == [] && r.events == [Error(BackendError(head.err))])
            && (head.HeadOk? && head.contentLength.None? ==> r.gets == [] && r.events == [Error(InvalidContentLength)])
            && (head.HeadOk? && head.contentLength == Some(0) ==> r.gets == [] && r.events == [End])
            && (head.HeadOk? && head.contentLength.Some? && head.contentLength.value > 0 ==>
                  r.gets == [RangeGet(RangeHeader(0, Min(BlockSize, head.contentLength.value)), head.eTag)])
  {
  }

  /** A `_read` in the middle of an object asks for the block that starts
      right after what was read, no longer than a block and not past the
      end, under the ETag HEAD reported. */
  lemma ContinueAsksNextBlock(s: Stream, head: HeadReply, get: RangeGet -> ChunkReply)
    requires 0 < s.readSize < s.fileSize && s.blockSize >= 1
    ensures var r := Read(s, head, get);
            && |r.gets| == 1
            && r.gets[0].ifMatch == s.eTag
            && ParseRange(r.gets[0].range).Some?
            && var (first, last) := ParseRange(r.gets[0].range).value;
               && first == s.readSize
               && first <= last < s.fileSize
               && last - first < s.blockSize
  {
  }

  /** An object in the store, as the backend serves it. */
  datatype Blob = Blob(content: seq<Byte>, eTag: string)

  /** HEAD on the object: its length and ETag. */
  function HeadOf(b: Blob): HeadReply {
    HeadOk(Some(|b.content|), Some(b.eTag))
  }

  function Min(a: int, b: int): int {
    if a <= b then a else b
  }

  /** A ranged GET on the object. A failed `If-Match` answers 412 (section
      3.1 of RFC 7232) and a range starting past the end 416 (section 4.4
      of RFC 7233). Otherwise the reply holds the bytes from the first
      position up to the last one or the end of the object (section 2.1 of
      RFC 7233). A header that does not parse as a range is ignored and the
      whole object is sent (section 3.1 of RFC 7233). */
  function ServeRange(b: Blob, g: RangeGet): (r: ChunkReply)
    ensures r.ChunkOk? ==> r.contentLength.Some? && r.body.Some? && r.contentLength.value == |r.body.value|
  {
    if g.ifMatch.Some? && g.ifMatch.value != b.eTag then ChunkFailed(ErrorObject(0, NoMsg, 412, "PreconditionFailed"))
    else ServeParsed(b, ParseRange(g.range))
  }

  /** The reply to a GET whose precondition held, given its parsed range. */
  function ServeParsed(b: Blob, range: Option<(nat, nat)>): (r: ChunkReply)
    ensures r.ChunkOk? ==> r.contentLength.Some? && r.body.Some? && r.contentLength.value == |r.body.value|
  {
    match range
    case None => ChunkOk(Some(|b.content|), Some(b.content))
    case Some((first, last)) =>
      if last < first then ChunkOk(Some(|b.content|), Some(b.content))
      else if first >= |b.content| then ChunkFailed(ErrorObject(0, NoMsg, 416, "InvalidRange"))
      else
        var end := Min(last + 1, |b.content|);
        ChunkOk(Some(end - first), Some(b.content[first..end]))
  }

  function Honest(b: Blob): RangeGet -> ChunkReply {
    g => ServeRange(b, g)
  }

  /** A backend that answers every block request inside the object, under
      the object's ETag, with exactly those bytes. */
  ghost predicate Faithful(b: Blob, get: RangeGet -> ChunkReply) {
    forall offset: int, length: int
      | 0 <= offset && 1 <= length && offset + length <= |b.content|
      :: get(RangeGet(RangeHeader(offset, length), Some(b.eTag)))
         == ChunkOk(Some(length), Some(b.content[offset..offset + length]))
  }

  /** The reply to a range inside the object is those bytes. */
  lemma ServeParsedBlock(b: Blob, offset: int, length: int)
    requires 0 <= offset && 1 <= length && offset + length <= |b.content|
    ensures ServeParsed(b, Some((offset, offset + length - 1)))
            == ChunkOk(Some(length), Some(b.content[offset..offset + length]))
  {
    assert Min(offset + length, |b.content|) == offset + length;
  }

  /** Against the object, a block request inside it is answered with
      exactly those bytes. */
  lemma ServeRangeBlock(b: Blob, offset: int, length: int)
    requires 0 <= offset && 1 <= length && offset + length <= |b.content|
    ensures ServeRange(b, RangeGet(RangeHeader(offset, length), Some(b.eTag)))
            == ChunkOk(Some(length), Some(b.content[offset..offset + length]))
  {
    RangeHeaderRoundTrip(offset, length);
    ServeParsedBlock(b, offset, length);
  }

  /** The server of `ServeRange` (RFC 7232 `If-Match`, RFC 7233 ranges)
      is a faithful backend. */
  lemma HonestIsFaithful(b: Blob)
    ensures Faithful(b, Honest(b))
  {
    forall offset: int, length: int | 0 <= offset && 1 <= length && offset + length <= |b.content|
      ensures Honest(b)(RangeGet(RangeHeader(offset, length), Some(b.eTag)))
              == ChunkOk(Some(length), Some(b.content[offset..offset + length]))
    {
      ServeRangeBlock(b, offset, length);
    }
  }

  lemma ServeBlock(b: Blob, get: RangeGet -> ChunkReply, s: Stream, offset: int, length: int)
    requires Faithful(b, get)
    requires 0 <= offset && 1 <= length && offset + length <= |b.content|
    requires s.eTag == Some(b.eTag)
    requires s.readSize == offset
    ensures DownloadRange(s, offset, length, get)
            == Reaction(s.(readSize := offset + length),
                        [RangeGet(RangeHeader(offset, length), s.eTag)],
                        [Push(b.content[offset..offset + length])])
  {
    assert get(RangeGet(RangeHeader(offset, length), s.eTag))
           == ChunkOk(Some(length), Some(b.content[offset..offset + length]));
  }

  /** The bytes carried by the pushes among `events`, in order. */
  function Pushed(events: seq<Event>): seq<Byte>
    decreases |events|
  {
    if |events| == 0 then []
    else Pushed(events[..|events| - 1]) + (if events[|events| - 1].Push? then events[|events| - 1].data else [])
  }

  lemma PushedAppend(events: seq<Event>, e: Event)
    ensures Pushed(events + [e]) == Pushed(events) + (if e.Push? then e.data else [])
  {
    assert (events + [e])[..|events|] == events;
  }

  /** Every event is a push of a non-empty block of at most 64 MiB. */
  predicate AllBlocks(events: seq<Event>) {
    forall i :: 0 <= i < |events| ==> events[i].Push? && 0 < |events[i].data| <= BlockSize
  }

  /** Request number i of a complete read of `b`: block i, under the
      object's ETag. */
  function BlockGet(b: Blob, i: nat): RangeGet {
    RangeGet(RangeHeader(i * BlockSize, Min(BlockSize, |b.content| - i * BlockSize)), Some(b.eTag))
  }

  /** The requests for the first `n` blocks, in order. */
  function BlockGets(b: Blob, n: nat): (r: seq<RangeGet>)
    ensures |r| == n
  {
    seq(n, (i: int) requires 0 <= i => BlockGet(b, i))
  }

  lemma BlockGetsAt(b: Blob, n: nat, i: nat)
    requires i < n
    ensures BlockGets(b, n)[i] == BlockGet(b, i)
  {
  }

  /** One more block adds its request at the end. */
  lemma BlockGetsSnoc(b: Blob, n: nat)
    ensures BlockGets(b, n + 1) == BlockGets(b, n) + [BlockGet(b, n)]
  {
    var longer := BlockGets(b, n + 1);
    var shorter := BlockGets(b, n) + [BlockGet(b, n)];
    forall i | 0 <= i < n + 1
      ensures longer[i] == shorter[i]
    {
      BlockGetsAt(b, n + 1, i);
      if i < n {
        BlockGetsAt(b, n, i);
      }
    }
  }

  /** Where a read of `b` stands between two `_read` calls: either nothing
      has happened yet, or HEAD has been answered and the first
      `readSize` bytes have been pushed, one block per request. */
  ghost predicate Reading(b: Blob, s: Stream, gets: seq<RangeGet>, events: seq<Event>) {
    var size := |b.content|;
    && s.blockSize == BlockSize
    && |events| == |gets|
    && AllBlocks(events)
    && gets == BlockGets(b, |gets|)
    && if s == Fresh then gets == []
       else
         && s.fileSize == size && s.eTag == Some(b.eTag)
         && 0 < s.readSize <= size
         && Pushed(events) == b.content[..s.readSize]
         && (s.readSize < size ==> s.readSize == |gets| * BlockSize)
         && (s.readSize == size ==> |gets| == (size + BlockSize - 1) / BlockSize)
  }

  /** A finished read of `b`: blocks pushed, then the end; together the
      blocks are the object, one request per block. */
  ghost predicate Complete(b: Blob, gets: seq<RangeGet>, events: seq<Event>) {
    && |events| >= 1 && events[|events| - 1] == End
    && AllBlocks(events[..|events| - 1])
    && Pushed(events) == b.content
    && |gets| == (|b.content| + BlockSize - 1) / BlockSize
    && gets == BlockGets(b, |gets|)
  }

  /** The state of `ReadAll`'s loop: still reading, or ended and complete. */
  ghost predicate ReadLoop(b: Blob, s: Stream, gets: seq<RangeGet>, events: seq<Event>, ended: bool) {
    if ended then Complete(b, gets, events) else Reading(b, s, gets, events)
  }

  /** How many `_read` calls are still to come. */
  function Remaining(b: Blob, s: Stream): nat {
    if s == Fresh then |b.content| + 2
    else if 0 <= s.readSize <= |b.content| then |b.content| - s.readSize + 1
    else 0
  }

  /** Pushing the bytes from `pos` on extends what was pushed so far. */
  lemma PushNext(content: seq<Byte>, events: seq<Event>, pos: int, len: int)
    requires 0 <= pos && 0 < len && pos + len <= |content|
    requires Pushed(events) == content[..pos]
    ensures Pushed(events + [Push(content[pos..pos + len])]) == content[..pos + len]
  {
    PushedAppend(events, Push(content[pos..pos + len]));
    assert content[..pos] + content[pos..pos + len] == content[..pos + len];
  }

  lemma BlocksAppend(events: seq<Event>, data: seq<Byte>)
    requires AllBlocks(events) && 0 < |data| <= BlockSize
    ensures AllBlocks(events + [Push(data)])
  {
  }

  /** The request count once the last block, of `len` bytes after `k`
      whole blocks, is read. */
  lemma LastBlockCount(size: int, k: nat, len: int)
    requires 0 < len <= BlockSize && size == k * BlockSize + len
    ensures k + 1 == (size + BlockSize - 1) / BlockSize
  {
    DivUnique(size + BlockSize - 1, BlockSize, k + 1, len - 1);
  }

  /** The bookkeeping after block number `|gets|`, starting at `pos`, is
      read and pushed. */
  lemma Advance(b: Blob, pos: int, len: int, gets: seq<RangeGet>, events: seq<Event>)
    requires 0 <= pos < |b.content| && pos == |gets| * BlockSize
    requires len == Min(BlockSize, |b.content| - pos)
    requires |events| == |gets| && AllBlocks(events) && gets == BlockGets(b, |gets|)
    requires Pushed(events) == b.content[..pos]
    ensures Reading(b, Stream(pos + len, |b.content|, BlockSize, Some(b.eTag)),
                    gets + [BlockGet(b, |gets|)], events + [Push(b.content[pos..pos + len])])
  {
    var size := |b.content|;
    var data := b.content[pos..pos + len];
    var gets' := gets + [BlockGet(b, |gets|)];
    PushNext(b.content, events, pos, len);
    BlocksAppend(events, data);
    BlockGetsSnoc(b, |gets|);
    assert |gets'| == |gets| + 1;
    if pos + len == size {
      LastBlockCount(size, |gets|, len);
      assert |gets'| == (size + BlockSize - 1) / BlockSize;
    } else {
      MiddleBlockCount(pos, len, |gets|);
      assert pos + len < size && pos + len == |gets'| * BlockSize;
    }
    ReadingAt(b, Stream(pos + len, size, BlockSize, Some(b.eTag)), gets', events + [Push(data)]);
  }

  /** The position after a whole block that is not the last. */
  lemma MiddleBlockCount(pos: int, len: int, k: nat)
    requires pos == k * BlockSize && len == BlockSize
    ensures pos + len == (k + 1) * BlockSize
  {
    MulSucc(k, BlockSize);
  }

  /** `Reading` after at least one block, from its parts. */
  lemma ReadingAt(b: Blob, s: Stream, gets: seq<RangeGet>, events: seq<Event>)
    requires s.blockSize == BlockSize && s.fileSize == |b.content| && s.eTag == Some(b.eTag)
    requires |events| == |gets| && AllBlocks(events) && gets == BlockGets(b, |gets|)
    requires 0 < s.readSize <= |b.content| && Pushed(events) == b.content[..s.readSize]
    requires s.readSize < |b.content| ==> s.readSize == |gets| * BlockSize
    requires s.readSize == |b.content| ==> |gets| == (|b.content| + BlockSize - 1) / BlockSize
    ensures Reading(b, s, gets, events)
  {
    assert s != Fresh;
  }

  /** One block of a read in progress: the next block is requested and
      pushed, and the bookkeeping holds at the new position. */
  lemma BlockStep(b: Blob, get: RangeGet -> ChunkReply, s: Stream, gets: seq<RangeGet>, events: seq<Event>)
    requires Faithful(b, get)
    requires s.blockSize == BlockSize && s.fileSize == |b.content| && s.eTag == Some(b.eTag)
    requires 0 <= s.readSize < |b.content|
    requires s.readSize == |gets| * BlockSize
    requires |events| == |gets| && AllBlocks(events) && gets == BlockGets(b, |gets|)
    requires Pushed(events) == b.content[..s.readSize]
    ensures var r := NextDownload(s, get);
            && r.stream.readSize == s.readSize + NextLength(s)
            && |r.events| == 1 && r.events[0].Push?
            && Reading(b, r.stream, gets + r.gets, events + r.events)
  {
    var len := NextLength(s);
    var pos := s.readSize;
    assert len == Min(BlockSize, |b.content| - pos);
    var r := NextDownload(s, get);
    assert r == DownloadRange(s, pos, len, get);
    ServeBlock(b, get, s, pos, len);
    assert r.gets == [BlockGet(b, |gets|)];
    assert r.stream == Stream(pos + len, |b.content|, BlockSize, Some(b.eTag));
    Advance(b, pos, len, gets, events);
  }

  /** The first `_read` of an empty object ends it after HEAD. */
  lemma EmptyRead(b: Blob, get: RangeGet -> ChunkReply, s: Stream, gets: seq<RangeGet>, events: seq<Event>)
    requires s == Fresh && gets == [] && events == [] && |b.content| == 0
    ensures var r := Read(s, HeadOf(b), get);
            r.events == [End] && Complete(b, gets + r.gets, events + r.events)
  {
    var none: seq<Event> := [];
    assert Read(s, HeadOf(b), get) == Finish(Fresh);
    assert [End][..0] == none;
    PushedAppend(none, End);
    DivUnique(BlockSize - 1, BlockSize, 0, BlockSize - 1);
    assert gets + [] == [] && events + [End] == [End];
  }

  /** The first `_read` of a non-empty object: HEAD, then block 0. */
  lemma FirstRead(b: Blob, get: RangeGet -> ChunkReply, s: Stream, gets: seq<RangeGet>, events: seq<Event>)
    requires Faithful(b, get)
    requires s == Fresh && gets == [] && events == [] && |b.content| > 0
    ensures var r := Read(s, HeadOf(b), get);
            && |r.events| == 1 && r.events[0].Push?
            && Reading(b, r.stream, gets + r.gets, events + r.events)
            && Remaining(b, r.stream) < Remaining(b, s)
  {
    var s1 := Stream(0, |b.content|, BlockSize, Some(b.eTag));
    assert 0 == |gets| * BlockSize by { assert |gets| == 0; }
    HeadThenFirstBlock(b, get);
    assert Pushed(events) == b.content[..0];
    BlockStep(b, get, s1, gets, events);
  }

  /** HEAD on a non-empty object records its size and ETag and asks for
      the block at position 0. */
  lemma HeadThenFirstBlock(b: Blob, get: RangeGet -> ChunkReply)
    requires |b.content| > 0
    ensures Read(Fresh, HeadOf(b), get) == NextDownload(Stream(0, |b.content|, BlockSize, Some(b.eTag)), get)
  {
    assert FetchMetadata(Fresh, HeadOf(b), get) == NextDownload(Fresh.(fileSize := |b.content|, eTag := Some(b.eTag)), get);
  }

  /** A later `_read` with bytes left: the next block. */
  lemma MiddleRead(b: Blob, get: RangeGet -> ChunkReply, s: Stream, gets: seq<RangeGet>, events: seq<Event>)
    requires Faithful(b, get)
    requires Reading(b, s, gets, events)
    requires s != Fresh && s.readSize < |b.content|
    ensures var r := Read(s, HeadOf(b), get);
            && |r.events| == 1 && r.events[0].Push?
            && Reading(b, r.stream, gets + r.gets, events + r.events)
            && Remaining(b, r.stream) < Remaining(b, s)
  {
    BlockStep(b, get, s, gets, events);
  }

  /** The `_read` after the last block ends the stream. */
  lemma LastRead(b: Blob, get: RangeGet -> ChunkReply, s: Stream, gets: seq<RangeGet>, events: seq<Event>)
    requires Reading(b, s, gets, events)
    requires s != Fresh && s.readSize == |b.content|
    ensures Read(s, HeadOf(b), get) == Finish(s)
    ensures Complete(b, gets, events + [End])
  {
    assert (events + [End])[..|events|] == events;
    PushedAppend(events, End);
    assert b.content[..|b.content|] == b.content;
  }

  /** The same, in the shape of one loop step. */
  lemma LastStep(b: Blob, get: RangeGet -> ChunkReply, s: Stream, gets: seq<RangeGet>, events: seq<Event>)
    requires Reading(b, s, gets, events)
    requires s != Fresh && s.readSize == |b.content|
    ensures var r := Read(s, HeadOf(b), get);
            r.events == [End] && Complete(b, gets + r.gets, events + r.events)
  {
    LastRead(b, get, s, gets, events);
    assert gets + [] == gets;
  }

  /** One `_read` of a read in progress against a faithful backend:
      either it pushes the next block and fewer calls remain, or everything
      was read and it ends the stream. */
  lemma ReadStep(b: Blob, get: RangeGet -> ChunkReply, s: Stream, gets: seq<RangeGet>, events: seq<Event>)
    requires Faithful(b, get)
    requires Reading(b, s, gets, events)
    ensures var r := Read(s, HeadOf(b), get);
            && |r.events| == 1
            && ReadLoop(b, r.stream, gets + r.gets, events + r.events, r.events[0] == End)
            && (r.events[0] != End ==> r.events[0].Push? && Remaining(b, r.stream) < Remaining(b, s))
  {
    if s == Fresh {
      assert gets == [] && events == [];
      if |b.content| == 0 {
        EmptyRead(b, get, s, gets, events);
      } else {
        FirstRead(b, get, s, gets, events);
      }
    } else if s.readSize == |b.content| {
      LastStep(b, get, s, gets, events);
    } else {
      MiddleRead(b, get, s, gets, events);
    }
  }

  /** What a finished read amounts to, index by index. */
  lemma CompleteRead(b: Blob, gets: seq<RangeGet>, events: seq<Event>)
    requires Complete(b, gets, events)
    ensures |events| >= 1 && events[|events| - 1] == End
    ensures forall i :: 0 <= i < |events| - 1 ==> events[i].Push? && 0 < |events[i].data| <= BlockSize
    ensures Pushed(events) == b.content
    ensures |gets| == (|b.content| + BlockSize - 1) / BlockSize
    ensures forall i :: 0 <= i < |gets| ==> gets[i] == BlockGet(b, i)
  {
    assert forall i :: 0 <= i < |events| - 1 ==> events[..|events| - 1][i] == events[i];
    forall i | 0 <= i < |gets|
      ensures gets[i] == BlockGet(b, i)
    {
      BlockGetsAt(b, |gets|, i);
    }
  }

  /** Reading an object to the end, one `_read` at a time, against a
      backend that serves its blocks faithfully (as the RFC 7233 server
      `Honest` does, by `HonestIsFaithful`): the stream pushes exactly the
      object's bytes in blocks of at most 64 MiB and then ends, with no
      error; it sends one ranged GET per block, block i covering bytes
      `i * 64 MiB` up to the next block or the end; an empty object is
      ended after HEAD alone. */
  method ReadAll(b: Blob, get: RangeGet -> ChunkReply) returns (gets: seq<RangeGet>, events: seq<Event>)
    requires Faithful(b, get)
    ensures |events| >= 1 && events[|events| - 1] == End
    ensures forall i :: 0 <= i < |events| - 1 ==> events[i].Push? && 0 < |events[i].data| <= BlockSize
    ensures Pushed(events) == b.content
    ensures |gets| == (|b.content| + BlockSize - 1) / BlockSize
    ensures forall i :: 0 <= i < |gets| ==> gets[i] == BlockGet(b, i)
  {
    var s := Fresh;
    gets := [];
    events := [];
    var ended := false;
    while !ended
      invariant ReadLoop(b, s, gets, events, ended)
      decreases !ended, Remaining(b, s)
    {
      ReadStep(b, get, s, gets, events);
      var r := Read(s, HeadOf(b), get);
      s := r.stream;
      gets := gets + r.gets;
      events := events + r.events;
      ended := r.events[0] == End;
    }
    CompleteRead(b, gets, events);
  }
}
