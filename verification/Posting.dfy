/** `post_message_auto` and `post_message_chunked`: which posts leave the sender, one after the other. */
module Posting {
  import opened Prelude
  import Text
  import opened Json
  import opened Chunking

  /** The arguments of one `post_message` call that the peer gets to see. */
  datatype Post = Post(receiver: string, requestId: string, body: JsonObject)

  datatype SendError = ThresholdTooSmall | CannotEncode(error: ChunkError) | CallFailed

  datatype ChunkReport = ChunkReport(transferId: string, requestId: string, chunkCount: nat,
                                     transportIds: seq<string>, responses: seq<string>)

  datatype AutoResult = Direct(response: string) | Chunked(report: ChunkReport)

  function EstimateBodyWireBytes(lib: Library, body: Option<JsonObject>): nat {
    |lib.dumps(PayloadOf(body))|
  }

  /** The posts of one chunked message; `id` is the fresh transfer id. */
  function ChunkPosts(lib: Library, receiver: string, body: Option<JsonObject>, requestId: string, size: nat,
                      compress: bool, id: string): seq<Post>
    requires size >= 1
  {
    var batch := EncodeBatch(lib, body, requestId, size, compress, id);
    var ids := TransportIds(id, requestId, batch.chunkCount).value;
    seq(batch.chunkCount, i requires 0 <= i < batch.chunkCount => Post(receiver, ids[i], batch.bodies[i]))
  }

  /** The body is sent in one post. */
  predicate IsDirect(lib: Library, body: Option<JsonObject>, threshold: int) {
    EstimateBodyWireBytes(lib, body) < threshold
  }

  /** All the posts that a successful `post_message_auto` makes, in order; the chunk size matters only for chunks. */
  function AutoPosts(lib: Library, receiver: string, body: Option<JsonObject>, requestId: string, threshold: int,
                     size: int, compress: bool, id: string): (posts: seq<Post>)
    requires IsDirect(lib, body, threshold) || size >= 1
  {
    if IsDirect(lib, body, threshold) then [Post(receiver, requestId, PayloadOf(body))]
    else ChunkPosts(lib, receiver, body, requestId, size, compress, id)
  }

  /** The plain bytes of the body, whose number decides how it is sent; a missing body is an empty object. */
  function Printed(lib: Library, body: Option<JsonObject>): bytes {
    lib.dumps(if body.Some? then body.value else map[])
  }

  /** What every post says: the receiver, and for chunks the numbered id and the chunk with that number. */
  lemma PostsAreAddressed(lib: Library, receiver: string, body: Option<JsonObject>, requestId: string, threshold: int,
                          size: int, compress: bool, id: string)
    requires |Printed(lib, body)| < threshold || size >= 1
    ensures var posts := AutoPosts(lib, receiver, body, requestId, threshold, size, compress, id);
            && (forall i | 0 <= i < |posts| :: posts[i].receiver == receiver)
            && (if |Printed(lib, body)| < threshold
                then posts == [Post(receiver, requestId, if body.Some? then body.value else map[])]
                else posts != [] && forall i | 0 <= i < |posts| ::
                       && posts[i].requestId == ChunkId(id, requestId, i, |posts|)
                       && IsPiece(lib, posts[i].body, id, requestId, i, |posts|))
  {
    if |Printed(lib, body)| >= threshold {
      ChunksAreNumbered(lib, receiver, body, requestId, size, compress, id);
    }
  }

  /** The id of the chunk post at position `i` of `n`. */
  function ChunkId(id: string, requestId: string, i: nat, n: nat): string {
    (if Text.Blank(requestId) then id else Text.Strip(requestId))
    + "#chunk:" + Text.Decimal(i + 1) + "/" + Text.Decimal(n)
  }

  /** The body is chunk `i` of `n` of this transfer, for this logical id. */
  ghost predicate IsPiece(lib: Library, body: JsonObject, id: string, requestId: string, i: nat, n: nat) {
    exists h: Header, data :: h.requestId == requestId && h.count == n && Describes(lib, body, Chunk(id, h, i, data))
  }

  lemma ChunksAreNumbered(lib: Library, receiver: string, body: Option<JsonObject>, requestId: string, size: nat,
                          compress: bool, id: string)
    requires size >= 1
    ensures var posts := ChunkPosts(lib, receiver, body, requestId, size, compress, id);
            && posts != []
            && forall i | 0 <= i < |posts| ::
                 && posts[i].receiver == receiver && posts[i].requestId == ChunkId(id, requestId, i, |posts|)
                 && IsPiece(lib, posts[i].body, id, requestId, i, |posts|)
  {
    var posts := ChunkPosts(lib, receiver, body, requestId, size, compress, id);
    var h := BatchHeader(lib, body, requestId, size, compress);
    var pieces := Pieces(EncodedPayload(lib, body, compress).0, size);
    TransportIdsAreNumbered(id, requestId, |posts|);
    forall i | 0 <= i < |posts| ensures IsPiece(lib, posts[i].body, id, requestId, i, |posts|) {
      ParseChunkBody(lib, id, h, i, pieces[i]);
      ParseIsExact(lib, posts[i].body, Chunk(id, h, i, pieces[i]));
    }
  }

  /**
   * The sends of `post_message_chunked`. `remote(n)` is what the n-th remote call returns, or `None` if it raises;
   * the first one that raises ends the method.
   */
  method SendAll(remote: nat -> Option<string>, all: seq<Post>) returns (responses: seq<string>, sent: seq<Post>)
    ensures sent <= all && |responses| <= |all|
    ensures forall i | 0 <= i < |responses| :: remote(i) == Some(responses[i])
    ensures if |responses| == |all| then sent == all
            else |sent| == |responses| + 1 && remote(|responses|) == None
  {
    responses, sent := [], [];
    for i := 0 to |all|
      invariant |responses| == i && sent == all[..i]
      invariant forall k | 0 <= k < i :: remote(k) == Some(responses[k])
    {
      sent := sent + [all[i]];
      var response := remote(i);
      if response.None? {
        return;
      }
      responses := responses + [response.value];
    }
  }

  method PostMessageAuto(lib: Library, remote: nat -> Option<string>, receiver: string, body: Option<JsonObject>,
                         requestId: string, threshold: int, chunkSize: int, compress: bool, freshId: string)
    returns (r: Result<AutoResult, SendError>, sent: seq<Post>)
    ensures threshold < 1 ==> r == Failure(ThresholdTooSmall) && sent == []
    ensures threshold >= 1 && chunkSize < 1 && !IsDirect(lib, body, threshold) ==>
              r == Failure(CannotEncode(ChunkSizeTooSmall)) && sent == []
    ensures threshold >= 1 && (IsDirect(lib, body, threshold) || chunkSize >= 1) ==>
              var all := AutoPosts(lib, receiver, body, requestId, threshold, chunkSize, compress, freshId);
              && sent <= all
              && (r.Failure? ==> r.error == CallFailed && sent != [] && remote(|sent| - 1) == None)
              && (r.Success? ==>
                    && sent == all && (forall i: nat | i < |all| :: remote(i).Some?)
                    && (r.value.Direct? <==> IsDirect(lib, body, threshold)))
              && (r.Success? && r.value.Direct? ==> remote(0) == Some(r.value.response))
              && (r.Success? && r.value.Chunked? ==>
                    && r.value.report.transferId == freshId && r.value.report.requestId == requestId
                    && r.value.report.chunkCount == |all| == |r.value.report.responses|
                    && TransportIds(freshId, requestId, |all|) == Success(r.value.report.transportIds)
                    && forall i | 0 <= i < |all| :: remote(i) == Some(r.value.report.responses[i]))
    ensures forall i | 0 <= i < |sent| :: sent[i].receiver == receiver
    ensures r.Success? ==> (r.value.Direct? <==> |Printed(lib, body)| < threshold)
    ensures r.Success? && r.value.Direct? ==>
              sent == [Post(receiver, requestId, if body.Some? then body.value else map[])]
    ensures r.Success? && r.value.Chunked? ==>
              forall i | 0 <= i < |sent| ::
                && sent[i].requestId == r.value.report.transportIds[i] == ChunkId(freshId, requestId, i, |sent|)
                && IsPiece(lib, sent[i].body, freshId, requestId, i, |sent|)
  {
    if |Printed(lib, body)| < threshold || chunkSize >= 1 {
      PostsAreAddressed(lib, receiver, body, requestId, threshold, chunkSize, compress, freshId);
    }
    sent := [];
    if threshold < 1 {
      return Failure(ThresholdTooSmall), [];
    }
    if IsDirect(lib, body, threshold) {
      sent := [Post(receiver, requestId, PayloadOf(body))];
      var response := remote(0);
      if response.None? {
        return Failure(CallFailed), sent;
      }
      return Success(Direct(response.value)), sent;
    }
    var encoded := EncodeChunkedBodies(lib, body, requestId, chunkSize, compress, None, freshId);
    if encoded.Failure? {
      return Failure(CannotEncode(encoded.error)), [];
    }
    var batch := encoded.value;
    var ids := TransportIds(batch.transferId, requestId, batch.chunkCount);
    var all := seq(batch.chunkCount,
                   i requires 0 <= i < batch.chunkCount => Post(receiver, ids.value[i], batch.bodies[i]));
    assert all == ChunkPosts(lib, receiver, body, requestId, chunkSize, compress, freshId);
    var responses;
    responses, sent := SendAll(remote, all);
    if |responses| < |all| {
      return Failure(CallFailed), sent;
    }
    return Success(Chunked(ChunkReport(batch.transferId, requestId, batch.chunkCount, ids.value, responses))), sent;
  }

  /**
   * A transport id tells the posts of all chunked messages apart: two posts with the same one have the same position in
   * messages with as many chunks, sent under the same stripped logical id or, where that is blank, transfer id.
   */
  lemma TransportIdsTellPostsApart(lib: Library, first: seq<Post>, id: string, requestId: string, i: nat,
                                   second: seq<Post>, otherId: string, otherRequestId: string, j: nat)
    requires SentInChunks(lib, first, requestId, id) && SentInChunks(lib, second, otherRequestId, otherId)
    requires i < |first| && j < |second| && first[i].requestId == second[j].requestId
    ensures i == j && |first| == |second|
    ensures (if Text.Blank(requestId) then id else Text.Strip(requestId))
         == (if Text.Blank(otherRequestId) then otherId else Text.Strip(otherRequestId))
  {
    TransportIdInjective(TransportPrefix(id, requestId), i, |first|,
                         TransportPrefix(otherId, otherRequestId), j, |second|);
  }

  /** These are the posts of some chunked message with this logical id and transfer id. */
  ghost predicate SentInChunks(lib: Library, posts: seq<Post>, requestId: string, id: string) {
    exists receiver, body, size: nat, compress ::
      size >= 1 && posts == ChunkPosts(lib, receiver, body, requestId, size, compress, id)
  }
}
