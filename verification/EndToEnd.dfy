/** From `post_message_auto` on one side to `receive_envelope` on the other. */
module EndToEnd {
  import opened Prelude
  import Text
  import opened Json
  import opened OrderedDicts
  import opened Chunking
  import opened Reassembly
  import opened ReassemblyRuns
  import opened RoundTrip
  import opened Reader
  import opened Posting
  import Calls
  import Wire

  // ---- the pushes hidden in a sequence of frames ----

  /** The chunk envelopes that reach the reassembler. */
  ghost function Pushes(lib: Library, frames: seq<Frame>): seq<JsonObject> {
    if frames == [] then []
    else
      var before, body := Pushes(lib, frames[..|frames| - 1]), ChunkIn(lib, frames[|frames| - 1]);
      if body.Some? then before + [body.value] else before
  }

  predicate CarriesId(lib: Library, frame: Frame, id: string) {
    ChunkIn(lib, frame).Some? && Carries(ParseChunk(lib, ChunkIn(lib, frame).value), id)
  }

  /** The positions of the frames that carry a chunk of transfer `id`. */
  ghost function OwnPositions(lib: Library, id: string, frames: seq<Frame>): (r: seq<nat>)
    ensures forall k | 0 <= k < |r| :: r[k] < |frames| && CarriesId(lib, frames[r[k]], id)
  {
    if frames == [] then []
    else
      var n := |frames| - 1;
      var before := OwnPositions(lib, id, frames[..n]);
      if CarriesId(lib, frames[n], id) then before + [n] else before
  }

  /** What the reader does with a chunk, given what the reassembler made of it. */
  ghost predicate Shows(r: Reaction, args: JsonObject, out: Outcome) {
    match out
    case NeedMore => r.Reply? && r.result == Obj(map["ok" := Bool(true)])
    case Raised(_) => r.Reply? && r.result == Obj(map["ok" := Bool(false)])
    case Completed(m) => r.Deliver? && r.args == AssembledArgs(args, m)
  }

  /** The frame at position `at`, the pushed body, the outcome and the reaction belong together. */
  ghost predicate Together(lib: Library, frame: Frame, body: JsonObject, out: Outcome, r: Reaction) {
    ChunkIn(lib, frame) == Some(body) && Shows(r, EnvelopeArgs(lib, frame).value, out)
  }

  ghost predicate Aligned(lib: Library, frames: seq<Frame>, reactions: seq<Reaction>, at: seq<nat>,
                          bodies: seq<JsonObject>, outs: seq<Outcome>)
  {
    && |at| == |bodies| == |outs| && |frames| == |reactions|
    && forall k | 0 <= k < |at| ::
         at[k] < |frames| && Together(lib, frames[at[k]], bodies[k], outs[k], reactions[at[k]])
  }

  lemma AlignedExtends(lib: Library, frames: seq<Frame>, reactions: seq<Reaction>, at: seq<nat>,
                       bodies: seq<JsonObject>, outs: seq<Outcome>,
                       frame: Frame, r: Reaction, body: JsonObject, out: Outcome)
    requires Aligned(lib, frames, reactions, at, bodies, outs)
    ensures Aligned(lib, frames + [frame], reactions + [r], at, bodies, outs)
    ensures Together(lib, frame, body, out, r) ==>
              Aligned(lib, frames + [frame], reactions + [r], at + [|frames|], bodies + [body], outs + [out])
  {
    forall k | 0 <= k < |at|
      ensures Together(lib, (frames + [frame])[at[k]], bodies[k], outs[k], (reactions + [r])[at[k]])
    {
      assert (frames + [frame])[at[k]] == frames[at[k]] && (reactions + [r])[at[k]] == reactions[at[k]];
    }
  }

  /** The reader's table and its reactions to chunks are those of the reassembler's own run over the pushes. */
  ghost predicate ReadsAsRun(lib: Library, cap: nat, channelId: string, id: string, frames: seq<Frame>)
    requires cap >= 1
  {
    var pushes := Pushes(lib, frames);
    var (t, outs) := Run(lib, cap, Empty(), Arrivals(lib, pushes));
    && Read(lib, cap, channelId, frames).table == t
    && Aligned(lib, frames, Read(lib, cap, channelId, frames).reactions, OwnPositions(lib, id, frames),
               OwnBodies(lib, id, pushes), OwnOutcomes(id, Arrivals(lib, pushes), outs))
  }

  lemma {:induction false} ReadFollowsRun(lib: Library, cap: nat, channelId: string, id: string, frames: seq<Frame>)
    requires cap >= 1 && Read(lib, cap, channelId, frames).running
    ensures ReadsAsRun(lib, cap, channelId, id, frames)
  {
    if frames != [] {
      var n := |frames| - 1;
      ReadFollowsRun(lib, cap, channelId, id, frames[..n]);
      assert frames == frames[..n] + [frames[n]];
      ReadFollowsRunStep(lib, cap, channelId, id, frames[..n], frames[n]);
    }
  }

  lemma ReadFollowsRunStep(lib: Library, cap: nat, channelId: string, id: string, frames: seq<Frame>, frame: Frame)
    requires cap >= 1 && Read(lib, cap, channelId, frames + [frame]).running
    requires ReadsAsRun(lib, cap, channelId, id, frames)
    ensures ReadsAsRun(lib, cap, channelId, id, frames + [frame])
  {
    var all := frames + [frame];
    assert all[..|frames|] == frames && all[|frames|] == frame;
    if ChunkIn(lib, frame).Some? {
      ReadChunk(lib, cap, channelId, id, frames, frame, ChunkIn(lib, frame).value);
    } else {
      var before := Read(lib, cap, channelId, frames);
      ReactionIsOwed(lib, cap, channelId, before.table, frame);
      var pushes := Pushes(lib, frames);
      AlignedExtends(lib, frames, before.reactions, OwnPositions(lib, id, frames), OwnBodies(lib, id, pushes),
                     OwnOutcomes(id, Arrivals(lib, pushes), Run(lib, cap, Empty(), Arrivals(lib, pushes)).1),
                     frame, React(lib, cap, channelId, before.table, frame).1, map[], NeedMore);
      assert Pushes(lib, all) == pushes && OwnPositions(lib, id, all) == OwnPositions(lib, id, frames);
    }
  }

  /** A chunk: the reassembler's run grows by its push. */
  lemma ReadChunk(lib: Library, cap: nat, channelId: string, id: string, frames: seq<Frame>, frame: Frame,
                  body: JsonObject)
    requires cap >= 1 && Read(lib, cap, channelId, frames + [frame]).running
    requires ReadsAsRun(lib, cap, channelId, id, frames) && ChunkIn(lib, frame) == Some(body)
    ensures ReadsAsRun(lib, cap, channelId, id, frames + [frame])
  {
    var all := frames + [frame];
    assert all[..|frames|] == frames && all[|frames|] == frame;
    var before, pushes := Read(lib, cap, channelId, frames), Pushes(lib, frames);
    var r, out := React(lib, cap, channelId, before.table, frame).1, PushStep(lib, cap, before.table, body).1;
    assert Pushes(lib, all) == pushes + [body];
    assert Read(lib, cap, channelId, all)
        == Reading(PushStep(lib, cap, before.table, body).0, before.reactions + [r], true)
        && Together(lib, frame, body, out, r) by {
      ReactionIsOwed(lib, cap, channelId, before.table, frame);
    }
    PushAppends(lib, cap, id, pushes, body);
    AlignedExtends(lib, frames, before.reactions, OwnPositions(lib, id, frames), OwnBodies(lib, id, pushes),
                   OwnOutcomes(id, Arrivals(lib, pushes), Run(lib, cap, Empty(), Arrivals(lib, pushes)).1),
                   frame, r, body, out);
    assert OwnPositions(lib, id, all)
        == OwnPositions(lib, id, frames) + (if Carries(ParseChunk(lib, body), id) then [|frames|] else []);
  }

  lemma PushAppends(lib: Library, cap: nat, id: string, pushes: seq<JsonObject>, body: JsonObject)
    requires cap >= 1
    ensures var (t, outs) := Run(lib, cap, Empty(), Arrivals(lib, pushes));
            var (t2, out) := PushStep(lib, cap, t, body);
            var all := Arrivals(lib, pushes + [body]);
            && Run(lib, cap, Empty(), all) == (t2, outs + [out])
            && OwnOutcomes(id, all, outs + [out])
               == OwnOutcomes(id, Arrivals(lib, pushes), outs)
                  + (if Carries(ParseChunk(lib, body), id) then [out] else [])
            && OwnBodies(lib, id, pushes + [body])
               == OwnBodies(lib, id, pushes) + (if Carries(ParseChunk(lib, body), id) then [body] else [])
  {
    var all := Arrivals(lib, pushes + [body]);
    assert all[..|pushes|] == Arrivals(lib, pushes);
    assert (pushes + [body])[..|pushes|] == pushes;
    var outs := Run(lib, cap, Empty(), Arrivals(lib, pushes)).1;
    var out := PushStep(lib, cap, Run(lib, cap, Empty(), Arrivals(lib, pushes)).0, body).1;
    assert (outs + [out])[..|outs|] == outs;
  }

  // ---- transparency ----

  /** The frame relays a post: a `receive_envelope` call with the post's body and request id, and anything else. */
  predicate Relays(lib: Library, frame: Frame, post: Post) {
    match EnvelopeArgs(lib, frame)
    case Some(args) => Wire.Get(args, "body") == Obj(post.body) && ArgStr(lib, args, "request_id") == post.requestId
    case None => false
  }

  /**
   * A frame that relays a post without a chunk marker is passed on as it is. `receive_envelope` is entered exactly if
   * the relay added no argument named `self`; otherwise the call raises, and the reader does not survive the frame.
   */
  lemma DirectPostDelivers(lib: Library, cap: nat, channelId: string, t: Table, frame: Frame, post: Post)
    requires TableOk(cap, t) && Relays(lib, frame, post) && ChunkMeta(post.body).Failure?
    ensures var (t', r) := React(lib, cap, channelId, t, frame);
            && t' == t && Passes(r)
            && (r.Deliver? <==> "self" !in EnvelopeArgs(lib, frame).value) && (!r.Deliver? ==> Ends(r))
            && DeliveryOf(lib, r.args).body == Some(post.body) && DeliveryOf(lib, r.args).requestId == post.requestId
  {
    ReactionIsOwed(lib, cap, channelId, t, frame);
  }

  const CHUNK_EXTRAS :=
    {"chunk_transfer_id", "chunk_count", "chunk_total_bytes", "chunk_sha256", "chunk_content_encoding"}

  /**
   * A completed transfer is delivered with its body, under its logical id or, if that is blank, the transport id of the
   * completing chunk. The other arguments are those of that chunk's envelope.
   */
  lemma AssembledDelivery(lib: Library, args: JsonObject, m: Message)
    ensures var d, envelope := DeliveryOf(lib, AssembledArgs(args, m)), DeliveryOf(lib, args);
            && d.body == Some(m.body)
            && d.requestId == (if Text.Blank(m.requestId) then envelope.requestId else m.requestId)
            && d.sender == envelope.sender && d.receiver == envelope.receiver && d.clientId == envelope.clientId
            && d.messageType == envelope.messageType && d.kind == envelope.kind
  {
  }

  /** And the five documented fields of the transfer come on top of the envelope's own extra arguments. */
  lemma AssembledExtras(lib: Library, args: JsonObject, m: Message)
    ensures var extra := DeliveryOf(lib, AssembledArgs(args, m)).extra;
            && CHUNK_EXTRAS <= extra.Keys && extra - CHUNK_EXTRAS == DeliveryOf(lib, args).extra - CHUNK_EXTRAS
            && extra["chunk_transfer_id"] == Str(m.transferId) && extra["chunk_count"] == Int(m.chunkCount)
            && extra["chunk_total_bytes"] == Int(m.totalBytes) && extra["chunk_sha256"] == Str(m.sha256)
            && extra["chunk_content_encoding"] == Str(m.encoding)
  {
    assert DeliveryOf(lib, AssembledArgs(args, m)).extra - CHUNK_EXTRAS == DeliveryOf(lib, args).extra - CHUNK_EXTRAS;
  }

  /** The posts of one message arrive as frames `at`, in the order `order`: any of them, repeated at will. */
  ghost predicate Arrive(lib: Library, frames: seq<Frame>, at: seq<nat>, posts: seq<Post>, order: seq<nat>) {
    && AllBelow(order, |posts|)
    && |at| == |order|
    && (forall k | 0 <= k < |at| :: at[k] < |frames| && Relays(lib, frames[at[k]], posts[order[k]]))
  }

  /** This reaction hands the body to `receive_envelope` under the request id. */
  predicate Hands(lib: Library, r: Reaction, body: JsonObject, requestId: string) {
    r.Deliver? && DeliveryOf(lib, r.args).body == Some(body) && DeliveryOf(lib, r.args).requestId == requestId
  }

  /**
   * Of the frames `at`, exactly those that complete the set of posts once more make the reader call `receive_envelope`,
   * with this body and request id; all others are acknowledged.
   */
  ghost predicate DeliversAtCompletions(lib: Library, reactions: seq<Reaction>, at: seq<nat>, order: seq<nat>, n: nat,
                                        body: JsonObject, requestId: string)
  {
    && |at| == |order|
    && forall k | 0 <= k < |at| ::
         && at[k] < |reactions|
         && if CompletesAt(order, k, n) then Hands(lib, reactions[at[k]], body, requestId)
            else reactions[at[k]].Reply? && reactions[at[k]].result == Obj(map["ok" := Bool(true)])
  }

  /** The pushed bodies of the transfer are its batch's envelopes, as posted. */
  lemma RelayedBodies(lib: Library, frames: seq<Frame>, receiver: string, body: Option<JsonObject>, requestId: string,
                      size: nat, compress: bool, id: string, order: seq<nat>, bodies: seq<JsonObject>)
    requires size >= 1
    requires var posts := ChunkPosts(lib, receiver, body, requestId, size, compress, id);
             var at := OwnPositions(lib, id, frames);
             && Arrive(lib, frames, at, posts, order)
             && |bodies| == |at| && forall k | 0 <= k < |at| :: ChunkIn(lib, frames[at[k]]) == Some(bodies[k])
    ensures var batch := EncodeBatch(lib, body, requestId, size, compress, id).bodies;
            AllBelow(order, |batch|) && PicksBodies(batch, order, bodies)
  {
    var posts := ChunkPosts(lib, receiver, body, requestId, size, compress, id);
    var batch := EncodeBatch(lib, body, requestId, size, compress, id).bodies;
    assert |posts| == |batch|;
    forall k | 0 <= k < |order| ensures bodies[k] == batch[order[k]] {
      assert posts[order[k]].body == batch[order[k]];
    }
  }

  /** Outcomes at completions make deliveries at completions. */
  lemma DeliveredAtCompletions(lib: Library, frames: seq<Frame>, reactions: seq<Reaction>, at: seq<nat>,
                               bodies: seq<JsonObject>, outs: seq<Outcome>, order: seq<nat>, n: nat, m: Message)
    requires Aligned(lib, frames, reactions, at, bodies, outs) && !Text.Blank(m.requestId)
    requires DoneAtCompletions(outs, order, n, Completed(m))
    ensures DeliversAtCompletions(lib, reactions, at, order, n, m.body, m.requestId)
  {
    forall k | 0 <= k < |at|
      ensures if CompletesAt(order, k, n) then Hands(lib, reactions[at[k]], m.body, m.requestId)
              else reactions[at[k]].Reply? && reactions[at[k]].result == Obj(map["ok" := Bool(true)])
    {
      assert Together(lib, frames[at[k]], bodies[k], outs[k], reactions[at[k]]);
      AssembledDelivery(lib, EnvelopeArgs(lib, frames[at[k]]).value, m);
    }
  }

  lemma PickedBatchDelivers(lib: Library, cap: nat, channelId: string, frames: seq<Frame>, body: Option<JsonObject>,
                            requestId: string, size: nat, compress: bool, id: string, order: seq<nat>)
    requires lib.Restores(PayloadOf(body)) && cap >= 1 && size >= 1 && !Text.Blank(requestId)
    requires Read(lib, cap, channelId, frames).running
    requires AllBelow(order, |EncodeBatch(lib, body, requestId, size, compress, id).bodies|)
    requires PicksBodies(EncodeBatch(lib, body, requestId, size, compress, id).bodies, order,
                         OwnBodies(lib, id, Pushes(lib, frames)))
    requires NeverFoundEvicted(lib, cap, Empty(), id, Arrivals(lib, Pushes(lib, frames)))
    ensures DeliversAtCompletions(lib, Read(lib, cap, channelId, frames).reactions,
                                  OwnPositions(lib, id, frames), order,
                                  |EncodeBatch(lib, body, requestId, size, compress, id).bodies|,
                                  PayloadOf(body), requestId)
  {
    var pushes, n := Pushes(lib, frames), |EncodeBatch(lib, body, requestId, size, compress, id).bodies|;
    var outs := OwnOutcomes(id, Arrivals(lib, pushes), Run(lib, cap, Empty(), Arrivals(lib, pushes)).1);
    var m := PrintedMessage(lib, body, requestId, size, compress, id);
    assert DoneAtCompletions(outs, order, n, Completed(m)) by {
      RoundTripInterleaved(lib, cap, Empty(), pushes, body, requestId, size, compress, id, order);
    }
    ReadFollowsRun(lib, cap, channelId, id, frames);
    DeliveredAtCompletions(lib, frames, Read(lib, cap, channelId, frames).reactions, OwnPositions(lib, id, frames),
                           OwnBodies(lib, id, pushes), outs, order, n, m);
  }

  /**
   * The chunked half: if the posts of a chunked message are the only frames that carry its transfer id, arrive in any
   * order with any repetitions, and none of them finds its transfer evicted, then the peer calls `receive_envelope`
   * with the body and id that were posted at every completion of the set of chunks, and at no other of these frames.
   */
  lemma ChunkedPostDelivers(lib: Library, cap: nat, channelId: string, frames: seq<Frame>, receiver: string,
                            body: Option<JsonObject>, requestId: string, size: nat, compress: bool, id: string,
                            order: seq<nat>)
    requires lib.Restores(PayloadOf(body)) && cap >= 1 && size >= 1 && !Text.Blank(requestId)
    requires Read(lib, cap, channelId, frames).running
    requires Arrive(lib, frames, OwnPositions(lib, id, frames),
                    ChunkPosts(lib, receiver, body, requestId, size, compress, id), order)
    requires NeverFoundEvicted(lib, cap, Empty(), id, Arrivals(lib, Pushes(lib, frames)))
    ensures DeliversAtCompletions(lib, Read(lib, cap, channelId, frames).reactions,
                                  OwnPositions(lib, id, frames), order,
                                  |ChunkPosts(lib, receiver, body, requestId, size, compress, id)|,
                                  PayloadOf(body), requestId)
  {
    var bodies := OwnBodies(lib, id, Pushes(lib, frames));
    var at := OwnPositions(lib, id, frames);
    assert |bodies| == |at| && forall k | 0 <= k < |bodies| :: ChunkIn(lib, frames[at[k]]) == Some(bodies[k]) by {
      ReadFollowsRun(lib, cap, channelId, id, frames);
    }
    RelayedBodies(lib, frames, receiver, body, requestId, size, compress, id, order, bodies);
    PickedBatchDelivers(lib, cap, channelId, frames, body, requestId, size, compress, id, order);
  }

  /** The unchunked half: with one post, every frame that relays it is a completion, and is delivered. */
  lemma DirectPostsDeliver(lib: Library, cap: nat, channelId: string, frames: seq<Frame>, at: seq<nat>, post: Post,
                           order: seq<nat>)
    requires cap >= 1 && ChunkMeta(post.body).Failure? && Read(lib, cap, channelId, frames).running
    requires Arrive(lib, frames, at, [post], order)
    ensures DeliversAtCompletions(lib, Read(lib, cap, channelId, frames).reactions, at, order, 1,
                                  post.body, post.requestId)
  {
    forall k | 0 <= k < |at|
      ensures Hands(lib, Read(lib, cap, channelId, frames).reactions[at[k]], post.body, post.requestId)
    {
      assert order[k] == 0;
      RelayedFrameDelivers(lib, cap, channelId, frames, at[k], post);
    }
    EachIsACompletion(lib, Read(lib, cap, channelId, frames).reactions, at, order, post.body, post.requestId);
  }

  lemma EachIsACompletion(lib: Library, reactions: seq<Reaction>, at: seq<nat>, order: seq<nat>,
                          body: JsonObject, requestId: string)
    requires AllBelow(order, 1) && |at| == |order|
    requires forall k | 0 <= k < |at| :: at[k] < |reactions| && Hands(lib, reactions[at[k]], body, requestId)
    ensures DeliversAtCompletions(lib, reactions, at, order, 1, body, requestId)
  {
    forall k | 0 <= k < |order| ensures CompletesAt(order, k, 1) {
      assert order[k] == 0;
    }
  }

  lemma RelayedFrameDelivers(lib: Library, cap: nat, channelId: string, frames: seq<Frame>, at: nat, post: Post)
    requires cap >= 1 && ChunkMeta(post.body).Failure? && Read(lib, cap, channelId, frames).running
    requires at < |frames| && Relays(lib, frames[at], post)
    ensures Hands(lib, Read(lib, cap, channelId, frames).reactions[at], post.body, post.requestId)
  {
    ReactionAt(lib, cap, channelId, frames, at);
    DirectPostDelivers(lib, cap, channelId, Read(lib, cap, channelId, frames[..at]).table, frames[at], post);
  }

  /** What `AutoIsTransparent` asks of the relay and the peer when the message is sent in chunks. */
  ghost predicate ChunksGetThrough(lib: Library, cap: nat, frames: seq<Frame>, at: seq<nat>, id: string)
    requires cap >= 1
  {
    at == OwnPositions(lib, id, frames) && NeverFoundEvicted(lib, cap, Empty(), id, Arrivals(lib, Pushes(lib, frames)))
  }

  /**
   * Transparency of `post_message_auto`. Its posts reach the peer among any other frames, in any order and with any
   * repetitions, and the peer's reader survives them all (`ReaderSurvives`). Below the threshold and above it alike,
   * the peer's `receive_envelope` is entered with the same body and the same request id at every completion of the set
   * of posts, and at no other of these frames.
   */
  lemma AutoIsTransparent(lib: Library, cap: nat, channelId: string, frames: seq<Frame>, at: seq<nat>, receiver: string,
                          body: Option<JsonObject>, requestId: string, threshold: int, size: int, compress: bool,
                          id: string, order: seq<nat>)
    requires cap >= 1 && !Text.Blank(requestId) && ChunkMeta(PayloadOf(body)).Failure?
    requires Read(lib, cap, channelId, frames).running
    requires IsDirect(lib, body, threshold)
          || (size >= 1 && lib.Restores(PayloadOf(body)) && ChunksGetThrough(lib, cap, frames, at, id))
    requires Arrive(lib, frames, at, AutoPosts(lib, receiver, body, requestId, threshold, size, compress, id), order)
    ensures DeliversAtCompletions(lib, Read(lib, cap, channelId, frames).reactions, at, order,
                                  |AutoPosts(lib, receiver, body, requestId, threshold, size, compress, id)|,
                                  PayloadOf(body), requestId)
  {
    if IsDirect(lib, body, threshold) {
      DirectPostsDeliver(lib, cap, channelId, frames, at, Post(receiver, requestId, PayloadOf(body)), order);
    } else {
      ChunkedPostDelivers(lib, cap, channelId, frames, receiver, body, requestId, size, compress, id, order);
    }
  }

  /** In particular exactly once, at the last frame, when that one is the first to complete the set of posts. */
  lemma DeliversOnce(lib: Library, reactions: seq<Reaction>, at: seq<nat>, order: seq<nat>, n: nat,
                     body: JsonObject, requestId: string)
    requires DeliversAtCompletions(lib, reactions, at, order, n, body, requestId) && LastCovers(order, n)
    ensures forall k | 0 <= k < |at| ::
              && at[k] < |reactions|
              && (reactions[at[k]].Deliver? <==> k == |at| - 1)
              && (k == |at| - 1 ==> Hands(lib, reactions[at[k]], body, requestId))
  {
    FirstCompletion(order, n);
  }

  /** The reaction at a position is the reaction to that frame in the state before it. */
  lemma {:induction false} ReactionAt(lib: Library, cap: nat, channelId: string, frames: seq<Frame>, at: nat)
    requires cap >= 1 && Read(lib, cap, channelId, frames).running && at < |frames|
    ensures Read(lib, cap, channelId, frames).reactions[at]
         == React(lib, cap, channelId, Read(lib, cap, channelId, frames[..at]).table, frames[at]).1
  {
    var n := |frames| - 1;
    if at < n {
      ReactionAt(lib, cap, channelId, frames[..n], at);
      assert frames[..n][..at] == frames[..at];
    }
  }

  // ---- calls between two clients ----

  /**
   * A call and its answer. The frame a caller sends for call `c` makes a peer that knows the method owe exactly one
   * reply under that call's id (unless it ends the peer's reader), the built-in ones at once; and the reply frame
   * completes call `c` with the result it carries, and no other call.
   */
  lemma CallIsAnswered(lib: Library, ids: Calls.Ids, s: Calls.CallState, c: nat, cap: nat, channelId: string, t: Table,
                       name: string, arguments: JsonObject, result: Json, rt: string)
    requires Calls.CallsOk(lib, ids, s) && c < |s.calls| && s.calls[c].fut.Pending? && TableOk(cap, t)
    ensures var r := React(lib, cap, channelId, t, Loaded(Wire.CallRequestMessage(name, arguments, ids(c)))).1;
            && (!Ends(r) ==> ReplyId(r) == if Wire.KnownMethod(name) then Some(ids(c)) else None)
            && (name == "_ping_" ==> r == Reply(ids(c), Str("pong")))
            && (name == "_get_channel_id_" ==> r == Reply(ids(c), Str(channelId)))
    ensures var (s', used) := Calls.TryComplete(lib, s, Wire.ResponseMessage(result, ids(c), rt));
            && used && |s'.calls| == |s.calls| && Calls.CallResult(s', c) == Some(result)
            && (forall d | 0 <= d < |s.calls| && d != c :: s'.calls[d] == s.calls[d])
  {
    Wire.CallAndReplyAreRead(lib, name, arguments, ids(c), result, rt);
    ReactionIsOwed(lib, cap, channelId, t, Loaded(Wire.CallRequestMessage(name, arguments, ids(c))));
  }
}
