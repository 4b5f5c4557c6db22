/** `encode_chunked_bodies` followed by `ChunkReassembler.push`, in any order and with repetitions. */
module RoundTrip {
  import opened Prelude
  import opened Json
  import opened Text
  import opened OrderedDicts
  import opened Chunking
  import opened Reassembly
  import opened ReassemblyRuns

  /** One printed batch, as its reader sees it: the id, the common header and the pieces. */
  datatype Printed = Printed(id: string, header: Header, pieces: seq<bytes>)

  ghost function PrintedBy(lib: Library, body: Option<JsonObject>, requestId: string, size: nat, compress: bool,
                           id: string): Printed
    requires size >= 1
  {
    Printed(id, BatchHeader(lib, body, requestId, size, compress), Pieces(EncodedPayload(lib, body, compress).0, size))
  }

  ghost predicate WellPrinted(p: Printed) {
    p.header.count == |p.pieces| >= 1
  }

  ghost predicate AllBelow(order: seq<nat>, n: nat) {
    forall k | 0 <= k < |order| :: order[k] < n
  }

  ghost predicate CoversAll(seen: set<nat>, n: nat) {
    forall j: nat | j < n :: j in seen
  }

  /** The indices that arrived since the index set was last complete. */
  ghost function Since(order: seq<nat>, n: nat): (r: set<nat>)
    ensures AllBelow(order, n) ==> forall j | j in r :: j < n
  {
    if order == [] then {}
    else
      var seen := Since(order[..|order| - 1], n) + {order[|order| - 1]};
      if CoversAll(seen, n) then {} else seen
  }

  /** The k-th arrival completes the index set once more. */
  ghost predicate CompletesAt(order: seq<nat>, k: nat, n: nat)
    requires k < |order|
  {
    CoversAll(Since(order[..k], n) + {order[k]}, n)
  }

  ghost function Seen(order: seq<nat>): set<nat> {
    set j | j in order
  }

  lemma SeenStep(order: seq<nat>)
    requires order != []
    ensures Seen(order) == Seen(order[..|order| - 1]) + {order[|order| - 1]}
  {
    assert order == order[..|order| - 1] + [order[|order| - 1]];
  }

  /** The last entry of `order` is the first to make it complete. */
  ghost predicate LastCovers(order: seq<nat>, n: nat) {
    && AllBelow(order, n) && order != []
    && CoversAll(Seen(order), n) && !CoversAll(Seen(order[..|order| - 1]), n)
  }

  lemma {:induction false} SinceWhileIncomplete(order: seq<nat>, n: nat)
    requires !CoversAll(Seen(order), n)
    ensures Since(order, n) == Seen(order)
    ensures forall k | 0 <= k < |order| :: !CompletesAt(order, k, n)
  {
    if order != [] {
      var last := |order| - 1;
      SeenStep(order);
      SinceWhileIncomplete(order[..last], n);
      CompletionsOfPrefix(order, n);
    }
  }

  /** Up to the first complete index set, only the arrival that brings the last missing index completes it. */
  lemma FirstCompletion(order: seq<nat>, n: nat)
    requires LastCovers(order, n)
    ensures forall k | 0 <= k < |order| :: CompletesAt(order, k, n) <==> k == |order| - 1
  {
    var last := |order| - 1;
    SeenStep(order);
    SinceWhileIncomplete(order[..last], n);
    CompletionsOfPrefix(order, n);
  }

  /** The chunks of a batch picked by index, in the given order. */
  ghost function Picked(p: Printed, order: seq<nat>): (r: seq<Chunk>)
    requires WellPrinted(p) && AllBelow(order, |p.pieces|)
    ensures forall k | 0 <= k < |r| :: r[k].index < r[k].header.count
  {
    seq(|order|, k requires 0 <= k < |order| => Chunk(p.id, p.header, order[k], p.pieces[order[k]]))
  }

  /** The envelope at each index parses back to the chunk at that index. */
  lemma BatchParses(lib: Library, body: Option<JsonObject>, requestId: string, size: nat, compress: bool, id: string,
                    j: nat)
    requires size >= 1 && j < |EncodeBatch(lib, body, requestId, size, compress, id).bodies|
    ensures var p := PrintedBy(lib, body, requestId, size, compress, id);
            && j < |p.pieces| && WellPrinted(p)
            && ParseChunk(lib, EncodeBatch(lib, body, requestId, size, compress, id).bodies[j])
               == Success(Chunk(id, p.header, j, p.pieces[j]))
  {
    var p := PrintedBy(lib, body, requestId, size, compress, id);
    ParseChunkBody(lib, id, p.header, j, p.pieces[j]);
  }

  ghost function Collected(p: Printed, seen: set<nat>): Transfer
    requires forall j | j in seen :: j < |p.pieces|
  {
    Transfer(p.header, map j | j in seen :: p.pieces[j])
  }

  /** One more chunk of a batch meets a transfer that holds the earlier ones, and adds itself. */
  lemma OneMorePiece(lib: Library, p: Printed, seen: set<nat>, j: nat)
    requires WellPrinted(p) && (forall i | i in seen :: i < |p.pieces|) && j < |p.pieces|
    requires seen != {} ==> Partial(Collected(p, seen))
    ensures var st := if seen == {} then None else Some(Collected(p, seen));
            var ch := Chunk(p.id, p.header, j, p.pieces[j]);
            var y := Collected(p, seen + {j});
            if forall i: nat | i < |p.pieces| :: i in seen + {j}
            then Whole(y) && SoloStep(lib, st, ch) == (None, Finish(lib, p.id, y))
            else SoloStep(lib, st, ch) == (Some(y), NeedMore)
  {
    var st := if seen == {} then None else Some(Collected(p, seen));
    var ch := Chunk(p.id, p.header, j, p.pieces[j]);
    assert Before(st, ch).chunks == Collected(p, seen).chunks;
    assert WithPiece(Before(st, ch), ch) == Collected(p, seen + {j});
    assert Refusal(Before(st, ch), ch).None?;
    assert forall i: nat :: i in seen + {j} <==> i in Before(st, ch).chunks || i == ch.index;
    OnlyLastPieceCompletes(lib, st, ch);
  }

  lemma SoloAppend(lib: Library, p: Printed, order: seq<nat>)
    requires WellPrinted(p) && AllBelow(order, |p.pieces|) && order != []
    ensures var j := order[|order| - 1];
            var (st, outs) := RunSolo(lib, Picked(p, order[..|order| - 1]));
            var (st', out) := SoloStep(lib, st, Chunk(p.id, p.header, j, p.pieces[j]));
            RunSolo(lib, Picked(p, order)) == (st', outs + [out])
  {
    assert Picked(p, order)[..|order| - 1] == Picked(p, order[..|order| - 1]);
  }

  /** The transfer with all pieces of the batch. */
  ghost function All(p: Printed): (y: Transfer)
    requires WellPrinted(p)
    ensures Whole(y)
  {
    Transfer(p.header, map j: nat | j < |p.pieces| :: p.pieces[j])
  }

  /** What one more piece does to the one-transfer machine, in terms of the indices since the last completion. */
  lemma PieceStep(lib: Library, p: Printed, seen: set<nat>, j: nat, st: Option<Transfer>)
    requires WellPrinted(p) && (forall i | i in seen :: i < |p.pieces|) && j < |p.pieces|
    requires st == (if seen == {} then None else Some(Collected(p, seen))) && (st.Some? ==> Partial(st.value))
    ensures SoloStep(lib, st, Chunk(p.id, p.header, j, p.pieces[j]))
         == if CoversAll(seen + {j}, |p.pieces|) then (None, Finish(lib, p.id, All(p)))
            else (Some(Collected(p, seen + {j})), NeedMore)
  {
    OneMorePiece(lib, p, seen, j);
    if CoversAll(seen + {j}, |p.pieces|) {
      assert Collected(p, seen + {j}) == All(p);
    }
  }

  /** The outcomes of a batch's pushes: the message at every completion of the index set, `None` elsewhere. */
  ghost predicate DoneAtCompletions(outs: seq<Outcome>, order: seq<nat>, n: nat, done: Outcome) {
    && |outs| == |order|
    && forall k | 0 <= k < |order| :: outs[k] == if CompletesAt(order, k, n) then done else NeedMore
  }

  /**
   * The chunks of one batch in any order and with any repetitions, before or after completions: every push returns
   * `None` except those that complete the index set once more, and those finish the whole batch.
   */
  lemma {:induction false} BatchOutcomes(lib: Library, p: Printed, order: seq<nat>)
    requires WellPrinted(p) && AllBelow(order, |p.pieces|)
    ensures FollowsOrder(lib, p, order)
  {
    if order != [] {
      BatchOutcomes(lib, p, order[..|order| - 1]);
      BatchOutcomesStep(lib, p, order);
    }
  }

  ghost predicate FollowsOrder(lib: Library, p: Printed, order: seq<nat>)
    requires WellPrinted(p) && AllBelow(order, |p.pieces|)
  {
    var (st, outs) := RunSolo(lib, Picked(p, order));
    var seen := Since(order, |p.pieces|);
    && st == (if seen == {} then None else Some(Collected(p, seen)))
    && DoneAtCompletions(outs, order, |p.pieces|, Finish(lib, p.id, All(p)))
  }

  lemma BatchOutcomesStep(lib: Library, p: Printed, order: seq<nat>)
    requires WellPrinted(p) && AllBelow(order, |p.pieces|) && order != []
    requires FollowsOrder(lib, p, order[..|order| - 1])
    ensures FollowsOrder(lib, p, order)
  {
    var last, n := |order| - 1, |p.pieces|;
    var (st, outs) := RunSolo(lib, Picked(p, order[..last]));
    var out := SoloStep(lib, st, Chunk(p.id, p.header, order[last], p.pieces[order[last]])).1;
    SoloAppend(lib, p, order);
    PieceStep(lib, p, Since(order[..last], n), order[last], st);
    DoneExtends(outs, out, order, n, Finish(lib, p.id, All(p)));
  }

  lemma DoneExtends(outs: seq<Outcome>, out: Outcome, order: seq<nat>, n: nat, done: Outcome)
    requires order != [] && DoneAtCompletions(outs, order[..|order| - 1], n, done)
    requires out == if CompletesAt(order, |order| - 1, n) then done else NeedMore
    ensures DoneAtCompletions(outs + [out], order, n, done)
  {
    CompletionsOfPrefix(order, n);
  }

  lemma CompletionsOfPrefix(order: seq<nat>, n: nat)
    requires order != []
    ensures forall k | 0 <= k < |order| - 1 :: CompletesAt(order, k, n) == CompletesAt(order[..|order| - 1], k, n)
  {
    assert forall k | 0 <= k < |order| - 1 :: order[..|order| - 1][..k] == order[..k];
  }

  /** What was cut and printed decodes to the body that was printed. */
  lemma FinishRestores(lib: Library, body: Option<JsonObject>, requestId: string, size: nat, compress: bool, id: string)
    requires lib.Restores(PayloadOf(body)) && size >= 1
    ensures var p := PrintedBy(lib, body, requestId, size, compress, id);
            && WellPrinted(p)
            && Finish(lib, id, All(p)) == Completed(PrintedMessage(lib, body, requestId, size, compress, id))
  {
    var p := PrintedBy(lib, body, requestId, size, compress, id);
    var y := All(p);
    var data := EncodedPayload(lib, body, compress).0;
    assert seq(y.header.count, i requires 0 <= i < y.header.count => y.chunks[i]) == p.pieces;
    PiecesPartition(data, size);
    assert Payload(y) == data;
    var raw := lib.dumps(PayloadOf(body));
    assert DecodePayload(lib, data, p.header.encoding) == Success(raw);
  }

  /**
   * Round trip under reordering, repetition and interleaving. Take any batch, and any stream of pushes in which the
   * pushes that carry its id are its own envelopes, in any order and repeated at will; other pushes, valid or
   * malformed, come in between, and none of the batch's own finds its transfer evicted. Then every push of the batch
   * returns `None`, except that each one that completes the index set returns the body, request id and count that were
   * printed.
   */
  lemma RoundTripInterleaved(lib: Library, cap: nat, t: Table, stream: seq<JsonObject>,
                             body: Option<JsonObject>, requestId: string, size: nat, compress: bool, id: string,
                             order: seq<nat>)
    requires lib.Restores(PayloadOf(body)) && cap >= 1 && TableOk(cap, t) && id !in t.vals && size >= 1
    requires AllBelow(order, |EncodeBatch(lib, body, requestId, size, compress, id).bodies|)
    requires PicksBodies(EncodeBatch(lib, body, requestId, size, compress, id).bodies, order,
                         OwnBodies(lib, id, stream))
    requires NeverFoundEvicted(lib, cap, t, id, Arrivals(lib, stream))
    ensures DoneAtCompletions(OwnOutcomes(id, Arrivals(lib, stream), Run(lib, cap, t, Arrivals(lib, stream)).1), order,
                              |EncodeBatch(lib, body, requestId, size, compress, id).bodies|,
                              Completed(PrintedMessage(lib, body, requestId, size, compress, id)))
  {
    var p := PrintedBy(lib, body, requestId, size, compress, id);
    OwnIsPicked(lib, stream, body, requestId, size, compress, id, order);
    BatchOutcomes(lib, p, order);
    FinishRestores(lib, body, requestId, size, compress, id);
    RefinesSolo(lib, cap, t, id, Arrivals(lib, stream));
  }

  /** The message that restores what was printed. */
  ghost function PrintedMessage(lib: Library, body: Option<JsonObject>, requestId: string, size: nat, compress: bool,
                                id: string): (m: Message)
    requires size >= 1
    ensures m.body == PayloadOf(body) && m.requestId == requestId && m.transferId == id
    ensures m.chunkCount == EncodeBatch(lib, body, requestId, size, compress, id).chunkCount
  {
    MessageOf(id, BatchHeader(lib, body, requestId, size, compress), PayloadOf(body))
  }

  ghost predicate PicksBodies(bodies: seq<JsonObject>, order: seq<nat>, own: seq<JsonObject>)
    requires AllBelow(order, |bodies|)
  {
    |own| == |order| && forall k | 0 <= k < |order| :: own[k] == bodies[order[k]]
  }

  lemma OwnIsPicked(lib: Library, stream: seq<JsonObject>, body: Option<JsonObject>, requestId: string, size: nat,
                    compress: bool, id: string, order: seq<nat>)
    requires size >= 1
    requires AllBelow(order, |EncodeBatch(lib, body, requestId, size, compress, id).bodies|)
    requires PicksBodies(EncodeBatch(lib, body, requestId, size, compress, id).bodies, order,
                         OwnBodies(lib, id, stream))
    ensures var p := PrintedBy(lib, body, requestId, size, compress, id);
            WellPrinted(p) && AllBelow(order, |p.pieces|) && Own(id, Arrivals(lib, stream)) == Picked(p, order)
  {
    var p := PrintedBy(lib, body, requestId, size, compress, id);
    OwnParsed(lib, id, stream);
    forall k | 0 <= k < |order| ensures Own(id, Arrivals(lib, stream))[k] == Picked(p, order)[k] {
      BatchParses(lib, body, requestId, size, compress, id, order[k]);
    }
  }

  /** The pushed bodies that carry `id`. */
  ghost function OwnBodies(lib: Library, id: string, stream: seq<JsonObject>): seq<JsonObject> {
    if stream == [] then []
    else
      var before := OwnBodies(lib, id, stream[..|stream| - 1]);
      if Carries(ParseChunk(lib, stream[|stream| - 1]), id) then before + [stream[|stream| - 1]] else before
  }

  lemma {:induction false} OwnParsed(lib: Library, id: string, stream: seq<JsonObject>)
    ensures var own, bodies := Own(id, Arrivals(lib, stream)), OwnBodies(lib, id, stream);
            |own| == |bodies| && forall k | 0 <= k < |own| :: ParseChunk(lib, bodies[k]) == Success(own[k])
  {
    if stream != [] {
      var n := |stream| - 1;
      assert Arrivals(lib, stream)[..n] == Arrivals(lib, stream[..n]);
      OwnParsed(lib, id, stream[..n]);
    }
  }
}
