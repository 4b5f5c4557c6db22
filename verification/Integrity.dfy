/** Where a completed message comes from: pushes of its own transfer, one for each index, and nothing older. */
module Integrity {
  import opened Prelude
  import opened Json
  import opened OrderedDicts
  import opened Chunking
  import opened Reassembly
  import opened ReassemblyRuns

  /** The length of the longest prefix after which `id` has no pending transfer. */
  ghost function LastAbsent(lib: Library, cap: nat, id: string, stream: seq<Arrival>): (r: nat)
    requires cap >= 1
    ensures r <= |stream|
  {
    if stream == [] || id !in Run(lib, cap, Empty(), stream).0.vals then |stream|
    else LastAbsent(lib, cap, id, stream[..|stream| - 1])
  }

  /** It is absent there, and pending ever since. */
  lemma {:induction false} LastAbsentMeans(lib: Library, cap: nat, id: string, stream: seq<Arrival>, n: nat)
    requires cap >= 1 && LastAbsent(lib, cap, id, stream) <= n <= |stream|
    ensures id in Run(lib, cap, Empty(), stream[..n]).0.vals <==> n > LastAbsent(lib, cap, id, stream)
  {
    if n == |stream| {
      assert stream[..n] == stream;
    } else {
      LastAbsentMeans(lib, cap, id, stream[..|stream| - 1], n);
      assert stream[..|stream| - 1][..n] == stream[..n];
    }
  }

  /** The arrival is a chunk of transfer `id` with this header, index and data. */
  ghost predicate Brings(a: Arrival, id: string, h: Header, i: nat, data: bytes) {
    a == Success(Chunk(id, h, i, data))
  }

  /** An arrival at position `start` or later brought this piece. */
  ghost predicate Brought(stream: seq<Arrival>, start: nat, id: string, h: Header, i: nat, data: bytes) {
    exists p | start <= p < |stream| :: Brings(stream[p], id, h, i, data)
  }

  /** Every piece of the transfer was brought, under its header, by an arrival at position `start` or later. */
  ghost predicate Backed(id: string, stream: seq<Arrival>, start: nat, x: Transfer) {
    forall i | i in x.chunks :: Brought(stream, start, id, x.header, i, x.chunks[i])
  }

  lemma BackedLater(id: string, stream: seq<Arrival>, last: Arrival, start: nat, x: Transfer)
    requires Backed(id, stream, start, x)
    ensures Backed(id, stream + [last], start, x)
  {
    forall i | i in x.chunks ensures Brought(stream + [last], start, id, x.header, i, x.chunks[i]) {
      var p :| start <= p < |stream| && Brings(stream[p], id, x.header, i, x.chunks[i]);
      assert (stream + [last])[p] == stream[p];
    }
  }

  /** One more piece: the arrival that brings it backs it. */
  lemma BackedWithPiece(stream: seq<Arrival>, ch: Chunk, start: nat, x: Transfer)
    requires Backed(ch.transferId, stream, start, x) && x.header == ch.header && start <= |stream|
    requires ch.index < ch.header.count
    ensures Backed(ch.transferId, stream + [Success(ch)], start, WithPiece(x, ch))
  {
    var all: seq<Arrival> := stream + [Success(ch)];
    BackedLater(ch.transferId, stream, Success(ch), start, x);
    assert Brings(all[|stream|], ch.transferId, ch.header, ch.index, ch.data);
  }

  /** The pending transfer of `id` is backed by what arrived since it was last absent. */
  ghost predicate TableBacked(lib: Library, cap: nat, id: string, stream: seq<Arrival>)
    requires cap >= 1
  {
    var t := Run(lib, cap, Empty(), stream).0;
    id in t.vals ==> Backed(id, stream, LastAbsent(lib, cap, id, stream), t.vals[id])
  }

  lemma OwnPushBacked(lib: Library, cap: nat, stream: seq<Arrival>, ch: Chunk)
    requires cap >= 1 && ch.index < ch.header.count && TableBacked(lib, cap, ch.transferId, stream)
    ensures var id, all := ch.transferId, stream + [Success(ch)];
            var x := Before(Run(lib, cap, Empty(), stream).0.Get(id), ch);
            var start := LastAbsent(lib, cap, id, stream);
            if Refusal(x, ch).Some? then Backed(id, all, start, x) else Backed(id, all, start, WithPiece(x, ch))
  {
    var id := ch.transferId;
    var x := Before(Run(lib, cap, Empty(), stream).0.Get(id), ch);
    var start := LastAbsent(lib, cap, id, stream);
    if Refusal(x, ch).Some? {
      BackedLater(id, stream, Success(ch), start, x);
    } else {
      BackedWithPiece(stream, ch, start, x);
    }
  }

  lemma BackedStep(lib: Library, cap: nat, id: string, stream: seq<Arrival>, last: Arrival)
    requires cap >= 1 && TableBacked(lib, cap, id, stream)
    ensures TableBacked(lib, cap, id, stream + [last])
  {
    var all := stream + [last];
    assert all[..|stream|] == stream && all[|stream|] == last;
    var t, t' := Run(lib, cap, Empty(), stream).0, Run(lib, cap, Empty(), all).0;
    if id in t'.vals {
      assert LastAbsent(lib, cap, id, all) == LastAbsent(lib, cap, id, stream);
      if last.Success? {
        AcceptEffect(lib, cap, t, last.value);
      }
      if Carries(last, id) {
        OwnPushBacked(lib, cap, stream, last.value);
        OnlyLastPieceCompletes(lib, t.Get(id), last.value);
      } else {
        BackedLater(id, stream, last, LastAbsent(lib, cap, id, stream), t.vals[id]);
      }
    }
  }

  lemma {:induction false} PendingIsBacked(lib: Library, cap: nat, id: string, stream: seq<Arrival>)
    requires cap >= 1
    ensures TableBacked(lib, cap, id, stream)
  {
    if stream != [] {
      var before, last := stream[..|stream| - 1], stream[|stream| - 1];
      assert stream == before + [last];
      PendingIsBacked(lib, cap, id, before);
      BackedStep(lib, cap, id, before, last);
    }
  }

  // ---- completed messages ----

  function HeaderOf(m: Message): Header {
    Header(m.requestId, m.chunkCount, m.totalBytes, m.sha256, m.encoding)
  }

  /** The pieces are, index by index, what arrivals at position `start` or later brought for this message. */
  ghost predicate BroughtPieces(stream: seq<Arrival>, start: nat, m: Message, pieces: seq<bytes>) {
    && |pieces| == m.chunkCount
    && forall i: nat | i < |pieces| :: Brought(stream, start, m.transferId, HeaderOf(m), i, pieces[i])
  }

  /** The pieces, joined in the order of their indices, have the declared length and digest and decode to the body. */
  ghost predicate MakeMessage(lib: Library, m: Message, pieces: seq<bytes>) {
    var data := Flatten(pieces);
    && |data| == m.totalBytes && lib.sha256(data) == m.sha256
    && exists plain :: Decodes(lib, data, m.encoding, plain) && Prints(lib, plain, m.body)
  }

  ghost function PiecesOf(y: Transfer): seq<bytes>
    requires Whole(y)
  {
    seq(y.header.count, i requires 0 <= i < y.header.count => y.chunks[i])
  }

  /** A whole transfer that finishes well makes the message out of its pieces. */
  lemma WholeMakesMessage(lib: Library, id: string, y: Transfer, m: Message)
    requires Whole(y) && Finish(lib, id, y) == Completed(m)
    ensures m.transferId == id && HeaderOf(m) == y.header && MakeMessage(lib, m, PiecesOf(y))
  {
    FinishIsExact(lib, id, y, m);
    assert Payload(y) == Flatten(PiecesOf(y));
  }

  lemma BackedPieces(stream: seq<Arrival>, start: nat, y: Transfer, m: Message)
    requires Whole(y) && HeaderOf(m) == y.header && Backed(m.transferId, stream, start, y)
    ensures BroughtPieces(stream, start, m, PiecesOf(y))
  {
    forall i: nat | i < |PiecesOf(y)| ensures Brought(stream, start, m.transferId, HeaderOf(m), i, PiecesOf(y)[i]) {
      assert i in y.chunks;
    }
  }

  /** The whole transfer that a completing push finishes, as it was just before it left the table. */
  lemma CompletedTransfer(lib: Library, cap: nat, t: Table, a: Arrival, m: Message) returns (y: Transfer)
    requires cap >= 1 && TableOk(cap, t) && PushParsed(lib, cap, t, a).1 == Completed(m)
    ensures a.Success? && Refusal(Before(t.Get(a.value.transferId), a.value), a.value).None?
    ensures y == WithPiece(Before(t.Get(a.value.transferId), a.value), a.value)
    ensures Whole(y) && Finish(lib, a.value.transferId, y) == Completed(m)
  {
    var ch := a.value;
    AcceptEffect(lib, cap, t, ch);
    OnlyLastPieceCompletes(lib, t.Get(ch.transferId), ch);
    y := WithPiece(Before(t.Get(ch.transferId), ch), ch);
  }

  lemma CompletionIsSound(lib: Library, cap: nat, stream: seq<Arrival>, last: Arrival, m: Message)
    returns (pieces: seq<bytes>)
    requires cap >= 1 && PushParsed(lib, cap, Run(lib, cap, Empty(), stream).0, last).1 == Completed(m)
    ensures Carries(last, m.transferId)
    ensures BroughtPieces(stream + [last], LastAbsent(lib, cap, m.transferId, stream), m, pieces)
    ensures MakeMessage(lib, m, pieces)
  {
    var y := CompletedTransfer(lib, cap, Run(lib, cap, Empty(), stream).0, last, m);
    WholeMakesMessage(lib, last.value.transferId, y, m);
    PendingIsBacked(lib, cap, m.transferId, stream);
    OwnPushBacked(lib, cap, stream, last.value);
    BackedPieces(stream + [last], LastAbsent(lib, cap, m.transferId, stream), y, m);
    pieces := PiecesOf(y);
  }

  lemma LastOutcome(lib: Library, cap: nat, stream: seq<Arrival>, before: seq<Arrival>)
    requires cap >= 1 && stream != [] && before == stream[..|stream| - 1]
    ensures Run(lib, cap, Empty(), stream).1
         == Run(lib, cap, Empty(), before).1
            + [PushParsed(lib, cap, Run(lib, cap, Empty(), before).0, stream[|stream| - 1]).1]
  {
  }

  lemma {:induction false} OutcomeOfPrefix(lib: Library, cap: nat, stream: seq<Arrival>, n: nat, before: seq<Arrival>)
    requires cap >= 1 && n < |stream| && before == stream[..n]
    ensures Run(lib, cap, Empty(), stream).1[n] == PushParsed(lib, cap, Run(lib, cap, Empty(), before).0, stream[n]).1
  {
    var shorter := stream[..|stream| - 1];
    LastOutcome(lib, cap, stream, shorter);
    if n < |shorter| {
      assert shorter[..n] == before && shorter[n] == stream[n];
      OutcomeOfPrefix(lib, cap, shorter, n, before);
    }
  }

  /**
   * Integrity over every run. If the n-th push returns a message, then for each index below its count some push of that
   * transfer, since the transfer was last absent and no later than this one, brought a piece with that index under the
   * message's own metadata; and these pieces in the order of their indices have the declared length and digest and
   * decode to the body.
   */
  lemma MessagesAreSound(lib: Library, cap: nat, stream: seq<Arrival>, n: nat, before: seq<Arrival>, m: Message)
    returns (pieces: seq<bytes>)
    requires cap >= 1 && n < |stream| && before == stream[..n]
    requires Run(lib, cap, Empty(), stream).1[n] == Completed(m)
    ensures Carries(stream[n], m.transferId)
    ensures BroughtPieces(before + [stream[n]], LastAbsent(lib, cap, m.transferId, before), m, pieces)
    ensures MakeMessage(lib, m, pieces)
  {
    OutcomeOfPrefix(lib, cap, stream, n, before);
    pieces := CompletionIsSound(lib, cap, before, stream[n], m);
  }
}
