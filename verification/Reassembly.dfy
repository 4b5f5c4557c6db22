/** `ChunkReassembler`: a bounded, least-recently-touched cache of transfers that are not yet complete. */
module Reassembly {
  import opened Prelude
  import opened Json
  import opened OrderedDicts
  import opened Chunking

  datatype Transfer = Transfer(header: Header, chunks: map<nat, bytes>)

  type Table = OrderedDict<Transfer>

  datatype Message = Message(transferId: string, requestId: string, body: JsonObject,
                             chunkCount: nat, totalBytes: int, sha256: string, encoding: string)

  datatype Outcome = NeedMore | Completed(msg: Message) | Raised(error: ChunkError)

  // ---- one transfer on its own ----

  /** At least one piece is here, at least one is missing, and every piece has an index of the transfer. */
  ghost predicate Partial(x: Transfer) {
    && (forall i | i in x.chunks :: i < x.header.count)
    && 1 <= |x.chunks| < x.header.count
  }

  ghost predicate Whole(x: Transfer) {
    forall i: nat | i < x.header.count :: i in x.chunks
  }

  function Payload(x: Transfer): bytes
    requires Whole(x)
  {
    Flatten(seq(x.header.count, i requires 0 <= i < x.header.count => x.chunks[i]))
  }

  function DecodePayload(lib: Library, data: bytes, encoding: string): Result<bytes, ChunkError> {
    if encoding == "identity" then Success(data)
    else if encoding == "gzip" then
      (match lib.decompress(data) case Some(plain) => Success(plain) case None => Failure(BadCompression))
    else Failure(UnsupportedEncoding)
  }

  /** What `push` does with a transfer whose last piece has arrived. */
  function Finish(lib: Library, transferId: string, x: Transfer): Outcome
    requires Whole(x)
  {
    var h, data := x.header, Payload(x);
    if |data| != h.totalBytes then Raised(SizeMismatch)
    else if lib.sha256(data) != h.sha256 then Raised(ChecksumMismatch)
    else
      match DecodePayload(lib, data, h.encoding)
      case Failure(e) => Raised(e)
      case Success(plain) =>
        if plain == [] then Completed(MessageOf(transferId, h, map[]))
        else
          match lib.loads(plain)
          case None => Raised(BadJson)
          case Some(Obj(o)) => Completed(MessageOf(transferId, h, o))
          case Some(_) => Raised(NotAnObject)
  }

  function MessageOf(transferId: string, h: Header, body: JsonObject): Message {
    Message(transferId, h.requestId, body, h.count, h.totalBytes, h.sha256, h.encoding)
  }

  function Before(st: Option<Transfer>, ch: Chunk): Transfer {
    if st.Some? then st.value else Transfer(ch.header, map[])
  }

  function WithPiece(x: Transfer, ch: Chunk): Transfer {
    Transfer(x.header, x.chunks[ch.index := ch.data])
  }

  /** Why a chunk is refused by a transfer, if it is. */
  function Refusal(x: Transfer, ch: Chunk): Option<ChunkError> {
    if x.header != ch.header then Some(InconsistentMetadata)
    else if ch.index in x.chunks && x.chunks[ch.index] != ch.data then Some(ConflictingDuplicate)
    else None
  }

  /** Storing a piece leaves a transfer partial or makes it whole; as many pieces as `count` means none is missing. */
  lemma PieceStored(st: Option<Transfer>, ch: Chunk)
    requires ch.index < ch.header.count && (st.Some? ==> Partial(st.value))
    requires Before(st, ch).header == ch.header
    ensures var y := WithPiece(Before(st, ch), ch);
            if |y.chunks| == y.header.count then Whole(y) else Partial(y)
  {
    var x, y := Before(st, ch), WithPiece(Before(st, ch), ch);
    assert y.chunks.Keys == x.chunks.Keys + {ch.index};
    Pigeonhole(y.chunks.Keys, y.header.count);
  }

  /** The simple machine for one transfer id: its state before a piece arrives, and after. */
  function SoloStep(lib: Library, st: Option<Transfer>, ch: Chunk): (r: (Option<Transfer>, Outcome))
    requires ch.index < ch.header.count
    requires st.Some? ==> Partial(st.value)
    ensures r.0.Some? ==> Partial(r.0.value)
  {
    var x := Before(st, ch);
    if Refusal(x, ch).Some? then (Some(x), Raised(Refusal(x, ch).value))
    else
      var y := WithPiece(x, ch);
      PieceStored(st, ch);
      if |y.chunks| != y.header.count then (Some(y), NeedMore) else (None, Finish(lib, ch.transferId, y))
  }

  // ---- the table of pending transfers ----

  ghost predicate TableOk(cap: nat, t: Table) {
    && t.Valid()
    && |t.keys| <= cap
    && forall k | k in t.vals :: Partial(t.vals[k])
  }

  /** Where the pushed transfer finds its place: at the end, after evicting the oldest if it is new. */
  function MakeRoom(cap: nat, t: Table, ch: Chunk): Table {
    var touched := t.Touch(ch.transferId, Before(t.Get(ch.transferId), ch));
    if ch.transferId in t.vals then touched else touched.EvictTo(cap)
  }

  /** The transfer being pushed is never the one evicted. */
  lemma PushedSurvives(cap: nat, t: Table, id: string, x: Transfer)
    requires cap >= 1 && t.Valid() && |t.keys| <= cap
    ensures id in t.Touch(id, x).EvictTo(cap).vals && t.Touch(id, x).EvictTo(cap).vals[id] == x
  {
    TouchKeepsValid(t, id, x);
    TouchNewer(t, id, x);
    EvictKeepsRecent(t.Touch(id, x), cap, id);
  }

  lemma RoomMade(cap: nat, t: Table, ch: Chunk)
    requires cap >= 1 && t.Valid() && |t.keys| <= cap
    ensures var room, id := MakeRoom(cap, t, ch), ch.transferId;
            && room.Valid() && |room.keys| <= cap
            && id in room.vals && room.vals[id] == Before(t.Get(id), ch)
            && (forall k | k in room.vals && k != id :: k in t.vals && room.vals[k] == t.vals[k])
  {
    var id, x := ch.transferId, Before(t.Get(ch.transferId), ch);
    TouchKeepsValid(t, id, x);
    PushedSurvives(cap, t, id, x);
    EvictKeepsValid(t.Touch(id, x), cap);
    EvictShape(t.Touch(id, x), cap);
  }

  /** The effect of one well-formed chunk. */
  function Accept(lib: Library, cap: nat, t: Table, ch: Chunk): (Table, Outcome)
    requires TableOk(cap, t) && ch.index < ch.header.count
  {
    var room := MakeRoom(cap, t, ch);
    var (st, out) := SoloStep(lib, t.Get(ch.transferId), ch);
    (if st.Some? then OrderedDict(room.keys, room.vals[ch.transferId := st.value]) else room.Pop(ch.transferId), out)
  }

  /** `push`: a chunk that does not parse leaves the table alone. */
  function PushStep(lib: Library, cap: nat, t: Table, body: JsonObject): (Table, Outcome)
    requires TableOk(cap, t)
  {
    PushParsed(lib, cap, t, ParseChunk(lib, body))
  }

  function PushParsed(lib: Library, cap: nat, t: Table, parsed: Result<Chunk, ChunkError>): (Table, Outcome)
    requires TableOk(cap, t) && (parsed.Success? ==> parsed.value.index < parsed.value.header.count)
  {
    match parsed
    case Failure(e) => (t, Raised(e))
    case Success(ch) => Accept(lib, cap, t, ch)
  }

  /** The state invariant of the reassembler, kept by every chunk. */
  lemma AcceptKeepsTable(lib: Library, cap: nat, t: Table, ch: Chunk)
    requires cap >= 1 && TableOk(cap, t) && ch.index < ch.header.count
    ensures TableOk(cap, Accept(lib, cap, t, ch).0)
  {
    RoomMade(cap, t, ch);
    PopKeepsValid(MakeRoom(cap, t, ch), ch.transferId);
    var t', st := Accept(lib, cap, t, ch).0, SoloStep(lib, t.Get(ch.transferId), ch).0;
    forall k | k in t'.vals ensures Partial(t'.vals[k]) {
      if k != ch.transferId {
        assert t'.vals[k] == MakeRoom(cap, t, ch).vals[k] == t.vals[k];
      }
    }
  }

  lemma PushKeepsTable(lib: Library, cap: nat, t: Table, body: JsonObject)
    requires cap >= 1 && TableOk(cap, t)
    ensures TableOk(cap, PushStep(lib, cap, t, body).0)
  {
    var parsed := ParseChunk(lib, body);
    if parsed.Success? {
      AcceptKeepsTable(lib, cap, t, parsed.value);
    }
  }

  /**
   * What a chunk does to the table: its own transfer moves as the simple machine says, no other is changed,
   * and one other disappears exactly when it is the oldest of a full table and the chunk's transfer is new.
   */
  lemma AcceptEffect(lib: Library, cap: nat, t: Table, ch: Chunk)
    requires cap >= 1 && TableOk(cap, t) && ch.index < ch.header.count
    ensures var (t', out) := Accept(lib, cap, t, ch);
            && (t'.Get(ch.transferId), out) == SoloStep(lib, t.Get(ch.transferId), ch)
            && (forall k | k in t'.vals && k != ch.transferId :: k in t.vals && t'.vals[k] == t.vals[k])
            && (forall k | k in t.vals && k != ch.transferId ::
                  k !in t'.vals <==> |t.keys| == cap && k == t.keys[0] && ch.transferId !in t.vals)
  {
    RoomMade(cap, t, ch);
    if ch.transferId !in t.vals {
      NewKeyEvicts(t, cap, ch.transferId, Before(None, ch));
    }
  }

  /** A chunk that raises stores nothing: its own transfer is as before, or gone if it was complete but bad. */
  lemma RaisingChunkStoresNothing(lib: Library, cap: nat, t: Table, ch: Chunk)
    requires cap >= 1 && TableOk(cap, t) && ch.index < ch.header.count
    requires Accept(lib, cap, t, ch).1.Raised?
    ensures var (t', out) := Accept(lib, cap, t, ch);
            if Refusal(Before(t.Get(ch.transferId), ch), ch).Some?
            then ch.transferId in t.vals && t'.Get(ch.transferId) == t.Get(ch.transferId)
            else ch.transferId !in t'.vals && Whole(WithPiece(Before(t.Get(ch.transferId), ch), ch))
  {
    AcceptEffect(lib, cap, t, ch);
    var st := t.Get(ch.transferId);
    if Refusal(Before(st, ch), ch).None? {
      PieceStored(st, ch);
    }
  }

  /** A chunk completes or spoils its transfer only as the last missing piece, and the transfer is then gone. */
  lemma OnlyLastPieceCompletes(lib: Library, st: Option<Transfer>, ch: Chunk)
    requires ch.index < ch.header.count && (st.Some? ==> Partial(st.value))
    ensures var had, y := Before(st, ch).chunks, WithPiece(Before(st, ch), ch);
            var (st', out) := SoloStep(lib, st, ch);
            if Refusal(Before(st, ch), ch).Some? then st' == st && out == Raised(Refusal(Before(st, ch), ch).value)
            else if (forall i: nat | i < ch.header.count :: i in had || i == ch.index) then
              ch.index !in had && Whole(y) && st' == None && out == Finish(lib, ch.transferId, y)
            else st' == Some(y) && out == NeedMore
  {
    var x, y := Before(st, ch), WithPiece(Before(st, ch), ch);
    if Refusal(x, ch).None? {
      PieceStored(st, ch);
      Pigeonhole(x.chunks.Keys, x.header.count);
      assert forall i :: i in y.chunks <==> i in x.chunks || i == ch.index;
      if Partial(y) {
        Pigeonhole(y.chunks.Keys, y.header.count);
      }
    }
  }

  /**
   * What a transfer holds is never replaced, and what a chunk adds is its own bytes at its own index. The two refusals
   * happen exactly for other metadata and for other bytes at an index that is already there.
   */
  lemma StoredPiecesStay(lib: Library, st: Option<Transfer>, ch: Chunk)
    requires ch.index < ch.header.count && (st.Some? ==> Partial(st.value))
    ensures var (st', out) := SoloStep(lib, st, ch);
            && (st.Some? && st'.Some? ==>
                  && st'.value.header == st.value.header
                  && forall i | i in st.value.chunks ::
                       i in st'.value.chunks && st'.value.chunks[i] == st.value.chunks[i])
            && (st'.Some? && out == NeedMore ==>
                  && st'.value.header == ch.header
                  && ch.index in st'.value.chunks && st'.value.chunks[ch.index] == ch.data)
            && (out == Raised(InconsistentMetadata) <==> st.Some? && st.value.header != ch.header)
            && (out == Raised(ConflictingDuplicate) <==>
                  && st.Some? && st.value.header == ch.header
                  && ch.index in st.value.chunks && st.value.chunks[ch.index] != ch.data)
  {
    OnlyLastPieceCompletes(lib, st, ch);
  }

  /** The bytes of this encoding stand for these plain bytes. */
  ghost predicate Decodes(lib: Library, data: bytes, encoding: string, plain: bytes) {
    (encoding == "identity" && plain == data) || (encoding == "gzip" && lib.decompress(data) == Some(plain))
  }

  /** The plain bytes stand for this body; no bytes at all stand for an empty one. */
  ghost predicate Prints(lib: Library, plain: bytes, body: JsonObject) {
    if plain == [] then body == map[] else lib.loads(plain) == Some(Obj(body))
  }

  /**
   * A whole transfer becomes a message exactly if its bytes have the declared length and digest and decode to a JSON
   * object; and the first of these that fails is the error.
   */
  lemma FinishIsExact(lib: Library, id: string, x: Transfer, m: Message)
    requires Whole(x)
    ensures var out, h, data := Finish(lib, id, x), x.header, Payload(x);
            var sound := |data| == h.totalBytes && lib.sha256(data) == h.sha256;
            && (out == Completed(m) <==>
                  && sound && (exists plain :: Decodes(lib, data, h.encoding, plain) && Prints(lib, plain, m.body))
                  && m == Message(id, h.requestId, m.body, h.count, h.totalBytes, h.sha256, h.encoding))
            && (out == Raised(SizeMismatch) <==> |data| != h.totalBytes)
            && (out == Raised(ChecksumMismatch) <==> |data| == h.totalBytes && lib.sha256(data) != h.sha256)
            && (out == Raised(UnsupportedEncoding) <==> sound && h.encoding !in {"identity", "gzip"})
            && (out == Raised(BadCompression) <==> sound && h.encoding == "gzip" && lib.decompress(data).None?)
            && (forall plain | sound && Decodes(lib, data, h.encoding, plain) && plain != [] ::
                  && (out == Raised(BadJson) <==> lib.loads(plain).None?)
                  && (out == Raised(NotAnObject) <==> lib.loads(plain).Some? && !lib.loads(plain).value.Obj?))
            && out != NeedMore
  {
    var h, data := x.header, Payload(x);
    var decoded := DecodePayload(lib, data, h.encoding);
    if decoded.Success? {
      assert Decodes(lib, data, h.encoding, decoded.value);
    }
  }

  /** A body that describes no chunk raises and leaves the table alone; any other is the chunk it describes. */
  lemma PushIsExact(lib: Library, cap: nat, t: Table, body: JsonObject)
    requires TableOk(cap, t)
    ensures (forall ch :: !Describes(lib, body, ch)) ==>
              PushStep(lib, cap, t, body).0 == t && PushStep(lib, cap, t, body).1.Raised?
    ensures forall ch | Describes(lib, body, ch) ::
              ch.index < ch.header.count && PushStep(lib, cap, t, body) == Accept(lib, cap, t, ch)
  {
    forall ch ensures ParseChunk(lib, body) == Success(ch) <==> Describes(lib, body, ch) {
      ParseIsExact(lib, body, ch);
    }
  }

  // ---- the mutable objects ----

  class PendingTransfer {
    const transferId: string
    const header: Header
    var chunks: map<nat, bytes>

    constructor (transferId: string, header: Header)
      ensures this.transferId == transferId && this.header == header && chunks == map[]
    {
      this.transferId, this.header, this.chunks := transferId, header, map[];
    }

    function View(): Transfer
      reads this
    {
      Transfer(header, chunks)
    }

    /** The metadata and duplicate checks of `push`, and the entry in `chunks` when they pass. */
    method Keep(ch: Chunk) returns (refusal: Option<ChunkError>)
      modifies this
      ensures refusal == Refusal(old(View()), ch)
      ensures View() == if refusal.Some? then old(View()) else WithPiece(old(View()), ch)
    {
      if header != ch.header {
        return Some(InconsistentMetadata);
      }
      if ch.index in chunks {
        if chunks[ch.index] != ch.data {
          return Some(ConflictingDuplicate);
        }
        assert chunks == chunks[ch.index := ch.data];
      } else {
        chunks := chunks[ch.index := ch.data];
      }
      return None;
    }
  }

  class ChunkReassembler {
    const maxPending: nat
    var order: seq<string>
    var pending: map<string, PendingTransfer>

    ghost function Model(): Table
      reads this, pending.Values
    {
      OrderedDict(order, Views(pending))
    }

    ghost predicate Valid()
      reads this, pending.Values
    {
      && maxPending >= 1
      && (forall k | k in pending :: pending[k].transferId == k)
      && TableOk(maxPending, Model())
    }

    constructor (maxPending: nat)
      requires maxPending >= 1
      ensures Valid() && this.maxPending == maxPending && Model() == Empty() && pending == map[]
    {
      this.maxPending, order, pending := maxPending, [], map[];
    }

    method Clear()
      requires Valid()
      modifies this
      ensures Valid() && Model() == Empty() && pending == map[]
    {
      order, pending := [], map[];
    }

    /** `_evict_if_needed`: the loop drops the oldest entries, and only those. */
    method EvictIfNeeded()
      requires Model().Valid()
      modifies this
      ensures Model() == old(Model()).EvictTo(maxPending)
      ensures forall k | k in pending :: k in old(pending) && pending[k] == old(pending)[k]
    {
      while |order| > maxPending
        invariant Model().Valid()
        invariant Model().EvictTo(maxPending) == old(Model()).EvictTo(maxPending)
        invariant forall k | k in pending :: k in old(pending) && pending[k] == old(pending)[k]
        decreases |order|
      {
        ghost var d := Model();
        DropOldest(d);
        pending := pending - {order[0]};
        order := order[1..];
        assert Views(pending) == d.vals - {d.keys[0]};
      }
    }

    /** `self._pending[transfer_id] = state` for a new id. */
    method Append(state: PendingTransfer)
      requires Model().Valid() && state.transferId !in pending
      modifies this
      ensures pending == old(pending)[state.transferId := state]
      ensures Model().Valid() && Model() == old(Model()).Touch(state.transferId, state.View())
    {
      var id := state.transferId;
      ghost var t := Model();
      pending := pending[id := state];
      order := order + [id];
      WithoutAbsent(t.keys, id);
      assert Views(pending) == t.vals[id := state.View()];
      TouchKeepsValid(t, id, state.View());
    }

    /** The insertion, followed by the eviction. */
    method Insert(state: PendingTransfer)
      requires Valid() && state.transferId !in pending
      modifies this
      ensures forall k | k in pending ::
                if k == state.transferId then pending[k] == state
                else k in old(pending) && pending[k] == old(pending)[k]
      ensures Model() == old(Model()).Touch(state.transferId, state.View()).EvictTo(maxPending)
    {
      Append(state);
      EvictIfNeeded();
    }

    /** The lookup in `push`: the transfer of this chunk, new or moved to the end. */
    method FindOrAdd(ch: Chunk) returns (state: PendingTransfer)
      requires Valid()
      modifies this
      ensures forall k | k in pending :: pending[k].transferId == k
      ensures fresh(pending.Values - old(pending.Values))
      ensures ch.transferId in pending && pending[ch.transferId] == state
      ensures state.View() == Before(old(Model()).Get(ch.transferId), ch)
      ensures Model() == MakeRoom(maxPending, old(Model()), ch)
    {
      if ch.transferId !in pending {
        state := new PendingTransfer(ch.transferId, ch.header);
        Insert(state);
        assert ch.transferId in Model().vals by {
          PushedSurvives(maxPending, old(Model()), ch.transferId, Before(None, ch));
        }
      } else {
        state := pending[ch.transferId];
        MoveToEnd(ch.transferId);
      }
    }

    /** `self._pending.move_to_end(transfer_id)` */
    method MoveToEnd(id: string)
      requires id in pending
      modifies `order
      ensures Model() == old(Model()).Touch(id, pending[id].View())
    {
      order := Without(order, id) + [id];
      assert Views(pending) == Views(pending)[id := pending[id].View()];
    }

    /** The rest of `push`, from the lookup on. */
    method PushChunk(lib: Library, ch: Chunk) returns (out: Outcome)
      requires Valid() && ch.index < ch.header.count
      modifies this, pending.Values
      ensures Valid() && fresh(pending.Values - old(pending.Values))
      ensures (Model(), out) == Accept(lib, maxPending, old(Model()), ch)
    {
      ghost var t := Model();
      AcceptKeepsTable(lib, maxPending, t, ch);
      var state := FindOrAdd(ch);
      ghost var st;
      out, st := Store(lib, ch, state, t.Get(ch.transferId));
    }

    /** The metadata and duplicate checks, seen from the table: only the transfer of this chunk can change. */
    method KeepPiece(ch: Chunk, state: PendingTransfer) returns (refusal: Option<ChunkError>)
      requires forall k | k in pending :: pending[k].transferId == k
      requires ch.transferId in pending && pending[ch.transferId] == state
      modifies state
      ensures refusal == Refusal(old(state.View()), ch)
      ensures state.View() == if refusal.Some? then old(state.View()) else WithPiece(old(state.View()), ch)
      ensures Model() == OrderedDict(order, old(Model()).vals[ch.transferId := state.View()])
    {
      ghost var vals := Model().vals;
      refusal := state.Keep(ch);
      StoredView(pending, vals, ch.transferId);
    }

    /** The last part of `push`: keep the piece and, if it was the last one missing, hand out the message. */
    method Store(lib: Library, ch: Chunk, state: PendingTransfer, ghost known: Option<Transfer>)
      returns (out: Outcome, ghost st: Option<Transfer>)
      requires ch.index < ch.header.count && (known.Some? ==> Partial(known.value))
      requires forall k | k in pending :: pending[k].transferId == k
      requires ch.transferId in pending && pending[ch.transferId] == state && state.View() == Before(known, ch)
      modifies this, state
      ensures (st, out) == SoloStep(lib, known, ch)
      ensures pending == if st.None? then old(pending) - {ch.transferId} else old(pending)
      ensures Model() == if st.Some? then OrderedDict(old(Model()).keys, old(Model()).vals[ch.transferId := st.value])
                         else old(Model()).Pop(ch.transferId)
    {
      ghost var vals := Model().vals;
      var refusal := KeepPiece(ch, state);
      assert vals[ch.transferId := state.View()] - {ch.transferId} == vals - {ch.transferId};
      if refusal.Some? {
        return Raised(refusal.value), Some(state.View());
      }
      PieceStored(known, ch);
      if |state.chunks| != state.header.count {
        return NeedMore, Some(state.View());
      }
      Remove(ch.transferId);
      return Finish(lib, ch.transferId, state.View()), None;
    }

    /** `self._pending.pop(transfer_id, None)` */
    method Remove(id: string)
      modifies this
      ensures Model() == old(Model()).Pop(id)
      ensures pending == old(pending) - {id}
    {
      ghost var vals := Model().vals;
      pending := pending - {id};
      order := Without(order, id);
      assert Views(pending) == vals - {id};
    }

    method Push(lib: Library, body: JsonObject) returns (out: Outcome)
      requires Valid()
      modifies this, pending.Values
      ensures Valid() && fresh(pending.Values - old(pending.Values))
      ensures (Model(), out) == PushStep(lib, maxPending, old(Model()), body)
    {
      var parsed := ParseChunk(lib, body);
      if parsed.Failure? {
        return Raised(parsed.error);
      }
      out := PushChunk(lib, parsed.value);
    }
  }

  ghost function Views(refs: map<string, PendingTransfer>): map<string, Transfer>
    reads refs.Values
  {
    map k | k in refs :: refs[k].View()
  }

  /** Steps that leave the transfers alone leave the table as it was. */
  twostate lemma ModelUnchanged(r: ChunkReassembler)
    requires unchanged(r) && forall p | p in old(r.pending.Values) :: unchanged(p)
    ensures r.Model() == old(r.Model())
  {}

  /** Changing one transfer object changes the view at its own id only, as ids tell the objects apart. */
  lemma StoredView(refs: map<string, PendingTransfer>, before: map<string, Transfer>, id: string)
    requires forall k | k in refs :: refs[k].transferId == k
    requires id in refs && before.Keys == refs.Keys
    requires forall k | k in refs && refs[k] != refs[id] :: refs[k].View() == before[k]
    ensures Views(refs) == before[id := refs[id].View()]
    ensures Views(refs - {id}) == before - {id}
  {}
}
