/** The chunk envelope: how `client/chunking.py` prints and parses one, without the reassembler's state. */
module Chunking {
  import opened Prelude
  import opened Text
  import opened Json
  import Base64

  const CHUNK_MARKER := "__rpcproxy_chunk__"
  const CHUNK_DATA_KEY := "data_b64"
  const CHUNK_VERSION := 1
  const CHUNK_CONTENT_TYPE := "application/json"

  /** Why `push`, the encoder or a metadata reader raises. */
  datatype ChunkError =
    | MissingMetadata
    | NotAnInteger(key: string)
    | IntegerRequired(key: string)
    | UnsupportedContentType
    | CountTooSmall
    | IndexOutOfRange
    | DataNotText
    | InvalidBase64
    | InconsistentMetadata
    | ConflictingDuplicate
    | SizeMismatch
    | ChecksumMismatch
    | UnsupportedEncoding
    | BadCompression
    | BadJson
    | NotAnObject
    | ChunkSizeTooSmall

  /** What every chunk of one transfer repeats. */
  datatype Header = Header(requestId: string, count: nat, totalBytes: int, sha256: string, encoding: string)

  datatype Chunk = Chunk(transferId: string, header: Header, index: nat, data: bytes)

  // ---- readers: _chunk_meta, _meta_str, _meta_int, is_chunk_envelope ----

  function ChunkMeta(body: JsonObject): Result<JsonObject, ChunkError> {
    if CHUNK_MARKER in body && body[CHUNK_MARKER].Obj? then Success(body[CHUNK_MARKER].fields)
    else Failure(MissingMetadata)
  }

  function MetaStr(lib: Library, meta: JsonObject, key: string, default: string): string {
    if key !in meta || meta[key].Null? then default
    else if meta[key].Str? then meta[key].s
    else lib.toStr(meta[key])
  }

  function MetaInt(lib: Library, meta: JsonObject, key: string): Result<int, ChunkError> {
    if key !in meta then Failure(IntegerRequired(key))
    else
      match meta[key]
      case Bool(_) => Failure(NotAnInteger(key))
      case Int(i) => Success(i)
      case Str(s) =>
        if Blank(s) then Failure(IntegerRequired(key))
        else (match lib.toInt(s) case Some(i) => Success(i) case None => Failure(NotAnInteger(key)))
      case _ => Failure(IntegerRequired(key))
  }

  /** Fails, as the source raises, on a marker object without a usable `version`. */
  function IsChunkEnvelope(lib: Library, body: JsonObject): Result<bool, ChunkError> {
    match ChunkMeta(body)
    case Failure(_) => Success(false)
    case Success(meta) =>
      match MetaInt(lib, meta, "version")
      case Failure(e) => Failure(e)
      case Success(v) => Success(v == CHUNK_VERSION)
  }

  /** The checks of `push` that do not look at the pending transfers, in the source's order. */
  function ParseChunk(lib: Library, body: JsonObject): (r: Result<Chunk, ChunkError>)
    ensures r.Success? ==> r.value.index < r.value.header.count
  {
    match ChunkMeta(body)
    case Failure(e) => Failure(e)
    case Success(meta) =>
    match (MetaInt(lib, meta, "count"), MetaInt(lib, meta, "index"), MetaInt(lib, meta, "total_bytes"))
    case (Failure(e), _, _) => Failure(e)
    case (_, Failure(e), _) => Failure(e)
    case (_, _, Failure(e)) => Failure(e)
    case (Success(count), Success(index), Success(total)) =>
      if MetaStr(lib, meta, "content_type", CHUNK_CONTENT_TYPE) != CHUNK_CONTENT_TYPE then
        Failure(UnsupportedContentType)
      else if count < 1 then Failure(CountTooSmall)
      else if index < 0 || index >= count then Failure(IndexOutOfRange)
      else
        match DataField(body)
        case Failure(e) => Failure(e)
        case Success(data) =>
          var header := Header(
            MetaStr(lib, meta, "request_id", ""), count, total,
            MetaStr(lib, meta, "sha256", ""), MetaStr(lib, meta, "content_encoding", "identity"));
          Success(Chunk(MetaStr(lib, meta, "transfer_id", ""), header, index, data))
  }

  function DataField(body: JsonObject): Result<bytes, ChunkError> {
    if CHUNK_DATA_KEY !in body then Success([])
    else if !body[CHUNK_DATA_KEY].Str? then Failure(DataNotText)
    else
      match Base64.Decode(body[CHUNK_DATA_KEY].s)
      case Some(data) => Success(data)
      case None => Failure(InvalidBase64)
  }

  // ---- what the readers accept ----

  /** The metadata has this integer: as a JSON integer, or as a text that `int` reads. */
  ghost predicate HasInt(lib: Library, meta: JsonObject, key: string, n: int) {
    && key in meta
    && (meta[key] == Int(n) || (meta[key].Str? && !Blank(meta[key].s) && lib.toInt(meta[key].s) == Some(n)))
  }

  /** The metadata has this text: absent and null stand for the default, and other values for what `str` prints. */
  ghost predicate HasText(lib: Library, meta: JsonObject, key: string, default: string, s: string) {
    if key in meta && meta[key] != Null then meta[key] == Str(s) || (!meta[key].Str? && lib.toStr(meta[key]) == s)
    else s == default
  }

  lemma MetaIsRead(lib: Library, meta: JsonObject, key: string, n: int, default: string, s: string)
    ensures MetaInt(lib, meta, key) == Success(n) <==> HasInt(lib, meta, key, n)
    ensures MetaStr(lib, meta, key, default) == s <==> HasText(lib, meta, key, default, s)
  {
  }

  predicate Marked(body: JsonObject) { "__rpcproxy_chunk__" in body && body["__rpcproxy_chunk__"].Obj? }

  /**
   * A body is taken for a chunk exactly if it has a marker object of version 1. Without such an object it is not one;
   * with another version it is not one either; and without a version that is an integer the test raises.
   */
  lemma VersionDecides(lib: Library, body: JsonObject)
    ensures !Marked(body) ==> IsChunkEnvelope(lib, body) == Success(false)
    ensures Marked(body) ==>
              var meta := body["__rpcproxy_chunk__"].fields;
              && (forall v | HasInt(lib, meta, "version", v) :: IsChunkEnvelope(lib, body) == Success(v == 1))
              && (IsChunkEnvelope(lib, body).Success? ==> exists v :: HasInt(lib, meta, "version", v))
  {
    if Marked(body) {
      var meta := body["__rpcproxy_chunk__"].fields;
      forall v ensures MetaInt(lib, meta, "version") == Success(v) <==> HasInt(lib, meta, "version", v) {
        MetaIsRead(lib, meta, "version", v, "", "");
      }
    }
  }

  /** The field `data_b64` brings these bytes. */
  ghost predicate HasData(body: JsonObject, data: bytes) {
    if "data_b64" in body then body["data_b64"].Str? && Base64.Decode(body["data_b64"].s) == Some(data) else data == []
  }

  /** The body describes this chunk, whatever its version. */
  ghost predicate Describes(lib: Library, body: JsonObject, ch: Chunk) {
    && Marked(body)
    && var meta, h := body["__rpcproxy_chunk__"].fields, ch.header;
       && HasText(lib, meta, "transfer_id", "", ch.transferId) && HasText(lib, meta, "request_id", "", h.requestId)
       && HasInt(lib, meta, "count", h.count) && HasInt(lib, meta, "index", ch.index) && ch.index < h.count
       && HasInt(lib, meta, "total_bytes", h.totalBytes) && HasText(lib, meta, "sha256", "", h.sha256)
       && HasText(lib, meta, "content_encoding", "identity", h.encoding)
       && HasText(lib, meta, "content_type", "application/json", "application/json")
       && HasData(body, ch.data)
  }

  /** A body is parsed to a chunk exactly if it describes that chunk. */
  lemma ParseIsExact(lib: Library, body: JsonObject, ch: Chunk)
    ensures ParseChunk(lib, body) == Success(ch) <==> Describes(lib, body, ch)
  {
    if Marked(body) {
      var meta, h := body["__rpcproxy_chunk__"].fields, ch.header;
      MetaIsRead(lib, meta, "count", h.count, "", "");
      MetaIsRead(lib, meta, "index", ch.index, "", "");
      MetaIsRead(lib, meta, "total_bytes", h.totalBytes, "", "");
      MetaIsRead(lib, meta, "transfer_id", 0, "", ch.transferId);
      MetaIsRead(lib, meta, "request_id", 0, "", h.requestId);
      MetaIsRead(lib, meta, "sha256", 0, "", h.sha256);
      MetaIsRead(lib, meta, "content_encoding", 0, "identity", h.encoding);
      MetaIsRead(lib, meta, "content_type", 0, "application/json", "application/json");
    }
  }

  /** The metadata has no integer under this key, and why: something that is not one, or nothing that could be. */
  ghost predicate LacksInt(lib: Library, meta: JsonObject, key: string, e: ChunkError) {
    if key in meta && (meta[key].Bool? || (meta[key].Str? && !Blank(meta[key].s)))
    then (meta[key].Str? ==> lib.toInt(meta[key].s).None?) && e == NotAnInteger(key)
    else (key in meta ==> !meta[key].Int?) && e == IntegerRequired(key)
  }

  /** The checks after the integers, in order; each says when it is the one that fails. */
  ghost predicate Faulty(lib: Library, body: JsonObject, count: int, index: int, e: ChunkError)
    requires Marked(body)
  {
    var meta := body["__rpcproxy_chunk__"].fields;
    if !HasText(lib, meta, "content_type", "application/json", "application/json") then e == UnsupportedContentType
    else if count < 1 then e == CountTooSmall
    else if index < 0 || index >= count then e == IndexOutOfRange
    else if "data_b64" in body && !body["data_b64"].Str? then e == DataNotText
    else "data_b64" in body && Base64.Decode(body["data_b64"].s).None? && e == InvalidBase64
  }

  /** Why a body is refused, first for want of a marker or of one of the three integers, in this order. */
  lemma MissingPartsFail(lib: Library, body: JsonObject, count: int, index: int, e: ChunkError)
    ensures !Marked(body) ==> ParseChunk(lib, body) == Failure(MissingMetadata)
    ensures Marked(body) ==>
              var meta := body["__rpcproxy_chunk__"].fields;
              && (LacksInt(lib, meta, "count", e) ==> ParseChunk(lib, body) == Failure(e))
              && (HasInt(lib, meta, "count", count) ==>
                    && (LacksInt(lib, meta, "index", e) ==> ParseChunk(lib, body) == Failure(e))
                    && (HasInt(lib, meta, "index", index) && LacksInt(lib, meta, "total_bytes", e) ==>
                          ParseChunk(lib, body) == Failure(e)))
  {
    if Marked(body) {
      var meta := body["__rpcproxy_chunk__"].fields;
      MetaIsRead(lib, meta, "count", count, "", "");
      MetaIsRead(lib, meta, "index", index, "", "");
    }
  }

  /** And then by the first of the other checks that fails. */
  lemma FaultsAreExact(lib: Library, body: JsonObject, count: int, index: int, total: int, e: ChunkError)
    requires Marked(body)
    requires var meta := body["__rpcproxy_chunk__"].fields;
             && HasInt(lib, meta, "count", count) && HasInt(lib, meta, "index", index)
             && HasInt(lib, meta, "total_bytes", total)
    ensures ParseChunk(lib, body) == Failure(e) <==> Faulty(lib, body, count, index, e)
  {
    var meta := body["__rpcproxy_chunk__"].fields;
    MetaIsRead(lib, meta, "count", count, "", "");
    MetaIsRead(lib, meta, "index", index, "", "");
    MetaIsRead(lib, meta, "total_bytes", total, "application/json", "application/json");
    MetaIsRead(lib, meta, "content_type", 0, "application/json", "application/json");
  }

  // ---- printer: encode_chunked_bodies ----

  datatype Batch = Batch(transferId: string, requestId: string, chunkCount: nat, bodies: seq<JsonObject>)

  function PayloadOf(body: Option<JsonObject>): JsonObject {
    match body case None => map[] case Some(o) => o
  }

  /** The bytes that are cut up, and the name of their encoding. */
  function EncodedPayload(lib: Library, body: Option<JsonObject>, compress: bool): (bytes, string) {
    var raw := lib.dumps(PayloadOf(body));
    if compress && raw != [] && |lib.compress(raw)| < |raw| then (lib.compress(raw), "gzip")
    else (raw, "identity")
  }

  /** Compression is used exactly when it makes the payload shorter. */
  lemma CompressionNeverGrows(lib: Library, body: Option<JsonObject>, compress: bool)
    ensures var raw := lib.dumps(PayloadOf(body));
            var (data, encoding) := EncodedPayload(lib, body, compress);
            && |data| <= |raw| && (encoding == "gzip" || encoding == "identity")
            && (encoding == "gzip" <==> compress && |lib.compress(raw)| < |raw|)
            && data == (if encoding == "gzip" then lib.compress(raw) else raw)
  {
  }

  /** `[data[i : i + size] for i in range(start, len(data), size)]` */
  function Slices(data: bytes, size: nat, start: nat): seq<bytes>
    requires size >= 1
    decreases |data| - start
  {
    if start >= |data| then []
    else [data[start..if start + size <= |data| then start + size else |data|]] + Slices(data, size, start + size)
  }

  function Pieces(data: bytes, size: nat): (r: seq<bytes>)
    requires size >= 1
    ensures r != []
  {
    if Slices(data, size, 0) == [] then [[]] else Slices(data, size, 0)
  }

  function ChunkBody(transferId: string, h: Header, index: nat, data: bytes): JsonObject {
    map[
      CHUNK_MARKER := Obj(map[
        "version" := Int(CHUNK_VERSION),
        "transfer_id" := Str(transferId),
        "request_id" := Str(h.requestId),
        "index" := Int(index),
        "count" := Int(h.count),
        "total_bytes" := Int(h.totalBytes),
        "sha256" := Str(h.sha256),
        "content_type" := Str(CHUNK_CONTENT_TYPE),
        "content_encoding" := Str(h.encoding)]),
      CHUNK_DATA_KEY := Str(Base64.Encode(data))]
  }

  function BatchHeader(lib: Library, body: Option<JsonObject>, requestId: string, size: nat, compress: bool): Header
    requires size >= 1
  {
    var (data, encoding) := EncodedPayload(lib, body, compress);
    Header(requestId, |Pieces(data, size)|, |data|, lib.sha256(data), encoding)
  }

  /** The batch that a call with `size >= 1` returns; `transferId` is the given id or, if that is empty, a fresh one. */
  function EncodeBatch(lib: Library, body: Option<JsonObject>, requestId: string, size: nat, compress: bool,
                       transferId: string): Batch
    requires size >= 1
  {
    var pieces := Pieces(EncodedPayload(lib, body, compress).0, size);
    var h := BatchHeader(lib, body, requestId, size, compress);
    Batch(transferId, requestId, |pieces|,
          seq(|pieces|, i requires 0 <= i < |pieces| => ChunkBody(transferId, h, i, pieces[i])))
  }

  /** `encode_chunked_bodies`, whose loop appends one envelope at a time. */
  method EncodeChunkedBodies(lib: Library, body: Option<JsonObject>, requestId: string, chunkSize: int, compress: bool,
                             transferId: Option<string>, freshId: string)
    returns (r: Result<Batch, ChunkError>)
    ensures chunkSize < 1 ==> r == Failure(ChunkSizeTooSmall)
    ensures chunkSize >= 1 ==>
              r == Success(EncodeBatch(lib, body, requestId, chunkSize, compress, ChosenId(transferId, freshId)))
    ensures chunkSize >= 1 ==>
              && r.Success? && r.value.transferId == (if transferId == None || transferId == Some("") then freshId
                                        else transferId.value)
              && r.value.requestId == requestId && r.value.chunkCount == |r.value.bodies| >= 1
  {
    if chunkSize < 1 {
      return Failure(ChunkSizeTooSmall);
    }
    var raw := lib.dumps(PayloadOf(body));
    var encoding, data := "identity", raw;
    if compress && raw != [] {
      var compressed := lib.compress(raw);
      if |compressed| < |raw| {
        data, encoding := compressed, "gzip";
      }
    }
    var transfer := ChosenId(transferId, freshId);
    var chunks := Slices(data, chunkSize, 0);
    if chunks == [] {
      chunks := [[]];
    }
    assert chunks == Pieces(EncodedPayload(lib, body, compress).0, chunkSize);
    var header := Header(requestId, |chunks|, |data|, lib.sha256(data), encoding);
    assert header == BatchHeader(lib, body, requestId, chunkSize, compress);
    var bodies: seq<JsonObject> := [];
    for index := 0 to |chunks|
      invariant |bodies| == index
      invariant forall i | 0 <= i < index :: bodies[i] == ChunkBody(transfer, header, i, chunks[i])
    {
      bodies := bodies + [ChunkBody(transfer, header, index, chunks[index])];
    }
    assert bodies == EncodeBatch(lib, body, requestId, chunkSize, compress, transfer).bodies;
    r := Success(Batch(transfer, requestId, |chunks|, bodies));
  }

  /** `transfer_id or uuid.uuid4().hex` */
  function ChosenId(transferId: Option<string>, freshId: string): string {
    if transferId.Some? && transferId.value != "" then transferId.value else freshId
  }

  // ---- slicing arithmetic ----

  lemma {:induction false} SlicesJoin(data: bytes, size: nat, start: nat)
    requires size >= 1 && start <= |data|
    ensures Flatten(Slices(data, size, start)) == data[start..]
    decreases |data| - start
  {
    if start < |data| {
      var end := if start + size <= |data| then start + size else |data|;
      if start + size <= |data| {
        SlicesJoin(data, size, start + size);
      } else {
        assert Slices(data, size, start + size) == [];
      }
      assert data[start..] == data[start..end] + data[end..];
    }
  }

  lemma {:induction false} SliceSizes(data: bytes, size: nat, start: nat)
    requires size >= 1 && start < |data|
    ensures var s := Slices(data, size, start);
            && s != []
            && (forall i | 0 <= i < |s| - 1 :: |s[i]| == size)
            && 1 <= |s[|s| - 1]| <= size
    decreases |data| - start
  {
    var s := Slices(data, size, start);
    var rest := Slices(data, size, start + size);
    assert s[1..] == rest;
    if start + size < |data| {
      SliceSizes(data, size, start + size);
      assert forall i | 0 < i < |s| :: s[i] == rest[i - 1];
    } else {
      assert |s| == 1;
    }
  }

  lemma {:induction false} SliceCount(data: bytes, size: nat, start: nat)
    requires size >= 1 && start < |data|
    ensures var n := |Slices(data, size, start)|; (n - 1) * size < |data| - start <= n * size
    decreases |data| - start
  {
    var rest := Slices(data, size, start + size);
    assert |Slices(data, size, start)| == 1 + |rest|;
    if start + size < |data| {
      SliceCount(data, size, start + size);
      SliceSizes(data, size, start + size);
      assert (1 + |rest|) * size == |rest| * size + size;
      assert |rest| * size == (|rest| - 1) * size + size;
    } else {
      assert rest == [];
    }
  }

  /**
   * The pieces join to the input; all but the last have the chunk size; and their number is one for empty
   * input and otherwise the ceiling of `n / size`: the one count with `(count - 1) * size < n <= count * size`.
   */
  lemma PiecesPartition(data: bytes, size: nat)
    requires size >= 1
    ensures var p := Pieces(data, size);
            && Flatten(p) == data
            && (forall i | 0 <= i < |p| - 1 :: |p[i]| == size)
            && |p[|p| - 1]| <= size
            && (data == [] ==> |p| == 1)
            && (data != [] ==> (|p| - 1) * size < |data| <= |p| * size)
  {
    SlicesJoin(data, size, 0);
    if data == [] {
      assert Pieces(data, size) == [data];
      assert Flatten([data]) == data + Flatten([]);
    } else {
      SliceSizes(data, size, 0);
      SliceCount(data, size, 0);
      assert data[0..] == data;
    }
  }

  // ---- parsing undoes printing ----

  lemma ParseChunkBody(lib: Library, transferId: string, h: Header, index: nat, data: bytes)
    requires index < h.count
    ensures ParseChunk(lib, ChunkBody(transferId, h, index, data)) == Success(Chunk(transferId, h, index, data))
    ensures IsChunkEnvelope(lib, ChunkBody(transferId, h, index, data)) == Success(true)
    ensures ChunkBody(transferId, h, index, data).Keys == {"__rpcproxy_chunk__", "data_b64"}
  {
    var body := ChunkBody(transferId, h, index, data);
    var meta := body[CHUNK_MARKER].fields;
    assert ChunkMeta(body) == Success(meta);
    Base64.RoundTrip(data);
    assert DataField(body) == Success(data);
    assert meta["count"] == Int(h.count) && meta["index"] == Int(index) && meta["total_bytes"] == Int(h.totalBytes);
    assert meta["version"] == Int(CHUNK_VERSION) && meta["content_type"] == Str(CHUNK_CONTENT_TYPE);
    assert meta["transfer_id"] == Str(transferId) && meta["request_id"] == Str(h.requestId);
    assert meta["sha256"] == Str(h.sha256) && meta["content_encoding"] == Str(h.encoding);
  }

  // ---- transport ids: make_chunk_transport_request_ids ----

  function TransportId(prefix: string, index: nat, count: nat): string {
    prefix + "#chunk:" + Decimal(index + 1) + "/" + Decimal(count)
  }

  /** `request_id.strip() or transfer_id` */
  function TransportPrefix(transferId: string, requestId: string): string {
    if Strip(requestId) == "" then transferId else Strip(requestId)
  }

  function TransportIds(transferId: string, requestId: string, count: int): Result<seq<string>, ChunkError> {
    if count < 1 then Failure(CountTooSmall)
    else
      var prefix := TransportPrefix(transferId, requestId);
      Success(seq(count, i requires 0 <= i < count => TransportId(prefix, i, count)))
  }

  /**
   * The ids of the posts of one message: numbered from one, under the stripped request id if that is not blank, and
   * then whatever the transfer id is; otherwise under the transfer id.
   */
  lemma TransportIdsAreNumbered(transferId: string, requestId: string, count: int)
    ensures count < 1 ==> TransportIds(transferId, requestId, count) == Failure(CountTooSmall)
    ensures count >= 1 ==>
              && TransportIds(transferId, requestId, count).Success?
              && var ids := TransportIds(transferId, requestId, count).value;
                 && |ids| == count
                 && forall i: nat | i < count ::
                      ids[i] == (if Blank(requestId) then transferId else Strip(requestId))
                                + "#chunk:" + Decimal(i + 1) + "/" + Decimal(count)
  {
  }

  /** The id determines its prefix, index and count, even when prefixes themselves contain `#chunk:`. */
  lemma TransportIdInjective(p: string, i: nat, n: nat, q: string, j: nat, m: nat)
    requires TransportId(p, i, n) == TransportId(q, j, m)
    ensures p == q && i == j && n == m
  {
    LastSeparator(p + "#chunk:" + Decimal(i + 1), Decimal(n), q + "#chunk:" + Decimal(j + 1), Decimal(m), '/');
    DecimalInjective(n, m);
    var left, right := p + "#chunk", q + "#chunk";
    assert left + [':'] + Decimal(i + 1) == p + "#chunk:" + Decimal(i + 1);
    assert right + [':'] + Decimal(j + 1) == q + "#chunk:" + Decimal(j + 1);
    LastSeparator(left, Decimal(i + 1), right, Decimal(j + 1), ':');
    DecimalInjective(i + 1, j + 1);
    assert p == left[..|p|] && q == right[..|q|];
  }
}
