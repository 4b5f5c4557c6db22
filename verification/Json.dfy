/**
 * JSON values, with a floating-point number as the text it is printed as, and the library functions the client takes as
 * given.
 */
module Json {
  import opened Prelude

  datatype Json =
    | Null
    | Bool(b: bool)
    | Int(i: int)
    | Float(text: string)
    | Str(s: string)
    | List(items: seq<Json>)
    | Obj(fields: JsonObject)

  type JsonObject = map<string, Json>

  /**
   * The library calls: compact `json.dumps` to UTF-8 bytes, UTF-8 decoding with `json.loads`, gzip both ways,
   * the hexadecimal SHA-256 digest, `str(v)` and `int(text)`. A call that raises gives `None`.
   */
  datatype Library = Library(
    dumps: JsonObject -> bytes,
    loads: bytes -> Option<Json>,
    compress: bytes -> bytes,
    decompress: bytes -> Option<bytes>,
    sha256: bytes -> string,
    toStr: Json -> string,
    toInt: string -> Option<int>)
  {
    /**
     * What is assumed of them for one body: its print is not empty (it has the two braces), loading the print gives
     * the body back, and so does gunzip for the gzipped print.
     */
    ghost predicate Restores(body: JsonObject) {
      && dumps(body) != [] && loads(dumps(body)) == Some(Obj(body))
      && decompress(compress(dumps(body))) == Some(dumps(body))
    }
  }

  /** The assumption can be met, for any finite number of bodies at once. */
  lemma RestoringLibraryExists(bodies: seq<JsonObject>) returns (lib: Library)
    ensures forall i | 0 <= i < |bodies| :: lib.Restores(bodies[i])
  {
    lib := Library(
      o => seq(Position(bodies, o) + 1, _ => 0 as byte),
      data => if 1 <= |data| <= |bodies| then Some(Obj(bodies[|data| - 1])) else None,
      data => data, data => Some(data), _ => "", _ => "", _ => None);
    forall i | 0 <= i < |bodies| ensures lib.Restores(bodies[i]) {
      PositionFinds(bodies, bodies[i]);
    }
  }

  ghost function Position(bodies: seq<JsonObject>, o: JsonObject): nat {
    if bodies == [] || bodies[0] == o then 0 else 1 + Position(bodies[1..], o)
  }

  lemma {:induction false} PositionFinds(bodies: seq<JsonObject>, o: JsonObject)
    requires o in bodies
    ensures Position(bodies, o) < |bodies| && bodies[Position(bodies, o)] == o
  {
    if bodies[0] != o {
      PositionFinds(bodies[1..], o);
    }
  }
}
