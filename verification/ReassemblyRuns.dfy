/** Whole streams of pushes: each transfer behaves as if it were alone, and printed batches are read back. */
module ReassemblyRuns {
  import opened Prelude
  import opened Json
  import opened OrderedDicts
  import opened Chunking
  import opened Reassembly

  /** What the parsing stage of `push` makes of one pushed body. */
  type Arrival = a: Result<Chunk, ChunkError> | a.Success? ==> a.value.index < a.value.header.count
    witness Failure(MissingMetadata)

  function Arrivals(lib: Library, bodies: seq<JsonObject>): seq<Arrival> {
    seq(|bodies|, i requires 0 <= i < |bodies| => ParseChunk(lib, bodies[i]))
  }

  predicate Carries(a: Arrival, id: string) {
    a.Success? && a.value.transferId == id
  }

  /** A run of the reassembler: the table at the end and the outcome of every push. */
  ghost function Run(lib: Library, cap: nat, t: Table, stream: seq<Arrival>): (r: (Table, seq<Outcome>))
    requires cap >= 1 && TableOk(cap, t)
    ensures TableOk(cap, r.0) && |r.1| == |stream|
  {
    if stream == [] then (t, [])
    else
      var (t1, outs) := Run(lib, cap, t, stream[..|stream| - 1]);
      var last := stream[|stream| - 1];
      var (t2, out) := PushParsed(lib, cap, t1, last);
      ParsedKeepsTable(lib, cap, t1, last);
      (t2, outs + [out])
  }

  lemma ParsedKeepsTable(lib: Library, cap: nat, t: Table, a: Arrival)
    requires cap >= 1 && TableOk(cap, t)
    ensures TableOk(cap, PushParsed(lib, cap, t, a).0)
  {
    if a.Success? {
      AcceptKeepsTable(lib, cap, t, a.value);
    }
  }

  /** The chunks of one transfer, in order of arrival. */
  ghost function Own(id: string, stream: seq<Arrival>): (r: seq<Chunk>)
    ensures forall i | 0 <= i < |r| :: r[i].index < r[i].header.count && r[i].transferId == id
  {
    if stream == [] then []
    else
      var before := Own(id, stream[..|stream| - 1]);
      if Carries(stream[|stream| - 1], id) then before + [stream[|stream| - 1].value] else before
  }

  /** The outcomes of the pushes of one transfer. */
  ghost function OwnOutcomes(id: string, stream: seq<Arrival>, outs: seq<Outcome>): seq<Outcome>
    requires |outs| == |stream|
  {
    if stream == [] then []
    else
      var before := OwnOutcomes(id, stream[..|stream| - 1], outs[..|stream| - 1]);
      if Carries(stream[|stream| - 1], id) then before + [outs[|stream| - 1]] else before
  }

  /** The one-transfer machine, fed with the chunks of one transfer only. */
  ghost function RunSolo(lib: Library, own: seq<Chunk>): (r: (Option<Transfer>, seq<Outcome>))
    requires forall i | 0 <= i < |own| :: own[i].index < own[i].header.count
    ensures (r.0.Some? ==> Partial(r.0.value)) && |r.1| == |own|
  {
    if own == [] then (None, [])
    else
      var (st, outs) := RunSolo(lib, own[..|own| - 1]);
      var (st', out) := SoloStep(lib, st, own[|own| - 1]);
      (st', outs + [out])
  }

  // ---- refinement to independent machines ----

  /** Since the last push of `id`, a push of another transfer has evicted it. */
  ghost predicate EvictedSince(lib: Library, cap: nat, t: Table, id: string, stream: seq<Arrival>)
    requires cap >= 1 && TableOk(cap, t)
  {
    if stream == [] || Carries(stream[|stream| - 1], id) then false
    else
      var before := stream[..|stream| - 1];
      || EvictedSince(lib, cap, t, id, before)
      || (id in Run(lib, cap, t, before).0.vals && id !in Run(lib, cap, t, stream).0.vals)
  }

  /** No push of `id` finds its transfer evicted. What happens after the last one does not matter. */
  ghost predicate NeverFoundEvicted(lib: Library, cap: nat, t: Table, id: string, stream: seq<Arrival>)
    requires cap >= 1 && TableOk(cap, t)
  {
    forall n | 0 <= n < |stream| && Carries(stream[n], id) :: !EvictedSince(lib, cap, t, id, stream[..n])
  }

  /** The table agrees with the one-transfer machine unless the transfer was evicted, and all outcomes so far agree. */
  ghost predicate Follows(lib: Library, cap: nat, t: Table, id: string, stream: seq<Arrival>)
    requires cap >= 1 && TableOk(cap, t)
  {
    && (!EvictedSince(lib, cap, t, id, stream) ==>
          Run(lib, cap, t, stream).0.Get(id) == RunSolo(lib, Own(id, stream)).0)
    && (EvictedSince(lib, cap, t, id, stream) ==> id !in Run(lib, cap, t, stream).0.vals)
    && OwnOutcomes(id, stream, Run(lib, cap, t, stream).1) == RunSolo(lib, Own(id, stream)).1
  }

  lemma FollowsStep(lib: Library, cap: nat, t: Table, id: string, stream: seq<Arrival>)
    requires cap >= 1 && TableOk(cap, t) && stream != []
    requires Follows(lib, cap, t, id, stream[..|stream| - 1])
    requires Carries(stream[|stream| - 1], id) ==> !EvictedSince(lib, cap, t, id, stream[..|stream| - 1])
    ensures Follows(lib, cap, t, id, stream)
  {
    var before, last := stream[..|stream| - 1], stream[|stream| - 1];
    var (t1, outs) := Run(lib, cap, t, before);
    if last.Success? {
      AcceptEffect(lib, cap, t1, last.value);
    }
    assert Run(lib, cap, t, stream).1[..|stream| - 1] == outs;
    if Carries(last, id) {
      var own := Own(id, stream);
      assert own[..|own| - 1] == Own(id, before);
    }
  }

  /**
   * Refinement to independent machines: over any stream of pushes, valid or malformed, the outcomes of one transfer
   * are those of the one-transfer machine fed only its own chunks, as long as none of them finds it evicted.
   */
  lemma {:induction false} RefinesSolo(lib: Library, cap: nat, t: Table, id: string, stream: seq<Arrival>)
    requires cap >= 1 && TableOk(cap, t) && id !in t.vals
    requires NeverFoundEvicted(lib, cap, t, id, stream)
    ensures Follows(lib, cap, t, id, stream)
  {
    if stream != [] {
      var n := |stream| - 1;
      forall m | 0 <= m < n ensures stream[..n][..m] == stream[..m] {}
      RefinesSolo(lib, cap, t, id, stream[..n]);
      FollowsStep(lib, cap, t, id, stream);
    }
  }

  // ---- how long a transfer survives ----

  /** The other ids touched since the last push of `id`. */
  ghost function OthersSince(id: string, stream: seq<Arrival>): set<string> {
    if stream == [] then {}
    else
      var last := stream[|stream| - 1];
      if Carries(last, id) then {}
      else OthersSince(id, stream[..|stream| - 1]) + if last.Success? then {last.value.transferId} else {}
  }

  /** Fewer than `cap` distinct other ids are touched between consecutive pushes of `id`. */
  ghost predicate WellSpaced(cap: nat, id: string, stream: seq<Arrival>) {
    forall n | 0 <= n < |stream| && Carries(stream[n], id) && Own(id, stream[..n]) != [] ::
      |OthersSince(id, stream[..n])| < cap
  }

  /** A chunk of another transfer leaves a recent enough transfer alone and ages it by at most one id. */
  lemma OtherChunk(lib: Library, cap: nat, t: Table, ch: Chunk, id: string)
    requires cap >= 1 && TableOk(cap, t) && ch.index < ch.header.count && ch.transferId != id
    ensures var t' := Accept(lib, cap, t, ch).0;
            && (id !in t.vals ==> id !in t'.vals)
            && (id in t.vals && |t.Newer(id) + {ch.transferId}| < cap ==>
                  t'.Get(id) == t.Get(id) && t'.Newer(id) <= t.Newer(id) + {ch.transferId})
  {
    var k, x := ch.transferId, Before(t.Get(ch.transferId), ch);
    AcceptEffect(lib, cap, t, ch);
    TouchKeepsValid(t, k, x);
    TouchNewer(t, k, x);
    var room := MakeRoom(cap, t, ch);
    if id in t.vals && |t.Newer(id) + {k}| < cap {
      SubsetSize(t.Touch(k, x).Newer(id), t.Newer(id) + {k});
      EvictKeepsRecent(t.Touch(k, x), cap, id);
      NewerWithout(room.keys, id, k);
    }
  }

  /** A chunk of the transfer itself makes it the newest. */
  lemma OwnChunk(lib: Library, cap: nat, t: Table, ch: Chunk)
    requires cap >= 1 && TableOk(cap, t) && ch.index < ch.header.count
    ensures var t' := Accept(lib, cap, t, ch).0; ch.transferId in t'.vals ==> t'.Newer(ch.transferId) == {}
  {
    var k, x := ch.transferId, Before(t.Get(ch.transferId), ch);
    AcceptEffect(lib, cap, t, ch);
    TouchKeepsValid(t, k, x);
    TouchNewer(t, k, x);
    EvictKeepsRecent(t.Touch(k, x), cap, k);
  }

  /** While few other ids were touched since its last push, only those are newer, and none of them evicted it. */
  ghost predicate Recent(lib: Library, cap: nat, t: Table, id: string, stream: seq<Arrival>)
    requires cap >= 1 && TableOk(cap, t)
  {
    var now, since := Run(lib, cap, t, stream).0, OthersSince(id, stream);
    && (|since| < cap && id in now.vals ==> now.Newer(id) <= since)
    && (|since| < cap ==> !EvictedSince(lib, cap, t, id, stream))
    && (Own(id, stream) == [] ==> id !in now.vals && !EvictedSince(lib, cap, t, id, stream))
  }

  lemma RecentStep(lib: Library, cap: nat, t: Table, id: string, stream: seq<Arrival>)
    requires cap >= 1 && TableOk(cap, t) && stream != [] && Recent(lib, cap, t, id, stream[..|stream| - 1])
    ensures Recent(lib, cap, t, id, stream)
  {
    var before, last := stream[..|stream| - 1], stream[|stream| - 1];
    var now, since := Run(lib, cap, t, before).0, OthersSince(id, before);
    if Carries(last, id) {
      OwnChunk(lib, cap, now, last.value);
    } else if last.Success? {
      var k := last.value.transferId;
      OtherChunk(lib, cap, now, last.value, id);
      SubsetSize(since, since + {k});
      if |since + {k}| < cap && id in now.vals {
        SubsetSize(now.Newer(id) + {k}, since + {k});
      }
    }
  }

  lemma {:induction false} StaysRecent(lib: Library, cap: nat, t: Table, id: string, stream: seq<Arrival>)
    requires cap >= 1 && TableOk(cap, t) && id !in t.vals
    ensures Recent(lib, cap, t, id, stream)
  {
    if stream != [] {
      StaysRecent(lib, cap, t, id, stream[..|stream| - 1]);
      RecentStep(lib, cap, t, id, stream);
    }
  }

  /** A transfer is never found evicted if fewer than `cap` distinct other ids are touched between its pushes. */
  lemma WellSpacedIsNeverEvicted(lib: Library, cap: nat, t: Table, id: string, stream: seq<Arrival>)
    requires cap >= 1 && TableOk(cap, t) && id !in t.vals && WellSpaced(cap, id, stream)
    ensures NeverFoundEvicted(lib, cap, t, id, stream)
  {
    forall n | 0 <= n < |stream| && Carries(stream[n], id) ensures !EvictedSince(lib, cap, t, id, stream[..n]) {
      StaysRecent(lib, cap, t, id, stream[..n]);
    }
  }

  /** When a foreign push evicts a transfer: it is new, the table is full, and the transfer is the oldest in it. */
  lemma EvictionIsExact(lib: Library, cap: nat, t: Table, id: string, a: Arrival)
    requires cap >= 1 && TableOk(cap, t) && id in t.vals && !Carries(a, id)
    ensures id !in PushParsed(lib, cap, t, a).0.vals
       <==> a.Success? && a.value.transferId !in t.vals && |t.keys| == cap && t.keys[0] == id
  {
    if a.Success? {
      AcceptEffect(lib, cap, t, a.value);
    }
  }

  // ---- recency order ----

  /** The position of the last arrival that touched `id`, or -1. */
  ghost function LastTouch(id: string, stream: seq<Arrival>): int {
    if stream == [] then -1
    else if Carries(stream[|stream| - 1], id) then |stream| - 1
    else LastTouch(id, stream[..|stream| - 1])
  }

  ghost predicate OrderedByLastTouch(keys: seq<string>, stream: seq<Arrival>) {
    forall i, j | 0 <= i < j < |keys| :: LastTouch(keys[i], stream) < LastTouch(keys[j], stream)
  }

  lemma {:induction false} WithoutKeepsOrder(keys: seq<string>, k: string, stream: seq<Arrival>)
    requires OrderedByLastTouch(keys, stream)
    ensures OrderedByLastTouch(Without(keys, k), stream)
  {
    if keys != [] {
      var rest := keys[1..];
      assert OrderedByLastTouch(rest, stream);
      WithoutKeepsOrder(rest, k, stream);
      var w := Without(rest, k);
      forall j | 0 <= j < |w| ensures LastTouch(keys[0], stream) < LastTouch(w[j], stream) {
        assert w[j] in rest;
        var m :| 0 <= m < |rest| && rest[m] == w[j];
        assert keys[m + 1] == rest[m];
      }
    }
  }

  lemma {:induction false} LastTouchBelow(id: string, stream: seq<Arrival>)
    ensures -1 <= LastTouch(id, stream) < |stream|
  {
    if stream != [] {
      LastTouchBelow(id, stream[..|stream| - 1]);
    }
  }

  /** The table lists its transfers in the order of their last touch, oldest first, in every reachable state. */
  lemma {:induction false} RunKeepsRecencyOrder(lib: Library, cap: nat, stream: seq<Arrival>)
    requires cap >= 1
    ensures OrderedByLastTouch(Run(lib, cap, Empty(), stream).0.keys, stream)
  {
    if stream != [] {
      var n := |stream| - 1;
      var before, last := stream[..n], stream[n];
      RunKeepsRecencyOrder(lib, cap, before);
      var t := Run(lib, cap, Empty(), before).0;
      if last.Failure? {
        assert forall k :: LastTouch(k, stream) == LastTouch(k, before);
      } else {
        TouchOrder(lib, cap, t, last.value, stream);
      }
    }
  }

  lemma TouchOrder(lib: Library, cap: nat, t: Table, ch: Chunk, stream: seq<Arrival>)
    requires cap >= 1 && TableOk(cap, t) && ch.index < ch.header.count
    requires stream != [] && stream[|stream| - 1] == Success(ch)
    requires OrderedByLastTouch(t.keys, stream[..|stream| - 1])
    ensures OrderedByLastTouch(Accept(lib, cap, t, ch).0.keys, stream)
  {
    MovedToEndIsOrdered(t.keys, ch.transferId, stream);
    var room := MakeRoom(cap, t, ch).keys;
    assert OrderedByLastTouch(room, stream) by {
      var x := Before(t.Get(ch.transferId), ch);
      TouchKeepsValid(t, ch.transferId, x);
      EvictShape(t.Touch(ch.transferId, x), cap);
    }
    WithoutKeepsOrder(room, ch.transferId, stream);
  }

  lemma MovedToEndIsOrdered(keys: seq<string>, id: string, stream: seq<Arrival>)
    requires stream != [] && Carries(stream[|stream| - 1], id)
    requires OrderedByLastTouch(keys, stream[..|stream| - 1])
    ensures OrderedByLastTouch(Without(keys, id) + [id], stream)
  {
    var others, before := Without(keys, id), stream[..|stream| - 1];
    WithoutKeepsOrder(keys, id, before);
    forall i | 0 <= i < |others|
      ensures LastTouch(others[i], stream) == LastTouch(others[i], before) < |stream| - 1
    {
      assert others[i] in others;
      LastTouchBelow(others[i], before);
    }
  }
}
