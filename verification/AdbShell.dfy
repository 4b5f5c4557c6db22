/**
 * The persistent `adb shell`: commands go in as lines, outputs come back on one byte stream, each closed by a
 * marker. `AdbSession._run_shell_line` cuts the stream at the first marker in its buffer.
 */
module AdbShell {
  import opened Prelude

  const MARKER_TEXT: bytes := [95, 95, 65, 68, 66, 95, 82, 80, 67, 95, 69, 78, 68, 95, 95]  // __ADB_RPC_END__
  const NEWLINE: byte := 10
  const M: bytes := [NEWLINE] + MARKER_TEXT + [NEWLINE]
  const CAP := 2_000_000
  const READ_SIZE := 4096

  // ---- searching for the marker ----

  predicate OccursAt(buf: bytes, i: nat) {
    i + |M| <= |buf| && buf[i..i + |M|] == M
  }

  function IndexFrom(buf: bytes, i: nat): (r: Option<nat>)
    ensures r.Some? ==> i <= r.value && OccursAt(buf, r.value) && forall j | i <= j < r.value :: !OccursAt(buf, j)
    ensures r.None? ==> forall j | i <= j :: !OccursAt(buf, j)
    decreases |buf| - i
  {
    if i + |M| > |buf| then None
    else if OccursAt(buf, i) then Some(i)
    else IndexFrom(buf, i + 1)
  }

  /** `buf.index(M)`, or `None` when `M not in buf`. */
  function Index(buf: bytes): Option<nat> { IndexFrom(buf, 0) }

  /** An output that the framing carries faithfully: the marker does not occur in it, even with one newline added. */
  predicate Clean(o: bytes) {
    Index(o + [NEWLINE]).None?
  }

  /** The marker overlaps itself in its first and last byte only. */
  lemma MarkerOverlap(k: nat)
    requires k < |M|
    ensures M[k] == NEWLINE <==> k == 0 || k == |M| - 1
  {}

  /** Two texts that agree on a stretch have the marker there together. */
  lemma SameOccurrence(a: bytes, b: bytes, i: nat)
    requires i + |M| <= |a| && i + |M| <= |b|
    requires forall j | i <= j < i + |M| :: a[j] == b[j]
    ensures OccursAt(a, i) <==> OccursAt(b, i)
  {
    assert a[i..i + |M|] == b[i..i + |M|];
  }

  /** An occurrence that starts inside `o` cannot reach beyond the first byte of the marker that follows. */
  lemma NoStraddling(o: bytes, rest: bytes, i: nat)
    requires i < |o| && OccursAt(o + M + rest, i)
    ensures i + |M| <= |o| + 1
  {
    var s, k := o + M + rest, |o| - i;
    if k < |M| {
      assert s[i..i + |M|][k] == s[i + k];
      assert s[i + k] == M[0];
      MarkerOverlap(k);
    }
  }

  /** Where an occurrence in `o + M + rest` can start before the end of `o`: only inside `o` plus one newline. */
  lemma EarlyOccurrence(o: bytes, rest: bytes, i: nat)
    requires i < |o|
    ensures OccursAt(o + M + rest, i) <==> OccursAt(o + [NEWLINE], i)
  {
    var s, t := o + M + rest, o + [NEWLINE];
    if OccursAt(s, i) {
      NoStraddling(o, rest, i);
    }
    if i + |M| <= |t| {
      forall j | i <= j < i + |M| ensures s[j] == t[j] {
        if j == |o| {
          assert s[j] == M[0];
        }
      }
      SameOccurrence(s, t, i);
    }
  }

  /**
   * The first marker after an output is its own, whatever follows, exactly for clean outputs: although the marker
   * overlaps itself by one byte, no later text can create an earlier occurrence.
   */
  lemma FirstMarkerIsOwn(o: bytes, rest: bytes)
    ensures Index(o + M + rest) == Some(|o|) <==> Clean(o)
  {
    var s, t := o + M + rest, o + [NEWLINE];
    assert s[|o|..|o| + |M|] == M;
    assert OccursAt(s, |o|);
    if Clean(o) {
      forall i: nat | i < |o| ensures !OccursAt(s, i) {
        EarlyOccurrence(o, rest, i);
      }
    } else {
      var i := Index(t).value;
      EarlyOccurrence(o, rest, i);
    }
  }

  predicate TextAt(o: bytes, i: nat) {
    i + |MARKER_TEXT| <= |o| && o[i..i + |MARKER_TEXT|] == MARKER_TEXT
  }

  /** In particular every output without the marker text is clean. */
  lemma UncleanHasText(o: bytes)
    requires !Clean(o)
    ensures exists k: nat :: TextAt(o, k)
  {
    var t, n := o + [NEWLINE], |MARKER_TEXT|;
    var i := Index(t).value;
    forall k | 0 <= k < n ensures o[i + 1 + k] == MARKER_TEXT[k] {
      assert t[i..i + |M|][1 + k] == M[1 + k];
    }
    assert o[i + 1..i + 1 + n] == MARKER_TEXT;
    assert TextAt(o, i + 1);
  }

  /** What the buffer shows of a stream that starts with a clean output: nothing, or exactly that output. */
  lemma PrefixShowsOutput(o: bytes, tail: bytes, buf: bytes)
    requires Clean(o) && buf <= o + M + tail
    ensures Index(buf) == if |buf| >= |o| + |M| then Some(|o|) else None
    ensures |buf| >= |o| + |M| ==> buf[..|o|] == o && o + M + buf[|o| + |M|..] == buf
  {
    var s := o + M + tail;
    FirstMarkerIsOwn(o, tail);
    if |buf| >= |o| + |M| {
      var rest := buf[|o| + |M|..];
      assert buf == s[..|buf|];
      assert buf == o + M + rest;
      FirstMarkerIsOwn(o, rest);
    } else {
      forall i: nat ensures !OccursAt(buf, i) {
        if i + |M| <= |buf| {
          SameOccurrence(buf, s, i);
        }
      }
    }
  }

  // ---- one command ----

  /** `await wait_for(proc.stdout.read(4096), timeout)`: data, the end of the stream (no data), or a timeout. */
  datatype Read = Data(chunk: bytes) | TimedOut

  datatype LineError =
    | NotOneLine
    | NotStarted
    | NotRunning
    | CommandTimedOut
    | ClosedUnexpectedly
    | OutputTooLarge
    | NoDevice

  datatype LineResult =
    | Output(before: bytes)      // the bytes that are decoded and returned
    | Raised(error: LineError)
    | Abandoned                  // the caller was cancelled while it awaited the next read

  /** `stopped` when the shell was stopped on the way; `used` counts the reads. */
  datatype Collected = Collected(result: LineResult, buf: bytes, used: nat, stopped: bool)

  /** The read loop of `_run_shell_line`. When `input` is used up, the awaiting task is cancelled. */
  function Collect(buf: bytes, input: seq<Read>): (c: Collected)
    ensures c.used <= |input|
    decreases |input|
  {
    match Index(buf)
    case Some(i) => Collected(Output(buf[..i]), buf[i + |M|..], 0, false)
    case None =>
      if input == [] then Collected(Abandoned, buf, 0, false)
      else
        match input[0]
        case TimedOut => Collected(Raised(CommandTimedOut), [], 1, true)
        case Data(chunk) =>
          if chunk == [] then Collected(Raised(ClosedUnexpectedly), [], 1, true)
          else if |buf + chunk| > CAP then Collected(Raised(OutputTooLarge), [], 1, true)
          else
            var c := Collect(buf + chunk, input[1..]);
            c.(used := c.used + 1)
  }

  function DataOf(input: seq<Read>): bytes {
    if input == [] then []
    else (if input[0].Data? then input[0].chunk else []) + DataOf(input[1..])
  }

  /** Bytes move from the reads to the buffer. */
  lemma DataMoves(buf: bytes, input: seq<Read>, n: nat)
    requires 0 < n <= |input| && input[0].Data?
    ensures buf + DataOf(input[..n]) == buf + input[0].chunk + DataOf(input[1..][..n - 1])
    ensures n == |input| ==> input[..n] == input && input[1..][..n - 1] == input[1..]
  {
    assert input[..n][1..] == input[1..][..n - 1];
  }

  /**
   * Whatever the reads are, as long as their bytes continue the stream: a returned output is the stream's next one,
   * and what is left in the buffer is exactly what was received beyond it.
   */
  lemma {:induction false} CollectFollowsStream(buf: bytes, input: seq<Read>, o: bytes, tail: bytes)
    requires Clean(o) && buf + DataOf(input) <= o + M + tail
    ensures var c := Collect(buf, input);
            && (c.result.Output? ==> c.result.before == o && o + M + c.buf == buf + DataOf(input[..c.used]))
            && (c.result.Abandoned? ==> c.used == |input| && c.buf == buf + DataOf(input))
            && (c.result.Raised? <==> c.stopped) && (c.stopped ==> c.buf == [])
    decreases |input|
  {
    assert buf <= o + M + tail by {
      assert buf <= buf + DataOf(input);
    }
    PrefixShowsOutput(o, tail, buf);
    if Index(buf).Some? {
      assert buf + DataOf([]) == buf;
    } else if input != [] && input[0].Data? {
      var more := buf + input[0].chunk;
      DataMoves(buf, input, |input|);
      CollectFollowsStream(more, input[1..], o, tail);
      DataMoves(buf, input, Collect(more, input[1..]).used + 1);
    }
  }

  // ---- how the loop ends ----

  ghost predicate FirstMarker(text: bytes, i: nat) {
    OccursAt(text, i) && forall j: nat | j < i :: !OccursAt(text, j)
  }

  /**
   * After these reads the loop awaits another one: each brought data, and there is no marker in what the buffer and the
   * reads make together, nor is it over the cap.
   */
  ghost predicate Waiting(buf: bytes, input: seq<Read>) {
    && (forall i | 0 <= i < |input| :: input[i].Data? && input[i].chunk != [])
    && (forall i: nat :: !OccursAt(buf + DataOf(input), i))
    && (input != [] ==> |buf + DataOf(input)| <= CAP)
  }

  /** The loop after `k` reads, its buffer being `text` by then. */
  lemma {:induction false} WaitingReads(buf: bytes, input: seq<Read>, k: nat, text: bytes)
    requires k <= |input| && Waiting(buf, input[..k]) && text == buf + DataOf(input[..k])
    ensures var c := Collect(text, input[k..]); Collect(buf, input) == c.(used := c.used + k)
    decreases k
  {
    if k == 0 {
      assert input[0..] == input && text == buf;
    } else {
      var more := buf + input[0].chunk;
      DataMoves(buf, input, k);
      WaitsEarlier(buf, input[..k]);
      assert input[..k][1..] == input[1..][..k - 1] && input[1..][k - 1..] == input[k..];
      WaitingReads(more, input[1..], k - 1, text);
    }
  }

  /** It was waiting before the first of these reads, and is so between that one and the others. */
  lemma WaitsEarlier(buf: bytes, input: seq<Read>)
    requires input != [] && Waiting(buf, input)
    ensures Index(buf).None? && |buf + input[0].chunk| <= CAP && Waiting(buf + input[0].chunk, input[1..])
  {
    var all := buf + DataOf(input);
    var rest := input[0].chunk + DataOf(input[1..]);
    assert all == buf + input[0].chunk + DataOf(input[1..]);
    forall i: nat ensures !OccursAt(buf, i) {
      if OccursAt(buf, i) {
        SameOccurrence(buf, all, i);
      }
    }
  }

  /**
   * How the loop ends, by the first read after which it does not wait. With no such read the caller is cancelled; a
   * timeout, the end of the stream and a buffer over the cap raise and stop the shell; and the first marker that shows
   * ends it with the output before that marker, and keeps what is behind.
   */
  lemma LoopIsExact(buf: bytes, input: seq<Read>, k: nat, i: nat)
    requires k <= |input| && Waiting(buf, input[..k])
    ensures var c, text := Collect(buf, input), buf + DataOf(input[..k]);
            && (k == |input| ==> c == Collected(Abandoned, text, k, false))
            && (k < |input| && input[k] == TimedOut ==> c == Collected(Raised(CommandTimedOut), [], k + 1, true))
            && (k < |input| && input[k] == Data([]) ==> c == Collected(Raised(ClosedUnexpectedly), [], k + 1, true))
            && (k < |input| && input[k].Data? && input[k].chunk != [] ==>
                  var more := text + input[k].chunk;
                  && (|more| > CAP ==> c == Collected(Raised(OutputTooLarge), [], k + 1, true))
                  && (|more| <= CAP && FirstMarker(more, i) ==>
                        c == Collected(Output(more[..i]), more[i + |M|..], k + 1, false)))
  {
    var text := buf + DataOf(input[..k]);
    WaitingReads(buf, input, k, text);
    if k < |input| {
      assert input[k..][0] == input[k];
    }
  }

  /** And a marker that is there already ends it before any read. */
  lemma LoopNeedsNoRead(buf: bytes, input: seq<Read>, i: nat)
    requires FirstMarker(buf, i)
    ensures Collect(buf, input) == Collected(Output(buf[..i]), buf[i + |M|..], 0, false)
  {
  }

  // ---- every cutting of the stream gives the same outputs ----

  /** Reads that bring data: neither empty, nor larger than what was asked for. */
  predicate AllData(input: seq<Read>) {
    forall i | 0 <= i < |input| :: input[i].Data? && 0 < |input[i].chunk| <= READ_SIZE
  }

  /** The length of the buffer when it first reaches `goal` bytes. */
  function Reached(have: nat, input: seq<Read>, goal: nat): (r: nat)
    requires AllData(input)
    ensures r >= have
    ensures have < goal ==> r < goal + READ_SIZE
    ensures have + |DataOf(input)| >= goal ==> r >= goal
    decreases |input|
  {
    if have >= goal || input == [] then have
    else Reached(have + |input[0].chunk|, input[1..], goal)
  }

  lemma {:induction false} ReachedWithin(have: nat, input: seq<Read>, goal: nat)
    requires AllData(input)
    ensures Reached(have, input, goal) <= have + |DataOf(input)|
    decreases |input|
  {
    if have < goal && input != [] {
      ReachedWithin(have + |input[0].chunk|, input[1..], goal);
    }
  }

  /** How many reads it takes to reach `goal` bytes. */
  function ReadsNeeded(have: nat, input: seq<Read>, goal: nat): (n: nat)
    requires AllData(input)
    ensures n <= |input|
    ensures Reached(have, input, goal) + |DataOf(input[n..])| == have + |DataOf(input)|
    decreases |input|
  {
    if have >= goal || input == [] then
      assert input[0..] == input;
      0
    else
      var n := ReadsNeeded(have + |input[0].chunk|, input[1..], goal);
      assert input[1..][n..] == input[n + 1..];
      n + 1
  }

  /**
   * One command on a stream that carries its output and marker. It returns the output, and leaves the stream right
   * after the marker, exactly when the buffer is within the cap at the read that completes the marker.
   */
  lemma {:induction false} NextOutput(buf: bytes, input: seq<Read>, o: bytes, rest: bytes)
    requires Clean(o) && AllData(input) && buf + DataOf(input) == o + M + rest
    ensures var c := Collect(buf, input);
            if |buf| >= |o| + |M| || Reached(|buf|, input, |o| + |M|) <= CAP
            then c.result == Output(o) && c.buf + DataOf(input[c.used..]) == rest
            else c.result == Raised(OutputTooLarge)
    decreases |input|
  {
    assert buf <= o + M + rest;
    PrefixShowsOutput(o, rest, buf);
    if |buf| >= |o| + |M| {
      var c := Collect(buf, input);
      assert input[0..] == input;
      assert (o + M + c.buf) + DataOf(input) == o + M + (c.buf + DataOf(input));
      assert (o + M + rest)[|o + M|..] == rest;
      assert (o + M + (c.buf + DataOf(input)))[|o + M|..] == c.buf + DataOf(input);
    } else if input == [] {
      assert false;
    } else {
      var more, later := buf + input[0].chunk, input[1..];
      DataMoves(buf, input, |input|);
      assert input[0].chunk != [] && AllData(later);
      assert Reached(|buf|, input, |o| + |M|) == Reached(|more|, later, |o| + |M|);
      NextOutput(more, later, o, rest);
      assert input[Collect(more, later).used + 1..] == later[Collect(more, later).used..];
    }
  }

  /** It then has used no more reads than needed. */
  lemma {:induction false} NextOutputReads(buf: bytes, input: seq<Read>, o: bytes, rest: bytes)
    requires Clean(o) && AllData(input) && buf + DataOf(input) == o + M + rest
    requires |buf| >= |o| + |M| || Reached(|buf|, input, |o| + |M|) <= CAP
    ensures Collect(buf, input).used == ReadsNeeded(|buf|, input, |o| + |M|)
    decreases |input|
  {
    assert buf <= o + M + rest;
    PrefixShowsOutput(o, rest, buf);
    if |buf| < |o| + |M| && input != [] {
      DataMoves(buf, input, |input|);
      NextOutputReads(buf + input[0].chunk, input[1..], o, rest);
    }
  }

  /** One command, in terms of lengths: the buffer then holds what was read beyond the marker. */
  lemma NextOutputLengths(buf: bytes, input: seq<Read>, o: bytes, rest: bytes)
    requires Clean(o) && AllData(input) && buf + DataOf(input) == o + M + rest
    ensures var c, goal := Collect(buf, input), |o| + |M|;
            var reached := Reached(|buf|, input, goal);
            && reached >= goal
            && (c.result == Output(o) <==> |buf| >= goal || reached <= CAP)
            && (c.result == Output(o) ==>
                  && c.used == ReadsNeeded(|buf|, input, goal) && |c.buf| == reached - goal
                  && c.buf + DataOf(input[c.used..]) == rest)
  {
    NextOutput(buf, input, o, rest);
    assert |buf| + |DataOf(input)| == |o| + |M| + |rest|;
    if |buf| >= |o| + |M| || Reached(|buf|, input, |o| + |M|) <= CAP {
      NextOutputReads(buf, input, o, rest);
    }
  }

  /** The stream of a device that answers each line with an output and the marker. */
  function Stream(outs: seq<bytes>): bytes {
    if outs == [] then [] else Stream(outs[..|outs| - 1]) + outs[|outs| - 1] + M
  }

  lemma {:induction false} StreamFront(outs: seq<bytes>)
    requires outs != []
    ensures Stream(outs) == outs[0] + M + Stream(outs[1..])
  {
    var n := |outs| - 1;
    if n == 0 {
      assert outs == [outs[0]];
      assert Stream(outs[..0]) == [] && Stream(outs[1..]) == [];
    } else {
      StreamFront(outs[..n]);
      assert outs[1..][..n - 1] == outs[..n][1..];
      assert Stream(outs[1..]) == Stream(outs[1..][..n - 1]) + outs[n] + M;
      var a, b := outs[0] + M, Stream(outs[..n][1..]);
      assert (a + b) + outs[n] + M == a + (b + outs[n] + M);
    }
  }

  /** Successive commands on one stream: their results, and what is left in the buffer and of the reads. */
  function Commands(buf: bytes, input: seq<Read>, n: nat): (seq<LineResult>, bytes, seq<Read>)
    decreases n
  {
    if n == 0 then ([], buf, input)
    else
      var c := Collect(buf, input);
      var (results, left, later) := Commands(c.buf, input[c.used..], n - 1);
      ([c.result] + results, left, later)
  }

  /** With each read that completes a marker, the buffer is still within the cap; `have` is its length to begin with. */
  predicate StaysUnder(have: nat, input: seq<Read>, outs: seq<bytes>)
    requires AllData(input)
    decreases |outs|
  {
    outs == [] ||
    var goal := |outs[0]| + |M|;
    var reached, n := Reached(have, input, goal), ReadsNeeded(have, input, goal);
    && (have >= goal || goal <= reached <= CAP)
    && StaysUnder(reached - goal, input[n..], outs[1..])
  }

  function AllReturned(outs: seq<bytes>): (r: seq<LineResult>)
    ensures |r| == |outs|
  {
    seq(|outs|, i requires 0 <= i < |outs| => Output(outs[i]))
  }

  /** Successive commands return all the outputs, with nothing left over. */
  predicate ReturnAll(buf: bytes, input: seq<Read>, outs: seq<bytes>) {
    Commands(buf, input, |outs|) == (AllReturned(outs), [], [])
  }

  /** They do exactly if the first returns the first output and the others return the others. */
  lemma ReturnAllSplit(buf: bytes, input: seq<Read>, outs: seq<bytes>, c: Collected)
    requires outs != [] && c == Collect(buf, input)
    ensures ReturnAll(buf, input, outs)
       <==> c.result == Output(outs[0]) && ReturnAll(c.buf, input[c.used..], outs[1..])
  {
    var (results, left, later) := Commands(c.buf, input[c.used..], |outs| - 1);
    assert AllReturned(outs) == [Output(outs[0])] + AllReturned(outs[1..]);
    assert ([c.result] + results)[1..] == results;
    assert AllReturned(outs)[1..] == AllReturned(outs[1..]);
  }

  /** What the lengths of the first command say about the cutting. */
  lemma StaysUnderSplit(have: nat, input: seq<Read>, outs: seq<bytes>, c: Collected)
    requires outs != [] && AllData(input) && c.used <= |input|
    requires var goal := |outs[0]| + |M|;
             var reached := Reached(have, input, goal);
             && reached >= goal
             && (c.result == Output(outs[0]) <==> have >= goal || reached <= CAP)
             && (c.result == Output(outs[0]) ==>
                   c.used == ReadsNeeded(have, input, goal) && |c.buf| == reached - goal)
    ensures StaysUnder(have, input, outs)
       <==> c.result == Output(outs[0]) && StaysUnder(|c.buf|, input[c.used..], outs[1..])
  {
  }

  /**
   * De-framing is independent of fragmentation: however the stream is cut into reads, successive commands return the
   * outputs one by one with nothing left over, exactly if the cutting keeps the buffer within the cap.
   */
  lemma {:induction false} FragmentationIsInvisible(outs: seq<bytes>, buf: bytes, input: seq<Read>)
    requires (forall i | 0 <= i < |outs| :: Clean(outs[i])) && AllData(input) && buf + DataOf(input) == Stream(outs)
    ensures ReturnAll(buf, input, outs) <==> StaysUnder(|buf|, input, outs)
  {
    if outs == [] {
      assert buf == [] && DataOf(input) == [];
    } else {
      var c := FirstCommand(outs, buf, input);
      if c.result == Output(outs[0]) {
        FragmentationIsInvisible(outs[1..], c.buf, input[c.used..]);
      }
    }
  }

  /** Both sides of the equivalence, after the first command. */
  lemma FirstCommand(outs: seq<bytes>, buf: bytes, input: seq<Read>) returns (c: Collected)
    requires outs != [] && Clean(outs[0]) && AllData(input) && buf + DataOf(input) == Stream(outs)
    ensures c.used <= |input|
    ensures c.result == Output(outs[0]) ==> c.buf + DataOf(input[c.used..]) == Stream(outs[1..])
    ensures ReturnAll(buf, input, outs)
       <==> c.result == Output(outs[0]) && ReturnAll(c.buf, input[c.used..], outs[1..])
    ensures StaysUnder(|buf|, input, outs)
       <==> c.result == Output(outs[0]) && StaysUnder(|c.buf|, input[c.used..], outs[1..])
  {
    c := Collect(buf, input);
    StreamFront(outs);
    ReturnAllSplit(buf, input, outs, c);
    NextOutputLengths(buf, input, outs[0], Stream(outs[1..]));
    StaysUnderSplit(|buf|, input, outs, c);
  }

  /** Outputs that leave one read's worth of room under the cap stay under it for every cutting. */
  predicate Roomy(outs: seq<bytes>) {
    forall i | 0 <= i < |outs| :: |outs[i]| + |M| - 1 + READ_SIZE <= CAP
  }

  function StreamLength(outs: seq<bytes>): nat {
    if outs == [] then 0 else |outs[0]| + |M| + StreamLength(outs[1..])
  }

  lemma {:induction false} StreamHasLength(outs: seq<bytes>)
    ensures |Stream(outs)| == StreamLength(outs)
  {
    if outs != [] {
      StreamFront(outs);
      StreamHasLength(outs[1..]);
    }
  }

  lemma {:induction false} RoomyStaysUnder(have: nat, input: seq<Read>, outs: seq<bytes>)
    requires Roomy(outs) && AllData(input) && have + |DataOf(input)| == StreamLength(outs)
    ensures StaysUnder(have, input, outs)
    decreases |outs|
  {
    if outs != [] {
      var goal := |outs[0]| + |M|;
      var reached, n := Reached(have, input, goal), ReadsNeeded(have, input, goal);
      RoomyStaysUnder(reached - goal, input[n..], outs[1..]);
    }
  }

  /** So such outputs are returned for every cutting into reads whatsoever. */
  lemma RoomyOutputsReturn(outs: seq<bytes>, input: seq<Read>)
    requires Roomy(outs) && (forall i | 0 <= i < |outs| :: Clean(outs[i]))
    requires AllData(input) && DataOf(input) == Stream(outs)
    ensures ReturnAll([], input, outs)
  {
    StreamHasLength(outs);
    RoomyStaysUnder(0, input, outs);
    assert [] + DataOf(input) == DataOf(input);
    FragmentationIsInvisible(outs, [], input);
  }

  /** An output that does not fit under the cap with its marker fails however the stream is cut. */
  lemma OversizeAlwaysFails(input: seq<Read>, o: bytes, rest: bytes)
    requires Clean(o) && AllData(input) && DataOf(input) == o + M + rest && |o| + |M| > CAP
    ensures Collect([], input).result == Raised(OutputTooLarge)
  {
    assert [] + DataOf(input) == DataOf(input);
    NextOutput([], input, o, rest);
  }
}
