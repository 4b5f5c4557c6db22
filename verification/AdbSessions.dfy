/**
 * `AdbSession`: the shell process, its receive buffer, and which command gets which output over a whole session.
 * The session's lock makes every command one step; `input` is what its reads will bring.
 */
module AdbSessions {
  import opened Prelude
  import opened AdbShell

  /** The shell process: its number in order of starting, whether it has exited, and the lines written to it. */
  datatype Shell = Shell(id: nat, exited: bool, written: seq<string>)

  datatype SessionState = SessionState(shell: Option<Shell>, buf: bytes, started: nat)

  // ---- the steps ----

  /** `_stop_shell_unlocked` */
  function Stop(s: SessionState): SessionState { s.(shell := None, buf := []) }

  /** `_start_shell_unlocked`; `ready` is whether `adb get-state` reports a device. */
  function Start(s: SessionState, ready: bool): SessionState {
    if !ready then s else SessionState(Some(Shell(s.started, false, [])), [], s.started + 1)
  }

  /** `_ensure_shell_unlocked` */
  function Ensure(s: SessionState, ready: bool): SessionState {
    if s.shell.Some? && !s.shell.value.exited then s else Start(Stop(s), ready)
  }

  predicate OneLine(line: string) { '\n' !in line && '\r' !in line }

  /**
   * `_run_shell_line`, with the number of reads it used. `drained` is false when the command ends at `await drain()`,
   * cancelled there or by an error of the pipe: the line is written, and nothing else has happened.
   */
  function RunLine(s: SessionState, line: string, drained: bool, input: seq<Read>)
    : (r: (SessionState, LineResult, nat))
    ensures r.2 <= |input|
  {
    if !OneLine(line) then (s, Raised(NotOneLine), 0)
    else if s.shell.None? then (s, Raised(NotStarted), 0)
    else if s.shell.value.exited then (s, Raised(NotRunning), 0)
    else if !drained then (Wrote(s, line, s.buf), Abandoned, 0)
    else
      var c := Collect(s.buf, input);
      (if c.stopped then Stop(s) else Wrote(s, line, c.buf), c.result, c.used)
  }

  /** The shell with one more line written to it, and what the buffer is then. */
  function Wrote(s: SessionState, line: string, buf: bytes): SessionState
    requires s.shell.Some?
  {
    s.(shell := Some(s.shell.value.(written := s.shell.value.written + [line])), buf := buf)
  }

  /** A command under the lock: `_ensure_shell_unlocked`, then `_run_shell_line`. */
  function Command(s: SessionState, line: string, ready: bool, drained: bool, input: seq<Read>)
    : (SessionState, LineResult, nat)
  {
    var s1 := Ensure(s, ready);
    if s1.shell.None? then (s1, Raised(NoDevice), 0) else RunLine(s1, line, drained, input)
  }

  class AdbSession {
    var shell: Option<Shell>
    var rxBuf: bytes
    var started: nat

    ghost function View(): SessionState
      reads this
    {
      SessionState(shell, rxBuf, started)
    }

    constructor ()
      ensures View() == SessionState(None, [], 0)
    {
      shell, rxBuf, started := None, [], 0;
    }

    method StopShell()
      modifies `shell, `rxBuf
      ensures View() == Stop(old(View()))
    {
      shell := None;
      rxBuf := [];
    }

    method EnsureShell(ready: bool) returns (ok: bool)
      modifies this
      ensures View() == Ensure(old(View()), ready) && (ok <==> shell.Some?)
    {
      if shell.Some? && !shell.value.exited {
        return true;
      }
      StopShell();
      if !ready {
        return false;
      }
      rxBuf := [];
      shell, started := Some(Shell(started, false, [])), started + 1;
      return true;
    }

    method RunShellLine(line: string, drained: bool, input: seq<Read>) returns (result: LineResult, used: nat)
      modifies `shell, `rxBuf
      ensures (View(), result, used) == RunLine(old(View()), line, drained, input)
    {
      used := 0;
      if !OneLine(line) {
        return Raised(NotOneLine), used;
      }
      if shell.None? {
        return Raised(NotStarted), used;
      }
      if shell.value.exited {
        return Raised(NotRunning), used;
      }
      shell := Some(shell.value.(written := shell.value.written + [line]));
      if !drained {
        return Abandoned, used;
      }
      ghost var own, start := shell, rxBuf;
      while Index(rxBuf).None?
        invariant used <= |input| && shell == own
        invariant var now, whole := Collect(rxBuf, input[used..]), Collect(start, input);
                  whole == now.(used := used + now.used)
        decreases |input| - used
      {
        if used == |input| {
          return Abandoned, used;
        }
        var read := input[used];
        assert input[used..][0] == read && input[used..][1..] == input[used + 1..];
        used := used + 1;
        if read.TimedOut? {
          StopShell();
          return Raised(CommandTimedOut), used;
        }
        if read.chunk == [] {
          StopShell();
          return Raised(ClosedUnexpectedly), used;
        }
        rxBuf := rxBuf + read.chunk;
        if |rxBuf| > CAP {
          StopShell();
          return Raised(OutputTooLarge), used;
        }
      }
      var idx := Index(rxBuf).value;
      result := Output(rxBuf[..idx]);
      rxBuf := rxBuf[idx + |M|..];
    }

    method RunCommand(line: string, ready: bool, drained: bool, input: seq<Read>)
      returns (result: LineResult, used: nat)
      modifies this
      ensures (View(), result, used) == Command(old(View()), line, ready, drained, input)
    {
      var ok := EnsureShell(ready);
      if !ok {
        return Raised(NoDevice), 0;
      }
      result, used := RunShellLine(line, drained, input);
    }
  }

  // ---- what a command comes to ----

  predicate IsRunning(s: SessionState) { s.shell.Some? && !s.shell.value.exited }

  /**
   * A running shell is kept with its buffer. Otherwise the old one is gone, and a new one starts with an empty buffer
   * if the device is ready; the command raises if it is not.
   */
  lemma ShellIsEnsured(s: SessionState, line: string, ready: bool, drained: bool, input: seq<Read>)
    ensures var (s', result, used) := Command(s, line, ready, drained, input);
            var renewed := SessionState(Some(Shell(s.started, false, [])), [], s.started + 1);
            && Stop(s) == SessionState(None, [], s.started)
            && Ensure(s, ready) == (if IsRunning(s) then s else if ready then renewed else Stop(s))
            && (IsRunning(s) ==> (s', result, used) == RunLine(s, line, drained, input))
            && (!IsRunning(s) && ready ==> (s', result, used) == RunLine(renewed, line, drained, input))
            && (!IsRunning(s) && !ready ==>
                  s' == SessionState(None, [], s.started) && result == Raised(NoDevice) && used == 0)
  {
  }

  /**
   * What ends a command before its first read: the three checks, which change nothing, a cancelled drain, and a marker
   * that an earlier command left in the buffer.
   */
  lemma LineIsChecked(s: SessionState, line: string, drained: bool, input: seq<Read>, i: nat)
    ensures var (s', result, used) := RunLine(s, line, drained, input);
            var oneLine := '\n' !in line && '\r' !in line;
            && (!oneLine ==> (s', result, used) == (s, Raised(NotOneLine), 0))
            && (oneLine && s.shell.None? ==> (s', result, used) == (s, Raised(NotStarted), 0))
            && (oneLine && s.shell.Some? && s.shell.value.exited ==> (s', result, used) == (s, Raised(NotRunning), 0))
            && (oneLine && IsRunning(s) && !drained ==>
                  && result == Abandoned && used == 0 && s'.buf == s.buf && s'.started == s.started
                  && s'.shell == Some(Shell(s.shell.value.id, false, s.shell.value.written + [line])))
            && (oneLine && IsRunning(s) && drained && FirstMarker(s.buf, i) ==>
                  && result == Output(s.buf[..i]) && used == 0 && s'.buf == s.buf[i + |M|..] && s'.started == s.started
                  && s'.shell == Some(Shell(s.shell.value.id, false, s.shell.value.written + [line])))
  {
    if FirstMarker(s.buf, i) {
      LoopNeedsNoRead(s.buf, input, i);
    }
  }

  /**
   * How a written command ends, by the first read after which it does not wait for another. A timed-out read, the end
   * of the stream and a buffer over the cap raise, and the shell and its buffer are gone; the first marker returns the
   * output before it and keeps the line, the shell and what is behind the marker.
   */
  lemma CommandIsExact(s: SessionState, line: string, input: seq<Read>, k: nat, i: nat)
    requires '\n' !in line && '\r' !in line && IsRunning(s)
    requires k <= |input| && Waiting(s.buf, input[..k])
    ensures var r, text := RunLine(s, line, true, input), s.buf + DataOf(input[..k]);
            var gone := SessionState(None, [], s.started);
            var wrote := Some(Shell(s.shell.value.id, false, s.shell.value.written + [line]));
            && (k == |input| ==> r == (SessionState(wrote, text, s.started), Abandoned, k))
            && (k < |input| && input[k] == TimedOut ==> r == (gone, Raised(CommandTimedOut), k + 1))
            && (k < |input| && input[k] == Data([]) ==> r == (gone, Raised(ClosedUnexpectedly), k + 1))
            && (k < |input| && input[k].Data? && input[k].chunk != [] ==>
                  var more := text + input[k].chunk;
                  && (|more| > 2_000_000 ==> r == (gone, Raised(OutputTooLarge), k + 1))
                  && (|more| <= 2_000_000 && FirstMarker(more, i) ==>
                        r == (SessionState(wrote, more[i + |M|..], s.started), Output(more[..i]), k + 1)))
  {
    LoopIsExact(s.buf, input, k, i);
  }

  // ---- whole sessions ----

  /** What the device prints for the n-th line written to a shell. */
  type Device = (nat, nat) -> bytes

  ghost predicate Faithful(device: Device) {
    forall id, n :: Clean(device(id, n))
  }

  function Outputs(device: Device, id: nat, n: nat): seq<bytes> {
    seq(n, i requires 0 <= i < n => device(id, i))
  }

  /** A line that was answered with an output, or whose command was cancelled; `own` is the line's number. */
  datatype Entry = Answered(id: nat, own: nat, output: bytes) | Lost(id: nat, own: nat)

  /** `received` is everything the current shell has sent so far, `returned` how many outputs it gave. */
  datatype Run = Run(s: SessionState, received: bytes, returned: nat, log: seq<Entry>)

  datatype Event =
    | Cmd(line: string, ready: bool, drained: bool, input: seq<Read>)
    | ProcessExits
    | Close

  /** How many earlier commands on this shell were cancelled after their line was written. */
  function LostOn(log: seq<Entry>, id: nat): nat {
    if log == [] then 0
    else
      var last := log[|log| - 1];
      LostOn(log[..|log| - 1], id) + (if last.Lost? && last.id == id then 1 else 0)
  }

  /** The run once the command has its shell: a new one has sent nothing yet. */
  function WithShell(r: Run, ready: bool): Run {
    var s1 := Ensure(r.s, ready);
    if s1 == r.s then r else Run(s1, [], 0, r.log)
  }

  /** The command's line, written to the running shell. */
  function LineStep(r: Run, line: string, drained: bool, input: seq<Read>): Run
    requires r.s.shell.Some?
  {
    var (s, result, used) := RunLine(r.s, line, drained, input);
    var id, own, received := r.s.shell.value.id, |r.s.shell.value.written|, r.received + DataOf(input[..used]);
    match result
    case Raised(_) => if s.shell.None? then Run(s, [], 0, r.log) else r
    case Output(out) => Run(s, received, r.returned + 1, r.log + [Answered(id, own, out)])
    case Abandoned => Run(s, received, r.returned, r.log + [Lost(id, own)])
  }

  function Step(r: Run, e: Event): Run {
    match e
    case Cmd(line, ready, drained, input) =>
      var r1 := WithShell(r, ready);
      if r1.s.shell.None? then r1 else LineStep(r1, line, drained, input)
    case ProcessExits =>
      if r.s.shell.None? then r else r.(s := r.s.(shell := Some(r.s.shell.value.(exited := true))))
    case Close => Run(Stop(r.s), [], 0, r.log)
  }

  /** The bytes that a line's command reads continue what the device sends for the lines so far, this one included. */
  predicate Sends(device: Device, r: Run, input: seq<Read>)
    requires r.s.shell.Some?
  {
    var sh := r.s.shell.value;
    r.received + DataOf(input) <= Stream(Outputs(device, sh.id, |sh.written| + 1))
  }

  /** What the device can do: it sends outputs and markers for the lines written to it, and nothing else. */
  predicate Possible(device: Device, r: Run, e: Event) {
    e.Cmd? ==>
      var r1 := WithShell(r, e.ready);
      r1.s.shell.Some? ==> Sends(device, r1, e.input)
  }

  // ---- what every run keeps ----

  /** Each output belongs to the line it was asked for, or to an earlier one: off by the commands lost before it. */
  ghost predicate PairedAt(device: Device, before: seq<Entry>, entry: Entry) {
    entry.Answered? ==>
      var lost := LostOn(before, entry.id);
      lost <= entry.own && entry.output == device(entry.id, entry.own - lost)
  }

  ghost predicate Paired(device: Device, log: seq<Entry>) {
    forall i | 0 <= i < |log| :: PairedAt(device, log[..i], log[i])
  }

  /** The stream so far is the outputs that were returned, and the buffer. */
  ghost predicate StreamOk(device: Device, r: Run) {
    match r.s.shell
    case None => r.s.buf == []
    case Some(sh) =>
      && sh.id < r.s.started
      && r.received == Stream(Outputs(device, sh.id, r.returned)) + r.s.buf
      && r.received <= Stream(Outputs(device, sh.id, |sh.written|))
      && |sh.written| == r.returned + LostOn(r.log, sh.id)
  }

  ghost predicate LogIsOld(r: Run) {
    forall i | 0 <= i < |r.log| :: r.log[i].id < r.s.started
  }

  ghost predicate RunOk(device: Device, r: Run) {
    StreamOk(device, r) && LogIsOld(r) && Paired(device, r.log)
  }

  lemma {:induction false} NothingLostOnNewShell(log: seq<Entry>, id: nat)
    requires forall i | 0 <= i < |log| :: log[i].id != id
    ensures LostOn(log, id) == 0
  {
    if log != [] {
      NothingLostOnNewShell(log[..|log| - 1], id);
    }
  }

  lemma ShellKeepsRun(device: Device, r: Run, ready: bool)
    requires RunOk(device, r)
    ensures RunOk(device, WithShell(r, ready))
  {
    var r1 := WithShell(r, ready);
    if r1.s.shell.Some? && r1 != r {
      NothingLostOnNewShell(r.log, r1.s.shell.value.id);
      assert Outputs(device, r1.s.shell.value.id, 0) == [];
    }
  }

  /** The stream of the first n lines continues that of the first k lines with the output of line k. */
  lemma {:induction false} StreamFrom(device: Device, id: nat, k: nat, n: nat) returns (tail: bytes)
    requires k < n
    ensures Stream(Outputs(device, id, n)) == Stream(Outputs(device, id, k)) + (device(id, k) + M + tail)
    ensures Stream(Outputs(device, id, k + 1)) == Stream(Outputs(device, id, k)) + (device(id, k) + M)
  {
    assert Outputs(device, id, k + 1)[..k] == Outputs(device, id, k);
    var head, o := Stream(Outputs(device, id, k)), device(id, k);
    assert head + o + M == head + (o + M);
    if n == k + 1 {
      tail := [];
      assert o + M + [] == o + M;
    } else {
      var t := StreamFrom(device, id, k, n - 1);
      assert Outputs(device, id, n)[..n - 1] == Outputs(device, id, n - 1);
      tail := t + device(id, n - 1) + M;
      assert head + (o + M + t) + device(id, n - 1) + M == head + (o + M + tail);
    }
  }

  /** `CollectFollowsStream` for a buffer that has come some way down the stream. */
  lemma CutStream(head: bytes, buf: bytes, input: seq<Read>, o: bytes, tail: bytes)
    requires Clean(o) && head + buf + DataOf(input) <= head + (o + M + tail)
    ensures var c := Collect(buf, input);
            var received := head + buf + DataOf(input[..c.used]);
            && (c.result.Output? ==> c.result.before == o && received == head + (o + M) + c.buf)
            && (c.result.Abandoned? ==> received == head + c.buf)
            && (c.result.Raised? <==> c.stopped) && (c.stopped ==> c.buf == [])
            && received <= head + buf + DataOf(input)
  {
    var c := Collect(buf, input);
    var now, all := DataOf(input[..c.used]), DataOf(input);
    ConcatAssociates(head, buf, all);
    PrefixCancel(head, buf + all, o + M + tail);
    CollectFollowsStream(buf, input, o, tail);
    ConcatAssociates(head, buf, now);
    ConcatAssociates(head, o + M, c.buf);
    assert input[..|input|] == input;
    DataPrefix(input, c.used);
    PrefixAfter(head + buf, now, all);
  }

  /** What one command does to the stream: the next output is returned, or everything is kept, or all is forgotten. */
  lemma LineFollowsStream(device: Device, r: Run, input: seq<Read>)
    requires Faithful(device) && StreamOk(device, r) && r.s.shell.Some? && Sends(device, r, input)
    ensures var c := Collect(r.s.buf, input);
            var id := r.s.shell.value.id;
            var received := r.received + DataOf(input[..c.used]);
            && (c.result.Output? ==> c.result.before == device(id, r.returned)
                                     && received == Stream(Outputs(device, id, r.returned + 1)) + c.buf)
            && (c.result.Abandoned? ==> received == Stream(Outputs(device, id, r.returned)) + c.buf)
            && (c.result.Raised? <==> c.stopped) && (c.stopped ==> c.buf == [])
            && received <= Stream(Outputs(device, id, |r.s.shell.value.written| + 1))
  {
    var sh := r.s.shell.value;
    var head := Stream(Outputs(device, sh.id, r.returned));
    var tail := StreamFrom(device, sh.id, r.returned, |sh.written| + 1);
    CutStream(head, r.s.buf, input, device(sh.id, r.returned), tail);
  }

  lemma PrefixAfter(head: bytes, a: bytes, b: bytes)
    requires a <= b
    ensures head + a <= head + b
  {
    assert b == a + b[|a|..];
    ConcatAssociates(head, a, b[|a|..]);
  }

  lemma PrefixCancel(head: bytes, a: bytes, b: bytes)
    requires head + a <= head + b
    ensures a <= b
  {
    assert a == (head + a)[|head|..] && b == (head + b)[|head|..];
  }

  lemma {:induction false} DataPrefix(input: seq<Read>, n: nat)
    requires n <= |input|
    ensures DataOf(input[..n]) <= DataOf(input)
  {
    if n > 0 {
      DataPrefix(input[1..], n - 1);
      assert input[..n][1..] == input[1..][..n - 1];
    }
  }

  /** One more entry, paired with what comes before it, keeps the log. */
  lemma LogGrows(device: Device, log: seq<Entry>, entry: Entry)
    requires Paired(device, log) && PairedAt(device, log, entry)
    ensures Paired(device, log + [entry])
    ensures forall id :: LostOn(log + [entry], id) == LostOn(log, id) + (if entry.Lost? && entry.id == id then 1 else 0)
  {
    var more := log + [entry];
    assert more[..|log|] == log;
    forall i | 0 <= i < |more| ensures PairedAt(device, more[..i], more[i]) {
      if i < |log| {
        assert more[..i] == log[..i] && more[i] == log[i];
      }
    }
  }

  lemma AnswerKeepsRun(device: Device, r: Run, line: string, out: bytes, buf: bytes, received: bytes)
    requires RunOk(device, r) && r.s.shell.Some?
    requires var sh := r.s.shell.value;
             && out == device(sh.id, r.returned)
             && received == Stream(Outputs(device, sh.id, r.returned + 1)) + buf
             && received <= Stream(Outputs(device, sh.id, |sh.written| + 1))
    ensures var sh := r.s.shell.value;
            RunOk(device, Run(Wrote(r.s, line, buf), received, r.returned + 1,
                              r.log + [Answered(sh.id, |sh.written|, out)]))
  {
    LogGrows(device, r.log, Answered(r.s.shell.value.id, |r.s.shell.value.written|, out));
  }

  lemma LossKeepsRun(device: Device, r: Run, line: string, buf: bytes, received: bytes)
    requires RunOk(device, r) && r.s.shell.Some?
    requires var sh := r.s.shell.value;
             && received == Stream(Outputs(device, sh.id, r.returned)) + buf
             && received <= Stream(Outputs(device, sh.id, |sh.written| + 1))
    ensures var sh := r.s.shell.value;
            RunOk(device, Run(Wrote(r.s, line, buf), received, r.returned, r.log + [Lost(sh.id, |sh.written|)]))
  {
    LogGrows(device, r.log, Lost(r.s.shell.value.id, |r.s.shell.value.written|));
  }

  /** A command that ends at the drain has read nothing. */
  lemma UndrainedKeepsRun(device: Device, r: Run, line: string, input: seq<Read>)
    requires RunOk(device, r) && r.s.shell.Some? && !r.s.shell.value.exited && OneLine(line) && Sends(device, r, input)
    ensures RunOk(device, LineStep(r, line, false, input))
  {
    assert r.received <= r.received + DataOf(input);
    assert r.received + DataOf(input[..0]) == r.received;
    LossKeepsRun(device, r, line, r.s.buf, r.received);
  }

  lemma LineKeepsRun(device: Device, r: Run, line: string, drained: bool, input: seq<Read>)
    requires Faithful(device) && RunOk(device, r) && r.s.shell.Some? && Sends(device, r, input)
    ensures RunOk(device, LineStep(r, line, drained, input))
  {
    var sh := r.s.shell.value;
    if OneLine(line) && !sh.exited {
      if !drained {
        UndrainedKeepsRun(device, r, line, input);
      } else {
        LineFollowsStream(device, r, input);
        var c := Collect(r.s.buf, input);
        var received := r.received + DataOf(input[..c.used]);
        match c.result
        case Output(out) => AnswerKeepsRun(device, r, line, out, c.buf, received);
        case Abandoned => LossKeepsRun(device, r, line, c.buf, received);
        case Raised(_) =>
      }
    }
  }

  lemma StepKeepsRun(device: Device, r: Run, e: Event)
    requires Faithful(device) && RunOk(device, r) && Possible(device, r, e)
    ensures RunOk(device, Step(r, e))
  {
    if e.Cmd? {
      ShellKeepsRun(device, r, e.ready);
      var r1 := WithShell(r, e.ready);
      if r1.s.shell.Some? {
        LineKeepsRun(device, r1, e.line, e.drained, e.input);
      }
    }
  }

  /** A run from a new session; steps that the device cannot take are skipped. */
  ghost function SessionRun(device: Device, es: seq<Event>): (r: Run)
    requires Faithful(device)
    ensures RunOk(device, r)
  {
    if es == [] then Run(SessionState(None, [], 0), [], 0, [])
    else
      var r := SessionRun(device, es[..|es| - 1]);
      var e := es[|es| - 1];
      if !Possible(device, r, e) then r
      else
        StepKeepsRun(device, r, e);
        Step(r, e)
  }

  /**
   * Command and output over whole sessions, for any cutting of the stream, any failures and any cancellations. Every
   * answer comes from the shell that the line was written to, and it is the output of the line that lies back by the
   * number of commands cancelled on that shell before. Without cancellations each line gets its own output.
   */
  lemma OutputsArePaired(device: Device, es: seq<Event>, log: seq<Entry>, i: nat)
    requires Faithful(device) && log == SessionRun(device, es).log && i < |log| && log[i].Answered?
    ensures var lost := LostOn(log[..i], log[i].id);
            && lost <= log[i].own && log[i].output == device(log[i].id, log[i].own - lost)
            && (lost == 0 ==> log[i].output == device(log[i].id, log[i].own))
  {
    PairedMeans(device, log, i);
  }

  /**
   * The shift does happen, with every device: a command is cancelled as soon as its line is written, and the next one
   * is answered with the output of the first.
   */
  lemma CancelledCommandShifts(device: Device, first: string, second: string, input: seq<Read>)
    requires Faithful(device) && OneLine(first) && OneLine(second)
    requires AllData(input) && DataOf(input) == device(0, 0) + M && |device(0, 0)| + |M| <= CAP
    ensures SessionRun(device, [Cmd(first, true, false, []), Cmd(second, true, true, input)]).log
         == [Lost(0, 0), Answered(0, 1, device(0, 0))]
  {
    var cancelled, next := Cmd(first, true, false, []), Cmd(second, true, true, input);
    var es := [cancelled, next];
    var r := Run(SessionState(Some(Shell(0, false, [first])), [], 1), [], 0, [Lost(0, 0)]);
    assert es[..1] == [cancelled] && es[..1][..0] == [];
    CancelledFirst(device, first);
    ShiftedNext(device, r, second, input);
  }

  lemma CancelledFirst(device: Device, line: string)
    requires Faithful(device) && OneLine(line)
    ensures SessionRun(device, [Cmd(line, true, false, [])])
         == Run(SessionState(Some(Shell(0, false, [line])), [], 1), [], 0, [Lost(0, 0)])
  {
    var e, start := Cmd(line, true, false, []), Run(SessionState(None, [], 0), [], 0, []);
    var shell := Run(SessionState(Some(Shell(0, false, [])), [], 1), [], 0, []);
    assert SessionRun(device, [e][..0]) == start && WithShell(start, true) == shell;
    assert Sends(device, shell, []);
    assert [] + [line] == [line] && [] + DataOf([]) == [];
    assert LineStep(shell, line, false, [])
        == Run(SessionState(Some(Shell(0, false, [line])), [], 1), [], 0, [Lost(0, 0)]);
  }

  lemma ShiftedNext(device: Device, r: Run, line: string, input: seq<Read>)
    requires Faithful(device) && OneLine(line)
    requires AllData(input) && DataOf(input) == device(0, 0) + M && |device(0, 0)| + |M| <= CAP
    requires r.s.shell.Some? && r.s.shell.value.id == 0 && !r.s.shell.value.exited && |r.s.shell.value.written| == 1
    requires r.s.buf == [] && r.received == [] && r.log == [Lost(0, 0)]
    ensures Possible(device, r, Cmd(line, true, true, input))
    ensures Step(r, Cmd(line, true, true, input)).log == [Lost(0, 0), Answered(0, 1, device(0, 0))]
  {
    var o := device(0, 0);
    assert [] + DataOf(input) == o + M + [];
    NextOutput([], input, o, []);
    ReachedWithin(0, input, |o| + |M|);
    var tail := StreamFrom(device, 0, 0, 2);
    assert Outputs(device, 0, 0) == [];
    assert Stream(Outputs(device, 0, 2)) == o + M + tail;
  }

  lemma PairedMeans(device: Device, log: seq<Entry>, i: nat)
    requires Paired(device, log) && i < |log| && log[i].Answered?
    ensures var lost := LostOn(log[..i], log[i].id);
            && lost <= log[i].own && log[i].output == device(log[i].id, log[i].own - lost)
            && (lost == 0 ==> log[i].output == device(log[i].id, log[i].own))
  {
    assert PairedAt(device, log[..i], log[i]);
  }

  /** An answered command leaves the buffer empty if no command was cancelled on its shell. */
  lemma NothingIsLeftOver(device: Device, r: Run, line: string, drained: bool, input: seq<Read>)
    requires Faithful(device) && RunOk(device, r) && r.s.shell.Some? && Sends(device, r, input)
    requires LostOn(r.log, r.s.shell.value.id) == 0
    requires RunLine(r.s, line, drained, input).1.Output?
    ensures LineStep(r, line, drained, input).s.buf == []
  {
    LineKeepsRun(device, r, line, drained, input);
    assert LineStep(r, line, drained, input).returned == |r.s.shell.value.written| + 1;
  }

  /**
   * After a timeout, the end of the stream or an oversize output nothing of the old shell remains: the next command
   * runs on a shell with a new number, whose buffer starts empty.
   */
  lemma FailureForgetsTheShell(s: SessionState, line: string, drained: bool, input: seq<Read>, ready: bool)
    requires RunLine(s, line, drained, input).1.Raised?
    requires OneLine(line) && s.shell.Some? && !s.shell.value.exited
    ensures var failed := RunLine(s, line, drained, input).0;
            var next := Ensure(failed, ready);
            && failed.shell.None? && failed.buf == [] && next.buf == []
            && (next.shell.Some? <==> ready)
            && (ready ==> next.shell == Some(Shell(s.started, false, [])))
  {
    RaisedStops(s.buf, input);
  }

  lemma {:induction false} RaisedStops(buf: bytes, input: seq<Read>)
    ensures Collect(buf, input).result.Raised? <==> Collect(buf, input).stopped
    decreases |input|
  {
    if input != [] && input[0].Data? {
      RaisedStops(buf + input[0].chunk, input[1..]);
    }
  }
}
