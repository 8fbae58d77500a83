/** One managed process: its lifecycle, its stdin, and the assembly of its
    output bytes into buffered lines (src/mcp_process_manager/process_handler.py).

    The operating-system process is not modelled. Everything the source learns
    from it arrives as an input: the outcome of the spawn, the exit code a poll
    returns (`None` while the process runs), whether a killed process exited
    within the timeout, whether a stdin write raised. The reader and processor
    threads become a sequential fold over a sequence of events taken from the
    shared queue. */
module ProcessHandlers {
  import opened Text
  import opened RingBuffers

  /** A process id handed out by the operating system. */
  type Pid = p: int | p > 0 witness 1

  /* --------------------------------------------------------------- states */

  /** The lifecycle state of a handler. The source keeps it as a string;
      `StateName` gives that string. */
  datatype State = Initialized | Running | Completed | Errored | Exited(code: int)

  const ExitCodePrefix := "error: Exit code "

  /** The `state` string the source stores and reports. */
  function StateName(s: State): string {
    match s
    case Initialized => "initialized"
    case Running => "running"
    case Completed => "completed"
    case Errored => "error"
    case Exited(code) => ExitCodePrefix + IntToString(code)
  }

  /** An exit-code state has a longer name than every other state. */
  lemma ExitedNameIsLong(s: State)
    ensures s.Exited? ==> |StateName(s)| > |ExitCodePrefix|
  {
    if s.Exited? {
      NegativeFirstChar(s.code);
    }
  }

  /** The reported string identifies the state: different states never
      print the same. */
  lemma StateNameInjective(s: State, t: State)
    requires StateName(s) == StateName(t)
    ensures s == t
  {
    ExitedNameIsLong(s);
    ExitedNameIsLong(t);
    if s.Exited? && t.Exited? {
      var n := StateName(s);
      assert n[|ExitCodePrefix|..] == IntToString(s.code);
      assert n[|ExitCodePrefix|..] == IntToString(t.code);
      IntToStringInjective(s.code, t.code);
    }
  }

  /** The default output budget of a handler: 10 MiB. */
  const DefaultBufferSize: nat := 10 * 1024 * 1024

  /** The state a running process moves to once it has exited with `code`. */
  function ExitState(code: int): (s: State)
    ensures s == Completed <==> code == 0
    ensures s != Running && s != Errored && s != Initialized
  {
    if code == 0 then Completed else Exited(code)
  }

  /** The final state names the exit code: two codes never give the same
      reported state. */
  lemma ExitStateIdentifiesCode(a: int, b: int)
    requires StateName(ExitState(a)) == StateName(ExitState(b))
    ensures a == b
  {
    StateNameInjective(ExitState(a), ExitState(b));
  }

  /** The state after a poll that returned `poll`: only a `"running"` state
      is replaced, and only once an exit code is available. */
  function PolledState(state: State, poll: Option<int>): (r: State)
    ensures poll.None? || state != Running ==> r == state
    ensures poll.Some? && state == Running ==> r != Running && (r == Completed <==> poll.value == 0)
  {
    if state == Running && poll.Some? then ExitState(poll.value) else state
  }

  /** Once a poll has seen the exit, later polls change nothing. */
  lemma PolledStateIsFinal(state: State, first: int, later: Option<int>)
    ensures var s := PolledState(state, Some(first));
      PolledState(s, later) == s
  {
  }

  /* ---------------------------------------------------------------- start */

  /** What `subprocess.Popen` did: started a process, or raised one of the
      exceptions `start` tells apart (each carrying the exception's text). */
  datatype Spawn =
    | Spawned(pid: Pid)
    | NotFound(detail: string)
    | BadFormat(detail: string)
    | Denied(detail: string)
    | SubprocessFailure(detail: string)
    | OtherFailure(detail: string)

  /** The error recorded for a failed spawn. Unclassified exceptions are
      recorded as their bare text. */
  function SpawnError(s: Spawn): (msg: string)
    requires !s.Spawned?
  {
    if s.NotFound? then "Command not found: " + s.detail
    else if s.BadFormat? then "Invalid command format: " + s.detail
    else if s.Denied? then "Permission denied: " + s.detail
    else if s.SubprocessFailure? then "Subprocess error: " + s.detail
    else s.detail
  }

  const AlreadyStarted := "failed: Process already started"
  const EmptyCommand := "failed: Command list cannot be empty"

  /** The `(status, pid)` pair `start` returns: a pid comes back exactly when
      a process was spawned now, and then the status is `"success"`; every
      other outcome is a `"failed: "` message. */
  function StartOutcome(started: bool, command: seq<string>, spawn: Spawn): (r: (string, Option<Pid>))
    ensures r.1.Some? <==> !started && command != [] && spawn.Spawned?
    ensures r.1.Some? ==> r == ("success", Some(spawn.pid))
    ensures r.1.None? ==> StartsWith(r.0, "failed: ")
    ensures started ==> r == (AlreadyStarted, None)
    ensures !started && command == [] ==> r == (EmptyCommand, None)
    ensures !started && command != [] && !spawn.Spawned? ==> r == ("failed: " + SpawnError(spawn), None)
  {
    if started then (AlreadyStarted, None)
    else if command == [] then (EmptyCommand, None)
    else if spawn.Spawned? then ("success", Some(spawn.pid))
    else ("failed: " + SpawnError(spawn), None)
  }

  /* ----------------------------------------------------------------- kill */

  const NoProcessToKill := "failed: No process to kill"
  const NotKillable := "failed: Process not running"
  const KillTimedOut := "failed: Process did not terminate within timeout"

  /** The result of `kill`: success exactly when there is a process, its state
      is `"running"` or `"error"` (so an exit-code state is not killable) and
      its exit was observed within the timeout. */
  function KillResult(started: bool, state: State, exitedInTime: bool): (r: string)
    ensures r == "success" <==> started && (state == Running || state == Errored) && exitedInTime
    ensures r != "success" ==> StartsWith(r, "failed: ")
    ensures !started ==> r == NoProcessToKill
    ensures started && state != Running && state != Errored ==> r == NotKillable
    ensures started && (state == Running || state == Errored) && !exitedInTime ==> r == KillTimedOut
  {
    if !started then NoProcessToKill
    else if state != Running && state != Errored then NotKillable
    else if !exitedInTime then
      assert KillTimedOut == "failed: " + KillTimedOut[8..];
      KillTimedOut
    else "success"
  }

  /** A result counts as a failure for the manager's `"failed" in result`
      test exactly when it is not `"success"`. */
  lemma KillFailedIff(started: bool, state: State, exitedInTime: bool)
    ensures var r := KillResult(started, state, exitedInTime);
      Contains(r, "failed") <==> r != "success"
  {
    var r := KillResult(started, state, exitedInTime);
    if r == "success" {
      NoFirstCharNoMatch("success", "failed");
    } else {
      assert StartsWith(r, "failed");
    }
  }

  /* ----------------------------------------------------------- stdin writes */

  const NoProcessRunning := "failed: No process running"
  const NotRunning := "failed: Process not in running state"
  const ClosedStdin := "failed: I/O operation on closed file"

  /** The result of `send_line`/`send_chars`. The guards are checked in this
      order; a write on a closed stdin raises, and any exception the write
      raises is reported with its text. */
  function SendResult(started: bool, state: State, stdinOpen: bool, writeError: Option<string>): (r: string)
    ensures r == "success" <==> started && state == Running && stdinOpen && writeError.None?
    ensures r != "success" ==> StartsWith(r, "failed: ")
    ensures !started ==> r == NoProcessRunning
    ensures started && state != Running ==> r == NotRunning
  {
    if !started then NoProcessRunning
    else if state != Running then NotRunning
    else if !stdinOpen then ClosedStdin
    else if writeError.Some? then "failed: " + writeError.value
    else "success"
  }

  /** What `send_line` writes: the text, newline-terminated. */
  function LineToSend(text: string): (r: string)
    ensures EndsWith(r, "\n")
    ensures StartsWith(r, text) && |r| <= |text| + 1
    ensures EndsWith(text, "\n") <==> r == text
  {
    if EndsWith(text, "\n") then text else text + "\n"
  }

  /** Sending a line that is already terminated writes it unchanged. */
  lemma LineToSendIdempotent(text: string)
    ensures LineToSend(LineToSend(text)) == LineToSend(text)
  {
  }

  /* ------------------------------------------------------------- reading */

  /** What `get_status` reports. */
  datatype Status = Status(command: seq<string>, state: string, lastFiveLines: string)

  /** The `last_five_lines` summary: the concatenation of the newest five
      buffered lines, cut to its last 300 characters. */
  function Summary(lines: seq<string>): string {
    Last(Concat(Last(lines, 5)), 300)
  }

  /** The summary is the last (at most) 300 characters of the newest (at
      most) five lines, in order. */
  lemma SummaryIsTailOfRecentOutput(lines: seq<string>)
    ensures var recent := if |lines| <= 5 then lines else lines[|lines| - 5..];
      var all := Concat(recent);
      var r := Summary(lines);
      |r| == Min(300, |all|) && r == all[|all| - |r|..]
  {
  }

  /** Python's `"".join` distributes over list concatenation. */
  lemma {:induction false} ConcatAppend(a: seq<string>, b: seq<string>)
    ensures Concat(a + b) == Concat(a) + Concat(b)
    decreases |a|
  {
    if a == [] {
      assert a + b == b;
    } else {
      assert (a + b)[0] == a[0] && (a + b)[1..] == a[1..] + b;
      ConcatAppend(a[1..], b);
    }
  }

  /** With at most five short lines buffered, the summary is all of them. */
  lemma SummaryOfShortOutput(lines: seq<string>)
    requires |lines| <= 5 && |Concat(lines)| <= 300
    ensures Summary(lines) == Concat(lines)
  {
  }

  /** The summary always ends with the newest line, or with its last 300
      characters when it is longer. */
  lemma SummaryEndsWithNewestLine(lines: seq<string>)
    requires lines != []
    ensures var newest := lines[|lines| - 1];
      EndsWith(Summary(lines), Last(newest, 300))
  {
    var recent := Last(lines, 5);
    var newest := lines[|lines| - 1];
    var init := recent[..|recent| - 1];
    assert recent == init + [newest];
    ConcatAppend(init, [newest]);
    assert Concat([newest]) == newest + Concat([]);
    var all := Concat(recent);
    assert all == Concat(init) + newest;
    assert EndsWith(all, newest) by {
      assert all[|all| - |newest|..] == newest;
    }
    EndsWithTransitive(all, newest, Last(newest, 300));
    EndsWithLast(all, Last(newest, 300), 300);
  }

  const SearchTypes := ["string", "regex", "wildcard"]

  /** The message for a search type other than the three known ones. */
  function InvalidSearchType(searchType: string): string {
    ErrorLine("Invalid search type: " + searchType + ". Must be 'string', 'regex', or 'wildcard'")
  }

  /** `search_output`: dispatch to the buffer's search of that type. */
  function SearchLines(lines: seq<string>, searchType: string, pattern: Option<string>, maxLines: int, re: RegexEngine): (r: seq<string>)
    ensures searchType == "string" ==> r == SearchString(lines, pattern, maxLines)
    ensures searchType == "regex" ==> r == SearchRegex(lines, pattern, maxLines, re)
    ensures searchType == "wildcard" ==> r == SearchWildcard(lines, pattern, maxLines)
    ensures searchType !in SearchTypes ==> r == [InvalidSearchType(searchType)]
  {
    if searchType == "string" then SearchString(lines, pattern, maxLines)
    else if searchType == "regex" then SearchRegex(lines, pattern, maxLines, re)
    else if searchType == "wildcard" then SearchWildcard(lines, pattern, maxLines)
    else [InvalidSearchType(searchType)]
  }

  /** A search either reports one `ERROR:` line, or returns buffered lines in
      buffer order, at most `maxLines` of them when `maxLines` is positive. */
  lemma SearchIsErrorOrMatches(lines: seq<string>, searchType: string, pattern: Option<string>, maxLines: int, re: RegexEngine)
    ensures var r := SearchLines(lines, searchType, pattern, maxLines, re);
      (|r| == 1 && StartsWith(r[0], "ERROR:"))
      || (IsSubseq(r, lines) && (maxLines > 0 ==> |r| <= maxLines))
  {
    var r := SearchLines(lines, searchType, pattern, maxLines, re);
    if searchType !in SearchTypes {
      ErrorLineIsMarked("Invalid search type: " + searchType + ". Must be 'string', 'regex', or 'wildcard'");
    } else if pattern.None? {
      if searchType == "string" {
        ErrorLineIsMarked("Search string cannot be None");
      } else if searchType == "regex" {
        ErrorLineIsMarked("Error during regex search: 'NoneType' object has no attribute 'search'");
      } else {
        ErrorLineIsMarked("Empty wildcard pattern provided");
      }
    } else if searchType == "regex" && re.compileError(pattern.value).Some? {
      ErrorLineIsMarked("Invalid regex pattern: " + re.compileError(pattern.value).value);
    } else if searchType == "wildcard" && pattern.value == "" {
      ErrorLineIsMarked("Empty wildcard pattern provided");
    }
  }

  /* ------------------------------------------------------- line assembly */

  /** Which pipe a byte came from. */
  datatype Stream = Stdout | Stderr

  /** One item the processor takes from the queue, or one timed-out wait on
      it (`Idle`). An idle wait also carries what it observed: the exit code
      `poll()` returned, and whether the queue was empty at that moment. */
  datatype Event =
    | Data(source: Stream, b: byte)
    | ReaderError(msg: string)
    | Idle(poll: Option<int>, drained: bool)

  /** The processor's state: the partial line, the handler's state and error,
      and whether the processor has stopped. */
  datatype Asm = Asm(line: seq<byte>, state: State, error: Option<string>, done: bool)

  predicate NoNewline(s: seq<byte>) {
    NEWLINE !in s
  }

  /** A committed line is non-empty, with a newline at most as its last byte. */
  predicate IsCommit(c: seq<byte>) {
    c != [] && NoNewline(c[..|c| - 1])
  }

  /** Every line in `cs` is a committed line. */
  predicate AllCommits(cs: seq<seq<byte>>) {
    forall i :: 0 <= i < |cs| ==> IsCommit(cs[i])
  }

  /** One iteration of the processor loop: the new state and the lines (raw
      bytes) it hands to the buffer. A byte extends the shared partial line
      and a newline commits it; a reader error is recorded and the loop goes
      on; an idle wait commits any partial line, applies the exit code to a
      running state, and stops the loop when the process has exited and the
      queue was empty. */
  function Step(a: Asm, e: Event): (r: (Asm, seq<seq<byte>>))
  {
    if a.done then (a, [])
    else match e
      case Data(_, b) =>
        if b == NEWLINE then (a.(line := []), [a.line + [b]])
        else (a.(line := a.line + [b]), [])
      case ReaderError(msg) => (a.(state := Errored, error := Some(msg)), [])
      case Idle(poll, drained) =>
        (Asm([], PolledState(a.state, poll), a.error, poll.Some? && drained),
         if a.line == [] then [] else [a.line])
  }

  /** What one iteration does besides extending the line: a stopped
      processor changes nothing, the loop stops exactly on an idle wait that
      saw an exit code and an empty queue, a reader error only records
      itself, and an idle wait commits the whole partial line (if any) and
      applies the exit code to a running state. */
  lemma StepSpec(a: Asm, e: Event)
    ensures var r := Step(a, e);
      && (a.done ==> r == (a, []))
      && (r.0.done <==> a.done || (e.Idle? && e.poll.Some? && e.drained))
      && (!a.done && e.ReaderError? ==> r == (a.(state := Errored, error := Some(e.msg)), []))
      && (!a.done && e.Idle? ==> r.0.line == [] && r.0.state == PolledState(a.state, e.poll) && r.0.error == a.error)
      && (!a.done && e.Idle? ==> r.1 == if a.line == [] then [] else [a.line])
      && (!a.done && e.Data? && e.b != NEWLINE ==> r == (a.(line := a.line + [e.b]), []))
      && (!a.done && e.Data? && e.b == NEWLINE ==> r == (a.(line := []), [a.line + [e.b]]))
  {
  }

  /** Both pipes feed the same partial line: the source of a byte is ignored. */
  lemma StreamsShareOneLine(a: Asm, b: byte)
    ensures Step(a, Data(Stdout, b)) == Step(a, Data(Stderr, b))
  {
  }

  /** The processor run over a sequence of events: its final state and every
      line it committed, in order. */
  function Run(a: Asm, es: seq<Event>): (r: (Asm, seq<seq<byte>>))
    ensures a.done ==> r == (a, [])
  {
    if es == [] then (a, [])
    else
      var p := Run(a, es[..|es| - 1]);
      var s := Step(p.0, es[|es| - 1]);
      assert a.done ==> p.1 + s.1 == [];
      (s.0, p.1 + s.1)
  }

  /** Running over one more event is one more step. */
  lemma RunSnoc(a: Asm, es: seq<Event>, i: nat)
    requires i < |es|
    ensures var p := Run(a, es[..i]);
      var s := Step(p.0, es[i]);
      Run(a, es[..i + 1]) == (s.0, p.1 + s.1)
  {
    assert es[..i + 1][..i] == es[..i];
  }

  /** Once the processor has stopped, further events change nothing. */
  lemma {:induction false} RunStopsForGood(a: Asm, es: seq<Event>, n: nat)
    requires n <= |es| && Run(a, es[..n]).0.done
    ensures Run(a, es) == Run(a, es[..n])
    decreases |es|
  {
    if n < |es| {
      var init := es[..|es| - 1];
      assert init[..n] == es[..n];
      RunStopsForGood(a, init, n);
      var p := Run(a, init);
      assert Step(p.0, es[|es| - 1]) == (p.0, []);
      assert p.1 + [] == p.1;
    } else {
      assert es[..n] == es;
    }
  }

  /** A processor never puts a started handler back to `"initialized"`. */
  lemma {:induction false} RunKeepsStarted(a: Asm, es: seq<Event>)
    requires a.state != Initialized
    ensures Run(a, es).0.state != Initialized
    decreases |es|
  {
    if es != [] {
      RunKeepsStarted(a, es[..|es| - 1]);
    }
  }

  /** The data bytes of a sequence of events. */
  function DataBytes(es: seq<Event>): (r: seq<byte>)
    ensures forall i :: 0 <= i < |es| && es[i].Data? ==> es[i].b in r
    ensures forall x :: x in r ==> exists i :: 0 <= i < |es| && es[i].Data? && es[i].b == x
  {
    if es == [] then []
    else DataBytes(es[..|es| - 1]) + (if es[|es| - 1].Data? then [es[|es| - 1].b] else [])
  }

  /** The data bytes the processor actually took in (those that arrived
      before it stopped). */
  function ConsumedBytes(a: Asm, es: seq<Event>): seq<byte> {
    if es == [] then []
    else
      var e := es[|es| - 1];
      ConsumedBytes(a, es[..|es| - 1]) + TakenIn(Run(a, es[..|es| - 1]).0, e)
  }

  /** All committed lines, concatenated. */
  function Flatten(cs: seq<seq<byte>>): seq<byte> {
    if cs == [] then [] else Flatten(cs[..|cs| - 1]) + cs[|cs| - 1]
  }

  lemma {:induction false} FlattenAppend(a: seq<seq<byte>>, b: seq<seq<byte>>)
    ensures Flatten(a + b) == Flatten(a) + Flatten(b)
    decreases |b|
  {
    if b != [] {
      assert (a + b)[..|a + b| - 1] == a + b[..|b| - 1];
      FlattenAppend(a, b[..|b| - 1]);
    } else {
      assert a + b == a;
    }
  }

  /** Committing one more line appends its bytes. */
  lemma FlattenSnoc(cs: seq<seq<byte>>, c: seq<byte>)
    ensures Flatten(cs + [c]) == Flatten(cs) + c
  {
    assert (cs + [c])[..|cs|] == cs;
  }

  /** Committing one more whole line keeps every line whole. */
  lemma AllCommitsSnoc(cs: seq<seq<byte>>, c: seq<byte>)
    requires AllCommits(cs) && IsCommit(c)
    ensures AllCommits(cs + [c])
  {
    forall i | 0 <= i < |cs| + 1
      ensures IsCommit((cs + [c])[i])
    {
      if i < |cs| {
        assert (cs + [c])[i] == cs[i];
      }
    }
  }

  /** The bytes one iteration takes in: the byte of a data event, unless the
      processor has already stopped. */
  function TakenIn(a: Asm, e: Event): seq<byte> {
    if !a.done && e.Data? then [e.b] else []
  }

  /** One iteration loses and reorders nothing, and commits only whole lines. */
  lemma StepAccountsForItsByte(a: Asm, e: Event)
    requires NoNewline(a.line)
    ensures var s := Step(a, e);
      && NoNewline(s.0.line)
      && AllCommits(s.1)
      && Flatten(s.1) + s.0.line == a.line + TakenIn(a, e)
  {
    var s := Step(a, e);
    if !a.done && e.Data? && e.b == NEWLINE {
      var c := a.line + [e.b];
      assert s.1 == [c] && Flatten([c]) == Flatten([]) + c;
      assert c[..|c| - 1] == a.line;
    } else if !a.done && e.Idle? && a.line != [] {
      assert s.1 == [a.line] && Flatten([a.line]) == Flatten([]) + a.line;
      assert a.line[..|a.line| - 1] + [a.line[|a.line| - 1]] == a.line;
    } else {
      assert Flatten(s.1) == [];
    }
  }

  /** Nothing is lost or reordered: the committed lines followed by the
      partial line are exactly the partial line the processor started from
      followed by every byte it took in, and every committed line has a
      newline at most at its end. */
  lemma {:induction false} RunAccountsForEveryByte(a: Asm, es: seq<Event>)
    requires NoNewline(a.line)
    ensures var r := Run(a, es);
      && NoNewline(r.0.line)
      && AllCommits(r.1)
      && Flatten(r.1) + r.0.line == a.line + ConsumedBytes(a, es)
    decreases |es|
  {
    if es != [] {
      var init := es[..|es| - 1];
      var e := es[|es| - 1];
      RunAccountsForEveryByte(a, init);
      var p := Run(a, init);
      var s := Step(p.0, e);
      StepAccountsForItsByte(p.0, e);
      assert Run(a, es) == (s.0, p.1 + s.1);
      assert ConsumedBytes(a, es) == ConsumedBytes(a, init) + TakenIn(p.0, e);
      AccountingCombines(p.1, p.0.line, s.1, s.0.line, a.line, ConsumedBytes(a, init), TakenIn(p.0, e));
      AllCommitsAppend(p.1, s.1);
    }
  }

  lemma AccountingCombines(x: seq<seq<byte>>, xl: seq<byte>, y: seq<seq<byte>>, yl: seq<byte>,
                            start: seq<byte>, before: seq<byte>, now: seq<byte>)
    requires Flatten(x) + xl == start + before
    requires Flatten(y) + yl == xl + now
    ensures Flatten(x + y) + yl == start + (before + now)
  {
    FlattenAppend(x, y);
    calc {
      Flatten(x + y) + yl;
      (Flatten(x) + Flatten(y)) + yl;
      Flatten(x) + (Flatten(y) + yl);
      Flatten(x) + (xl + now);
      (Flatten(x) + xl) + now;
      (start + before) + now;
      start + (before + now);
    }
  }

  lemma AllCommitsAppend(x: seq<seq<byte>>, y: seq<seq<byte>>)
    requires AllCommits(x) && AllCommits(y)
    ensures AllCommits(x + y)
  {
    forall i | 0 <= i < |x + y|
      ensures IsCommit((x + y)[i])
    {
      if i < |x| {
        assert (x + y)[i] == x[i];
      } else {
        assert (x + y)[i] == y[i - |x|];
      }
    }
  }

  /** A processor that is still running at the end has taken in every data byte. */
  lemma {:induction false} LiveRunConsumesAll(a: Asm, es: seq<Event>)
    requires !Run(a, es).0.done
    ensures ConsumedBytes(a, es) == DataBytes(es)
    decreases |es|
  {
    if es != [] {
      var init := es[..|es| - 1];
      assert !Run(a, init).0.done;
      LiveRunConsumesAll(a, init);
    }
  }

  /** Raw lines turned into buffer text by the (unmodelled) UTF-8 decoder. */
  function Decoded(cs: seq<seq<byte>>, decode: seq<byte> -> string): (r: seq<string>)
    ensures |r| == |cs|
  {
    if cs == [] then [] else Decoded(cs[..|cs| - 1], decode) + [decode(cs[|cs| - 1])]
  }

  /** Handing the buffer at most one line appends that line, if any. */
  lemma AppendedAllAtMostOne(buf: seq<string>, out: seq<seq<byte>>, decode: seq<byte> -> string, max: nat)
    requires |out| <= 1
    ensures AppendedAll(buf, Decoded(out, decode), max) == if out == [] then buf else Appended(buf, decode(out[0]), max)
  {
    if out != [] {
      assert out[..0] == [];
      assert Decoded(out, decode) == [decode(out[0])];
    }
  }

  /** Decoding line by line distributes over concatenation. */
  lemma {:induction false} DecodedAppend(x: seq<seq<byte>>, y: seq<seq<byte>>, decode: seq<byte> -> string)
    ensures Decoded(x + y, decode) == Decoded(x, decode) + Decoded(y, decode)
    decreases |y|
  {
    if y == [] {
      assert x + y == x;
    } else {
      var init := y[..|y| - 1];
      assert (x + y)[..|x + y| - 1] == x + init;
      DecodedAppend(x, init, decode);
      AppendAssoc(Decoded(x, decode), Decoded(init, decode), [decode(y[|y| - 1])]);
    }
  }

  /* ------------------------------------------------------------ the handler */

  class ProcessHandler {
    const command: seq<string>
    /** The captured output. */
    const buffer: RingBuffer
    /** `self.process is not None`: a process was spawned. */
    var started: bool
    var pid: Option<Pid>
    var state: State
    var error: Option<string>
    var stopEvent: bool
    /** A kill signal has been sent to the process. */
    var killSignalled: bool
    /** The process's stdin pipe is still open. */
    var stdinOpen: bool
    /** Everything written to the process's stdin, in order. */
    var stdin: string
    /** The processor's partial line. */
    var currentLine: seq<byte>
    /** The processor has left its loop. */
    var processorDone: bool
    /** Every data byte the processor has taken in. */
    ghost var consumed: seq<byte>
    /** Every line the processor has committed, before decoding. */
    ghost var committed: seq<seq<byte>>

    /** The buffer is consistent; a handler without a process is still
        `"initialized"` or failed to spawn; one with a process has left
        `"initialized"` for good; an `"error"` state has its error recorded;
        and the processor's lines account for every byte it took in. */
    ghost predicate Valid()
      reads this, buffer
    {
      buffer.Valid() && Lifecycle() && Accounted()
    }

    /** The lifecycle fields agree with each other. */
    ghost predicate Lifecycle()
      reads this`started, this`pid, this`state, this`error
    {
      && (started <==> pid.Some?)
      && (!started ==> state == Initialized || state == Errored)
      && (started ==> state != Initialized)
      && (state == Errored ==> error.Some?)
    }

    /** The committed lines plus the partial line are every byte taken in. */
    ghost predicate Accounted()
      reads this`currentLine, this`committed, this`consumed
    {
      && NoNewline(currentLine)
      && AllCommits(committed)
      && Flatten(committed) + currentLine == consumed
    }

    constructor (command: seq<string>, bufferSize: nat)
      ensures Valid() && fresh(buffer)
      ensures this.command == command && buffer.buffer == [] && buffer.maxSizeBytes == bufferSize
      ensures !started && pid == None && state == Initialized && error == None
      ensures !stopEvent && !killSignalled && !stdinOpen && stdin == []
      ensures currentLine == [] && !processorDone && consumed == [] && committed == []
    {
      this.command := command;
      buffer := new RingBuffer(bufferSize);
      started := false;
      pid := None;
      state := Initialized;
      error := None;
      stopEvent := false;
      killSignalled := false;
      stdinOpen := false;
      stdin := [];
      currentLine := [];
      processorDone := false;
      consumed := [];
      committed := [];
    }

    /** `start`: spawn the process unless one exists or the command is empty. */
    method Start(spawn: Spawn) returns (status: string, startedPid: Option<Pid>)
      requires Valid()
      modifies this`started, this`pid, this`stdinOpen, this`state, this`error, this`stopEvent
      ensures Valid()
      ensures (status, startedPid) == StartOutcome(old(started), command, spawn)
      ensures startedPid.Some? ==> started && pid == startedPid && state == Running && !stopEvent && stdinOpen
      ensures startedPid.Some? ==> error == old(error)
      ensures !old(started) && command != [] && !spawn.Spawned? ==>
        !started && pid == None && state == Errored && error == Some(SpawnError(spawn))
        && stdinOpen == old(stdinOpen) && stopEvent == old(stopEvent)
      ensures old(started) || command == [] ==> unchanged(this)
    {
      if started {
        return AlreadyStarted, None;
      }
      if command == [] {
        return EmptyCommand, None;
      }
      if !spawn.Spawned? {
        state := Errored;
        error := Some(SpawnError(spawn));
        return "failed: " + SpawnError(spawn), None;
      }
      started := true;
      pid := Some(spawn.pid);
      stdinOpen := true;
      state := Running;
      stopEvent := false;
      return "success", pid;
    }

    /** The assembler state the processor thread starts from. */
    ghost function Entry(): Asm
      reads this
    {
      Asm(currentLine, state, error, processorDone || stopEvent)
    }

    /** The processor thread taking `events` from the queue. Lines go to the
        buffer through `decode`, the UTF-8 decoder with replacement. A
        processor whose stop event is set leaves its loop without looking at
        the queue. */
    method ProcessOutput(events: seq<Event>, decode: seq<byte> -> string)
      requires Valid() && started
      modifies this`currentLine, this`state, this`error, this`processorDone, this`consumed, this`committed, buffer
      ensures Valid()
      ensures Run(old(Entry()), events).0 == Asm(currentLine, state, error, processorDone)
      ensures committed == old(committed) + Run(old(Entry()), events).1
      ensures buffer.buffer == AppendedAll(old(buffer.buffer), Decoded(Run(old(Entry()), events).1, decode), buffer.maxSizeBytes)
    {
      ghost var a0 := Asm(currentLine, state, error, processorDone || stopEvent);
      ghost var b0 := buffer.buffer;
      ghost var c0 := committed;
      ghost var cs: seq<seq<byte>> := [];
      processorDone := processorDone || stopEvent;
      var i := 0;
      while i < |events| && !processorDone
        invariant 0 <= i <= |events|
        invariant Valid()
        invariant Run(a0, events[..i]) == (Asm(currentLine, state, error, processorDone), cs)
        invariant committed == c0 + cs
        invariant buffer.buffer == AppendedAll(b0, Decoded(cs, decode), buffer.maxSizeBytes)
        decreases |events| - i
      {
        cs := TakeNext(a0, events, i, c0, b0, cs, decode);
        i := i + 1;
      }
      if i < |events| {
        RunStopsForGood(a0, events, i);
      } else {
        assert events[..i] == events;
      }
      assert Run(a0, events) == (Asm(currentLine, state, error, processorDone), cs);
    }

    /** The processor loop's `i`-th iteration, as it extends the run so far. */
    method TakeNext(ghost a0: Asm, events: seq<Event>, i: int, ghost c0: seq<seq<byte>>, ghost b0: seq<string>,
                    ghost cs: seq<seq<byte>>, decode: seq<byte> -> string) returns (ghost cs': seq<seq<byte>>)
      requires Valid() && started && !processorDone && 0 <= i < |events|
      requires Run(a0, events[..i]) == (Asm(currentLine, state, error, processorDone), cs)
      requires committed == c0 + cs
      requires buffer.buffer == AppendedAll(b0, Decoded(cs, decode), buffer.maxSizeBytes)
      modifies this`currentLine, this`state, this`error, this`processorDone, this`consumed, this`committed, buffer
      ensures Valid()
      ensures Run(a0, events[..i + 1]) == (Asm(currentLine, state, error, processorDone), cs')
      ensures committed == c0 + cs'
      ensures buffer.buffer == AppendedAll(b0, Decoded(cs', decode), buffer.maxSizeBytes)
    {
      RunSnoc(a0, events, i);
      ghost var out := Take(events[i], decode);
      AppendAssoc(c0, cs, out);
      DecodedAppend(cs, out, decode);
      AppendedAllInBatches(b0, Decoded(cs, decode), Decoded(out, decode), buffer.maxSizeBytes);
      cs' := cs + out;
    }

    /** One iteration of the processor loop, as `Step` describes it. */
    method Take(e: Event, decode: seq<byte> -> string) returns (ghost out: seq<seq<byte>>)
      requires Valid() && started && !processorDone
      modifies this`currentLine, this`state, this`error, this`processorDone, this`consumed, this`committed, buffer
      ensures Valid()
      ensures Step(Asm(old(currentLine), old(state), old(error), false), e) == (Asm(currentLine, state, error, processorDone), out)
      ensures committed == old(committed) + out && |out| <= 1
      ensures buffer.buffer == AppendedAll(old(buffer.buffer), Decoded(out, decode), buffer.maxSizeBytes)
    {
      StepSpec(Asm(currentLine, state, error, false), e);
      ghost var b0 := buffer.buffer;
      match e {
        case Data(_, b) =>
          out := TakeByte(b, decode);
        case ReaderError(msg) =>
          out := [];
          error := Some(msg);
          state := Errored;
        case Idle(poll, drained) =>
          out := TakeIdle(poll, drained, decode);
      }
      AppendedAllAtMostOne(b0, out, decode, buffer.maxSizeBytes);
    }

    /** A byte from either pipe: extend the partial line, and commit it at a
        newline. */
    method TakeByte(b: byte, decode: seq<byte> -> string) returns (ghost out: seq<seq<byte>>)
      requires Valid()
      modifies this`currentLine, this`consumed, this`committed, buffer
      ensures Valid()
      ensures b == NEWLINE ==> currentLine == [] && out == [old(currentLine) + [b]]
      ensures b != NEWLINE ==> currentLine == old(currentLine) + [b] && out == []
      ensures consumed == old(consumed) + [b] && committed == old(committed) + out
      ensures out == [] ==> buffer.buffer == old(buffer.buffer)
      ensures |out| == 1 ==> buffer.buffer == Appended(old(buffer.buffer), decode(out[0]), buffer.maxSizeBytes)
    {
      AppendAssoc(Flatten(committed), currentLine, [b]);
      consumed := consumed + [b];
      if b == NEWLINE {
        var line := currentLine + [b];
        assert line[..|line| - 1] == currentLine;
        CommitLine(line, decode);
        out := [line];
        currentLine := [];
      } else {
        out := [];
        currentLine := currentLine + [b];
      }
    }

    /** A timed-out wait on the queue: commit the partial line, apply the exit
        code to a running state, and stop once the process has exited and the
        queue is empty. */
    method TakeIdle(poll: Option<int>, drained: bool, decode: seq<byte> -> string) returns (ghost out: seq<seq<byte>>)
      requires Valid()
      modifies this`currentLine, this`state, this`processorDone, this`committed, buffer
      ensures Valid()
      ensures currentLine == [] && out == if old(currentLine) == [] then [] else [old(currentLine)]
      ensures state == PolledState(old(state), poll) && processorDone == (old(processorDone) || (poll.Some? && drained))
      ensures committed == old(committed) + out
      ensures out == [] ==> buffer.buffer == old(buffer.buffer)
      ensures |out| == 1 ==> buffer.buffer == Appended(old(buffer.buffer), decode(out[0]), buffer.maxSizeBytes)
    {
      out := FlushLine(decode);
      ApplyPoll(poll, drained);
    }

    /** The rest of a timed-out wait: apply the exit code to a running state,
        and stop once the process has exited and the queue is empty. */
    method ApplyPoll(poll: Option<int>, drained: bool)
      requires Valid()
      modifies this`state, this`processorDone
      ensures Valid()
      ensures state == PolledState(old(state), poll) && processorDone == (old(processorDone) || (poll.Some? && drained))
    {
      if poll.Some? {
        if state == Running {
          state := ExitState(poll.value);
        }
        if drained {
          processorDone := true;
        }
      }
    }

    /** Commit the partial line, if there is one, at a timed-out wait. */
    method FlushLine(decode: seq<byte> -> string) returns (ghost out: seq<seq<byte>>)
      requires Valid()
      modifies this`currentLine, this`committed, buffer
      ensures Valid()
      ensures currentLine == [] && out == if old(currentLine) == [] then [] else [old(currentLine)]
      ensures committed == old(committed) + out
      ensures out == [] ==> buffer.buffer == old(buffer.buffer)
      ensures |out| == 1 ==> buffer.buffer == Appended(old(buffer.buffer), decode(out[0]), buffer.maxSizeBytes)
    {
      out := [];
      if currentLine != [] {
        var line := currentLine;
        assert line[..|line| - 1] + [line[|line| - 1]] == line;
        CommitLine(line, decode);
        assert Flatten(committed) + [] == Flatten(committed);
        out := [line];
        currentLine := [];
      }
    }

    /** Hand one raw line to the buffer. */
    method CommitLine(line: seq<byte>, decode: seq<byte> -> string)
      requires buffer.Valid() && IsCommit(line)
      requires AllCommits(committed)
      modifies this`committed, buffer
      ensures buffer.Valid() && buffer.buffer == Appended(old(buffer.buffer), decode(line), buffer.maxSizeBytes)
      ensures committed == old(committed) + [line]
      ensures AllCommits(committed)
      ensures Flatten(committed) == Flatten(old(committed)) + line
    {
      FlattenSnoc(committed, line);
      AllCommitsSnoc(committed, line);
      buffer.Append(decode(line));
      committed := committed + [line];
    }

    /** `get_status`: refresh a running state from the poll, then report. */
    method GetStatus(poll: Option<int>) returns (s: Status)
      requires Valid()
      modifies this`state
      ensures Valid()
      ensures state == PolledState(old(state), poll)
      ensures s == Status(command, StateName(state), Summary(buffer.buffer))
    {
      if started && state == Running && poll.Some? {
        state := ExitState(poll.value);
      }
      s := Status(command, StateName(state), Summary(buffer.buffer));
    }

    /** `kill`: signal the process and wait for it to exit. */
    method Kill(exitedInTime: bool) returns (result: string)
      requires Valid()
      modifies this`state, this`stopEvent, this`killSignalled
      ensures Valid()
      ensures result == KillResult(old(started), old(state), exitedInTime)
      ensures result == "success" ==> state == Completed && stopEvent
      ensures result != "success" ==> state == old(state) && stopEvent == old(stopEvent)
      ensures killSignalled == (old(killSignalled) || (started && (old(state) == Running || old(state) == Errored)))
    {
      if !started {
        return NoProcessToKill;
      }
      if state != Running && state != Errored {
        return NotKillable;
      }
      killSignalled := true;
      if !exitedInTime {
        return KillTimedOut;
      }
      state := Completed;
      stopEvent := true;
      return "success";
    }

    /** `cleanup`: kill a process that is still alive, stop the threads and
        close stdin. */
    method Cleanup(alive: bool)
      requires Valid()
      modifies this`stopEvent, this`stdinOpen, this`killSignalled
      ensures Valid()
      ensures stopEvent
      ensures stdinOpen == (old(stdinOpen) && !started)
      ensures killSignalled == (old(killSignalled) || (started && alive))
    {
      if started && alive {
        killSignalled := true;
      }
      stopEvent := true;
      if started {
        stdinOpen := false;
      }
    }

    /** `get_output_lines`. */
    function GetOutputLines(maxLines: int): (r: seq<string>)
      reads this, buffer
      ensures maxLines <= 0 ==> r == buffer.buffer
      ensures maxLines > 0 ==> |r| == Min(maxLines, |buffer.buffer|)
      ensures r == buffer.buffer[|buffer.buffer| - |r|..]
    {
      GetLines(buffer.buffer, maxLines)
    }

    /** `search_output`. */
    function SearchOutput(searchType: string, pattern: Option<string>, maxLines: int, re: RegexEngine): seq<string>
      reads this, buffer
    {
      SearchLines(buffer.buffer, searchType, pattern, maxLines, re)
    }

    /** `send_line`: write the text, newline-terminated, when the process can take it. */
    method SendLine(text: string, writeError: Option<string>) returns (result: string)
      requires Valid()
      modifies this`stdin
      ensures Valid()
      ensures result == SendResult(started, state, stdinOpen, writeError)
      ensures stdin == if result == "success" then old(stdin) + LineToSend(text) else old(stdin)
    {
      if !started {
        return NoProcessRunning;
      }
      if state != Running {
        return NotRunning;
      }
      if !stdinOpen {
        return ClosedStdin;
      }
      if writeError.Some? {
        return "failed: " + writeError.value;
      }
      stdin := stdin + LineToSend(text);
      return "success";
    }

    /** `send_chars`: write the text unchanged when the process can take it. */
    method SendChars(text: string, writeError: Option<string>) returns (result: string)
      requires Valid()
      modifies this`stdin
      ensures Valid()
      ensures result == SendResult(started, state, stdinOpen, writeError)
      ensures stdin == if result == "success" then old(stdin) + text else old(stdin)
    {
      if !started {
        return NoProcessRunning;
      }
      if state != Running {
        return NotRunning;
      }
      if !stdinOpen {
        return ClosedStdin;
      }
      if writeError.Some? {
        return "failed: " + writeError.value;
      }
      stdin := stdin + text;
      return "success";
    }
  }
}
