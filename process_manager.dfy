/** The process manager: a registry of process handlers keyed by pid, kept
    in the order the pids were first registered (a Python dict's order), and
    the tool operations that look up one pid or visit every entry.

    A registered handler is reduced to a `Session` value: what the manager's
    operations read and change. Each delegated handler call is the handler
    module's own function of that state (`KillResult`, `SendResult`,
    `PolledState`, `Summary`, `SearchLines`, `GetLines`, `Run`), and each
    observation of the operating system (a poll result, whether a killed
    process exited in time, a failed write or cleanup) is an input. */
module ProcessManagers {
  import opened Text
  import opened RingBuffers
  import opened ProcessHandlers

  /* -------------------------------------------------------------- sessions */

  /** A registered handler: its command, lifecycle state and recorded error,
      its buffered output and byte budget, the processor's partial line and
      whether the processor has stopped, the stop event, and its stdin. */
  datatype Session = Session(
    command: seq<string>,
    state: State,
    error: Option<string>,
    lines: seq<string>,
    maxBytes: nat,
    partial: seq<byte>,
    processorDone: bool,
    stopEvent: bool,
    stdinOpen: bool,
    stdin: string)

  /** The session a handler object stands for. */
  function SessionOf(h: ProcessHandler): Session
    reads h, h.buffer
  {
    Session(h.command, h.state, h.error, h.buffer.buffer, h.buffer.maxSizeBytes,
            h.currentLine, h.processorDone, h.stopEvent, h.stdinOpen, h.stdin)
  }

  /** A handler that has just started its process. */
  function Started(command: seq<string>): Session {
    Session(command, Running, None, [], DefaultBufferSize, [], false, false, true, [])
  }

  /** `get_status`'s refresh of a running state from the poll result. */
  function Polled(s: Session, poll: Option<int>): Session {
    s.(state := PolledState(s.state, poll))
  }

  /** What `get_status` reports for a session. */
  function StatusOf(s: Session): Status {
    Status(s.command, StateName(s.state), Summary(s.lines))
  }

  /** `kill` on a started handler: the result, and on success the
      `"completed"` state with the stop event set. */
  function Killed(s: Session, exitedInTime: bool): (Session, string) {
    var r := KillResult(true, s.state, exitedInTime);
    (if r == "success" then s.(state := Completed, stopEvent := true) else s, r)
  }

  /** `send_line`/`send_chars` on a started handler, writing `text`. */
  function Sent(s: Session, text: string, writeError: Option<string>): (Session, string) {
    var r := SendResult(true, s.state, s.stdinOpen, writeError);
    (if r == "success" then s.(stdin := s.stdin + text) else s, r)
  }

  /** The processor thread of a session taking `events`. */
  function WithOutput(s: Session, events: seq<Event>, decode: seq<byte> -> string): Session {
    var r := Run(Asm(s.partial, s.state, s.error, s.processorDone || s.stopEvent), events);
    s.(partial := r.0.line, state := r.0.state, error := r.0.error, processorDone := r.0.done,
       lines := AppendedAll(s.lines, Decoded(r.1, decode), s.maxBytes))
  }

  /* ------------------------------------------------------------- messages */

  const ProcessNotFound := "failed: Process not found"
  const NotFoundState := "error: Process not found"
  const EmptyPattern := ErrorLine("Search pattern cannot be empty")

  /** The status reported for a pid nobody registered. */
  const NotFoundStatus := Status([], NotFoundState, "")

  /** The line `stdio_get_lines`/`stdio_search_lines` report for an unknown pid. */
  function NotFoundLine(pid: int): string {
    ErrorLine("Process not found: pid=" + IntToString(pid))
  }

  /** One pid's entry in an aggregated error message. */
  function PidItem(pid: int, msg: string): string {
    "PID " + IntToString(pid) + ": " + msg
  }

  /** An aggregated result: `"success"`, or `"failed: "` and the errors
      joined with `"; "`. */
  function Aggregate(errors: seq<string>): (r: string)
    ensures r == "success" <==> errors == []
    ensures errors != [] ==> StartsWith(r, "failed: ") && r[8..] == Join(errors, "; ")
  {
    if errors == [] then "success"
    else
      var r := "failed: " + Join(errors, "; ");
      assert r[0] != "success"[0];
      r
  }

  /** The error-free report for a session's state never reads like the
      not-found report, so a caller can tell the two apart. */
  lemma NotFoundStateIsNoState(s: State)
    ensures StateName(s) != NotFoundState
  {
    if s.Exited? {
      assert StateName(s)[7] == 'E' && NotFoundState[7] == 'P';
    }
  }

  /* --------------------------------------------------------- process_start */

  /** The value passed as the command: a list of strings, or a value of some
      other Python type, with its type name and truthiness. */
  datatype CommandValue = ListValue(args: seq<string>) | OtherValue(typeName: string, truthy: bool)

  /** Python's `not command`. */
  predicate Falsy(c: CommandValue) {
    if c.ListValue? then c.args == [] else !c.truthy
  }

  /** The validation failure `process_start` reports before starting
      anything, if any: falsy values first, then values that are not lists. */
  function CommandError(c: CommandValue): (r: Option<string>)
    ensures r.None? <==> c.ListValue? && c.args != []
    ensures r.Some? ==> StartsWith(r.value, "failed: ")
  {
    if Falsy(c) then Some(EmptyCommand)
    else if !c.ListValue? then
      var m := "failed: Command must be a list, got " + c.typeName;
      assert m[..8] == "failed: ";
      Some(m)
    else None
  }

  /* ----------------------------------------------------------- all_kill */

  /** The errors `all_kill` collects visiting `pids`: one `"PID p: result"`
      item per running session whose kill result says it failed. */
  function KillErrors(ps: map<int, Session>, pids: seq<int>, exited: int -> bool): seq<string>
  {
    if pids == [] then []
    else
      var p := pids[|pids| - 1];
      KillErrors(ps, pids[..|pids| - 1], exited) + if p in ps then KillItem(p, ps[p], exited(p)) else []
  }

  /** What visiting session `s` under pid `p` adds to `all_kill`'s errors. */
  function KillItem(p: int, s: Session, exitedInTime: bool): seq<string> {
    if s.state == Running then
      var r := KillResult(true, Running, exitedInTime);
      if Contains(r, "failed") then [PidItem(p, r)] else []
    else []
  }

  /** Only a kill that timed out adds an item, and it carries the timeout message. */
  lemma KillItemIsTimeout(p: int, s: Session, exitedInTime: bool)
    ensures KillItem(p, s, exitedInTime)
      == if s.state == Running && !exitedInTime then [PidItem(p, KillTimedOut)] else []
  {
    KillFailedIff(true, Running, exitedInTime);
  }

  /** Visiting one more pid appends its item. */
  lemma KillErrorsNext(ps: map<int, Session>, pids: seq<int>, i: nat, exited: int -> bool)
    requires i < |pids| && pids[i] in ps
    ensures KillErrors(ps, pids[..i + 1], exited)
      == KillErrors(ps, pids[..i], exited) + KillItem(pids[i], ps[pids[i]], exited(pids[i]))
  {
    assert pids[..i + 1][..i] == pids[..i];
  }

  /** A session after `all_kill` visited it: a running one is killed. */
  function KillStep(s: Session, exitedInTime: bool): Session {
    if s.state == Running then Killed(s, exitedInTime).0 else s
  }

  /** `all_kill` collects no error exactly when every running session it
      visits exited within the timeout. */
  lemma {:induction false} KillErrorsEmptyIff(ps: map<int, Session>, pids: seq<int>, exited: int -> bool)
    ensures KillErrors(ps, pids, exited) == []
      <==> forall i :: 0 <= i < |pids| && pids[i] in ps && ps[pids[i]].state == Running ==> exited(pids[i])
    decreases |pids|
  {
    if pids != [] {
      var init := pids[..|pids| - 1];
      var p := pids[|pids| - 1];
      KillErrorsEmptyIff(ps, init, exited);
      if p in ps {
        KillItemIsTimeout(p, ps[p], exited(p));
      }
      forall i | 0 <= i < |init|
        ensures init[i] == pids[i]
      {
      }
    }
  }

  /** Each collected item names a session that was running and did not exit
      within the timeout, with the timeout message. */
  lemma {:induction false} KillErrorsNameStuckPids(ps: map<int, Session>, pids: seq<int>, exited: int -> bool, k: nat)
    requires k < |KillErrors(ps, pids, exited)|
    ensures exists i :: (0 <= i < |pids| && pids[i] in ps && ps[pids[i]].state == Running && !exited(pids[i])
                         && KillErrors(ps, pids, exited)[k] == PidItem(pids[i], KillTimedOut))
    decreases |pids|
  {
    var init := pids[..|pids| - 1];
    var p := pids[|pids| - 1];
    if p in ps {
      KillItemIsTimeout(p, ps[p], exited(p));
    }
    if k < |KillErrors(ps, init, exited)| {
      KillErrorsNameStuckPids(ps, init, exited, k);
      var i :| 0 <= i < |init| && init[i] in ps && ps[init[i]].state == Running && !exited(init[i])
        && KillErrors(ps, init, exited)[k] == PidItem(init[i], KillTimedOut);
      assert pids[i] == init[i];
    } else {
      assert pids[|pids| - 1] == p;
    }
  }

  /** Every visited running session that did not exit within the timeout
      has its error item. */
  lemma {:induction false} KillErrorsNameEveryStuckPid(ps: map<int, Session>, pids: seq<int>, exited: int -> bool, i: nat)
    requires i < |pids| && pids[i] in ps && ps[pids[i]].state == Running && !exited(pids[i])
    ensures PidItem(pids[i], KillTimedOut) in KillErrors(ps, pids, exited)
    decreases |pids|
  {
    var init := pids[..|pids| - 1];
    var p := pids[|pids| - 1];
    if i < |init| {
      KillErrorsNameEveryStuckPid(ps, init, exited, i);
      assert init[i] == pids[i];
    } else {
      KillItemIsTimeout(p, ps[p], exited(p));
    }
  }

  /* --------------------------------------------------------- all_remove */

  /** `all_remove` drops a session that is not running and whose cleanup
      raised nothing. */
  predicate Removable(s: Session, failure: Option<string>) {
    s.state != Running && failure.None?
  }

  /** The errors `all_remove` collects: one `"PID p: message"` item per
      session that is not running and whose cleanup raised. */
  function RemoveErrors(ps: map<int, Session>, pids: seq<int>, failure: int -> Option<string>): seq<string>
  {
    if pids == [] then []
    else
      var p := pids[|pids| - 1];
      RemoveErrors(ps, pids[..|pids| - 1], failure)
        + if p in ps && ps[p].state != Running && failure(p).Some? then [PidItem(p, failure(p).value)] else []
  }

  /** Visiting one more pid appends its item. */
  lemma RemoveErrorsNext(ps: map<int, Session>, pids: seq<int>, i: nat, failure: int -> Option<string>)
    requires i < |pids|
    ensures var p := pids[i];
      RemoveErrors(ps, pids[..i + 1], failure) == RemoveErrors(ps, pids[..i], failure)
        + if p in ps && ps[p].state != Running && failure(p).Some? then [PidItem(p, failure(p).value)] else []
  {
    assert pids[..i + 1][..i] == pids[..i];
  }

  /** `all_remove` collects no error exactly when every cleanup it runs
      succeeds. */
  lemma {:induction false} RemoveErrorsEmptyIff(ps: map<int, Session>, pids: seq<int>, failure: int -> Option<string>)
    ensures RemoveErrors(ps, pids, failure) == []
      <==> forall i :: 0 <= i < |pids| && pids[i] in ps && ps[pids[i]].state != Running ==> failure(pids[i]).None?
    decreases |pids|
  {
    if pids != [] {
      var init := pids[..|pids| - 1];
      RemoveErrorsEmptyIff(ps, init, failure);
      forall i | 0 <= i < |init|
        ensures init[i] == pids[i]
      {
      }
    }
  }

  /** Every visited session that is not running and whose cleanup raised
      has its error item. */
  lemma {:induction false} RemoveErrorsNameEveryFailure(ps: map<int, Session>, pids: seq<int>, failure: int -> Option<string>, i: nat)
    requires i < |pids| && pids[i] in ps && ps[pids[i]].state != Running && failure(pids[i]).Some?
    ensures PidItem(pids[i], failure(pids[i]).value) in RemoveErrors(ps, pids, failure)
    decreases |pids|
  {
    var init := pids[..|pids| - 1];
    if i < |init| {
      RemoveErrorsNameEveryFailure(ps, init, failure, i);
      assert init[i] == pids[i];
    }
  }

  /** Each collected error names a visited session that is not running and
      whose cleanup raised, with that cleanup's message. */
  lemma {:induction false} RemoveErrorsNameFailures(ps: map<int, Session>, pids: seq<int>, failure: int -> Option<string>, k: nat)
    requires k < |RemoveErrors(ps, pids, failure)|
    ensures exists i :: (0 <= i < |pids| && pids[i] in ps && ps[pids[i]].state != Running && failure(pids[i]).Some?
                         && RemoveErrors(ps, pids, failure)[k] == PidItem(pids[i], failure(pids[i]).value))
    decreases |pids|
  {
    var init := pids[..|pids| - 1];
    if k < |RemoveErrors(ps, init, failure)| {
      RemoveErrorsNameFailures(ps, init, failure, k);
      var i :| 0 <= i < |init| && init[i] in ps && ps[init[i]].state != Running && failure(init[i]).Some?
        && RemoveErrors(ps, init, failure)[k] == PidItem(init[i], failure(init[i]).value);
      assert pids[i] == init[i];
    }
  }

  /** The pids `all_remove` keeps, in their order. */
  function Kept(ps: map<int, Session>, pids: seq<int>, failure: int -> Option<string>): seq<int>
  {
    if pids == [] then []
    else
      var p := pids[|pids| - 1];
      Kept(ps, pids[..|pids| - 1], failure)
        + if p in ps && !Removable(ps[p], failure(p)) then [p] else []
  }

  /** Visiting one more pid keeps it or not. */
  lemma KeptNext(ps: map<int, Session>, pids: seq<int>, i: nat, failure: int -> Option<string>)
    requires i < |pids|
    ensures var p := pids[i];
      Kept(ps, pids[..i + 1], failure) == Kept(ps, pids[..i], failure)
        + if p in ps && !Removable(ps[p], failure(p)) then [p] else []
  {
    assert pids[..i + 1][..i] == pids[..i];
  }

  /** The kept pids are exactly the visited registered pids that could not
      be removed, and keep their order without repeats. */
  lemma {:induction false} KeptMembers(ps: map<int, Session>, pids: seq<int>, failure: int -> Option<string>)
    requires Distinct(pids)
    ensures var k := Kept(ps, pids, failure);
      && Distinct(k)
      && forall p :: p in k <==> p in pids && p in ps && !Removable(ps[p], failure(p))
    decreases |pids|
  {
    if pids != [] {
      var init := pids[..|pids| - 1];
      var p := pids[|pids| - 1];
      assert pids == init + [p];
      KeptMembers(ps, init, failure);
      assert p !in init;
    }
  }

  /** No pid occurs twice. */
  predicate Distinct(s: seq<int>) {
    forall i, j :: 0 <= i < j < |s| ==> s[i] != s[j]
  }

  /* --------------------------------------------------------- all_search */

  /** One session's search result: a leading `ERROR:` line marks a failure. */
  predicate IsSearchError(m: seq<string>) {
    m != [] && StartsWith(m[0], "ERROR:")
  }

  /** The `(pid, matches)` entries `all_search` collects visiting `pids`:
      every session with matches that do not read as an error. */
  function SearchHits(ps: map<int, Session>, pids: seq<int>, searchType: string, pattern: Option<string>,
                      maxPerPid: int, re: RegexEngine): seq<(int, seq<string>)>
  {
    if pids == [] then []
    else
      var p := pids[|pids| - 1];
      SearchHits(ps, pids[..|pids| - 1], searchType, pattern, maxPerPid, re)
        + if p !in ps then [] else
          var m := SearchLines(ps[p].lines, searchType, pattern, maxPerPid, re);
          if m != [] && !IsSearchError(m) then [(p, m)] else []
  }

  /** Visiting one more pid appends its entry and its error, if any. */
  lemma SearchNext(ps: map<int, Session>, pids: seq<int>, i: nat, searchType: string, pattern: Option<string>,
                   maxPerPid: int, re: RegexEngine)
    requires i < |pids| && pids[i] in ps
    ensures var p := pids[i];
      var m := SearchLines(ps[p].lines, searchType, pattern, maxPerPid, re);
      && SearchHits(ps, pids[..i + 1], searchType, pattern, maxPerPid, re)
         == SearchHits(ps, pids[..i], searchType, pattern, maxPerPid, re) + (if m != [] && !IsSearchError(m) then [(p, m)] else [])
      && SearchErrors(ps, pids[..i + 1], searchType, pattern, maxPerPid, re)
         == SearchErrors(ps, pids[..i], searchType, pattern, maxPerPid, re) + (if IsSearchError(m) then [PidItem(p, m[0])] else [])
  {
    assert pids[..i + 1][..i] == pids[..i];
  }

  /** The errors `all_search` collects: `"PID p: "` and the error line, for
      every session whose search failed. */
  function SearchErrors(ps: map<int, Session>, pids: seq<int>, searchType: string, pattern: Option<string>,
                        maxPerPid: int, re: RegexEngine): seq<string>
  {
    if pids == [] then []
    else
      var p := pids[|pids| - 1];
      SearchErrors(ps, pids[..|pids| - 1], searchType, pattern, maxPerPid, re)
        + if p !in ps then [] else
          var m := SearchLines(ps[p].lines, searchType, pattern, maxPerPid, re);
          if IsSearchError(m) then [PidItem(p, m[0])] else []
  }

  /** Every collected entry is a visited registered pid with the non-empty,
      non-error result of searching its buffer. */
  lemma {:induction false} SearchHitsAreMatches(ps: map<int, Session>, pids: seq<int>, searchType: string,
                                                pattern: Option<string>, maxPerPid: int, re: RegexEngine, k: nat)
    requires k < |SearchHits(ps, pids, searchType, pattern, maxPerPid, re)|
    ensures var h := SearchHits(ps, pids, searchType, pattern, maxPerPid, re)[k];
      && h.0 in pids && h.0 in ps
      && h.1 == SearchLines(ps[h.0].lines, searchType, pattern, maxPerPid, re)
      && h.1 != [] && !IsSearchError(h.1)
    decreases |pids|
  {
    var init := pids[..|pids| - 1];
    if k < |SearchHits(ps, init, searchType, pattern, maxPerPid, re)| {
      SearchHitsAreMatches(ps, init, searchType, pattern, maxPerPid, re, k);
    }
  }

  /** Every visited registered pid whose search finds something that is not
      an error has an entry. */
  lemma {:induction false} SearchHitsAreComplete(ps: map<int, Session>, pids: seq<int>, searchType: string,
                                                 pattern: Option<string>, maxPerPid: int, re: RegexEngine, i: nat)
    requires i < |pids| && pids[i] in ps
    requires var m := SearchLines(ps[pids[i]].lines, searchType, pattern, maxPerPid, re);
      m != [] && !IsSearchError(m)
    ensures exists k :: (0 <= k < |SearchHits(ps, pids, searchType, pattern, maxPerPid, re)|
                         && SearchHits(ps, pids, searchType, pattern, maxPerPid, re)[k].0 == pids[i])
    decreases |pids|
  {
    var init := pids[..|pids| - 1];
    var h := SearchHits(ps, pids, searchType, pattern, maxPerPid, re);
    var hi := SearchHits(ps, init, searchType, pattern, maxPerPid, re);
    if i < |init| {
      SearchHitsAreComplete(ps, init, searchType, pattern, maxPerPid, re, i);
      var k :| 0 <= k < |hi| && hi[k].0 == init[i];
      assert h[k] == hi[k];
    } else {
      var m := SearchLines(ps[pids[i]].lines, searchType, pattern, maxPerPid, re);
      assert i == |pids| - 1;
      assert h == hi + [(pids[i], m)];
      assert h[|hi|].0 == pids[i];
    }
  }

  /** `all_search` collects no error exactly when no visited session's
      search failed. */
  lemma {:induction false} SearchErrorsEmptyIff(ps: map<int, Session>, pids: seq<int>, searchType: string,
                                                pattern: Option<string>, maxPerPid: int, re: RegexEngine)
    ensures SearchErrors(ps, pids, searchType, pattern, maxPerPid, re) == []
      <==> forall i :: 0 <= i < |pids| && pids[i] in ps ==>
             !IsSearchError(SearchLines(ps[pids[i]].lines, searchType, pattern, maxPerPid, re))
    decreases |pids|
  {
    if pids != [] {
      var init := pids[..|pids| - 1];
      SearchErrorsEmptyIff(ps, init, searchType, pattern, maxPerPid, re);
      forall i | 0 <= i < |init|
        ensures init[i] == pids[i]
      {
      }
    }
  }

  /** Every visited registered pid whose search failed has its error item. */
  lemma {:induction false} SearchErrorsNameEveryFailure(ps: map<int, Session>, pids: seq<int>, searchType: string,
                                                        pattern: Option<string>, maxPerPid: int, re: RegexEngine, i: nat)
    requires i < |pids| && pids[i] in ps
    requires IsSearchError(SearchLines(ps[pids[i]].lines, searchType, pattern, maxPerPid, re))
    ensures PidItem(pids[i], SearchLines(ps[pids[i]].lines, searchType, pattern, maxPerPid, re)[0])
      in SearchErrors(ps, pids, searchType, pattern, maxPerPid, re)
    decreases |pids|
  {
    var init := pids[..|pids| - 1];
    var m := SearchLines(ps[pids[i]].lines, searchType, pattern, maxPerPid, re);
    var e := SearchErrors(ps, pids, searchType, pattern, maxPerPid, re);
    var ei := SearchErrors(ps, init, searchType, pattern, maxPerPid, re);
    SearchErrorsGrow(ps, pids, searchType, pattern, maxPerPid, re);
    if i < |init| {
      assert init[i] == pids[i];
      SearchErrorsNameEveryFailure(ps, init, searchType, pattern, maxPerPid, re, i);
      var k :| 0 <= k < |ei| && ei[k] == PidItem(pids[i], m[0]);
      assert e[k] == ei[k];
    } else {
      assert i == |pids| - 1;
      assert e == ei + [PidItem(pids[i], m[0])];
      assert e[|ei|] == PidItem(pids[i], m[0]);
    }
  }

  /** Visiting the last pid only appends to the errors, and appends the
      item of a failed search. */
  lemma SearchErrorsGrow(ps: map<int, Session>, pids: seq<int>, searchType: string,
                         pattern: Option<string>, maxPerPid: int, re: RegexEngine)
    requires pids != []
    ensures var e := SearchErrors(ps, pids, searchType, pattern, maxPerPid, re);
      var ei := SearchErrors(ps, pids[..|pids| - 1], searchType, pattern, maxPerPid, re);
      var p := pids[|pids| - 1];
      && ei <= e
      && (p in ps && IsSearchError(SearchLines(ps[p].lines, searchType, pattern, maxPerPid, re)) ==>
            e == ei + [PidItem(p, SearchLines(ps[p].lines, searchType, pattern, maxPerPid, re)[0])])
  {
  }

  /** Each collected error names a visited registered pid whose search
      failed, with its error line. */
  lemma {:induction false} SearchErrorsNameFailures(ps: map<int, Session>, pids: seq<int>, searchType: string,
                                                    pattern: Option<string>, maxPerPid: int, re: RegexEngine, k: nat)
    requires k < |SearchErrors(ps, pids, searchType, pattern, maxPerPid, re)|
    ensures exists i :: (0 <= i < |pids| && pids[i] in ps
                         && IsSearchError(SearchLines(ps[pids[i]].lines, searchType, pattern, maxPerPid, re))
                         && SearchErrors(ps, pids, searchType, pattern, maxPerPid, re)[k]
                            == PidItem(pids[i], SearchLines(ps[pids[i]].lines, searchType, pattern, maxPerPid, re)[0]))
    decreases |pids|
  {
    var init := pids[..|pids| - 1];
    if k < |SearchErrors(ps, init, searchType, pattern, maxPerPid, re)| {
      SearchErrorsNameFailures(ps, init, searchType, pattern, maxPerPid, re, k);
      var i :| 0 <= i < |init| && init[i] in ps
        && IsSearchError(SearchLines(ps[init[i]].lines, searchType, pattern, maxPerPid, re))
        && SearchErrors(ps, init, searchType, pattern, maxPerPid, re)[k]
           == PidItem(init[i], SearchLines(ps[init[i]].lines, searchType, pattern, maxPerPid, re)[0]);
      assert pids[i] == init[i];
    }
  }

  /** A pattern `all_search` and `stdio_search_lines` refuse: `None` or `""`. */
  predicate EmptyPatternValue(pattern: Option<string>) {
    pattern.None? || pattern.value == ""
  }

  /* -------------------------------------------------------------- removal */

  /** `order` without `pid`. */
  function Without(order: seq<int>, pid: int): seq<int>
  {
    if order == [] then []
    else Without(order[..|order| - 1], pid) + if order[|order| - 1] == pid then [] else [order[|order| - 1]]
  }

  /** Deleting a key keeps every other key, in order and without repeats. */
  lemma {:induction false} WithoutMembers(order: seq<int>, pid: int)
    requires Distinct(order)
    ensures var w := Without(order, pid);
      && Distinct(w)
      && forall p :: p in w <==> p in order && p != pid
    decreases |order|
  {
    if order != [] {
      var init := order[..|order| - 1];
      var last := order[|order| - 1];
      assert order == init + [last];
      WithoutMembers(init, pid);
      assert last !in init;
    }
  }

  /* ----------------------------------------------------------- the manager */

  class ProcessManager {
    /** pid -> handler. */
    var processes: map<int, Session>
    /** The registered pids in the order they were first registered. */
    var order: seq<int>

    /** The order lists every registered pid exactly once; every pid is a
        real (positive) process id of a handler that has started. */
    ghost predicate Valid()
      reads this
    {
      && (forall i :: 0 <= i < |order| ==> order[i] in processes)
      && (forall p :: p in processes ==> p in order)
      && Distinct(order)
      && (forall p :: p in processes ==> p > 0 && processes[p].state != Initialized)
    }

    constructor ()
      ensures Valid() && processes == map[] && order == []
    {
      processes := map[];
      order := [];
    }

    /** Store a new session for a registered pid. */
    method Replace(pid: int, s: Session)
      requires Valid() && pid in processes && s.state != Initialized
      modifies this
      ensures Valid() && order == old(order)
      ensures processes == old(processes)[pid := s]
    {
      processes := processes[pid := s];
    }

    /** `process_start`: validate the command, start a fresh handler, and
        register it under its pid when the start succeeded. Re-registering a
        pid replaces its handler and keeps its place in the order. */
    method ProcessStart(command: CommandValue, spawn: Spawn) returns (status: string, pid: Option<Pid>)
      requires Valid()
      modifies this
      ensures Valid()
      ensures CommandError(command).Some? ==> status == CommandError(command).value && pid == None
      ensures CommandError(command).None? ==> (status, pid) == StartOutcome(false, command.args, spawn)
      ensures pid.Some? <==> CommandError(command).None? && spawn.Spawned?
      ensures pid.None? ==> processes == old(processes) && order == old(order)
      ensures pid.Some? ==> processes == old(processes)[pid.value := Started(command.args)]
      ensures pid.Some? ==> order == if pid.value in old(processes) then old(order) else old(order) + [pid.value]
    {
      if Falsy(command) {
        return EmptyCommand, None;
      }
      if !command.ListValue? {
        return "failed: Command must be a list, got " + command.typeName, None;
      }
      var s;
      status, pid, s := Launch(command.args, spawn);
      if Contains(status, "success") && pid.Some? {
        Register(pid.value, s);
      }
    }

    /** Store the session of a pid, registering the pid at the end of the
        order if it is new. */
    method Register(pid: Pid, s: Session)
      requires Valid() && s.state != Initialized
      modifies this
      ensures Valid()
      ensures processes == old(processes)[pid := s]
      ensures order == if pid in old(processes) then old(order) else old(order) + [pid]
    {
      if pid !in processes {
        order := order + [pid];
      }
      processes := processes[pid := s];
    }

    /** `process_status`: the status of a registered pid, refreshing a
        running state from the poll result; a fixed report otherwise. */
    method ProcessStatus(pid: int, poll: Option<int>) returns (s: Status)
      requires Valid()
      modifies this
      ensures Valid() && order == old(order)
      ensures pid !in old(processes) ==> s == NotFoundStatus && processes == old(processes)
      ensures pid in old(processes) ==>
        processes == old(processes)[pid := Polled(old(processes)[pid], poll)] && s == StatusOf(processes[pid])
    {
      if pid !in processes {
        return NotFoundStatus;
      }
      var h := Polled(processes[pid], poll);
      Replace(pid, h);
      s := StatusOf(h);
    }

    /** `process_kill`: kill a registered pid's process. */
    method ProcessKill(pid: int, exitedInTime: bool) returns (result: string)
      requires Valid()
      modifies this
      ensures Valid() && order == old(order)
      ensures pid !in old(processes) ==> result == ProcessNotFound && processes == old(processes)
      ensures pid in old(processes) ==>
        result == KillResult(true, old(processes)[pid].state, exitedInTime)
        && processes == old(processes)[pid := Killed(old(processes)[pid], exitedInTime).0]
    {
      if pid !in processes {
        return ProcessNotFound;
      }
      var k := Killed(processes[pid], exitedInTime);
      Replace(pid, k.0);
      result := k.1;
    }

    /** `process_remove`: kill the process if it is running, clean up, and
        forget the pid, whatever the kill reported. */
    method ProcessRemove(pid: int) returns (result: string)
      requires Valid()
      modifies this
      ensures Valid()
      ensures pid !in old(processes) ==> result == ProcessNotFound && processes == old(processes) && order == old(order)
      ensures pid in old(processes) ==> result == "success"
      ensures processes == old(processes) - {pid} && order == Without(old(order), pid)
    {
      if pid !in processes {
        assert pid !in order by {
          forall i | 0 <= i < |order|
            ensures order[i] != pid
          {
            assert order[i] in processes;
          }
        }
        WithoutAbsent(order, pid);
        assert processes - {pid} == processes;
        return ProcessNotFound;
      }
      var w := Without(order, pid);
      WithoutMembers(order, pid);
      forall i | 0 <= i < |w|
        ensures w[i] in processes - {pid}
      {
        assert w[i] in w;
        var j :| 0 <= j < |order| && order[j] == w[i];
      }
      processes := processes - {pid};
      order := w;
      result := "success";
    }

    /** `process_list`: `(pid, command, state)` for every registered pid in
        registration order, each state refreshed from that process's poll. */
    method ProcessList(poll: int -> Option<int>) returns (r: seq<(int, seq<string>, string)>)
      requires Valid()
      modifies this
      ensures Valid() && order == old(order)
      ensures processes.Keys == old(processes).Keys
      ensures forall p :: p in processes ==> processes[p] == Polled(old(processes)[p], poll(p))
      ensures |r| == |order|
      ensures forall i :: 0 <= i < |r| ==>
        r[i] == (order[i], processes[order[i]].command, StateName(processes[order[i]].state))
    {
      ghost var ps0 := processes;
      var pids := order;
      r := [];
      var i := 0;
      while i < |pids|
        invariant 0 <= i <= |pids| && Valid() && order == pids
        invariant processes.Keys == ps0.Keys
        invariant forall j :: 0 <= j < |pids| ==> pids[j] in ps0
        invariant forall j :: 0 <= j < |pids| ==>
          processes[pids[j]] == if j < i then Polled(ps0[pids[j]], poll(pids[j])) else ps0[pids[j]]
        invariant |r| == i
        invariant forall j :: 0 <= j < i ==>
          r[j] == (pids[j], processes[pids[j]].command, StateName(processes[pids[j]].state))
      {
        var p := pids[i];
        var s := Polled(processes[p], poll(p));
        Replace(p, s);
        r := r + [(p, s.command, StateName(s.state))];
        i := i + 1;
      }
    }

    /** `all_kill`: kill every running process and no other, and report
        `"success"` or the failures, one `"PID p: result"` item each. */
    method AllKill(exited: int -> bool) returns (result: string)
      requires Valid()
      modifies this
      ensures Valid() && order == old(order)
      ensures processes.Keys == old(processes).Keys
      ensures forall p :: p in processes ==> processes[p] == KillStep(old(processes)[p], exited(p))
      ensures result == Aggregate(KillErrors(old(processes), order, exited))
    {
      ghost var ps0 := processes;
      var pids := order;
      var errors := [];
      assert forall p :: p in ps0 ==> p in pids;
      var i := 0;
      assert KilledTo(ps0, processes, pids, i, exited);
      while i < |pids|
        invariant Valid() && order == pids && Distinct(pids)
        invariant KilledTo(ps0, processes, pids, i, exited)
        invariant errors == KillErrors(ps0, pids[..i], exited)
      {
        var p := pids[i];
        KillErrorsNext(ps0, pids, i, exited);
        ghost var before := processes;
        KilledHas(ps0, before, pids, i, exited);
        var item := KillOne(p, exited(p));
        KillStepNext(ps0, before, processes, pids, i, exited);
        errors := errors + item;
        i := i + 1;
      }
      assert pids[..i] == pids;
      KilledAll(ps0, processes, pids, exited);
      result := Aggregate(errors);
    }

    /** One visit of `all_kill`'s loop: kill the session if it is running,
        and return what it adds to the errors. */
    method KillOne(p: int, exitedInTime: bool) returns (item: seq<string>)
      requires Valid() && p in processes
      modifies this
      ensures Valid() && order == old(order)
      ensures processes == old(processes)[p := KillStep(old(processes)[p], exitedInTime)]
      ensures item == KillItem(p, old(processes)[p], exitedInTime)
    {
      var s := processes[p];
      item := [];
      if s.state == Running {
        var k := Killed(s, exitedInTime);
        Replace(p, k.0);
        if Contains(k.1, "failed") {
          item := [PidItem(p, k.1)];
        }
      }
    }

    /** `all_remove`: clean up and forget every process that is not running.
        A cleanup that raises leaves its entry registered and is reported as
        a `"PID p: message"` item. */
    method AllRemove(failure: int -> Option<string>) returns (result: string)
      requires Valid()
      modifies this
      ensures Valid()
      ensures forall p :: p in processes <==> p in old(processes) && !Removable(old(processes)[p], failure(p))
      ensures forall p :: p in processes ==> processes[p] == old(processes)[p]
      ensures order == Kept(old(processes), old(order), failure)
      ensures result == Aggregate(RemoveErrors(old(processes), old(order), failure))
    {
      ghost var ps0 := processes;
      var pids := order;
      var kept := [];
      var errors := [];
      assert forall p :: p in ps0 ==> p in pids;
      var i := 0;
      assert SweptTo(ps0, processes, pids, i, failure);
      while i < |pids|
        invariant Distinct(pids) && forall p :: p in ps0 ==> p in pids
        invariant SweptTo(ps0, processes, pids, i, failure)
        invariant kept == Kept(ps0, pids[..i], failure)
        invariant errors == RemoveErrors(ps0, pids[..i], failure)
      {
        var p := pids[i];
        KeptNext(ps0, pids, i, failure);
        RemoveErrorsNext(ps0, pids, i, failure);
        ghost var before := processes;
        SweptHas(ps0, before, pids, i, failure);
        var item, keep := RemoveOne(p, failure(p));
        SweepStep(ps0, before, processes, pids, i, failure);
        errors := errors + item;
        if keep {
          kept := kept + [p];
        }
        i := i + 1;
      }
      assert pids[..i] == pids;
      SweptRegistry(ps0, processes, pids, failure);
      order := kept;
      result := Aggregate(errors);
    }

    /** One visit of `all_remove`'s loop: clean up and forget a session that
        is not running, unless its cleanup raises. */
    method RemoveOne(p: int, failure: Option<string>) returns (item: seq<string>, keep: bool)
      requires p in processes
      modifies this
      ensures order == old(order)
      ensures keep <==> !Removable(old(processes)[p], failure)
      ensures processes == if keep then old(processes) else old(processes) - {p}
      ensures item == if old(processes)[p].state != Running && failure.Some? then [PidItem(p, failure.value)] else []
    {
      item := [];
      keep := true;
      if processes[p].state != Running {
        match failure {
          case None =>
            processes := processes - {p};
            keep := false;
          case Some(msg) =>
            item := [PidItem(p, msg)];
        }
      }
    }

    /** `all_search`: search every registered process's output. An invalid
        search type or an empty pattern is reported before any process is
        consulted; otherwise the result lists `(pid, matches)` for every
        process with matches, then one `(-1, ...)` entry if any search
        failed. */
    method AllSearch(searchType: string, pattern: Option<string>, maxPerPid: int, re: RegexEngine)
      returns (r: seq<(int, seq<string>)>)
      requires Valid()
      ensures searchType !in SearchTypes ==> r == [(-1, [InvalidSearchType(searchType)])]
      ensures searchType in SearchTypes && EmptyPatternValue(pattern) ==> r == [(-1, [EmptyPattern])]
      ensures searchType in SearchTypes && !EmptyPatternValue(pattern) ==>
        var errors := SearchErrors(processes, order, searchType, pattern, maxPerPid, re);
        r == SearchHits(processes, order, searchType, pattern, maxPerPid, re)
             + if errors == [] then [] else [(-1, [ErrorLine(Join(errors, "; "))])]
    {
      if searchType !in SearchTypes {
        return [(-1, [InvalidSearchType(searchType)])];
      }
      if pattern.None? || pattern.value == "" {
        return [(-1, [EmptyPattern])];
      }
      var pids := order;
      r := [];
      var errors := [];
      var i := 0;
      while i < |pids|
        invariant 0 <= i <= |pids|
        invariant r == SearchHits(processes, pids[..i], searchType, pattern, maxPerPid, re)
        invariant errors == SearchErrors(processes, pids[..i], searchType, pattern, maxPerPid, re)
      {
        var p := pids[i];
        SearchNext(processes, pids, i, searchType, pattern, maxPerPid, re);
        var m := SearchLines(processes[p].lines, searchType, pattern, maxPerPid, re);
        if m != [] && StartsWith(m[0], "ERROR:") {
          errors := errors + [PidItem(p, m[0])];
        } else if m != [] {
          r := r + [(p, m)];
        }
        i := i + 1;
      }
      assert pids[..i] == pids;
      if errors != [] {
        r := r + [(-1, [ErrorLine(Join(errors, "; "))])];
      }
    }

    /** `stdio_get_lines`: the newest `maxLines` lines of a registered pid's
        output (all of them when `maxLines <= 0`), oldest first. */
    function StdioGetLines(pid: int, maxLines: int): (r: seq<string>)
      reads this
      ensures pid !in processes ==> r == [NotFoundLine(pid)]
      ensures pid in processes ==> var lines := processes[pid].lines;
        && (maxLines <= 0 ==> r == lines)
        && (maxLines > 0 ==> |r| == Min(maxLines, |lines|))
        && r == lines[|lines| - |r|..]
    {
      if pid !in processes then [NotFoundLine(pid)]
      else GetLines(processes[pid].lines, maxLines)
    }

    /** `stdio_search_lines`: checks the pid, then the search type, then the
        pattern, and otherwise searches that pid's output. */
    function StdioSearchLines(pid: int, searchType: string, pattern: Option<string>, maxLines: int, re: RegexEngine): (r: seq<string>)
      reads this
      ensures pid !in processes ==> r == [NotFoundLine(pid)]
      ensures pid in processes && searchType !in SearchTypes ==> r == [InvalidSearchType(searchType)]
      ensures pid in processes && searchType in SearchTypes && EmptyPatternValue(pattern) ==> r == [EmptyPattern]
      ensures pid in processes && searchType in SearchTypes && !EmptyPatternValue(pattern) ==>
        r == SearchLines(processes[pid].lines, searchType, pattern, maxLines, re)
    {
      if pid !in processes then [NotFoundLine(pid)]
      else if searchType !in SearchTypes then [InvalidSearchType(searchType)]
      else if pattern.None? || pattern.value == "" then [EmptyPattern]
      else SearchLines(processes[pid].lines, searchType, pattern, maxLines, re)
    }

    /** `stdio_send_line`: write the text, newline-terminated, to a
        registered pid's stdin. */
    method StdioSendLine(pid: int, line: string, writeError: Option<string>) returns (result: string)
      requires Valid()
      modifies this
      ensures Valid() && order == old(order)
      ensures pid !in old(processes) ==> result == ProcessNotFound && processes == old(processes)
      ensures pid in old(processes) ==>
        var s := old(processes)[pid];
        && result == SendResult(true, s.state, s.stdinOpen, writeError)
        && processes == old(processes)[pid := Sent(s, LineToSend(line), writeError).0]
    {
      if pid !in processes {
        return ProcessNotFound;
      }
      var k := Sent(processes[pid], LineToSend(line), writeError);
      Replace(pid, k.0);
      result := k.1;
    }

    /** `stdio_send_chars`: write the text unchanged to a registered pid's
        stdin. */
    method StdioSendChars(pid: int, chars: string, writeError: Option<string>) returns (result: string)
      requires Valid()
      modifies this
      ensures Valid() && order == old(order)
      ensures pid !in old(processes) ==> result == ProcessNotFound && processes == old(processes)
      ensures pid in old(processes) ==>
        var s := old(processes)[pid];
        && result == SendResult(true, s.state, s.stdinOpen, writeError)
        && processes == old(processes)[pid := Sent(s, chars, writeError).0]
    {
      if pid !in processes {
        return ProcessNotFound;
      }
      var k := Sent(processes[pid], chars, writeError);
      Replace(pid, k.0);
      result := k.1;
    }

    /** The processor thread of a registered pid's handler taking `events`
        while the manager is between calls. */
    method ProcessOutput(pid: int, events: seq<Event>, decode: seq<byte> -> string)
      requires Valid()
      modifies this
      ensures Valid() && order == old(order)
      ensures pid !in old(processes) ==> processes == old(processes)
      ensures pid in old(processes) ==> processes == old(processes)[pid := WithOutput(old(processes)[pid], events, decode)]
    {
      if pid in processes {
        var s := processes[pid];
        RunKeepsStarted(Asm(s.partial, s.state, s.error, s.processorDone || s.stopEvent), events);
        Replace(pid, WithOutput(s, events, decode));
      }
    }
  }

  /** `all_kill` has visited the first `i` of `pids`: each visited session
      has taken its kill step, the others are as they were. */
  ghost predicate KilledTo(ps0: map<int, Session>, ps: map<int, Session>, pids: seq<int>, i: int, exited: int -> bool)
  {
    && 0 <= i <= |pids|
    && ps.Keys == ps0.Keys
    && (forall j :: 0 <= j < |pids| ==> pids[j] in ps0)
    && (forall j :: 0 <= j < |pids| ==>
          ps[pids[j]] == if j < i then KillStep(ps0[pids[j]], exited(pids[j])) else ps0[pids[j]])
  }

  /** The next pid to visit is still as it was. */
  lemma KilledHas(ps0: map<int, Session>, ps: map<int, Session>, pids: seq<int>, i: int, exited: int -> bool)
    requires KilledTo(ps0, ps, pids, i, exited) && i < |pids|
    ensures pids[i] in ps && ps[pids[i]] == ps0[pids[i]]
  {
    var p := pids[i];
    assert p in ps0;
    assert ps[p] == ps0[p];
  }

  /** Visiting the next pid applies its kill step and touches no other. */
  lemma KillStepNext(ps0: map<int, Session>, ps: map<int, Session>, ps': map<int, Session>, pids: seq<int>, i: int,
                     exited: int -> bool)
    requires KilledTo(ps0, ps, pids, i, exited) && i < |pids| && Distinct(pids)
    requires pids[i] in ps && ps' == ps[pids[i] := KillStep(ps[pids[i]], exited(pids[i]))]
    ensures KilledTo(ps0, ps', pids, i + 1, exited)
  {
    forall j | 0 <= j < |pids| && j != i
      ensures ps'[pids[j]] == ps[pids[j]]
    {
      assert pids[j] != pids[i];
    }
  }

  /** After the sweep over every registered pid, every session has taken its
      kill step. */
  lemma KilledAll(ps0: map<int, Session>, ps: map<int, Session>, pids: seq<int>, exited: int -> bool)
    requires KilledTo(ps0, ps, pids, |pids|, exited)
    requires forall p :: p in ps0 ==> p in pids
    ensures ps.Keys == ps0.Keys
    ensures forall p :: p in ps ==> ps[p] == KillStep(ps0[p], exited(p))
  {
    forall p | p in ps
      ensures ps[p] == KillStep(ps0[p], exited(p))
    {
      var j :| 0 <= j < |pids| && pids[j] == p;
    }
  }

  /** `all_remove` has visited the first `i` of `pids`: the registry `ps`
      is the starting registry `ps0` less the removable sessions among them. */
  ghost predicate SweptTo(ps0: map<int, Session>, ps: map<int, Session>, pids: seq<int>, i: int, failure: int -> Option<string>)
  {
    && 0 <= i <= |pids|
    && (forall j :: 0 <= j < |pids| ==> pids[j] in ps0)
    && (forall p :: p in ps ==> p in ps0 && ps[p] == ps0[p])
    && (forall j :: 0 <= j < |pids| ==>
          (pids[j] in ps <==> j >= i || !Removable(ps0[pids[j]], failure(pids[j]))))
  }

  /** The next pid to visit is still registered, unchanged. */
  lemma SweptHas(ps0: map<int, Session>, ps: map<int, Session>, pids: seq<int>, i: int, failure: int -> Option<string>)
    requires SweptTo(ps0, ps, pids, i, failure) && i < |pids|
    ensures pids[i] in ps && ps[pids[i]] == ps0[pids[i]]
  {
    var p := pids[i];
    assert p in ps;
    assert p in ps0 && ps[p] == ps0[p];
  }

  /** Visiting the next pid removes it exactly when it is removable. */
  lemma SweepStep(ps0: map<int, Session>, ps: map<int, Session>, ps': map<int, Session>, pids: seq<int>, i: int, failure: int -> Option<string>)
    requires SweptTo(ps0, ps, pids, i, failure) && i < |pids| && Distinct(pids)
    requires ps' == if Removable(ps[pids[i]], failure(pids[i])) then ps - {pids[i]} else ps
    ensures SweptTo(ps0, ps', pids, i + 1, failure)
  {
    forall j | 0 <= j < |pids| && j != i
      ensures pids[j] in ps' <==> pids[j] in ps
    {
      assert pids[j] != pids[i];
    }
  }

  /** After `all_remove`'s sweep over every registered pid, the kept pids
      are exactly the sessions left registered, each listed once. */
  lemma SweptRegistry(ps0: map<int, Session>, ps: map<int, Session>, pids: seq<int>, failure: int -> Option<string>)
    requires Distinct(pids)
    requires forall p :: p in ps0 ==> p in pids
    requires SweptTo(ps0, ps, pids, |pids|, failure)
    ensures var k := Kept(ps0, pids, failure);
      && Distinct(k)
      && (forall i :: 0 <= i < |k| ==> k[i] in ps)
      && (forall p :: p in ps ==> p in k)
      && (forall p :: p in ps <==> p in ps0 && !Removable(ps0[p], failure(p)))
  {
    var k := Kept(ps0, pids, failure);
    KeptMembers(ps0, pids, failure);
    forall p | p in ps0
      ensures p in ps <==> !Removable(ps0[p], failure(p))
    {
      var j :| 0 <= j < |pids| && pids[j] == p;
    }
    forall i | 0 <= i < |k|
      ensures k[i] in ps
    {
      assert k[i] in k;
    }
  }

  /** A fresh handler with the default budget, started on `command`: what
      `start` reported, and the session it stands for afterwards. */
  method Launch(command: seq<string>, spawn: Spawn) returns (status: string, pid: Option<Pid>, s: Session)
    ensures (status, pid) == StartOutcome(false, command, spawn)
    ensures pid.Some? ==> s == Started(command)
  {
    var h := new ProcessHandler(command, DefaultBufferSize);
    status, pid := h.Start(spawn);
    s := SessionOf(h);
  }

  /** Deleting a key that is not there changes nothing. */
  lemma {:induction false} WithoutAbsent(order: seq<int>, pid: int)
    requires pid !in order
    ensures Without(order, pid) == order
    decreases |order|
  {
    if order != [] {
      var init := order[..|order| - 1];
      WithoutAbsent(init, pid);
      assert order == init + [order[|order| - 1]];
    }
  }
}
