# MCP process manager — a Dafny model

The MCP process manager starts operating-system processes and keeps them in a
registry keyed by pid. It captures each process's stdout and stderr, one byte
at a time, into a byte-budgeted ring buffer of text lines. It answers status,
kill, remove, list, read, search and stdin-write requests for one pid or for
every registered pid. This project models the three core classes:

- `RingBuffer` (`ring_buffer.dfy`, module `RingBuffers`) is a class.
  - Its `buffer` field is a `seq<string>` and its byte counter is a field.
  - The entry sizes are real UTF-8 lengths.
  - The pure reads (`GetLines`, the three searches) are functions of the buffered lines.
- `ProcessHandler` (`process_handler.dfy`, module `ProcessHandlers`) is a class.
  - It keeps the lifecycle fields, the stdin written so far, the processor's partial line and the buffer.
  - The processor thread's loop is a method over a sequence of queue events.
  - That method is proved against `Run`, a fold of the one-iteration function `Step`.
- `ProcessManager` (`process_manager.dfy`, module `ProcessManagers`) is a class.
  - The registry is a `map<int, Session>`, together with an `order` sequence that gives the dict's insertion order.
  - The loops over every entry (`process_list`, `all_kill`, `all_remove`, `all_search`) are `while` loops.
  - Each loop is proved against a function that gives its collected errors or results.

Two small helper modules support them:

- `text.dfy` (module `Text`) has the Python string operations used: `in`, `startswith`, `strip`, `"".join`, `s[-n:]` and integer formatting.
- `glob.dfy` (module `Glob`) has the `*`/`?` subset of `fnmatch`.

The operating system is never consulted. Everything the source learns from
it is a parameter:

| Input | What it stands for |
|---|---|
| `Spawn` | the outcome of `subprocess.Popen` |
| `poll` | the exit code `poll()` returns, `None` while running |
| `exitedInTime` / `exited` | whether a killed process exited before the timeout |
| `writeError` | whether a stdin write raised |
| `alive` | whether the process was still alive at cleanup |
| `failure` | whether a cleanup raised in `all_remove` |
| `RegexEngine` | Python's `re` module: compile errors and `search` |
| `decode` | the UTF-8 decoder with replacement |

The reader and processor threads become a sequence of `Event`s. Each event is
a data byte from either pipe, a reader error, or a timed-out wait on the
queue that carries the poll result and whether the queue was empty.

Behaviour of the code worth noting:

- A reader error records the error and the `"error"` state. The processor loop then goes on; it does not stop.
- `kill` accepts the `"error"` state as killable, as well as `"running"`. An exit-code state such as `"error: Exit code 1"` is not killable.
- Committed lines keep their newline byte.
- A `regex` search with a `None` pattern reports an error only when the buffer is non-empty.

## Model

| member | source | states |
|---|---|---|
| RingBuffers.Utf8Len | src/mcp_process_manager/ring_buffer.py:61 | the UTF-8 size is at least the character count, with equality exactly for ASCII text |
| RingBuffers.FitTailSpec | src/mcp_process_manager/ring_buffer.py:65-68 | the stored entry is a suffix of the data that fits the byte budget, and it is the longest such suffix |
| RingBuffers.FitTailOfAscii | src/mcp_process_manager/ring_buffer.py:65-68 | for ASCII data over budget, the stored entry is the last `max_size_bytes` characters and has exactly that many bytes |
| RingBuffers.Evicted | src/mcp_process_manager/ring_buffer.py:72-76 | the eviction loop pops at most every entry, and it stops only once the new entry fits or the deque is empty |
| RingBuffers.EvictionIsMinimal | src/mcp_process_manager/ring_buffer.py:72-76 | popping fewer entries than `Evicted` would leave the new entry over budget, so nothing is evicted needlessly |
| RingBuffers.Appended | src/mcp_process_manager/ring_buffer.py:53-84 | after an append the newest entry is the stored data, at most one entry was added, and the buffer holds at most `max_size_bytes` bytes |
| RingBuffers.AppendedKeepsNewestEntries | src/mcp_process_manager/ring_buffer.py:72-83 | an append drops only a prefix of the oldest entries and keeps the rest, in order |
| RingBuffers.OversizedEntryFillsBuffer | src/mcp_process_manager/ring_buffer.py:65-83 | an over-budget ASCII entry leaves exactly its last `max_size_bytes` bytes buffered, with every older entry empty or gone |
| RingBuffers.AppendWithinBudgetEvictsNothing | src/mcp_process_manager/ring_buffer.py:72-83 | an entry that fits is appended and nothing is evicted |
| RingBuffers.AppendedAll | src/mcp_process_manager/ring_buffer.py:53-84 | after a series of appends the newest entry is the last data stored and the budget holds |
| RingBuffers.AppendedAllInBatches | src/mcp_process_manager/ring_buffer.py:53-84 | appending two batches one after the other equals appending their concatenation |
| RingBuffers.AppendedAllWithinBudget | src/mcp_process_manager/ring_buffer.py:53-84 | while everything fits, appends only add entries, in order |
| RingBuffers.RingBuffer.constructor | src/mcp_process_manager/ring_buffer.py:31-41 | a new buffer is empty, with a zero counter and the given budget |
| RingBuffers.RingBuffer.Append | src/mcp_process_manager/ring_buffer.py:53-84 | the deque becomes `Appended` of the old one, and the counter stays equal to the bytes held and within budget |
| RingBuffers.RingBuffer.Clear | src/mcp_process_manager/ring_buffer.py:213-218 | the buffer becomes empty with a zero counter |
| RingBuffers.RingBuffer.GetSize | src/mcp_process_manager/ring_buffer.py:220-229 | the size reported is the total UTF-8 size of the buffered lines, and it is within budget |
| RingBuffers.Filter | src/mcp_process_manager/ring_buffer.py:129 | the matches are no more than the lines, and every one is a hit |
| RingBuffers.FilterIsSubsequence | src/mcp_process_manager/ring_buffer.py:129 | the matches are a subsequence of the buffer, in buffer order |
| RingBuffers.FilterKeepsEveryMatch | src/mcp_process_manager/ring_buffer.py:129 | every matching line is kept as often as it occurs, and no other line is kept |
| RingBuffers.LastMatches | src/mcp_process_manager/ring_buffer.py:136-138 | the result is all matches when `max_lines <= 0`, and otherwise exactly the last `min(max_lines, matches)` of them, in order |
| RingBuffers.GetLines | src/mcp_process_manager/ring_buffer.py:86-106 | `max_lines <= 0` gives every line; otherwise the newest `min(max_lines, size)` lines, oldest first |
| RingBuffers.ErrorLineIsMarked | src/mcp_process_manager/ring_buffer.py:126 | every error line starts with `ERROR:` |
| RingBuffers.SearchString | src/mcp_process_manager/ring_buffer.py:108-138 | a `None` pattern is an error line; otherwise the last matches of the lines containing the pattern |
| RingBuffers.SearchRegex | src/mcp_process_manager/ring_buffer.py:140-178 | a pattern that does not compile gives one error line; a `None` pattern gives an error only over a non-empty buffer; otherwise the last lines the regex finds |
| RingBuffers.SearchWildcard | src/mcp_process_manager/ring_buffer.py:180-211 | an empty or `None` pattern is an error line; otherwise the last lines whose stripped text the pattern matches |
| RingBuffers.StarTaHit | src/mcp_process_manager/ring_buffer.py:202 | `*ta` matches a newline-terminated line exactly when its text ends in `ta` |
| RingBuffers.WildcardSearchExample | test/test_process_manager.py:317-320 | a wildcard search for `*ta` over Alpha, Beta, Gamma, Delta finds Beta and Delta |
| RingBuffers.StringSearchExample | test/test_process_manager.py:304-306 | a string search for `eta` over the same four lines finds only Beta |
| RingBuffers.SourceEvictExact | src/mcp_process_manager/ring_buffer.py:72-76 | with an exact counter, the source's eviction loop pops exactly `Evicted` entries and keeps the counter exact |
| RingBuffers.SourceAgreesWhenTruncationIsHarmless | src/mcp_process_manager/ring_buffer.py:53-84 | when the entry fits, or is ASCII with a positive budget, the source's append and the corrected `Appended` agree |
| RingBuffers.AsWrittenMultiByteOverflow | src/mcp_process_manager/ring_buffer.py:65-68 | with a 2-byte budget, the source as written ends up holding 3 bytes while its counter says 1 |
| RingBuffers.AsWrittenZeroCapacityGrows | src/mcp_process_manager/ring_buffer.py:65-83 | with a zero budget, the source as written keeps every line whole and never evicts |
| RingBuffers.ZeroCapacityKeepsNoBytes | src/mcp_process_manager/ring_buffer.py:65-83 | with a zero budget, the corrected append holds only empty strings |
| Glob.LiteralMatchesItself | src/mcp_process_manager/ring_buffer.py:202 | a pattern without wildcards matches exactly itself |
| Glob.StarLiteralIsEndsWith | src/mcp_process_manager/ring_buffer.py:202 | `*` followed by a literal matches exactly the texts ending in that literal |
| Glob.QuestionMarksMatchLength | src/mcp_process_manager/ring_buffer.py:202 | `k` question marks match exactly the texts of length `k` |
| ProcessHandlers.StateNameInjective | src/mcp_process_manager/process_handler.py:231-237 | distinct lifecycle states have distinct state strings |
| ProcessHandlers.ExitState | src/mcp_process_manager/process_handler.py:233-237 | exit code 0 gives `"completed"` and any other code gives `"error: Exit code N"`; it is never `"running"` |
| ProcessHandlers.ExitStateIdentifiesCode | src/mcp_process_manager/process_handler.py:237 | the state string identifies the exit code |
| ProcessHandlers.PolledState | src/mcp_process_manager/process_handler.py:263-271 | only a running state changes, only when the poll returned a code, and then to the exit state of that code |
| ProcessHandlers.PolledStateIsFinal | src/mcp_process_manager/process_handler.py:263-271 | once an exit was seen, later polls change nothing |
| ProcessHandlers.StartOutcome | src/mcp_process_manager/process_handler.py:66-161 | a pid is returned exactly when no process existed, the command is non-empty and the spawn succeeded; every other outcome is its own `failed: ` message |
| ProcessHandlers.KillResult | src/mcp_process_manager/process_handler.py:286-331 | success exactly when a process exists, its state is running or error, and it exited within the timeout; otherwise the matching `failed: ` message, the timeout message when the process outlived the wait |
| ProcessHandlers.KillFailedIff | src/mcp_process_manager/process_handler.py:286-331 | a kill result contains `failed` exactly when it is not `success` |
| ProcessHandlers.SendResult | src/mcp_process_manager/process_handler.py:432-458 | a write succeeds exactly when there is a process, it is running, stdin is open and the write raised nothing; each failure is a `failed: ` message |
| ProcessHandlers.LineToSend | src/mcp_process_manager/process_handler.py:444-446 | the text written is newline-terminated, extends the line by at most one character, and equals it exactly when it already ended in a newline |
| ProcessHandlers.LineToSendIdempotent | src/mcp_process_manager/process_handler.py:444-446 | terminating an already terminated line changes nothing |
| ProcessHandlers.SummaryIsTailOfRecentOutput | src/mcp_process_manager/process_handler.py:273-277 | the summary is the last `min(300, n)` characters of the newest five lines joined |
| ProcessHandlers.SummaryOfShortOutput | src/mcp_process_manager/process_handler.py:273-277 | up to five lines of at most 300 characters in all are reported whole |
| ProcessHandlers.SummaryEndsWithNewestLine | src/mcp_process_manager/process_handler.py:273-277 | the summary ends with the newest line, or with its last 300 characters |
| ProcessHandlers.SearchLines | src/mcp_process_manager/process_handler.py:374-416 | each search type dispatches to its buffer search; an unknown type gives one error line |
| ProcessHandlers.SearchIsErrorOrMatches | src/mcp_process_manager/process_handler.py:374-416 | a search returns one `ERROR:` line, or a subsequence of the buffer of at most `max_lines` lines |
| ProcessHandlers.StepAccountsForItsByte | src/mcp_process_manager/process_handler.py:204-226 | one iteration loses and reorders no byte: the lines it commits followed by the new partial line are the old partial line plus the byte taken in; it commits only whole lines, and the partial line never holds a newline |
| ProcessHandlers.StreamsShareOneLine | src/mcp_process_manager/process_handler.py:204-214 | stdout and stderr bytes feed the same partial line |
| ProcessHandlers.RunStopsForGood | src/mcp_process_manager/process_handler.py:240-243 | once the processor has stopped, later events change nothing |
| ProcessHandlers.RunKeepsStarted | src/mcp_process_manager/process_handler.py:193-243 | the processor never returns a started handler to `"initialized"` |
| ProcessHandlers.RunAccountsForEveryByte | src/mcp_process_manager/process_handler.py:204-226 | the committed lines followed by the partial line are exactly the bytes taken in, and each committed line has a newline at most at its end |
| ProcessHandlers.LiveRunConsumesAll | src/mcp_process_manager/process_handler.py:193-216 | a processor still running has taken in every data byte it was given |
| ProcessHandlers.ProcessHandler.constructor | src/mcp_process_manager/process_handler.py:30-52 | a new handler is initialized, with no process, no error and an empty buffer of the given size |
| ProcessHandlers.ProcessHandler.Start | src/mcp_process_manager/process_handler.py:66-161 | it returns `StartOutcome`; a spawn that succeeds leaves the handler running with stdin open; a spawn that fails records the error state; otherwise nothing changes |
| ProcessHandlers.ProcessHandler.ProcessOutput | src/mcp_process_manager/process_handler.py:187-248 | the processor loop ends in `Run`'s state, and it appends `Run`'s committed lines, decoded, to the buffer in order |
| ProcessHandlers.ProcessHandler.Take | src/mcp_process_manager/process_handler.py:195-243 | one loop iteration performs `Step` and appends what it commits to the buffer |
| ProcessHandlers.ProcessHandler.TakeByte | src/mcp_process_manager/process_handler.py:205-214 | a newline commits the partial line plus the newline; any other byte extends the partial line |
| ProcessHandlers.ProcessHandler.TakeIdle | src/mcp_process_manager/process_handler.py:218-243 | an idle wait commits any partial line, applies the poll result, and stops the loop when the exit was seen with an empty queue |
| ProcessHandlers.ProcessHandler.FlushLine | src/mcp_process_manager/process_handler.py:219-226 | a non-empty partial line is committed without a newline, and the partial line is emptied |
| ProcessHandlers.ProcessHandler.CommitLine | src/mcp_process_manager/process_handler.py:210-212 | the decoded line is appended to the buffer and recorded as committed |
| ProcessHandlers.ProcessHandler.GetStatus | src/mcp_process_manager/process_handler.py:250-284 | the state is refreshed from the poll, and the report is the command, the state string and the summary of the buffer |
| ProcessHandlers.ProcessHandler.Kill | src/mcp_process_manager/process_handler.py:286-331 | it returns `KillResult`; on success the state is `"completed"` and the stop event is set; on failure state and stop event are unchanged |
| ProcessHandlers.ProcessHandler.Cleanup | src/mcp_process_manager/process_handler.py:333-354 | the stop event is set, stdin is closed if there is a process, and a live process is sent a kill |
| ProcessHandlers.ProcessHandler.GetOutputLines | src/mcp_process_manager/process_handler.py:356-372 | every line when `max_lines <= 0`, otherwise the newest `min(max_lines, size)` lines, oldest first |
| ProcessHandlers.ProcessHandler.SendLine | src/mcp_process_manager/process_handler.py:418-458 | it returns `SendResult`, and only on success the newline-terminated line is appended to stdin |
| ProcessHandlers.ProcessHandler.SendChars | src/mcp_process_manager/process_handler.py:460-496 | it returns `SendResult`, and only on success the characters are appended to stdin unchanged |
| ProcessManagers.Aggregate | src/mcp_process_manager/process_manager.py:276-280 | the aggregate result is `success` exactly when no error was collected, and otherwise `failed: ` followed by the errors joined with `; ` |
| ProcessManagers.NotFoundStateIsNoState | src/mcp_process_manager/process_manager.py:148-154 | the not-found status string is never the state string of a registered process |
| ProcessManagers.CommandError | src/mcp_process_manager/process_manager.py:105-113 | a command is accepted exactly when it is a non-empty list; every rejection is a `failed: ` message |
| ProcessManagers.KillItemIsTimeout | src/mcp_process_manager/process_manager.py:265-269 | only a running process that did not exit in time adds an item, and that item carries the timeout message |
| ProcessManagers.KillErrorsEmptyIff | src/mcp_process_manager/process_manager.py:258-280 | `all_kill` collects no error exactly when every running process exited within the timeout |
| ProcessManagers.KillErrorsNameStuckPids | src/mcp_process_manager/process_manager.py:264-269 | every error item names a running pid that did not exit in time |
| ProcessManagers.KillErrorsNameEveryStuckPid | src/mcp_process_manager/process_manager.py:264-269 | every running pid that did not exit in time has its `PID p: ` timeout item among the errors |
| ProcessManagers.RemoveErrorsEmptyIff | src/mcp_process_manager/process_manager.py:297-319 | `all_remove` collects no error exactly when every cleanup it ran succeeded |
| ProcessManagers.RemoveErrorsNameFailures | src/mcp_process_manager/process_manager.py:298-310 | every error item names a visited pid that is not running and whose cleanup raised, with that cleanup's message |
| ProcessManagers.RemoveErrorsNameEveryFailure | src/mcp_process_manager/process_manager.py:298-310 | every pid that is not running and whose cleanup raised has its `PID p: message` item among the errors |
| ProcessManagers.KeptMembers | src/mcp_process_manager/process_manager.py:297-310 | the pids kept are exactly the visited registered pids that could not be removed, in order and without repeats |
| ProcessManagers.SearchHitsAreMatches | src/mcp_process_manager/process_manager.py:356-368 | every `(pid, matches)` entry is a registered pid with the non-empty, non-error result of its search |
| ProcessManagers.SearchHitsAreComplete | src/mcp_process_manager/process_manager.py:356-368 | every registered pid whose search found something that is not an error has an entry |
| ProcessManagers.SearchErrorsEmptyIff | src/mcp_process_manager/process_manager.py:356-376 | `all_search` collects no error exactly when no process's search failed |
| ProcessManagers.SearchErrorsNameFailures | src/mcp_process_manager/process_manager.py:356-364 | every error item names a visited pid whose search failed, with its error line |
| ProcessManagers.SearchErrorsNameEveryFailure | src/mcp_process_manager/process_manager.py:356-364 | every pid whose search failed has its `PID p: ERROR...` item among the errors |
| ProcessManagers.WithoutMembers | src/mcp_process_manager/process_manager.py:219-220 | deleting a key keeps every other key, in order and without repeats |
| ProcessManagers.Launch | src/mcp_process_manager/process_manager.py:115-117 | a fresh handler is started, and a success yields a running session for the command |
| ProcessManagers.ProcessManager.constructor | src/mcp_process_manager/process_manager.py:31-38 | a new manager has no processes |
| ProcessManagers.ProcessManager.ProcessStart | src/mcp_process_manager/process_manager.py:90-131 | validation errors come first; otherwise the handler's start outcome is returned; only a success registers the new running session |
| ProcessManagers.ProcessManager.Register | src/mcp_process_manager/process_manager.py:119-121 | the pid maps to the session, and a new pid goes at the end of the order |
| ProcessManagers.ProcessManager.ProcessStatus | src/mcp_process_manager/process_manager.py:133-158 | an unknown pid gives the fixed not-found status; a known pid gives its refreshed status |
| ProcessManagers.ProcessManager.ProcessKill | src/mcp_process_manager/process_manager.py:160-185 | an unknown pid fails with `Process not found`; otherwise that handler's kill result and new state |
| ProcessManagers.ProcessManager.ProcessRemove | src/mcp_process_manager/process_manager.py:187-222 | an unknown pid fails; a known pid is forgotten and the result is `success`, whatever its kill reported |
| ProcessManagers.ProcessManager.ProcessList | src/mcp_process_manager/process_manager.py:224-244 | one `(pid, command, state)` per registered pid in registration order, with every state refreshed from its poll |
| ProcessManagers.ProcessManager.AllKill | src/mcp_process_manager/process_manager.py:246-280 | every running process, and no other, takes a kill step; the result aggregates `KillErrors` |
| ProcessManagers.ProcessManager.KillOne | src/mcp_process_manager/process_manager.py:264-269 | one visit kills the pid if it is running and returns its error item |
| ProcessManagers.ProcessManager.AllRemove | src/mcp_process_manager/process_manager.py:282-319 | exactly the processes that are not running and whose cleanup succeeded are forgotten, the rest keep their order, and the result aggregates `RemoveErrors` |
| ProcessManagers.ProcessManager.RemoveOne | src/mcp_process_manager/process_manager.py:298-310 | one visit forgets the pid when it is removable and returns its error item |
| ProcessManagers.ProcessManager.AllSearch | src/mcp_process_manager/process_manager.py:321-379 | an invalid type and then an empty pattern are reported first; otherwise the hits in registration order, then one `(-1, ...)` entry joining the errors if there are any |
| ProcessManagers.ProcessManager.StdioGetLines | src/mcp_process_manager/process_manager.py:381-410 | an unknown pid gives one error line; otherwise the newest lines of its buffer, oldest first |
| ProcessManagers.ProcessManager.StdioSearchLines | src/mcp_process_manager/process_manager.py:412-461 | it checks the pid, then the search type, then the pattern, and otherwise returns that pid's search |
| ProcessManagers.ProcessManager.StdioSendLine | src/mcp_process_manager/process_manager.py:463-489 | an unknown pid fails; otherwise the handler's `send_line` result, with the line terminated and written only on success |
| ProcessManagers.ProcessManager.StdioSendChars | src/mcp_process_manager/process_manager.py:491-517 | an unknown pid fails; otherwise the handler's `send_chars` result, with the characters written only on success |
| ProcessManagers.ProcessManager.ProcessOutput | src/mcp_process_manager/process_handler.py:187-248 | a registered pid's session takes the processor's events as `Run` defines; other sessions are unchanged |

## Left out

- Logging, the `_truncate_for_logging` helpers and the log-directory setup: none of it affects a result.
- The locks and the real concurrency of the reader and processor threads.
  - The processor is a sequential fold over the events it takes from the queue.
  - The interleaving of those events with tool calls is not modelled.
- The queue timeout, the kill wait loop and every `timeout` argument. Their effect arrives as the `Idle` event and the `exitedInTime` input.
- The operating system calls are inputs: spawning, polling, killing, pipe reads and writes, and closing stdin.
- Regular expressions are not interpreted. `RegexEngine` supplies the compile error and the `search` result.
- `fnmatch` character classes (`[...]`) and case-folding: `Glob.Match` handles `*`, `?` and literal characters.
- UTF-8 decoding with replacement is the `decode` parameter.
  - Strings are sequences of Unicode scalar values.
  - The byte size of an entry is its real UTF-8 length.
- The generic `except Exception` branches that could only be reached through failures of the Python runtime: a failed `ProcessHandler` construction, a failed search or read, a failed kill, a processor crash.
  - The spawn exceptions and the cleanup and write exceptions the source names are modelled.
- `ProcessHandlers.ProcessHandler.SearchOutput` has no contract of its own. It returns `SearchLines` of the buffer, which `SearchLines` and `SearchIsErrorOrMatches` specify.
- `ProcessHandlers.Summary` has no contract of its own. `SummaryIsTailOfRecentOutput` states what it computes.
- ProcessManagers.ProcessManager: a registered handler is reduced to a `Session` value.
  - Each operation applies the handler module's function of that state, which the handler methods are proved against.
  - Object identity is not modelled. Neither are handlers that are still shared with running threads.
- ProcessManagers.ProcessManager.ProcessRemove: does not model the effects of the kill and the cleanup on the removed handler, because the handler is dropped from the registry right after them.
- ProcessManagers.ProcessManager.AllRemove: does not model the effects of a cleanup that raised part way through. The entry is kept as it was.
- The `RingBuffer` that the handler and the manager use is the corrected one from the first Findings row. Its `Append` keeps the longest suffix that fits the byte budget. ring_buffer.py:65-68 cuts by characters instead, and the two differ on multi-byte text and on a zero budget. The code as written is modelled separately, by `SourceAppend`.
- The `main` entry point, the FastMCP tool wrappers and `__init__.py` are not part of this model.

## Findings

| source | as written | input that shows it | evidently intended | confidence | as-written member | corrected member |
|---|---|---|---|---|---|---|
| src/mcp_process_manager/ring_buffer.py:65-68 | an over-budget entry is cut to its last `max_size_bytes` characters but counted as `max_size_bytes` bytes, so the counter drifts from the real size | budget 2, then append `"éé"` (4 bytes), then `"a"`, then `"bb"`: the buffer holds `["a", "bb"]`, which is 3 bytes, while the counter says 1 | keep the longest suffix within `max_size_bytes` bytes, count its real size, and never hold more than the budget | not executed | RingBuffers.AsWrittenMultiByteOverflow | RingBuffers.RingBuffer.Append |
| src/mcp_process_manager/ring_buffer.py:65-68 | with `max_size_bytes == 0`, `data[-0:]` is the whole line and is counted as 0 bytes, so nothing is ever evicted | budget 0, then append any non-empty line: it is stored whole and the buffer grows by one line per append | a zero budget holds no bytes | not executed | RingBuffers.AsWrittenZeroCapacityGrows | RingBuffers.ZeroCapacityKeepsNoBytes |
