/** The byte-budgeted line buffer that holds a process's captured output
    (src/mcp_process_manager/ring_buffer.py).

    Lines are text (`seq<char>`, one Unicode scalar value per char) and their
    size is their UTF-8 encoding length, as `len(data.encode('utf-8'))`.
    Appending evicts the oldest lines until the new one fits; the reads
    (`get_lines` and the three searches) are pure functions of the current
    contents. */
module RingBuffers {
  import opened Text
  import Glob

  /* ---------------------------------------------------------------- sizes */

  /** Number of bytes UTF-8 uses for one code point. */
  function CharBytes(c: char): (n: nat)
    ensures 1 <= n <= 4
    ensures n == 1 <==> (c as int) < 0x80
  {
    if (c as int) < 0x80 then 1
    else if (c as int) < 0x800 then 2
    else if (c as int) < 0x10000 then 3
    else 4
  }

  predicate IsAscii(s: string) {
    forall i :: 0 <= i < |s| ==> (s[i] as int) < 0x80
  }

  /** `len(s.encode('utf-8'))`. */
  function Utf8Len(s: string): (n: nat)
    ensures n >= |s|
    ensures n == |s| <==> IsAscii(s)
  {
    if s == [] then 0 else CharBytes(s[0]) + Utf8Len(s[1..])
  }

  /** Total encoded size of a sequence of lines. */
  function TotalBytes(lines: seq<string>): nat {
    if lines == [] then 0 else Utf8Len(lines[0]) + TotalBytes(lines[1..])
  }

  lemma {:induction false} TotalBytesSnoc(lines: seq<string>, x: string)
    ensures TotalBytes(lines + [x]) == TotalBytes(lines) + Utf8Len(x)
    decreases |lines|
  {
    if lines != [] {
      assert (lines + [x])[1..] == lines[1..] + [x];
      TotalBytesSnoc(lines[1..], x);
    }
  }

  /** Lines that take no bytes at all are empty strings. */
  lemma {:induction false} ZeroBytesMeansEmpty(lines: seq<string>)
    requires TotalBytes(lines) == 0
    ensures forall i :: 0 <= i < |lines| ==> lines[i] == ""
    decreases |lines|
  {
    if lines != [] {
      ZeroBytesMeansEmpty(lines[1..]);
      assert forall i :: 1 <= i < |lines| ==> lines[i] == lines[1..][i - 1];
    }
  }

  /* ----------------------------------------------------------- truncation */

  /** The longest suffix of `data` whose encoding fits in `max` bytes: the
      trailing part of an over-long entry that the buffer keeps. */
  function FitTail(data: string, max: nat): string
    decreases |data|
  {
    if Utf8Len(data) <= max then data else FitTail(data[1..], max)
  }

  /** `FitTail` keeps a suffix that fits, and keeping one more character
      would not fit. */
  lemma {:induction false} FitTailSpec(data: string, max: nat)
    ensures var r := FitTail(data, max);
      && |r| <= |data| && r == data[|data| - |r|..]
      && Utf8Len(r) <= max
      && (r == data || Utf8Len(data[|data| - |r| - 1..]) > max)
    decreases |data|
  {
    if Utf8Len(data) > max {
      var r := FitTail(data[1..], max);
      FitTailSpec(data[1..], max);
      assert data[1..][|data| - 1 - |r|..] == data[|data| - |r|..];
      assert r != data[1..] ==> data[1..][|data| - 1 - |r| - 1..] == data[|data| - |r| - 1..];
    }
  }

  /** For one-byte text the kept suffix is exactly the last `max` characters,
      which is what `data[-max_size_bytes:]` keeps when `max_size_bytes > 0`. */
  lemma FitTailOfAscii(data: string, max: nat)
    requires IsAscii(data) && Utf8Len(data) > max
    ensures FitTail(data, max) == data[|data| - max..]
    ensures Utf8Len(FitTail(data, max)) == max
  {
    FitTailSpec(data, max);
    var r := FitTail(data, max);
    AsciiSuffixLen(data, |data| - |r|);
    AsciiSuffixLen(data, |data| - |r| - 1);
  }

  /** Every suffix of one-byte text takes one byte per character. */
  lemma AsciiSuffixLen(data: string, k: nat)
    requires IsAscii(data) && k <= |data|
    ensures Utf8Len(data[k..]) == |data| - k
  {
    var u := data[k..];
    assert IsAscii(u) by {
      forall i | 0 <= i < |u| ensures (u[i] as int) < 0x80 {
        assert u[i] == data[k + i];
      }
    }
  }

  /* ------------------------------------------------------------- eviction */

  /** How many head entries the eviction loop pops before an entry of `need`
      bytes fits, when the size counter equals the buffer's byte total: the
      loop keeps popping while `current_size + data_size > max_size_bytes`
      and the deque is non-empty. */
  function Evicted(buf: seq<string>, need: int, max: int): (k: nat)
    ensures k <= |buf|
    ensures k == |buf| || TotalBytes(buf[k..]) + need <= max
    decreases |buf|
  {
    if buf != [] && TotalBytes(buf) + need > max then
      var k := 1 + Evicted(buf[1..], need, max);
      assert buf[1..][k - 1..] == buf[k..];
      k
    else
      assert buf[0..] == buf;
      0
  }

  /** Eviction is minimal: before each popped entry the new one still did not fit. */
  lemma {:induction false} EvictionIsMinimal(buf: seq<string>, need: int, max: int, j: nat)
    requires j < Evicted(buf, need, max)
    ensures TotalBytes(buf[j..]) + need > max
    decreases |buf|
  {
    assert buf[0..] == buf;
    if j > 0 {
      EvictionIsMinimal(buf[1..], need, max, j - 1);
      assert buf[1..][j - 1..] == buf[j..];
    }
  }

  /** The contents after `append(data)`: a suffix of the old contents (the
      oldest entries evicted, fewest possible) followed by the new entry,
      itself cut to the trailing characters that fit in `max` bytes. */
  function Appended(buf: seq<string>, data: string, max: nat): (r: seq<string>)
    ensures 1 <= |r| <= |buf| + 1 && r[|r| - 1] == FitTail(data, max)
    ensures TotalBytes(r) <= max
  {
    var stored := FitTail(data, max);
    FitTailSpec(data, max);
    var k := Evicted(buf, Utf8Len(stored), max);
    TotalBytesSnoc(buf[k..], stored);
    buf[k..] + [stored]
  }

  /** Nothing but eviction happens to the old entries: what survives is the
      newest part of the old contents, unchanged and in order. */
  lemma AppendedKeepsNewestEntries(buf: seq<string>, data: string, max: nat)
    ensures var r := Appended(buf, data, max);
      r == buf[|buf| - (|r| - 1)..] + [FitTail(data, max)]
  {
  }

  /** An over-long one-byte entry ends up filling the whole budget by itself:
      its last `max` characters are kept, the total is exactly `max`, and
      every older entry still present takes no bytes. */
  lemma OversizedEntryFillsBuffer(buf: seq<string>, data: string, max: nat)
    requires IsAscii(data) && Utf8Len(data) > max
    ensures var r := Appended(buf, data, max);
      && r[|r| - 1] == data[|data| - max..]
      && TotalBytes(r) == max
      && forall i :: 0 <= i < |r| - 1 ==> r[i] == ""
  {
    FitTailOfAscii(data, max);
    var stored := FitTail(data, max);
    var k := Evicted(buf, Utf8Len(stored), max);
    var r := Appended(buf, data, max);
    assert r == buf[k..] + [stored];
    TotalBytesSnoc(buf[k..], stored);
    assert TotalBytes(buf[k..]) == 0;
    ZeroBytesMeansEmpty(buf[k..]);
    forall i | 0 <= i < |r| - 1
      ensures r[i] == ""
    {
      assert r[i] == buf[k..][i];
    }
  }

  /** When the old contents and the new entry fit in the budget together,
      nothing is evicted and nothing is cut. */
  lemma AppendWithinBudgetEvictsNothing(buf: seq<string>, data: string, max: nat)
    requires TotalBytes(buf) + Utf8Len(data) <= max
    ensures Appended(buf, data, max) == buf + [data]
  {
    assert FitTail(data, max) == data;
    assert Evicted(buf, Utf8Len(data), max) == 0;
    assert buf[0..] == buf;
  }

  /** The contents after appending `items` one after the other. */
  function AppendedAll(buf: seq<string>, items: seq<string>, max: nat): (r: seq<string>)
    ensures items == [] ==> r == buf
    ensures items != [] ==> |r| >= 1 && r[|r| - 1] == FitTail(items[|items| - 1], max) && TotalBytes(r) <= max
  {
    if items == [] then buf
    else Appended(AppendedAll(buf, items[..|items| - 1], max), items[|items| - 1], max)
  }

  /** Appending in two batches is appending everything at once. */
  lemma {:induction false} AppendedAllInBatches(buf: seq<string>, xs: seq<string>, ys: seq<string>, max: nat)
    ensures AppendedAll(AppendedAll(buf, xs, max), ys, max) == AppendedAll(buf, xs + ys, max)
    decreases |ys|
  {
    if ys == [] {
      assert xs + ys == xs;
    } else {
      var init := ys[..|ys| - 1];
      var last := ys[|ys| - 1];
      assert ys == init + [last];
      AppendAssoc(xs, init, [last]);
      AppendedAllInBatches(buf, xs, init, max);
      AppendedAllSnoc(buf, xs + init, last, max);
      AppendedAllSnoc(AppendedAll(buf, xs, max), init, last, max);
    }
  }

  /** One more item is one more `Appended` step. */
  lemma AppendedAllSnoc(buf: seq<string>, items: seq<string>, x: string, max: nat)
    ensures AppendedAll(buf, items + [x], max) == Appended(AppendedAll(buf, items, max), x, max)
  {
    assert (items + [x])[..|items|] == items;
  }

  /** While the output fits in the budget, every appended line is kept whole
      and in order after the old contents. */
  lemma {:induction false} AppendedAllWithinBudget(buf: seq<string>, items: seq<string>, max: nat)
    requires TotalBytes(buf + items) <= max
    ensures AppendedAll(buf, items, max) == buf + items
    decreases |items|
  {
    if items != [] {
      var init := items[..|items| - 1];
      var x := items[|items| - 1];
      assert buf + items == (buf + init) + [x];
      TotalBytesSnoc(buf + init, x);
      AppendedAllWithinBudget(buf, init, max);
      AppendWithinBudgetEvictsNothing(buf + init, x, max);
    }
  }

  /* ---------------------------------------------------------- the buffer */

  class RingBuffer {
    const maxSizeBytes: nat
    /** The deque, oldest entry first. */
    var buffer: seq<string>
    var currentSize: int

    /** The size counter is the real byte total, and it is within budget. */
    ghost predicate Valid()
      reads this
    {
      currentSize == TotalBytes(buffer) && currentSize <= maxSizeBytes
    }

    constructor (maxSizeBytes: nat)
      ensures Valid()
      ensures this.maxSizeBytes == maxSizeBytes && buffer == [] && currentSize == 0
    {
      this.maxSizeBytes := maxSizeBytes;
      buffer := [];
      currentSize := 0;
    }

    method Append(data: string)
      requires Valid()
      modifies this`buffer, this`currentSize
      ensures Valid()
      ensures buffer == Appended(old(buffer), data, maxSizeBytes)
    {
      var stored := data;
      var dataSize := Utf8Len(data);
      if dataSize > maxSizeBytes {
        stored := FitTail(data, maxSizeBytes);
        dataSize := Utf8Len(stored);
      }
      assert stored == FitTail(data, maxSizeBytes);
      FitTailSpec(data, maxSizeBytes);
      ghost var k := Evicted(old(buffer), dataSize, maxSizeBytes);
      ghost var n := 0;
      while currentSize + dataSize > maxSizeBytes && buffer != []
        invariant n <= k
        invariant buffer == old(buffer)[n..]
        invariant currentSize == TotalBytes(buffer)
        decreases |buffer|
      {
        var removed := buffer[0];
        assert old(buffer)[n..][1..] == old(buffer)[n + 1..];
        buffer := buffer[1..];
        currentSize := currentSize - Utf8Len(removed);
        n := n + 1;
      }
      if n < k {
        EvictionIsMinimal(old(buffer), dataSize, maxSizeBytes, n);
      }
      TotalBytesSnoc(buffer, stored);
      buffer := buffer + [stored];
      currentSize := currentSize + dataSize;
    }

    method Clear()
      modifies this`buffer, this`currentSize
      ensures Valid() && buffer == [] && currentSize == 0
    {
      buffer := [];
      currentSize := 0;
    }

    function GetSize(): (size: int)
      requires Valid()
      reads this
      ensures size == TotalBytes(buffer) && 0 <= size <= maxSizeBytes
    {
      currentSize
    }
  }

  /* ---------------------------------------------------------------- reads */

  /** The regular-expression engine is not modelled: a pattern either fails to
      compile (with the engine's message) or denotes some set of lines it
      finds a match in. */
  datatype RegexEngine = RegexEngine(compileError: string -> Option<string>, search: (string, string) -> bool)

  datatype Query =
    | Substring(sub: string)
    | Wildcard(pattern: string)
    | Regex(pattern: string, engine: RegexEngine)

  /** Does `line` match the query: substring containment, a wildcard match of
      the stripped line, or a regex match anywhere in the line. */
  predicate Hit(q: Query, line: string) {
    match q
    case Substring(sub) => Contains(line, sub)
    case Wildcard(p) => Glob.Match(p, Strip(line))
    case Regex(p, re) => re.search(p, line)
  }

  /** The list comprehension `[line for line in self.buffer if ...]`: the
      matching lines, in buffer order. */
  function Filter(lines: seq<string>, q: Query): (r: seq<string>)
    ensures |r| <= |lines|
    ensures forall i :: 0 <= i < |r| ==> Hit(q, r[i])
  {
    if lines == [] then []
    else
      var rest := Filter(lines[1..], q);
      if Hit(q, lines[0]) then [lines[0]] + rest else rest
  }

  /** The matches keep their buffer order: they form a subsequence of the buffer. */
  lemma {:induction false} FilterIsSubsequence(lines: seq<string>, q: Query)
    ensures IsSubseq(Filter(lines, q), lines)
    decreases |lines|
  {
    if lines != [] {
      var rest := Filter(lines[1..], q);
      FilterIsSubsequence(lines[1..], q);
      if Hit(q, lines[0]) {
        assert ([lines[0]] + rest)[1..] == rest;
      }
    }
  }

  /** No matching line is dropped: every matching line occurs in the result
      as often as in the buffer, and no other line occurs in it. */
  lemma {:induction false} FilterKeepsEveryMatch(lines: seq<string>, q: Query)
    ensures forall x :: multiset(Filter(lines, q))[x] == if Hit(q, x) then multiset(lines)[x] else 0
    decreases |lines|
  {
    if lines != [] {
      FilterKeepsEveryMatch(lines[1..], q);
      assert lines == [lines[0]] + lines[1..];
      assert multiset(lines) == multiset{lines[0]} + multiset(lines[1..]);
    }
  }

  /** The newest `maxLines` matches (all of them when `maxLines <= 0`), in
      buffer order: a subsequence of the contents made of matching lines. */
  function LastMatches(lines: seq<string>, q: Query, maxLines: int): (r: seq<string>)
    ensures IsSubseq(r, lines)
    ensures forall i :: 0 <= i < |r| ==> Hit(q, r[i])
    ensures maxLines <= 0 ==> r == Filter(lines, q)
    ensures maxLines > 0 ==> |r| == Min(maxLines, |Filter(lines, q)|)
    ensures r == Filter(lines, q)[|Filter(lines, q)| - |r|..]
  {
    var all := Filter(lines, q);
    var r := Last(all, maxLines);
    var k := |all| - |r|;
    assert r == all[k..];
    FilterIsSubsequence(lines, q);
    DropKeepsSubseq(all, lines, k);
    assert forall i :: 0 <= i < |r| ==> r[i] == all[k + i];
    r
  }

  /** `get_lines(max_lines)`: every line when `max_lines <= 0`, otherwise the
      newest `min(max_lines, len)` lines, oldest first. */
  function GetLines(lines: seq<string>, maxLines: int): (r: seq<string>)
    ensures maxLines <= 0 ==> r == lines
    ensures maxLines > 0 ==> |r| == Min(maxLines, |lines|)
    ensures r == lines[|lines| - |r|..]
  {
    Last(lines, maxLines)
  }

  /** A search reports a failure as a single line carrying this marker. */
  function ErrorLine(msg: string): string {
    "ERROR: " + msg
  }

  /** Every error line starts with the `ERROR:` marker that callers test for. */
  lemma ErrorLineIsMarked(msg: string)
    ensures StartsWith(ErrorLine(msg), "ERROR:")
  {
    assert ErrorLine(msg)[..6] == "ERROR:";
  }

  const NoneStringError := ErrorLine("Search string cannot be None")
  const NoneRegexError := ErrorLine("Error during regex search: 'NoneType' object has no attribute 'search'")
  const EmptyWildcardError := ErrorLine("Empty wildcard pattern provided")

  /** `search_string(search_str, max_lines)`; `None` is the absent pattern. */
  function SearchString(lines: seq<string>, pattern: Option<string>, maxLines: int): (r: seq<string>)
    ensures pattern.None? ==> r == [NoneStringError]
    ensures pattern.Some? ==> r == LastMatches(lines, Substring(pattern.value), maxLines)
  {
    match pattern
    case None => [NoneStringError]
    case Some(p) => LastMatches(lines, Substring(p), maxLines)
  }

  /** `search_regex(regex_pattern, max_lines)` for a string (or absent)
      pattern. An absent pattern skips compilation and fails on the first
      line it is applied to, so an empty buffer yields no error. */
  function SearchRegex(lines: seq<string>, pattern: Option<string>, maxLines: int, re: RegexEngine): (r: seq<string>)
    ensures pattern.None? ==> r == if lines == [] then [] else [NoneRegexError]
    ensures pattern.Some? && re.compileError(pattern.value).Some? ==>
      r == [ErrorLine("Invalid regex pattern: " + re.compileError(pattern.value).value)]
    ensures pattern.Some? && re.compileError(pattern.value).None? ==>
      r == LastMatches(lines, Regex(pattern.value, re), maxLines)
  {
    match pattern
    case None => if lines == [] then [] else [NoneRegexError]
    case Some(p) =>
      match re.compileError(p)
      case Some(e) => [ErrorLine("Invalid regex pattern: " + e)]
      case None => LastMatches(lines, Regex(p, re), maxLines)
  }

  /** `search_wildcard(wildcard_pattern, max_lines)`: an absent or empty
      pattern is rejected; otherwise the stripped lines are glob-matched. */
  function SearchWildcard(lines: seq<string>, pattern: Option<string>, maxLines: int): (r: seq<string>)
    ensures pattern == None || pattern == Some("") ==> r == [EmptyWildcardError]
    ensures pattern.Some? && pattern.value != "" ==> r == LastMatches(lines, Wildcard(pattern.value), maxLines)
  {
    if pattern.None? || pattern.value == "" then [EmptyWildcardError]
    else LastMatches(lines, Wildcard(pattern.value), maxLines)
  }

  /** The source's end-to-end wildcard example over the output of
      `echo "Alpha\nBeta\nGamma\nDelta"`: `"*ta"` selects the lines whose
      stripped text ends in "ta". */
  lemma WildcardSearchExample()
    ensures SearchWildcard(["Alpha\n", "Beta\n", "Gamma\n", "Delta\n"], Some("*ta"), 5) == ["Beta\n", "Delta\n"]
  {
    var q := Wildcard("*ta");
    WildcardMisses();
    WildcardHits();
    FilterSecondAndFourth(q, "Alpha\n", "Beta\n", "Gamma\n", "Delta\n");
  }

  /** "Beta" and "Delta" end in "ta". */
  lemma WildcardHits()
    ensures Hit(Wildcard("*ta"), "Beta\n") && Hit(Wildcard("*ta"), "Delta\n")
  {
    assert "Beta" + "\n" == "Beta\n" && "Delta" + "\n" == "Delta\n";
    assert !IsSpace('B') && !IsSpace('D') && !IsSpace('a');
    StarTaHit("Beta");
    StarTaHit("Delta");
  }

  /** "Alpha" and "Gamma" do not. */
  lemma WildcardMisses()
    ensures !Hit(Wildcard("*ta"), "Alpha\n") && !Hit(Wildcard("*ta"), "Gamma\n")
  {
    assert "Alpha" + "\n" == "Alpha\n" && "Gamma" + "\n" == "Gamma\n";
    assert !IsSpace('A') && !IsSpace('G') && !IsSpace('a');
    StarTaHit("Alpha");
    StarTaHit("Gamma");
  }

  /** A word without surrounding white space, followed by a newline, matches
      `"*ta"` exactly when the word ends in "ta". */
  lemma StarTaHit(w: string)
    requires w != [] && !IsSpace(w[0]) && !IsSpace(w[|w| - 1])
    ensures Hit(Wildcard("*ta"), w + "\n") <==> EndsWith(w, "ta")
  {
    assert Glob.NoWildcards("ta");
    assert ['*'] + "ta" == "*ta";
    StripNewline(w);
    Glob.StarLiteralIsEndsWith("ta", w);
  }

  /** Filtering a line followed by more lines. */
  lemma FilterCons(x: string, rest: seq<string>, q: Query)
    ensures Filter([x] + rest, q) == (if Hit(q, x) then [x] else []) + Filter(rest, q)
  {
    assert ([x] + rest)[1..] == rest;
  }

  /** Filtering two lines of which only the second matches. */
  lemma FilterSecondOfTwo(q: Query, c: string, d: string)
    requires !Hit(q, c) && Hit(q, d)
    ensures Filter([c, d], q) == [d]
  {
    FilterCons(d, [], q);
    assert [d] + [] == [d];
    FilterCons(c, [d], q);
    assert [c] + [d] == [c, d];
  }

  /** Filtering four lines of which the 2nd and 4th match keeps exactly those two. */
  lemma FilterSecondAndFourth(q: Query, a: string, b: string, c: string, d: string)
    requires !Hit(q, a) && Hit(q, b) && !Hit(q, c) && Hit(q, d)
    ensures Filter([a, b, c, d], q) == [b, d]
  {
    FilterSecondOfTwo(q, c, d);
    FilterCons(b, [c, d], q);
    assert [b] + [c, d] == [b, c, d];
    FilterCons(a, [b, c, d], q);
    assert [a] + [b, c, d] == [a, b, c, d];
  }

  /** Filtering four lines of which only the 2nd matches. */
  lemma FilterSecondOnly(q: Query, a: string, b: string, c: string, d: string)
    requires !Hit(q, a) && Hit(q, b) && !Hit(q, c) && !Hit(q, d)
    ensures Filter([a, b, c, d], q) == [b]
  {
    FilterCons(d, [], q);
    assert [d] + [] == [d];
    FilterCons(c, [d], q);
    assert [c] + [d] == [c, d];
    FilterCons(b, [c, d], q);
    assert [b] + [c, d] == [b, c, d];
    FilterCons(a, [b, c, d], q);
    assert [a] + [b, c, d] == [a, b, c, d];
  }

  /** A word without surrounding white space is what `strip()` leaves of it
      followed by a newline. */
  lemma StripNewline(w: string)
    requires w != [] && !IsSpace(w[0]) && !IsSpace(w[|w| - 1])
    ensures Strip(w + "\n") == w
  {
    var s := w + "\n";
    assert s[0] == w[0];
    assert StripLeft(s) == s;
    assert s[..|s| - 1] == w;
    assert StripRight(w) == w;
    assert StripRight(s) == w;
  }

  /** The same example for the substring search: `"eta"` occurs in "Beta" only. */
  lemma StringSearchExample()
    ensures SearchString(["Alpha\n", "Beta\n", "Gamma\n", "Delta\n"], Some("eta"), 5) == ["Beta\n"]
  {
    var q := Substring("eta");
    EtaMisses();
    EtaMissesDelta();
    assert "Beta\n"[1..] == "eta\n" && StartsWith("eta\n", "eta");
    FilterSecondOnly(q, "Alpha\n", "Beta\n", "Gamma\n", "Delta\n");
  }

  lemma EtaMisses()
    ensures !Contains("Alpha\n", "eta") && !Contains("Gamma\n", "eta")
  {
    NoFirstCharNoMatch("Alpha\n", "eta");
    NoFirstCharNoMatch("Gamma\n", "eta");
  }

  lemma EtaMissesDelta()
    ensures !Contains("Delta\n", "eta")
  {
    var s0: string := "Delta\n";
    var s1 := s0[1..];
    var s2 := s1[1..];
    assert s2 == "lta\n";
    NoFirstCharNoMatch(s2, "eta");
    MismatchNotPrefix(s1, "eta", 1);
    MismatchNotPrefix(s0, "eta", 0);
  }

  /** A string that differs from `sub` at some position of `sub` does not
      start with `sub`. */
  lemma MismatchNotPrefix(s: string, sub: string, i: nat)
    requires i < |sub| && (|s| < |sub| || s[i] != sub[i])
    ensures !StartsWith(s, sub)
  {
    if |sub| <= |s| {
      assert s[..|sub|][i] == s[i];
    }
  }

  /** A string without the first character of `sub` does not contain `sub`. */
  lemma {:induction false} NoFirstCharNoMatch(s: string, sub: string)
    requires sub != [] && forall i :: 0 <= i < |s| ==> s[i] != sub[0]
    ensures !Contains(s, sub)
    decreases |s|
  {
    if s != [] {
      NoFirstCharNoMatch(s[1..], sub);
    }
  }

  /* ------------------------------------------- append as the source has it */

  /** The deque and the `current_size` counter exactly as the source keeps them. */
  datatype Store = Store(lines: seq<string>, size: int)

  /** Python's `s[-k:]` for `k >= 0` (note that `s[-0:]` is all of `s`). */
  function PyTail(s: string, k: nat): string {
    if k == 0 || k >= |s| then s else s[|s| - k..]
  }

  /** The eviction loop as written: it subtracts each popped entry's real size. */
  function SourceEvict(st: Store, need: int, max: int): Store
    decreases |st.lines|
  {
    if st.size + need > max && st.lines != [] then
      SourceEvict(Store(st.lines[1..], st.size - Utf8Len(st.lines[0])), need, max)
    else st
  }

  /** `append(data)` as written: an over-long entry is cut to its last
      `max_size_bytes` CHARACTERS and counted as `max_size_bytes` bytes. */
  function SourceAppend(st: Store, data: string, max: nat): Store {
    var size := Utf8Len(data);
    var stored := if size > max then PyTail(data, max) else data;
    var counted := if size > max then max else size;
    var e := SourceEvict(st, counted, max);
    Store(e.lines + [stored], e.size + counted)
  }

  /** With an exact counter, the source's eviction loop removes exactly the
      `Evicted` entries and keeps the counter exact. */
  lemma {:induction false} SourceEvictExact(st: Store, need: int, max: int)
    requires st.size == TotalBytes(st.lines)
    ensures var k := Evicted(st.lines, need, max);
      SourceEvict(st, need, max) == Store(st.lines[k..], TotalBytes(st.lines[k..]))
    decreases |st.lines|
  {
    if st.size + need > max && st.lines != [] {
      var rest := st.lines[1..];
      assert TotalBytes(st.lines) == Utf8Len(st.lines[0]) + TotalBytes(rest);
      var next := Store(rest, st.size - Utf8Len(st.lines[0]));
      SourceEvictExact(next, need, max);
      assert SourceEvict(st, need, max) == SourceEvict(next, need, max);
      var k := Evicted(rest, need, max);
      assert Evicted(st.lines, need, max) == 1 + k;
      assert rest[k..] == st.lines[1 + k..];
    } else {
      assert Evicted(st.lines, need, max) == 0;
      assert st.lines[0..] == st.lines;
    }
  }

  /** Wherever the source's character truncation is harmless (the entry fits,
      or it is one-byte text and the budget is positive), the source's
      `append` and `Appended` agree, and the source's counter stays exact. */
  lemma SourceAgreesWhenTruncationIsHarmless(st: Store, data: string, max: nat)
    requires st.size == TotalBytes(st.lines)
    requires Utf8Len(data) <= max || (IsAscii(data) && max > 0)
    ensures var r := Appended(st.lines, data, max);
      SourceAppend(st, data, max) == Store(r, TotalBytes(r))
  {
    var stored := FitTail(data, max);
    var counted := Utf8Len(stored);
    SourceStoresFitTail(st, data, max);
    var k := Evicted(st.lines, counted, max);
    SourceEvictExact(st, counted, max);
    assert Appended(st.lines, data, max) == st.lines[k..] + [stored];
    TotalBytesSnoc(st.lines[k..], stored);
  }

  /** Under the same conditions the source stores `FitTail` and counts its real size. */
  lemma SourceStoresFitTail(st: Store, data: string, max: nat)
    requires Utf8Len(data) <= max || (IsAscii(data) && max > 0)
    ensures var stored := FitTail(data, max);
      var e := SourceEvict(st, Utf8Len(stored), max);
      SourceAppend(st, data, max) == Store(e.lines + [stored], e.size + Utf8Len(stored))
  {
    if Utf8Len(data) > max {
      FitTailOfAscii(data, max);
    }
  }

  /** Multi-byte text breaks the source's counter and its capacity bound: with
      a 2-byte budget, appending "éé", "a" and "bb" leaves 3 bytes buffered
      while the counter says 1. */
  lemma AsWrittenMultiByteOverflow()
    ensures var s := SourceAppend(SourceAppend(SourceAppend(Store([], 0), "\U{E9}\U{E9}", 2), "a", 2), "bb", 2);
      s == Store(["a", "bb"], 1) && TotalBytes(s.lines) == 3
  {
    var ee := "\U{E9}\U{E9}";
    assert Utf8Len(ee) == 4;
    var s1 := SourceAppend(Store([], 0), ee, 2);
    assert s1 == Store([ee], 2);
    var s2 := SourceAppend(s1, "a", 2);
    assert SourceEvict(s1, 1, 2) == Store([], -2);
    assert s2 == Store(["a"], -1);
    var s3 := SourceAppend(s2, "bb", 2);
    assert SourceEvict(s2, 2, 2) == s2;
    assert s3 == Store(["a", "bb"], 1);
  }

  /** With a zero budget `data[-0:]` keeps the whole line and counts it as 0
      bytes, so nothing is ever evicted and the buffer grows without bound. */
  lemma AsWrittenZeroCapacityGrows(st: Store, line: string)
    requires st.size == 0 && line != []
    ensures SourceAppend(st, line, 0) == Store(st.lines + [line], 0)
  {
  }

  /** The corrected `append` keeps nothing but empty strings under a zero budget. */
  lemma ZeroCapacityKeepsNoBytes(buf: seq<string>, line: string)
    ensures var r := Appended(buf, line, 0);
      forall i :: 0 <= i < |r| ==> r[i] == ""
  {
    ZeroBytesMeansEmpty(Appended(buf, line, 0));
  }
}
