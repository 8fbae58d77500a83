/** Small vocabulary shared by the buffer, the process handler and the manager:
    an Option type, bytes, the few Python string operations the source relies on
    (`in`, `startswith`, `endswith`, `strip`, `join`, `str(int)`) and negative
    list slicing. */
module Text {

  datatype Option<+T> = None | Some(value: T)

  /** One byte of a pipe read. */
  type byte = b: int | 0 <= b < 256

  const NEWLINE: byte := 10

  function Min(a: int, b: int): int { if a <= b then a else b }

  predicate StartsWith(s: string, prefix: string) {
    |prefix| <= |s| && s[..|prefix|] == prefix
  }

  predicate EndsWith(s: string, suffix: string) {
    |suffix| <= |s| && s[|s| - |suffix|..] == suffix
  }

  /** Python's `sub in s`: `sub` occurs somewhere in `s` (always true for ""). */
  predicate Contains(s: string, sub: string)
    decreases |s|
  {
    StartsWith(s, sub) || (|s| > 0 && Contains(s[1..], sub))
  }

  /** The characters Python's `str.isspace` accepts, i.e. those `str.strip()` removes. */
  predicate IsSpace(c: char) {
    ('\t' <= c <= '\r') || ('\U{1C}' <= c <= ' ') || c == '\U{85}' || c == '\U{A0}'
    || c == '\U{1680}' || ('\U{2000}' <= c <= '\U{200A}') || c == '\U{2028}' || c == '\U{2029}'
    || c == '\U{202F}' || c == '\U{205F}' || c == '\U{3000}'
  }

  function StripLeft(s: string): (r: string)
    ensures |r| <= |s|
    ensures r == s[|s| - |r|..]
    ensures r == [] || !IsSpace(r[0])
    ensures forall i :: 0 <= i < |s| - |r| ==> IsSpace(s[i])
  {
    if s != [] && IsSpace(s[0]) then StripLeft(s[1..]) else s
  }

  function StripRight(s: string): (r: string)
    ensures |r| <= |s|
    ensures r == s[..|r|]
    ensures r == [] || !IsSpace(r[|r| - 1])
    ensures forall i :: |r| <= i < |s| ==> IsSpace(s[i])
  {
    if s != [] && IsSpace(s[|s| - 1]) then StripRight(s[..|s| - 1]) else s
  }

  /** Python's `str.strip()` with no argument. */
  function Strip(s: string): string {
    StripRight(StripLeft(s))
  }

  /** Python's `"".join(lines)`. */
  function Concat(lines: seq<string>): string {
    if lines == [] then "" else lines[0] + Concat(lines[1..])
  }

  /** Python's `sep.join(items)`. */
  function Join(items: seq<string>, sep: string): string {
    if items == [] then ""
    else if |items| == 1 then items[0]
    else items[0] + sep + Join(items[1..], sep)
  }

  function DigitChar(d: int): char
    requires 0 <= d < 10
  {
    (48 + d) as char
  }

  function NatToString(n: nat): (r: string)
    ensures |r| >= 1
  {
    if n < 10 then [DigitChar(n)] else NatToString(n / 10) + [DigitChar(n % 10)]
  }

  /** Python's `str(n)` (and `f"{n}"`) for an integer. */
  function IntToString(n: int): string {
    if n < 0 then "-" + NatToString(-n) else NatToString(n)
  }

  /** Python's `s[-n:]` for `n > 0`, and the whole of `s` for `n <= 0`: the
      idiom every "at most n most recent" read in the source uses. */
  function Last<T>(s: seq<T>, n: int): seq<T>
  {
    if n <= 0 || n >= |s| then s else s[|s| - n..]
  }

  /** Different naturals print differently. */
  lemma {:induction false} NatToStringInjective(a: nat, b: nat)
    requires NatToString(a) == NatToString(b)
    ensures a == b
    decreases a
  {
    var s := NatToString(a);
    if a < 10 && b < 10 {
      assert s == [DigitChar(a)] && s == [DigitChar(b)];
    } else if a >= 10 && b >= 10 {
      var n := |s|;
      assert s[..n - 1] == NatToString(a / 10) == NatToString(b / 10);
      NatToStringInjective(a / 10, b / 10);
      assert DigitChar(a % 10) == s[n - 1] == DigitChar(b % 10);
    } else {
      OneDigitExactlyBelowTen(a);
      OneDigitExactlyBelowTen(b);
    }
  }

  lemma OneDigitExactlyBelowTen(n: nat)
    ensures |NatToString(n)| == 1 <==> n < 10
  {
    if n >= 10 {
      assert |NatToString(n / 10)| >= 1;
    }
  }

  /** `str(n)` identifies `n`: different integers print differently. */
  lemma IntToStringInjective(a: int, b: int)
    requires IntToString(a) == IntToString(b)
    ensures a == b
  {
    var s := IntToString(a);
    if a < 0 && b < 0 {
      assert s[1..] == NatToString(-a) == NatToString(-b);
      NatToStringInjective(-a, -b);
    } else if a >= 0 && b >= 0 {
      NatToStringInjective(a, b);
    } else {
      NegativeFirstChar(a);
      NegativeFirstChar(b);
    }
  }

  /** A printed natural starts with a decimal digit. */
  lemma {:induction false} NatToStringLeadsWithDigit(n: nat)
    ensures '0' <= NatToString(n)[0] <= '9'
  {
    if n >= 10 {
      NatToStringLeadsWithDigit(n / 10);
      assert NatToString(n)[0] == NatToString(n / 10)[0];
    }
  }

  /** Exactly the negative integers print with a leading '-'. */
  lemma NegativeFirstChar(n: int)
    ensures |IntToString(n)| >= 1 && (IntToString(n)[0] == '-' <==> n < 0)
  {
    if n >= 0 {
      NatToStringLeadsWithDigit(n);
    }
  }

  /** A suffix of a suffix is a suffix. */
  lemma EndsWithTransitive(a: string, b: string, c: string)
    requires EndsWith(a, b) && EndsWith(b, c)
    ensures EndsWith(a, c)
  {
    assert a[|a| - |c|..] == b[|b| - |c|..];
  }

  /** Keeping the last `n` characters keeps every suffix of length at most `n`. */
  lemma EndsWithLast(s: string, t: string, n: int)
    requires EndsWith(s, t) && |t| <= n
    ensures EndsWith(Last(s, n), t)
  {
    var r := Last(s, n);
    assert r[|r| - |t|..] == s[|s| - |t|..];
  }

  /** Concatenation is associative (stated once so that callers need not
      rediscover it element by element). */
  lemma AppendAssoc<T>(a: seq<T>, b: seq<T>, c: seq<T>)
    ensures (a + b) + c == a + (b + c)
  {
  }

  /** `a` can be obtained from `b` by deleting elements (order preserved). */
  predicate IsSubseq<T(==)>(a: seq<T>, b: seq<T>)
    decreases |b|
  {
    a == [] || (|b| > 0 && ((a[0] == b[0] && IsSubseq(a[1..], b[1..])) || IsSubseq(a, b[1..])))
  }

  /** Dropping a prefix of a subsequence leaves a subsequence. */
  lemma {:induction false} DropKeepsSubseq<T>(a: seq<T>, b: seq<T>, k: nat)
    requires IsSubseq(a, b) && k <= |a|
    ensures IsSubseq(a[k..], b)
    decreases |b|
  {
    if k == 0 {
      assert a[k..] == a;
    } else if a[k..] == [] {
    } else if a[0] == b[0] && IsSubseq(a[1..], b[1..]) {
      DropKeepsSubseq(a[1..], b[1..], k - 1);
      assert a[1..][k - 1..] == a[k..];
    } else {
      DropKeepsSubseq(a, b[1..], k);
    }
  }
}
