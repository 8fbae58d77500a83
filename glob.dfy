/** The shell-style wildcard matching the buffer's wildcard search delegates to
    (Python's `fnmatch.fnmatch` on POSIX, where names are not case-folded):
    the pattern must match the WHOLE name, `*` matches any run of characters
    (newlines included), `?` matches exactly one character, and every other
    pattern character matches itself. */
module Glob {
  import opened Text

  predicate IsWildcard(c: char) { c == '*' || c == '?' }

  predicate NoWildcards(p: string) {
    forall i :: 0 <= i < |p| ==> !IsWildcard(p[i])
  }

  function Match(pat: string, s: string): bool
    decreases |pat| + |s|
  {
    if pat == [] then s == []
    else if pat[0] == '*' then Match(pat[1..], s) || (s != [] && Match(pat, s[1..]))
    else if pat[0] == '?' then s != [] && Match(pat[1..], s[1..])
    else s != [] && s[0] == pat[0] && Match(pat[1..], s[1..])
  }

  /** A pattern without wildcards matches exactly itself. */
  lemma {:induction false} LiteralMatchesItself(pat: string, s: string)
    requires NoWildcards(pat)
    ensures Match(pat, s) <==> s == pat
    decreases |pat|
  {
    if pat != [] && s != [] {
      LiteralMatchesItself(pat[1..], s[1..]);
      if s[0] == pat[0] {
        assert s == [s[0]] + s[1..] && pat == [pat[0]] + pat[1..];
      }
    }
  }

  /** `*` followed by a literal matches exactly the names that end with that literal. */
  lemma {:induction false} StarLiteralIsEndsWith(lit: string, s: string)
    requires NoWildcards(lit)
    ensures Match(['*'] + lit, s) <==> EndsWith(s, lit)
    decreases |s|
  {
    var pat := ['*'] + lit;
    assert pat[1..] == lit;
    LiteralMatchesItself(lit, s);
    if s == [] {
    } else {
      StarLiteralIsEndsWith(lit, s[1..]);
      if |s| > |lit| {
        assert s[|s| - |lit|..] == s[1..][|s[1..]| - |lit|..];
      }
    }
  }

  /** `?` consumes one character: a pattern of k question marks matches exactly the names of length k. */
  lemma {:induction false} QuestionMarksMatchLength(k: nat, s: string)
    ensures Match(seq(k, _ => '?'), s) <==> |s| == k
    decreases k
  {
    var pat := seq(k, _ => '?');
    if k > 0 {
      assert pat[1..] == seq(k - 1, _ => '?');
      if s != [] {
        QuestionMarksMatchLength(k - 1, s[1..]);
      }
    }
  }
}
