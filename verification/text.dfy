/** Character-level helpers that mirror the Python `str` methods the core calls:
    `strip`, `ljust`, `lower` and `sep.join`. */
module Text {

  /** The characters Python's `str.isspace` accepts, which are exactly what a
      bare `str.strip()` removes. */
  predicate IsSpace(c: char) {
    || ('\t' <= c <= '\r')
    || ('\U{1C}' <= c <= '\U{1F}')
    || c == ' ' || c == '\U{85}' || c == '\U{A0}' || c == '\U{1680}'
    || ('\U{2000}' <= c <= '\U{200A}')
    || c == '\U{2028}' || c == '\U{2029}' || c == '\U{202F}' || c == '\U{205F}' || c == '\U{3000}'
  }

  predicate AllSpace(s: string) {
    forall k :: 0 <= k < |s| ==> IsSpace(s[k])
  }

  /** `s.lstrip()`: drops the longest whitespace prefix. */
  function TrimStart(s: string): (r: string)
    ensures |r| <= |s| && r == s[|s| - |r|..]
    ensures AllSpace(s[..|s| - |r|])
    ensures r == [] || !IsSpace(r[0])
    decreases |s|
  {
    if |s| > 0 && IsSpace(s[0]) then
      var r := TrimStart(s[1..]);
      assert s[..|s| - |r|] == [s[0]] + s[1..][..|s| - 1 - |r|];
      assert s[1..][|s| - 1 - |r|..] == s[|s| - |r|..];
      r
    else s
  }

  /** `s.rstrip()`: drops the longest whitespace suffix. */
  function TrimEnd(s: string): (r: string)
    ensures |r| <= |s| && r == s[..|r|]
    ensures AllSpace(s[|r|..])
    ensures r == [] || !IsSpace(r[|r| - 1])
    decreases |s|
  {
    if |s| > 0 && IsSpace(s[|s| - 1]) then
      var r := TrimEnd(s[..|s| - 1]);
      assert s[|r|..] == s[..|s| - 1][|r|..] + [s[|s| - 1]];
      assert s[..|s| - 1][..|r|] == s[..|r|];
      r
    else s
  }

  /** `s.strip()`. */
  function Strip(s: string): string {
    TrimEnd(TrimStart(s))
  }

  /** A string with no whitespace at either end is left alone by `strip`. */
  lemma StripOfStripped(s: string)
    requires s == [] || (!IsSpace(s[0]) && !IsSpace(s[|s| - 1]))
    ensures Strip(s) == s
  {
  }

  /** Stripping twice is stripping once. */
  lemma StripIdempotent(s: string)
    ensures Strip(Strip(s)) == Strip(s)
  {
    var t := TrimStart(s);
    var r := TrimEnd(t);
    if r != [] {
      assert r[0] == t[0];
    }
    StripOfStripped(r);
  }

  /** `n` spaces. */
  function Spaces(n: nat): (r: string)
    ensures |r| == n && AllSpace(r)
    ensures forall k :: 0 <= k < n ==> r[k] == ' '
  {
    seq(n, _ => ' ')
  }

  /** `s.ljust(width)`: pads on the right with spaces up to `width`, never cuts. */
  function LJust(s: string, width: int): (r: string)
    ensures |r| == if width > |s| then width else |s|
    ensures r[..|s|] == s
    ensures forall k :: |s| <= k < |r| ==> r[k] == ' '
  {
    if width > |s| then s + Spaces(width - |s|) else s
  }

  /** `n` copies of `c`, Python's `c * n`. */
  function Repeat(c: char, n: nat): (r: string)
    ensures |r| == n
    ensures forall k :: 0 <= k < n ==> r[k] == c
  {
    seq(n, _ => c)
  }

  /** `sep.join(parts)`. */
  function Join(parts: seq<string>, sep: string): string
    decreases |parts|
  {
    if |parts| == 0 then ""
    else if |parts| == 1 then parts[0]
    else parts[0] + sep + Join(parts[1..], sep)
  }

  /** Each piece followed by `end`, concatenated: the shape of text built up
      with `f"{line}\n"` repeatedly. */
  function Terminated(parts: seq<string>, end: string): string
    decreases |parts|
  {
    if |parts| == 0 then "" else parts[0] + end + Terminated(parts[1..], end)
  }

  /** Number of occurrences of `c` in `s`. */
  function Count(s: string, c: char): nat
    decreases |s|
  {
    if |s| == 0 then 0 else (if s[0] == c then 1 else 0) + Count(s[1..], c)
  }

  lemma {:induction false} CountAppend(a: string, b: string, c: char)
    ensures Count(a + b, c) == Count(a, c) + Count(b, c)
    decreases |a|
  {
    if |a| > 0 {
      assert (a + b)[1..] == a[1..] + b;
      CountAppend(a[1..], b, c);
    } else {
      assert a + b == b;
    }
  }

  lemma {:induction false} CountAbsent(s: string, c: char)
    requires c !in s
    ensures Count(s, c) == 0
    decreases |s|
  {
    if |s| > 0 {
      assert s[1..][..] == s[1..];
      CountAbsent(s[1..], c);
    }
  }

  /** Joining pieces that lack `c` with a separator that lacks `c` gives text
      without `c`. */
  lemma {:induction false} JoinAbsent(parts: seq<string>, sep: string, c: char)
    requires c !in sep
    requires forall i :: 0 <= i < |parts| ==> c !in parts[i]
    ensures c !in Join(parts, sep)
    decreases |parts|
  {
    if |parts| > 1 {
      JoinAbsent(parts[1..], sep, c);
    }
  }

  /** The first piece opens the joined text. */
  lemma JoinStartsWithFirst(parts: seq<string>, sep: string)
    requires |parts| > 0
    ensures |Join(parts, sep)| >= |parts[0]|
    ensures Join(parts, sep)[..|parts[0]|] == parts[0]
  {
  }

  lemma TerminatedLast(parts: seq<string>, end: string)
    requires |parts| > 0
    ensures Terminated(parts, end) == Terminated(parts[..|parts| - 1], end) + parts[|parts| - 1] + end
    decreases |parts|
  {
    if |parts| > 1 {
      assert parts[1..][..|parts[1..]| - 1] == parts[..|parts| - 1][1..];
      TerminatedLast(parts[1..], end);
    }
  }

  /** Text built from newline-free lines, each ending in a newline, has exactly
      one newline per line. */
  lemma {:induction false} TerminatedLineCount(lines: seq<string>)
    requires forall i :: 0 <= i < |lines| ==> '\n' !in lines[i]
    ensures Count(Terminated(lines, "\n"), '\n') == |lines|
    decreases |lines|
  {
    if |lines| > 0 {
      CountAbsent(lines[0], '\n');
      CountAppend(lines[0], "\n", '\n');
      CountAppend(lines[0] + "\n", Terminated(lines[1..], "\n"), '\n');
      TerminatedLineCount(lines[1..]);
    }
  }

  /** A non-whitespace character lies before any all-whitespace suffix. */
  lemma NonSpaceBeforeBlankSuffix(s: string, m: nat, p: nat)
    requires m <= |s| && AllSpace(s[m..])
    requires p < |s| && !IsSpace(s[p])
    ensures p < m
  {
  }

  /** Stripping newline-terminated lines whose first line does not start with
      whitespace and whose last line is not blank removes exactly one newline:
      the final one. */
  lemma StripTerminatedLineCount(lines: seq<string>)
    requires |lines| > 0
    requires forall i :: 0 <= i < |lines| ==> '\n' !in lines[i]
    requires |lines[0]| > 0 && !IsSpace(lines[0][0])
    requires !AllSpace(lines[|lines| - 1])
    ensures Count(Strip(Terminated(lines, "\n")), '\n') == |lines| - 1
  {
    var raw := Terminated(lines, "\n");
    TerminatedLineCount(lines);
    assert raw[0] == lines[0][0];
    assert TrimStart(raw) == raw;
    var n := |lines|;
    var last := lines[n - 1];
    var pre := Terminated(lines[..n - 1], "\n");
    TerminatedLast(lines, "\n");
    assert raw == pre + last + "\n";
    StripLastLine(pre, last);
  }

  /** `rstrip` of text whose last line is not blank removes the final newline
      and nothing before that line's last non-blank character. */
  lemma StripLastLine(pre: string, last: string)
    requires '\n' !in last && !AllSpace(last)
    ensures Count(TrimEnd(pre + last + "\n"), '\n') + 1 == Count(pre + last + "\n", '\n')
  {
    var raw := pre + last + "\n";
    var j :| 0 <= j < |last| && !IsSpace(last[j]);
    assert raw[|pre| + j] == last[j];
    var out := TrimEnd(raw);
    var m := |out|;
    NonSpaceBeforeBlankSuffix(raw, m, |pre| + j);
    assert m <= |pre| + |last| by {
      assert raw[|raw| - 1] == '\n';
    }
    var k := m - |pre|;
    assert raw == out + raw[m..];
    assert raw[m..] == last[k..] + "\n";
    CountAbsent(last[k..], '\n');
    CountAppend(last[k..], "\n", '\n');
    CountAppend(out, raw[m..], '\n');
  }

  /** Python's `str.lower()` restricted to the ASCII letters. */
  function LowerChar(c: char): (r: char)
    ensures 'A' <= c <= 'Z' ==> 'a' <= r <= 'z'
    ensures !('A' <= c <= 'Z') ==> r == c
  {
    if 'A' <= c <= 'Z' then (c as int - 'A' as int + 'a' as int) as char else c
  }

  function Lower(s: string): (r: string)
    ensures |r| == |s|
    ensures forall k :: 0 <= k < |s| ==> r[k] == LowerChar(s[k])
  {
    seq(|s|, k requires 0 <= k < |s| => LowerChar(s[k]))
  }
}
