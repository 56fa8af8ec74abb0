/** The few Python `str` operations the core relies on, over `seq<char>`. */
module PyStrings {
  import opened Wrappers

  /** `str.isspace()` for one character; `\s` in a `str` pattern matches the same set. */
  predicate IsSpace(c: char) {
    || c == ' ' || '\t' <= c <= '\r' || '\U{1c}' <= c <= '\U{1f}'
    || c == '\U{85}' || c == '\U{a0}' || c == '\U{1680}' || '\U{2000}' <= c <= '\U{200a}'
    || c == '\U{2028}' || c == '\U{2029}' || c == '\U{202f}' || c == '\U{205f}' || c == '\U{3000}'
  }

  predicate IsAsciiDigit(c: char) { '0' <= c <= '9' }

  /** Decimal value of a string of ASCII digits; leading zeros are allowed, as for `int()`. */
  function DigitsValue(s: string): nat
    requires forall k :: 0 <= k < |s| ==> IsAsciiDigit(s[k])
  {
    if s == [] then 0 else assert IsAsciiDigit(s[|s| - 1]); 10 * DigitsValue(s[..|s| - 1]) + (s[|s| - 1] as int - '0' as int)
  }

  predicate IsAsciiLetter(c: char) { 'a' <= c <= 'z' || 'A' <= c <= 'Z' }

  /** Whether `s` holds `p` starting at index `i`. */
  predicate StartsAt(s: string, i: nat, p: string) {
    i + |p| <= |s| && s[i..i + |p|] == p
  }

  predicate AllSpace(s: string, i: nat, j: nat)
    requires i <= j <= |s|
  {
    forall k :: i <= k < j ==> IsSpace(s[k])
  }

  /** No '\n' in `s[a..b]`: the regex `.` matches any character but a newline. */
  predicate NoNewline(s: string, a: nat, b: nat)
    requires a <= b <= |s|
  {
    forall k :: a <= k < b ==> s[k] != '\n'
  }

  /**
   * What `.*?c` finds from `start` once it has reached `j`: the first `c` at or after `j`,
   * provided no newline lies between `start` and it.
   */
  function FirstBeforeNewline(s: string, c: char, start: nat, j: nat): (r: Option<nat>)
    requires c != '\n' && start <= j <= |s| && NoNewline(s, start, j)
    decreases |s| - j
    ensures r.Some? ==> j <= r.value < |s| && s[r.value] == c && NoNewline(s, start, r.value)
    ensures r.Some? ==> forall j' :: j <= j' < r.value ==> s[j'] != c
    ensures r.None? ==> forall j' :: j <= j' < |s| && s[j'] == c ==> !NoNewline(s, start, j')
  {
    if j == |s| || s[j] == '\n' then None
    else if s[j] == c then Some(j)
    else FirstBeforeNewline(s, c, start, j + 1)
  }

  /** Number of whitespace characters in the run that starts at `i`. */
  function SpaceRun(s: string, i: nat): (n: nat)
    requires i <= |s|
    decreases |s| - i
    ensures i + n <= |s|
  {
    if i < |s| && IsSpace(s[i]) then 1 + SpaceRun(s, i + 1) else 0
  }

  /** The run is all whitespace, and the character after it, if any, is not. */
  lemma {:induction false} SpaceRunSpans(s: string, i: nat)
    requires i <= |s|
    decreases |s| - i
    ensures AllSpace(s, i, i + SpaceRun(s, i))
    ensures i + SpaceRun(s, i) < |s| ==> !IsSpace(s[i + SpaceRun(s, i)])
  {
    if i < |s| && IsSpace(s[i]) { SpaceRunSpans(s, i + 1); }
  }

  /** Number of whitespace characters at the end of `s`. */
  function TrailingSpace(s: string): (n: nat)
    ensures n <= |s| && AllSpace(s, |s| - n, |s|)
    ensures n < |s| ==> !IsSpace(s[|s| - n - 1])
  {
    if |s| > 0 && IsSpace(s[|s| - 1]) then 1 + TrailingSpace(s[..|s| - 1]) else 0
  }

  /** `str.strip()` with no argument: the slice left once whitespace is cut from both ends. */
  function Strip(s: string): (r: string)
    ensures |r| <= |s|
  {
    var i := SpaceRun(s, 0);
    var t := s[i..];
    var n := TrailingSpace(t);
    t[..|t| - n]
  }

  /**
   * `Strip` keeps a slice of `s` with only whitespace cut on either side, and the slice
   * neither starts nor ends with whitespace; it is empty exactly when `s` is all whitespace.
   */
  lemma StripSpec(s: string)
    ensures exists i :: 0 <= i && i + |Strip(s)| <= |s| && Strip(s) == s[i..i + |Strip(s)|]
                        && AllSpace(s, 0, i) && AllSpace(s, i + |Strip(s)|, |s|)
    ensures Strip(s) != [] ==> !IsSpace(Strip(s)[0]) && !IsSpace(Strip(s)[|Strip(s)| - 1])
    ensures Strip(s) == [] <==> AllSpace(s, 0, |s|)
  {
    StripSlice(s);
    StripEnds(s);
    StripEmpty(s);
  }

  lemma StripSlice(s: string)
    ensures exists i :: 0 <= i && i + |Strip(s)| <= |s| && Strip(s) == s[i..i + |Strip(s)|]
                        && AllSpace(s, 0, i) && AllSpace(s, i + |Strip(s)|, |s|)
  {
    var i := SpaceRun(s, 0);
    SpaceRunSpans(s, 0);
    var t := s[i..];
    var n := TrailingSpace(t);
    var r := t[..|t| - n];
    CutTail(s, i, n);
    assert AllSpace(s, 0, i) && AllSpace(s, i + |r|, |s|);
  }

  /** Cutting `n` characters off `s[i..]` leaves `s[i..|s| - n]`, and the cut part is whitespace when that of `s[i..]` is. */
  lemma CutTail(s: string, i: nat, n: nat)
    requires i <= |s| && n <= |s| - i && AllSpace(s[i..], |s| - i - n, |s| - i)
    ensures s[i..][..|s| - i - n] == s[i..|s| - n]
    ensures AllSpace(s, |s| - n, |s|)
  {
    forall k | |s| - n <= k < |s| ensures IsSpace(s[k]) { assert s[k] == s[i..][k - i]; }
  }

  lemma StripEnds(s: string)
    ensures Strip(s) != [] ==> !IsSpace(Strip(s)[0]) && !IsSpace(Strip(s)[|Strip(s)| - 1])
  {
    var i := SpaceRun(s, 0);
    SpaceRunSpans(s, 0);
    var t := s[i..];
    var n := TrailingSpace(t);
    var r := t[..|t| - n];
    if r != [] {
      assert r[0] == s[i];
      assert r[|r| - 1] == t[|t| - n - 1];
    }
  }

  lemma StripEmpty(s: string)
    ensures Strip(s) == [] <==> AllSpace(s, 0, |s|)
  {
    var i := SpaceRun(s, 0);
    SpaceRunSpans(s, 0);
    var n := TrailingSpace(s[i..]);
  }

  /** `s.replace(a, b)` for single characters `a` and `b`. */
  function ReplaceChar(s: string, a: char, b: char): (r: string)
    ensures |r| == |s|
    ensures forall k :: 0 <= k < |s| ==> r[k] == (if s[k] == a then b else s[k])
  {
    if s == [] then [] else [if s[0] == a then b else s[0]] + ReplaceChar(s[1..], a, b)
  }

  /** Replacing a character that does not occur changes nothing. */
  lemma ReplaceAbsentChar(s: string, a: char, b: char)
    requires a !in s
    ensures ReplaceChar(s, a, b) == s
  {
    var r := ReplaceChar(s, a, b);
    assert forall k :: 0 <= k < |s| ==> r[k] == s[k];
  }

  /** Joins `parts` with `sep` between consecutive parts: the inverse of `Split`. */
  function JoinWith(parts: seq<string>, sep: char): string
    requires |parts| >= 1
  {
    if |parts| == 1 then parts[0] else parts[0] + [sep] + JoinWith(parts[1..], sep)
  }

  lemma {:induction false} JoinWithConsFirst(c: char, parts: seq<string>, sep: char)
    requires |parts| >= 1
    ensures JoinWith([[c] + parts[0]] + parts[1..], sep) == [c] + JoinWith(parts, sep)
  {
    var ps := [[c] + parts[0]] + parts[1..];
    if |parts| == 1 {
    } else {
      assert ps[1..] == parts[1..];
    }
  }

  /** `s.split(sep)` for a one-character separator: never empty, pieces free of `sep`, joined back gives `s`. */
  function Split(s: string, sep: char): (parts: seq<string>)
    decreases |s|
    ensures |parts| >= 1
    ensures forall k :: 0 <= k < |parts| ==> sep !in parts[k]
    ensures JoinWith(parts, sep) == s
  {
    if s == [] then [[]]
    else
      var rest := Split(s[1..], sep);
      if s[0] == sep then
        assert ([[]] + rest)[1..] == rest;
        [[]] + rest
      else
        JoinWithConsFirst(s[0], rest, sep);
        assert [s[0]] + s[1..] == s;
        [[s[0]] + rest[0]] + rest[1..]
  }

  /**
   * What a text-mode read returns (universal newlines): each "\r\n" and each lone "\r"
   * becomes "\n"; text without '\r' comes back as it is.
   */
  function TextModeRead(s: string): (r: string)
    ensures |r| <= |s|
    ensures '\r' !in r
    ensures '\r' !in s ==> r == s
  {
    if s == [] then []
    else if s[0] == '\r' then
      if |s| > 1 && s[1] == '\n' then "\n" + TextModeRead(s[2..]) else "\n" + TextModeRead(s[1..])
    else
      assert [s[0]] + s[1..] == s;
      [s[0]] + TextModeRead(s[1..])
  }

  /** Reading text that does not end in '\r' and then more text is reading each on its own. */
  lemma {:induction false} TextModeReadAppend(a: string, b: string)
    requires a == [] || a[|a| - 1] != '\r'
    ensures TextModeRead(a + b) == TextModeRead(a) + TextModeRead(b)
  {
    if a != [] {
      var s := a + b;
      assert s[0] == a[0];
      if a[0] == '\r' && a[1] == '\n' {
        assert s[1] == '\n' && s[2..] == a[2..] + b;
        assert TextModeRead(s) == "\n" + TextModeRead(s[2..]);
        assert TextModeRead(a) == "\n" + TextModeRead(a[2..]);
        TextModeReadAppend(a[2..], b);
      } else {
        assert a[0] == '\r' ==> s[1] == a[1];
        assert s[1..] == a[1..] + b;
        assert TextModeRead(s) == (if a[0] == '\r' then "\n" else [a[0]]) + TextModeRead(s[1..]);
        assert TextModeRead(a) == (if a[0] == '\r' then "\n" else [a[0]]) + TextModeRead(a[1..]);
        TextModeReadAppend(a[1..], b);
      }
    } else {
      assert a + b == b;
    }
  }

  /** A line ended by "\r\n" reads as the same line ended by "\n". */
  lemma TextModeReadCrLfLine(line: string, rest: string)
    requires '\r' !in line
    ensures TextModeRead(line + "\r\n" + rest) == line + "\n" + TextModeRead(rest)
  {
    var t := "\r\n" + rest;
    TextModeReadCrLf(rest);
    TextModeReadAfterLine(line, t, TextModeRead(rest));
    assert line + "\r\n" + rest == line + t;
  }

  /** A line ended by a lone "\r" reads as the same line ended by "\n". */
  lemma TextModeReadCrLine(line: string, rest: string)
    requires '\r' !in line && (rest == [] || rest[0] != '\n')
    ensures TextModeRead(line + "\r" + rest) == line + "\n" + TextModeRead(rest)
  {
    var t := "\r" + rest;
    TextModeReadLoneCr(rest);
    TextModeReadAfterLine(line, t, TextModeRead(rest));
    assert line + "\r" + rest == line + t;
  }

  lemma TextModeReadCrLf(rest: string)
    ensures TextModeRead("\r\n" + rest) == "\n" + TextModeRead(rest)
  {
    var t := "\r\n" + rest;
    assert t[0] == '\r' && t[1] == '\n' && t[2..] == rest;
  }

  lemma TextModeReadLoneCr(rest: string)
    requires rest == [] || rest[0] != '\n'
    ensures TextModeRead("\r" + rest) == "\n" + TextModeRead(rest)
  {
    var t := "\r" + rest;
    assert t[0] == '\r' && (|t| > 1 ==> t[1] == rest[0]) && t[1..] == rest;
  }

  /** A text starting with '\r' that reads as "\n" + `u`, behind a line without '\r'. */
  lemma TextModeReadAfterLine(line: string, t: string, u: string)
    requires '\r' !in line && t != [] && t[0] == '\r' && TextModeRead(t) == "\n" + u
    ensures TextModeRead(line + t) == line + "\n" + u
  {
    assert TextModeRead(line) == line;
    TextModeReadAppend(line, t);
    assert line + ("\n" + u) == line + "\n" + u;
  }
}
