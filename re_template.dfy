/**
 * Replacement templates of Python's `re.sub` (the `repl` string), as Python 3.12 parses
 * them before any matching: literal characters, group references and escapes.
 */
module ReTemplate {
  import opened Wrappers
  import opened PyStrings

  /** A parsed template is a sequence of literal characters and group references. */
  datatype Piece = Lit(c: char) | Group(n: nat)

  predicate IsOctDigit(c: char) { '0' <= c <= '7' }

  function DigitVal(c: char): nat
    requires IsAsciiDigit(c)
  {
    c as int - '0' as int
  }

  /** The character of the escapes `\a \b \f \n \r \t \v \\`; `None` for any other character. */
  function EscapeChar(c: char): (r: Option<char>)
    ensures r.Some? ==> IsAsciiLetter(c) || c == '\\'
  {
    match c
    case 'a' => Some('\U{7}')
    case 'b' => Some('\U{8}')
    case 'f' => Some('\U{c}')
    case 'n' => Some('\n')
    case 'r' => Some('\r')
    case 't' => Some('\t')
    case 'v' => Some('\U{b}')
    case '\\' => Some('\\')
    case _ => None
  }

  /** Number of ASCII digits in the run that starts at `i`. */
  function DigitRun(t: string, i: nat): (n: nat)
    requires i <= |t|
    decreases |t| - i
    ensures i + n <= |t| && forall k :: i <= k < i + n ==> IsAsciiDigit(t[k])
    ensures i + n < |t| ==> !IsAsciiDigit(t[i + n])
  {
    if i < |t| && IsAsciiDigit(t[i]) then 1 + DigitRun(t, i + 1) else 0
  }

  /** `ps` in front of a parse result; an error stays an error. */
  function Prepend(ps: seq<Piece>, r: Result<seq<Piece>>): Result<seq<Piece>> {
    match r
    case Ok(rest) => Ok(ps + rest)
    case Err => Err
  }

  /** Every group reference is at most `groups`, the number of groups in the pattern. */
  predicate RefsWithin(ps: seq<Piece>, groups: nat) {
    forall k :: 0 <= k < |ps| && ps[k].Group? ==> ps[k].n <= groups
  }

  /** What one backslash escape stands for, and the index just after it. */
  datatype Escape = Escape(pieces: seq<Piece>, next: nat)

  /**
   * The escape at `i`, as Python 3.12 reads it: `\g<digits>` is a group reference, '0' starts
   * an octal escape of at most three digits, another digit is a one- or two-digit group
   * reference unless three octal digits make an octal escape (at most 0o377), the eight
   * letter escapes give their character, any other ASCII letter and a trailing backslash are
   * errors, and any other character is kept with its backslash. A group reference beyond
   * `groups` is an error.
   */
  function ParseEscape(t: string, i: nat, groups: nat): (r: Result<Escape>)
    requires i < |t| && t[i] == '\\'
    ensures r.Ok? ==> i < r.value.next <= |t| && RefsWithin(r.value.pieces, groups)
  {
    if i + 1 == |t| then Err
    else
      var c := t[i + 1];
      if c == 'g' then
        if i + 2 < |t| && t[i + 2] == '<' then
          var d := DigitRun(t, i + 3);
          if d > 0 && i + 3 + d < |t| && t[i + 3 + d] == '>' then
            var n := DigitsValue(t[i + 3..i + 3 + d]);
            if n <= groups then Ok(Escape([Group(n)], i + 4 + d)) else Err
          else Err
        else Err
      else if c == '0' then
        var k := if i + 2 < |t| && IsOctDigit(t[i + 2]) then (if i + 3 < |t| && IsOctDigit(t[i + 3]) then 2 else 1) else 0;
        var v := if k == 0 then 0 else if k == 1 then DigitVal(t[i + 2]) else 8 * DigitVal(t[i + 2]) + DigitVal(t[i + 3]);
        Ok(Escape([Lit(v as char)], i + 2 + k))
      else if IsAsciiDigit(c) then
        if i + 2 < |t| && IsAsciiDigit(t[i + 2]) then
          if IsOctDigit(c) && IsOctDigit(t[i + 2]) && i + 3 < |t| && IsOctDigit(t[i + 3]) then
            var v := 64 * DigitVal(c) + 8 * DigitVal(t[i + 2]) + DigitVal(t[i + 3]);
            if v > 255 then Err else Ok(Escape([Lit(v as char)], i + 4))
          else
            var n := 10 * DigitVal(c) + DigitVal(t[i + 2]);
            if n <= groups then Ok(Escape([Group(n)], i + 3)) else Err
        else
          var n := DigitVal(c);
          if n <= groups then Ok(Escape([Group(n)], i + 2)) else Err
      else
        match EscapeChar(c)
        case Some(e) => Ok(Escape([Lit(e)], i + 2))
        case None => if IsAsciiLetter(c) then Err else Ok(Escape([Lit('\\'), Lit(c)], i + 2))
  }

  /** The template from index `i` on: characters other than a backslash stand for themselves. */
  function Parse(t: string, i: nat, groups: nat): (r: Result<seq<Piece>>)
    requires i <= |t|
    decreases |t| - i
    ensures r.Ok? ==> RefsWithin(r.value, groups)
  {
    if i == |t| then Ok([])
    else if t[i] != '\\' then Prepend([Lit(t[i])], Parse(t, i + 1, groups))
    else
      match ParseEscape(t, i, groups)
      case Err => Err
      case Ok(e) => Prepend(e.pieces, Parse(t, e.next, groups))
  }

  /** `re.sub` compiles its template first: an error here is raised whether or not the pattern matches. */
  function ParseTemplate(t: string, groups: nat): (r: Result<seq<Piece>>)
    ensures r.Ok? ==> RefsWithin(r.value, groups)
  {
    Parse(t, 0, groups)
  }

  /** The text a parsed template stands for, given group 0 (the whole match) and the groups. */
  function Expand(ps: seq<Piece>, groupText: seq<string>): (r: string)
    requires forall k :: 0 <= k < |ps| && ps[k].Group? ==> ps[k].n < |groupText|
  {
    if ps == [] then []
    else (match ps[0] case Lit(c) => [c] case Group(n) => groupText[n]) + Expand(ps[1..], groupText)
  }

  /** Each character as a literal piece. */
  function Literal(s: string): (ps: seq<Piece>)
    ensures |ps| == |s| && forall k :: 0 <= k < |s| ==> ps[k] == Lit(s[k])
  {
    if s == [] then [] else [Lit(s[0])] + Literal(s[1..])
  }

  /** Expanding the literal pieces of `s` gives back `s`. */
  lemma {:induction false} ExpandLiteral(s: string, groupText: seq<string>)
    ensures Expand(Literal(s), groupText) == s
  {
    if s != [] {
      assert Literal(s)[1..] == Literal(s[1..]);
      ExpandLiteral(s[1..], groupText);
    }
  }

  lemma {:induction false} ExpandAppend(a: seq<Piece>, b: seq<Piece>, groupText: seq<string>)
    requires forall k :: 0 <= k < |a| && a[k].Group? ==> a[k].n < |groupText|
    requires forall k :: 0 <= k < |b| && b[k].Group? ==> b[k].n < |groupText|
    ensures Expand(a + b, groupText) == Expand(a, groupText) + Expand(b, groupText)
  {
    if a != [] {
      assert (a + b)[0] == a[0] && (a + b)[1..] == a[1..] + b;
      ExpandAppend(a[1..], b, groupText);
    } else {
      assert a + b == b;
    }
  }

  lemma PrependTwice(a: seq<Piece>, b: seq<Piece>, r: Result<seq<Piece>>)
    ensures Prepend(a, Prepend(b, r)) == Prepend(a + b, r)
  {
    if r.Ok? { assert a + (b + r.value) == (a + b) + r.value; }
  }

  lemma PrependNothing(r: Result<seq<Piece>>)
    ensures Prepend([], r) == r
  {
    if r.Ok? { assert [] + r.value == r.value; }
  }

  /** A stretch without backslashes parses to its characters as literals. */
  lemma {:induction false} ParsePlainStretch(t: string, i: nat, m: nat, groups: nat)
    requires i + m <= |t| && forall k :: i <= k < i + m ==> t[k] != '\\'
    decreases m
    ensures Parse(t, i, groups) == Prepend(Literal(t[i..i + m]), Parse(t, i + m, groups))
  {
    if m > 0 {
      ParsePlainStretch(t, i + 1, m - 1, groups);
      assert t[i..i + m] == [t[i]] + t[i + 1..i + m];
      assert Literal(t[i..i + m]) == [Lit(t[i])] + Literal(t[i + 1..i + m]);
      PrependTwice([Lit(t[i])], Literal(t[i + 1..i + m]), Parse(t, i + m, groups));
    } else {
      assert Literal(t[i..i]) == [];
      PrependNothing(Parse(t, i, groups));
    }
  }

  /** A template without backslashes stands for itself, whatever the match. */
  lemma NoBackslashIsLiteral(t: string, groups: nat, groupText: seq<string>)
    requires '\\' !in t
    ensures ParseTemplate(t, groups) == Ok(Literal(t))
    ensures Expand(Literal(t), groupText) == t
  {
    ParsePlainStretch(t, 0, |t|, groups);
    assert t[0..|t|] == t;
    assert Literal(t) + [] == Literal(t);
    ExpandLiteral(t, groupText);
  }

  /**
   * `\1NAME\2` with a backslash-free name that does not start with a digit is group 1, the
   * name and group 2: the substitution keeps what the two groups matched around the new name.
   */
  lemma NameBetweenGroups(name: string, groupText: seq<string>)
    requires '\\' !in name && (name == [] || !IsAsciiDigit(name[0]))
    requires |groupText| == 3
    ensures ParseTemplate("\\1" + name + "\\2", 2) == Ok([Group(1)] + Literal(name) + [Group(2)])
    ensures Expand([Group(1)] + Literal(name) + [Group(2)], groupText) == groupText[1] + name + groupText[2]
  {
    ParseNameBetweenGroups(name);
    ExpandAppend([Group(1)] + Literal(name), [Group(2)], groupText);
    ExpandAppend([Group(1)], Literal(name), groupText);
    ExpandLiteral(name, groupText);
    assert Expand([Group(2)], groupText) == groupText[2] + [];
    assert Expand([Group(1)], groupText) == groupText[1] + [];
  }

  lemma ParseNameBetweenGroups(name: string)
    requires '\\' !in name && (name == [] || !IsAsciiDigit(name[0]))
    ensures ParseTemplate("\\1" + name + "\\2", 2) == Ok([Group(1)] + Literal(name) + [Group(2)])
  {
    var t := "\\1" + name + "\\2";
    var m := |name|;
    assert t[0] == '\\' && t[1] == '1';
    assert 2 < |t| && t[2] == (if m > 0 then name[0] else '\\');
    assert ParseEscape(t, 0, 2) == Ok(Escape([Group(1)], 2));
    ParsePlainStretch(t, 2, m, 2);
    assert t[2..2 + m] == name;
    assert t[2 + m] == '\\' && t[3 + m] == '2' && |t| == 4 + m;
    assert ParseEscape(t, 2 + m, 2) == Ok(Escape([Group(2)], 4 + m));
    assert Parse(t, 4 + m, 2) == Ok([]);
    assert [Group(2)] + [] == [Group(2)];
    assert [Group(1)] + (Literal(name) + [Group(2)]) == [Group(1)] + Literal(name) + [Group(2)];
  }

  /**
   * A name that starts with a digit turns `\1` into a two-digit group reference (10 or more,
   * so an error with two groups) unless the digit and the next one are octal, in which case
   * `\1dd` is an octal escape and the template no longer starts with group 1.
   */
  lemma DigitLedName(name: string)
    requires name != [] && IsAsciiDigit(name[0])
    ensures !(IsOctDigit(name[0]) && |name| >= 2 && IsOctDigit(name[1])) ==> ParseTemplate("\\1" + name + "\\2", 2) == Err
    ensures ParseTemplate("\\1" + name + "\\2", 2).Ok? ==>
              ParseTemplate("\\1" + name + "\\2", 2).value != [] && ParseTemplate("\\1" + name + "\\2", 2).value[0].Lit?
  {
    var t := "\\1" + name + "\\2";
    assert t[0] == '\\' && t[1] == '1' && t[2] == name[0];
    assert 3 < |t| && t[3] == (if |name| >= 2 then name[1] else '\\');
  }
}
