/**
 * Parse phase of `apply_proguard_mapping`: `mapping.txt` is read line by line and every
 * class line `obfuscated.Name -> original.Name:` becomes an entry of an insertion-ordered
 * table keyed by the obfuscated name, dots turned into slashes on both sides.
 */
module MappingParser {
  import opened Wrappers
  import opened PyStrings

  /** The lines `for line in f` yields, with their terminators removed (a final empty piece is blank). */
  function Lines(text: string): (lines: seq<string>)
    ensures |lines| >= 1
    ensures forall k :: 0 <= k < |lines| ==> '\n' !in lines[k] && '\r' !in lines[k]
    ensures JoinWith(lines, '\n') == TextModeRead(text)
  {
    var t := TextModeRead(text);
    var lines := Split(t, '\n');
    assert forall k :: 0 <= k < |lines| ==> '\r' !in lines[k] by {
      forall k | 0 <= k < |lines| ensures '\r' !in lines[k] { JoinWithNoChar(lines, '\n', k, '\r'); }
    }
    lines
  }

  /** A character absent from a joined text is absent from every part. */
  lemma {:induction false} JoinWithNoChar(parts: seq<string>, sep: char, k: nat, c: char)
    requires |parts| >= 1 && k < |parts| && c !in JoinWith(parts, sep)
    ensures c !in parts[k]
  {
    if |parts| > 1 {
      assert JoinWith(parts, sep) == parts[0] + [sep] + JoinWith(parts[1..], sep);
      if k > 0 {
        JoinWithNoChar(parts[1..], sep, k - 1, c);
      }
    }
  }

  /**
   * `re.match(r'(.+?) -> (.+?):', line)` succeeds with group 1 = `line[..i]` and
   * group 2 = `line[i + 4..j]`: both non-empty and newline-free, " -> " at `i`, ':' at `j`.
   */
  predicate IsClassMatch(line: string, i: nat, j: nat) {
    && 1 <= i && i + 5 <= j < |line|
    && StartsAt(line, i, " -> ") && line[j] == ':'
    && NoNewline(line, 0, i) && NoNewline(line, i + 4, j)
  }

  /**
   * The match the regex engine finds with group 1 at least `i` long: the lazy group 1
   * grows one character at a time and, for each arrow, the lazy group 2 stops at the first colon.
   */
  function ClassMatchFrom(line: string, i: nat): (r: Option<(nat, nat)>)
    requires 1 <= i <= |line| && NoNewline(line, 0, i - 1)
    decreases |line| - i
    ensures r.Some? ==> i <= r.value.0 && IsClassMatch(line, r.value.0, r.value.1)
    ensures r.Some? ==> forall i', j' :: i <= i' && IsClassMatch(line, i', j') ==>
                          r.value.0 < i' || (r.value.0 == i' && r.value.1 <= j')
    ensures r.None? ==> forall i', j' :: i <= i' ==> !IsClassMatch(line, i', j')
  {
    if line[i - 1] == '\n' then None
    else if i + 5 < |line| && StartsAt(line, i, " -> ") && line[i + 4] != '\n' then
      match FirstBeforeNewline(line, ':', i + 4, i + 5)
      case Some(j) => Some((i, j))
      case None => if i + 1 <= |line| then ClassMatchFrom(line, i + 1) else None
    else if i < |line| then ClassMatchFrom(line, i + 1)
    else None
  }

  /** `re.match(r'(.+?) -> (.+?):', line)` as the pair of indices described by `IsClassMatch`. */
  function MatchClassLine(line: string): (r: Option<(nat, nat)>)
    ensures r.Some? ==> IsClassMatch(line, r.value.0, r.value.1)
  {
    if line == [] then None else ClassMatchFrom(line, 1)
  }

  /** The match found is the least one, and there is none exactly when no pair of indices matches. */
  lemma MatchClassLineLeast(line: string)
    ensures MatchClassLine(line).Some? ==> forall i', j' :: IsClassMatch(line, i', j') ==>
              MatchClassLine(line).value.0 < i' || (MatchClassLine(line).value.0 == i' && MatchClassLine(line).value.1 <= j')
    ensures MatchClassLine(line).None? <==> forall i', j' :: !IsClassMatch(line, i', j')
  {
  }

  /**
   * One line of `mapping.txt`: stripped; blank and '#' lines give nothing; a class line
   * gives (obfuscated, original) with '.' replaced by '/'; any other line gives nothing.
   */
  function ParseLine(raw: string): Option<(string, string)> {
    var line := Strip(raw);
    if line == [] || line[0] == '#' then None
    else
      match MatchClassLine(line)
      case None => None
      case Some((i, j)) => Some((ReplaceChar(line[..i], '.', '/'), ReplaceChar(line[i + 4..j], '.', '/')))
  }

  /**
   * Blank and '#' lines give nothing; a line gives an entry exactly when its stripped form
   * matches the class pattern, and the entry is two non-empty paths without dots.
   */
  lemma ParseLineCases(raw: string)
    ensures Strip(raw) == [] || Strip(raw)[0] == '#' ==> ParseLine(raw).None?
    ensures ParseLine(raw).Some? <==> Strip(raw) != [] && Strip(raw)[0] != '#' && exists i, j :: IsClassMatch(Strip(raw), i, j)
    ensures ParseLine(raw).Some? ==> var (obf, orig) := ParseLine(raw).value; '.' !in obf && '.' !in orig && obf != [] && orig != []
  {
    var line := Strip(raw);
    MatchClassLineLeast(line);
    if line != [] && line[0] != '#' && MatchClassLine(line).Some? {
      var (i, j) := MatchClassLine(line).value;
      var obf := ReplaceChar(line[..i], '.', '/');
      var orig := ReplaceChar(line[i + 4..j], '.', '/');
      assert obf[0] == (if line[0] == '.' then '/' else line[0]);
      assert orig[0] == (if line[i + 4] == '.' then '/' else line[i + 4]);
    }
  }

  /** A Python dict from obfuscated to original path: its keys in insertion order, and the mapping. */
  datatype Table = Table(keys: seq<string>, values: map<string, string>)
  {
    /** The keys listed once each, and exactly the keys of the mapping. */
    ghost predicate Valid() {
      && (forall a, b :: 0 <= a < b < |keys| ==> keys[a] != keys[b])
      && (forall x :: x in values <==> x in keys)
    }

    /** `d[k] = v`: a new key goes last; an existing key keeps its place and gets the new value. */
    function Insert(k: string, v: string): (t: Table)
      requires Valid()
      ensures t.Valid()
      ensures t.values == values[k := v]
      ensures k in values ==> t.keys == keys
      ensures k !in values ==> t.keys == keys + [k]
    {
      if k in values then Table(keys, values[k := v]) else Table(keys + [k], values[k := v])
    }
  }

  const EmptyTable: Table := Table([], map[])

  /** `d[obf] = orig` for a class line; nothing for any other line. */
  function AddEntry(t: Table, e: Option<(string, string)>): (r: Table)
    requires t.Valid()
    ensures r.Valid()
  {
    match e
    case None => t
    case Some((obf, orig)) => t.Insert(obf, orig)
  }

  /** The table after the parsed lines `es`, in order. */
  function Build(es: seq<Option<(string, string)>>): (t: Table)
    ensures t.Valid()
  {
    if es == [] then EmptyTable else AddEntry(Build(es[..|es| - 1]), es[|es| - 1])
  }

  /** `f` applied to each element. */
  function Map<A, B>(f: A -> B, xs: seq<A>): (ys: seq<B>)
    ensures |ys| == |xs| && forall k :: 0 <= k < |xs| ==> ys[k] == f(xs[k])
  {
    seq(|xs|, k requires 0 <= k < |xs| => f(xs[k]))
  }

  lemma MapAppend<A, B>(f: A -> B, a: seq<A>, b: seq<A>)
    ensures Map(f, a + b) == Map(f, a) + Map(f, b)
  {
    var l, r := Map(f, a + b), Map(f, a) + Map(f, b);
    forall k | 0 <= k < |a| + |b| ensures l[k] == r[k] {
      if k < |a| { assert (a + b)[k] == a[k]; } else { assert (a + b)[k] == b[k - |a|]; }
    }
  }

  /** Each line parsed on its own. */
  function Entries(lines: seq<string>): seq<Option<(string, string)>> {
    Map(ParseLine, lines)
  }

  /** The table after reading `lines` in order. */
  function ParseLines(lines: seq<string>): Table {
    Build(Entries(lines))
  }

  /** The parse loop of `apply_proguard_mapping`, filling the table one line at a time. */
  method ParseMapping(text: string) returns (table: Table)
    ensures table == ParseLines(Lines(text))
    ensures table.Valid()
  {
    var lines := Lines(text);
    table := EmptyTable;
    var n := 0;
    while n < |lines|
      invariant n <= |lines|
      invariant table == Build(Entries(lines[..n]))
    {
      var entry := ParseLine(lines[n]);
      assert Entries(lines[..n + 1])[..n] == Entries(lines[..n]);
      if entry.Some? {
        table := table.Insert(entry.value.0, entry.value.1);
      }
      n := n + 1;
    }
    assert lines[..n] == lines;
  }

  /** Entry `k` names obfuscated path `x`. */
  predicate Names(es: seq<Option<(string, string)>>, k: nat, x: string)
    requires k < |es|
  {
    es[k].Some? && es[k].value.0 == x
  }

  lemma {:induction false} BuildKeys(es: seq<Option<(string, string)>>, x: string)
    ensures x in Build(es).values <==> exists k :: 0 <= k < |es| && Names(es, k, x)
  {
    if es != [] {
      var init := es[..|es| - 1];
      var last := es[|es| - 1];
      BuildKeys(init, x);
      assert Build(es) == AddEntry(Build(init), last);
      if exists k :: 0 <= k < |init| && Names(init, k, x) {
        var k :| 0 <= k < |init| && Names(init, k, x);
        assert Names(es, k, x);
      }
      if exists k :: 0 <= k < |es| && Names(es, k, x) {
        var k :| 0 <= k < |es| && Names(es, k, x);
        if k < |init| { assert Names(init, k, x); } else { assert last.value.0 == x; }
      }
      if x in Build(es).values && x !in Build(init).values {
        assert Names(es, |es| - 1, x);
      }
    }
  }

  lemma {:induction false} BuildLast(es: seq<Option<(string, string)>>, k: nat, x: string, y: string)
    requires k < |es| && es[k] == Some((x, y))
    requires forall k' :: k < k' < |es| ==> !Names(es, k', x)
    ensures x in Build(es).values && Build(es).values[x] == y
  {
    var init := es[..|es| - 1];
    if k < |init| {
      forall k' | k < k' < |init| ensures !Names(init, k', x) {
        assert !Names(es, k', x);
      }
      BuildLast(init, k, x, y);
      assert !Names(es, |es| - 1, x);
    }
  }

  lemma {:induction false} BuildSkipsNone(before: seq<Option<(string, string)>>, after: seq<Option<(string, string)>>)
    ensures Build(before + [None] + after) == Build(before + after)
  {
    if after == [] {
      assert (before + [None] + after)[..|before|] == before;
      assert before + after == before;
    } else {
      var init := after[..|after| - 1];
      BuildSkipsNone(before, init);
      assert (before + [None] + after)[..|before + [None] + after| - 1] == before + [None] + init;
      assert (before + after)[..|before + after| - 1] == before + init;
    }
  }

  /** Whether line `k` is a class line for obfuscated name `x`. */
  predicate DefinesKey(lines: seq<string>, k: nat, x: string)
    requires k < |lines|
  {
    ParseLine(lines[k]).Some? && ParseLine(lines[k]).value.0 == x
  }

  /** The table holds exactly the obfuscated names of the class lines. */
  lemma ParsedKeys(lines: seq<string>, x: string)
    ensures x in ParseLines(lines).values <==> exists k :: 0 <= k < |lines| && DefinesKey(lines, k, x)
  {
    var es := Entries(lines);
    BuildKeys(es, x);
    assert forall k :: 0 <= k < |lines| ==> (Names(es, k, x) <==> DefinesKey(lines, k, x));
  }

  /** The value of a name is the original name on the last class line for it: a later line overwrites. */
  lemma LastLineWins(lines: seq<string>, k: nat, x: string, y: string)
    requires k < |lines| && ParseLine(lines[k]) == Some((x, y))
    requires forall k' :: k < k' < |lines| ==> !DefinesKey(lines, k', x)
    ensures x in ParseLines(lines).values && ParseLines(lines).values[x] == y
  {
    var es := Entries(lines);
    forall k' | k < k' < |lines| ensures !Names(es, k', x) {
      assert !DefinesKey(lines, k', x);
    }
    BuildLast(es, k, x, y);
  }

  /** Parsing is line by line: the entries of two chunks are the entries of each. */
  lemma EntriesAppend(a: seq<string>, b: seq<string>)
    ensures Entries(a + b) == Entries(a) + Entries(b)
  {
    MapAppend(ParseLine, a, b);
  }

  /** Blank lines, comments and lines that are not class lines leave the table as it is, wherever they occur. */
  lemma IgnoredLineAddsNothing(before: seq<string>, raw: string, after: seq<string>)
    requires ParseLine(raw).None?
    ensures ParseLines(before + [raw] + after) == ParseLines(before + after)
  {
    EntriesAppend(before + [raw], after);
    EntriesAppend(before, [raw]);
    EntriesAppend(before, after);
    assert Entries([raw]) == [None];
    BuildSkipsNone(Entries(before), Entries(after));
  }

  /** In `a -> b:` and whatever follows, with no space in `a` and no colon in `b`, the groups are `a` and `b`. */
  lemma ClassLineMatch(a: string, b: string, t: string)
    requires a != [] && b != [] && ' ' !in a && '\n' !in a && ':' !in b && '\n' !in b
    ensures MatchClassLine(a + " -> " + b + ":" + t) == Some((|a|, |a| + 4 + |b|))
  {
    var line := a + " -> " + b + ":" + t;
    var i, j := |a|, |a| + 4 + |b|;
    ClassLineParts(a, b, t);
    assert line[i..i + 4] == " -> ";
    forall k | 0 <= k < i ensures line[k] != '\n' && line[k] != ' ' { assert line[k] == a[k]; }
    forall k | i + 4 <= k < j ensures line[k] != '\n' && line[k] != ':' { assert line[k] == b[k - i - 4]; }
    assert IsClassMatch(line, i, j);
    forall i' | 1 <= i' < i ensures !StartsAt(line, i', " -> ") { assert line[i'] != ' '; }
    ClassLineLeftmost(line, i, j);
  }

  /**
   * A well-formed ProGuard class line `a -> b:` (no space in `a`, no colon in `b`, no newline),
   * whatever follows the colon, maps `a` to `b`, both with '.' replaced by '/'.
   */
  lemma ClassLineMaps(a: string, b: string, t: string)
    requires a != [] && b != [] && !IsSpace(a[0]) && a[0] != '#'
    requires ' ' !in a && '\n' !in a && ':' !in b && '\n' !in b
    ensures ParseLine(a + " -> " + b + ":" + t) == Some((ReplaceChar(a, '.', '/'), ReplaceChar(b, '.', '/')))
  {
    var raw := a + " -> " + b + ":" + t;
    var j := |a| + 4 + |b|;
    ClassLineParts(a, b, t);
    var m := StripKeepsFrom(raw, j);
    var t' := t[..m - j - 1];
    assert Strip(raw) == a + " -> " + b + ":" + t' by {
      assert raw[..m] == raw[..j + 1] + t';
      assert raw[..j + 1] == a + " -> " + b + ":";
    }
    ClassLineParts(a, b, t');
    ClassLineMatch(a, b, t');
  }

  lemma ClassLineParts(a: string, b: string, t: string)
    requires a != []
    ensures (a + " -> " + b + ":" + t)[0] == a[0]
    ensures (a + " -> " + b + ":" + t)[|a| + 4 + |b|] == ':'
    ensures (a + " -> " + b + ":" + t)[..|a|] == a
    ensures (a + " -> " + b + ":" + t)[|a| + 4..|a| + 4 + |b|] == b
  {
  }

  /** A text that starts with a non-space keeps, once stripped, a prefix reaching past any non-space character. */
  lemma StripKeepsFrom(s: string, j: nat) returns (m: nat)
    requires j < |s| && !IsSpace(s[0]) && !IsSpace(s[j])
    ensures j < m <= |s| && Strip(s) == s[..m]
  {
    assert SpaceRun(s, 0) == 0;
    assert s[0..] == s;
    m := |s| - TrailingSpace(s);
  }

  /** A sample class line, as ProGuard writes it. */
  lemma ClassLineExample()
    ensures ParseLine("a.b -> x.Main:") == Some(("a/b", "x/Main"))
  {
    assert "a.b -> x.Main:" == "a.b" + " -> " + "x.Main" + ":";
    assert "a.b" + " -> " + "x.Main" + ":" + "" == "a.b -> x.Main:";
    ClassLineMaps("a.b", "x.Main", "");
    DotsOfExample();
  }

  /** The leftmost arrow and the first colon after it give the match. */
  lemma ClassLineLeftmost(line: string, i: nat, j: nat)
    requires IsClassMatch(line, i, j)
    requires forall i' :: 1 <= i' < i ==> !StartsAt(line, i', " -> ")
    requires forall j' :: i + 5 <= j' < j ==> line[j'] != ':'
    ensures MatchClassLine(line) == Some((i, j))
  {
    MatchClassLineLeast(line);
  }

  lemma DotsOfExample()
    ensures ReplaceChar("a.b", '.', '/') == "a/b" && ReplaceChar("x.Main", '.', '/') == "x/Main"
  {
    ReplaceDotsExample("a.b", "a/b");
    ReplaceDotsExample("x.Main", "x/Main");
  }

  lemma ReplaceDotsExample(s: string, t: string)
    requires |s| == |t| && forall k :: 0 <= k < |s| ==> t[k] == (if s[k] == '.' then '/' else s[k])
    ensures ReplaceChar(s, '.', '/') == t
  {
  }

  /** Without a colon from index 6 on there is no class match: group 1, the arrow and group 2 take six characters. */
  lemma NoLateColonNoMatch(line: string)
    requires forall j :: 6 <= j < |line| ==> line[j] != ':'
    ensures MatchClassLine(line).None?
  {
    MatchClassLineLeast(line);
  }

  /** A member line (`1:1:void a() -> show`) has no colon after its arrow: no entry. */
  lemma MemberLineIgnored()
    ensures ParseLine("    1:1:void a() -> show").None?
  {
    var line := "1:1:void a() -> show";
    MemberLineStrip();
    MemberLineNoMatch();
  }

  lemma MemberLineStrip()
    ensures Strip("    1:1:void a() -> show") == "1:1:void a() -> show"
  {
    var line := "1:1:void a() -> show";
    assert "    1:1:void a() -> show" == "    " + line;
    assert line[0] == '1' && line[|line| - 1] == 'w';
    StripIndent("    ", line);
  }

  lemma MemberLineNoMatch()
    ensures MatchClassLine("1:1:void a() -> show").None?
  {
    var rest := "void a() -> show";
    var line := "1:1:" + rest;
    assert line == "1:1:void a() -> show";
    assert ':' !in rest;
    forall j | 6 <= j < |line| ensures line[j] != ':' { assert line[j] == rest[j - 4]; }
    NoLateColonNoMatch(line);
  }

  /** Leading whitespace is cut off by `Strip`. */
  lemma StripIndent(indent: string, line: string)
    requires forall k :: 0 <= k < |indent| ==> IsSpace(indent[k])
    requires line != [] && !IsSpace(line[0]) && !IsSpace(line[|line| - 1])
    ensures Strip(indent + line) == line
  {
    var s := indent + line;
    var n := |indent|;
    assert s[n] == line[0] && s[|s| - 1] == line[|line| - 1];
    assert AllSpace(s, 0, n) by {
      forall k | 0 <= k < n ensures IsSpace(s[k]) { assert s[k] == indent[k]; }
    }
    SpaceRunOver(s, 0, n);
    assert s[n..] == line;
    assert TrailingSpace(line) == 0;
  }

  lemma {:induction false} SpaceRunOver(s: string, i: nat, n: nat)
    requires i <= n < |s| && AllSpace(s, i, n) && !IsSpace(s[n])
    decreases n - i
    ensures SpaceRun(s, i) == n - i
  {
    if i < n { SpaceRunOver(s, i + 1, n); }
  }
}
