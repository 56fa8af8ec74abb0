/**
 * The two first-occurrence substitutions `apply_proguard_mapping` applies to a moved source
 * file: the class declaration name, then the package declaration.
 */
module Rewrite {
  import opened Wrappers
  import opened PyStrings
  import opened ReTemplate

  /** `\w`, restricted to ASCII: letters, digits and '_'. */
  predicate IsWordChar(c: char) {
    IsAsciiLetter(c) || IsAsciiDigit(c) || c == '_'
  }

  /** `\b` at index `p`: a word character on exactly one side. */
  predicate AtBoundary(s: string, p: nat)
    requires p <= |s|
  {
    (p > 0 && IsWordChar(s[p - 1])) != (p < |s| && IsWordChar(s[p]))
  }

  /** The alternatives of `(?:class|interface|enum)`. */
  datatype Keyword = Class | Interface | Enum

  function Text(kw: Keyword): string {
    match kw
    case Class => "class"
    case Interface => "interface"
    case Enum => "enum"
  }

  /**
   * `(\b(?:class|interface|enum)\s+)NAME(\b)` matches at `i` with keyword `kw` followed by
   * `m` whitespace characters; group 1 ends at `i + |Text(kw)| + m`, where `name` starts.
   */
  predicate IsDeclMatch(s: string, name: string, i: nat, kw: Keyword, m: nat) {
    var p := i + |Text(kw)|;
    && 1 <= m && p + m + |name| <= |s|
    && AtBoundary(s, i) && StartsAt(s, i, Text(kw)) && AllSpace(s, p, p + m)
    && StartsAt(s, p + m, name) && AtBoundary(s, p + m + |name|)
  }

  /** The keyword starting at `i`, if any. */
  function KeywordAt(s: string, i: nat): (r: Option<Keyword>)
    ensures r.Some? ==> StartsAt(s, i, Text(r.value))
  {
    if StartsAt(s, i, "class") then Some(Class)
    else if StartsAt(s, i, "interface") then Some(Interface)
    else if StartsAt(s, i, "enum") then Some(Enum)
    else None
  }

  /** The three keywords start with different letters: the keyword at `i` is the one `KeywordAt` finds. */
  lemma KeywordAtFinds(s: string, i: nat, kw: Keyword)
    requires StartsAt(s, i, Text(kw))
    ensures KeywordAt(s, i) == Some(kw)
  {
    assert s[i] == s[i..i + |Text(kw)|][0] == Text(kw)[0];
  }

  /** A match cannot take more whitespace than the run after the keyword holds. */
  lemma DeclWithinRun(s: string, name: string, i: nat, kw: Keyword, m: nat)
    requires IsDeclMatch(s, name, i, kw, m)
    ensures m <= SpaceRun(s, i + |Text(kw)|)
  {
    SpaceRunSpans(s, i + |Text(kw)|);
  }

  /** The name, then a word boundary, `m` characters after `p`. */
  predicate FitsAfter(s: string, name: string, p: nat, m: nat) {
    p + m + |name| <= |s| && StartsAt(s, p + m, name) && AtBoundary(s, p + m + |name|)
  }

  /** The greedy `\s+` backing off from `top` characters after `p`: the largest `1 <= m <= top` where the name fits. */
  function BackOff(s: string, name: string, p: nat, top: nat): (r: Option<nat>)
    ensures r.Some? ==> 1 <= r.value <= top && FitsAfter(s, name, p, r.value)
    ensures r.Some? ==> forall m: nat :: r.value < m <= top ==> !FitsAfter(s, name, p, m)
    ensures r.None? ==> forall m: nat :: 1 <= m <= top ==> !FitsAfter(s, name, p, m)
  {
    if top == 0 then None
    else if FitsAfter(s, name, p, top) then Some(top)
    else BackOff(s, name, p, top - 1)
  }

  /** A match found by the engine: where it starts, its keyword and its whitespace. */
  datatype Decl = Decl(start: nat, keyword: Keyword, spaces: nat) {
    /** Where group 1 ends and the name starts. */
    function NameStart(): nat {
      start + |Text(keyword)| + spaces
    }
  }

  /** The match at `i` with the most whitespace, if any. */
  function DeclAt(s: string, name: string, i: nat): (r: Option<Decl>)
    requires i <= |s|
    ensures r.Some? ==> r.value.start == i && r.value.NameStart() + |name| <= |s|
  {
    match KeywordAt(s, i)
    case None => None
    case Some(kw) => DeclWith(s, name, i, kw)
  }

  /** The match at `i` with keyword `kw` and the most whitespace, if any. */
  function DeclWith(s: string, name: string, i: nat, kw: Keyword): (r: Option<Decl>)
    requires i <= |s|
    ensures r.Some? ==> r.value.start == i && r.value.keyword == kw && r.value.NameStart() + |name| <= |s|
  {
    var p := i + |Text(kw)|;
    if |s| < p || !AtBoundary(s, i) then None
    else
      var m := BackOff(s, name, p, SpaceRun(s, p));
      if m.None? then None else Some(Decl(i, kw, m.value))
  }

  /** What `DeclWith` finds: the boundary, a whitespace count within the run, and the name fitting after it. */
  lemma DeclWithFacts(s: string, name: string, i: nat, kw: Keyword)
    requires i <= |s| && DeclWith(s, name, i, kw).Some?
    ensures var m := DeclWith(s, name, i, kw).value.spaces;
            && i + |Text(kw)| <= |s| && AtBoundary(s, i)
            && 1 <= m <= SpaceRun(s, i + |Text(kw)|) && FitsAfter(s, name, i + |Text(kw)|, m)
  {
  }

  /** Keyword, boundary, whitespace within the run and the name make a match. */
  lemma DeclMatchFromParts(s: string, name: string, i: nat, kw: Keyword, m: nat)
    requires StartsAt(s, i, Text(kw)) && AtBoundary(s, i)
    requires 1 <= m <= SpaceRun(s, i + |Text(kw)|) && FitsAfter(s, name, i + |Text(kw)|, m)
    ensures IsDeclMatch(s, name, i, kw, m)
  {
    var p := i + |Text(kw)|;
    assert AllSpace(s, p, p + m) by {
      SpaceRunSpans(s, p);
    }
  }

  /** The parts of a match, as `DeclWith` tests them. */
  lemma DeclMatchParts(s: string, name: string, i: nat, kw: Keyword, m: nat)
    requires IsDeclMatch(s, name, i, kw, m)
    ensures i + |Text(kw)| <= |s| && AtBoundary(s, i) && StartsAt(s, i, Text(kw))
    ensures 1 <= m <= SpaceRun(s, i + |Text(kw)|) && FitsAfter(s, name, i + |Text(kw)|, m)
  {
    DeclWithinRun(s, name, i, kw, m);
  }

  /** Where the name fits after `m` spaces of the run, `DeclWith` takes at least `m` of them. */
  lemma DeclWithReaches(s: string, name: string, i: nat, kw: Keyword, m: nat)
    requires i + |Text(kw)| <= |s| && AtBoundary(s, i)
    requires 1 <= m <= SpaceRun(s, i + |Text(kw)|) && FitsAfter(s, name, i + |Text(kw)|, m)
    ensures DeclWith(s, name, i, kw).Some? && m <= DeclWith(s, name, i, kw).value.spaces
  {
  }

  /** What `DeclAt` finds is a match. */
  lemma DeclAtMatches(s: string, name: string, i: nat)
    requires i <= |s| && DeclAt(s, name, i).Some?
    ensures var d := DeclAt(s, name, i).value; IsDeclMatch(s, name, i, d.keyword, d.spaces)
  {
    var kw := KeywordAt(s, i).value;
    DeclWithFacts(s, name, i, kw);
    DeclMatchFromParts(s, name, i, kw, DeclWith(s, name, i, kw).value.spaces);
  }

  /** Every match at `i` is found by `DeclAt`, with at most the whitespace `DeclAt` takes. */
  lemma DeclAtMost(s: string, name: string, i: nat, kw: Keyword, m: nat)
    requires i <= |s| && IsDeclMatch(s, name, i, kw, m)
    ensures DeclAt(s, name, i).Some? && m <= DeclAt(s, name, i).value.spaces
  {
    KeywordAtFinds(s, i, kw);
    DeclMatchParts(s, name, i, kw, m);
    DeclWithReaches(s, name, i, kw, m);
  }

  /** No match of the declaration pattern starts at `i`. */
  ghost predicate NoDeclAt(s: string, name: string, i: nat) {
    forall kw, m: nat :: !IsDeclMatch(s, name, i, kw, m)
  }

  /** No match starts at any `i'` with `lo <= i' < hi`. */
  ghost predicate NoDeclBetween(s: string, name: string, lo: nat, hi: nat) {
    forall i': nat :: lo <= i' < hi ==> NoDeclAt(s, name, i')
  }

  /** No match starts at or after `lo`. */
  ghost predicate NoDeclFrom(s: string, name: string, lo: nat) {
    forall i': nat :: lo <= i' ==> NoDeclAt(s, name, i')
  }

  /** `d` is a match, and no match at its start takes more whitespace. */
  ghost predicate MostSpaces(s: string, name: string, d: Decl) {
    && IsDeclMatch(s, name, d.start, d.keyword, d.spaces)
    && forall kw, m: nat :: IsDeclMatch(s, name, d.start, kw, m) ==> m <= d.spaces
  }

  /** When `DeclAt` finds nothing, no match starts at `i`. */
  lemma DeclAtNone(s: string, name: string, i: nat)
    requires i <= |s| && DeclAt(s, name, i).None?
    ensures NoDeclAt(s, name, i)
  {
    forall kw, m: nat ensures !IsDeclMatch(s, name, i, kw, m) {
      if IsDeclMatch(s, name, i, kw, m) { DeclAtMost(s, name, i, kw, m); }
    }
  }

  /** When `DeclAt` finds a match, it has the most whitespace. */
  lemma DeclAtSome(s: string, name: string, i: nat)
    requires i <= |s| && DeclAt(s, name, i).Some?
    ensures MostSpaces(s, name, DeclAt(s, name, i).value)
  {
    DeclAtMatches(s, name, i);
    forall kw, m: nat | IsDeclMatch(s, name, i, kw, m) ensures m <= DeclAt(s, name, i).value.spaces {
      DeclAtMost(s, name, i, kw, m);
    }
  }

  /** The leftmost match at or after `i`. */
  function FindDeclFrom(s: string, name: string, i: nat): (r: Option<Decl>)
    requires i <= |s|
    decreases |s| - i
    ensures r.Some? ==> i <= r.value.start <= |s| && r.value.NameStart() + |name| <= |s|
  {
    match DeclAt(s, name, i)
    case Some(d) => Some(d)
    case None => if i == |s| then None else FindDeclFrom(s, name, i + 1)
  }

  lemma {:induction false} FindDeclFromLeast(s: string, name: string, i: nat)
    requires i <= |s|
    decreases |s| - i
    ensures FindDeclFrom(s, name, i).Some? ==>
              var d := FindDeclFrom(s, name, i).value;
              MostSpaces(s, name, d) && NoDeclBetween(s, name, i, d.start)
    ensures FindDeclFrom(s, name, i).None? ==> NoDeclFrom(s, name, i)
  {
    if DeclAt(s, name, i).Some? {
      DeclAtSome(s, name, i);
      NoDeclBetweenEmpty(s, name, i);
    } else {
      DeclAtNone(s, name, i);
      if i < |s| {
        FindDeclFromLeast(s, name, i + 1);
        if FindDeclFrom(s, name, i + 1).Some? {
          NoDeclBetweenExtend(s, name, i, FindDeclFrom(s, name, i + 1).value.start);
        } else {
          NoDeclFromExtend(s, name, i);
        }
      } else {
        NoDeclPastEnd(s, name, i);
      }
    }
  }

  lemma NoDeclBetweenEmpty(s: string, name: string, i: nat)
    ensures NoDeclBetween(s, name, i, i)
  {
  }

  lemma NoDeclBetweenExtend(s: string, name: string, i: nat, hi: nat)
    requires NoDeclAt(s, name, i) && NoDeclBetween(s, name, i + 1, hi)
    ensures NoDeclBetween(s, name, i, hi)
  {
  }

  lemma NoDeclFromExtend(s: string, name: string, i: nat)
    requires NoDeclAt(s, name, i) && NoDeclFrom(s, name, i + 1)
    ensures NoDeclFrom(s, name, i)
  {
  }

  /** A match needs room for at least one character after its start. */
  lemma NoDeclPastEnd(s: string, name: string, i: nat)
    requires i == |s| && NoDeclAt(s, name, i)
    ensures NoDeclFrom(s, name, i)
  {
    forall i': nat | i < i' ensures NoDeclAt(s, name, i') {}
  }

  /**
   * `re.search` for the declaration pattern: the leftmost match and, at that position, the
   * longest whitespace run after which the name and a boundary follow.
   */
  function FindDecl(s: string, name: string): (r: Option<Decl>)
    ensures r.Some? ==> r.value.NameStart() + |name| <= |s|
  {
    FindDeclFrom(s, name, 0)
  }

  /**
   * `FindDecl` finds a match, the leftmost one, with the most whitespace there, and `None`
   * only when nothing matches.
   */
  lemma FindDeclLeftmost(s: string, name: string)
    ensures FindDecl(s, name).Some? ==>
              var d := FindDecl(s, name).value;
              MostSpaces(s, name, d) && NoDeclBetween(s, name, 0, d.start)
    ensures FindDecl(s, name).None? <==> NoDeclFrom(s, name, 0)
  {
    FindDeclFromLeast(s, name, 0);
    if FindDecl(s, name).Some? {
      var d := FindDecl(s, name).value;
      assert !NoDeclAt(s, name, d.start);
    }
  }

  /** The found declaration is followed by the name. */
  lemma FindDeclName(s: string, name: string)
    requires FindDecl(s, name).Some?
    ensures var g := FindDecl(s, name).value.NameStart(); s[g..g + |name|] == name
  {
    FindDeclFromLeast(s, name, 0);
    DeclMatchName(s, name, FindDecl(s, name).value);
  }

  lemma DeclMatchName(s: string, name: string, d: Decl)
    requires MostSpaces(s, name, d)
    ensures d.NameStart() + |name| <= |s| && s[d.NameStart()..d.NameStart() + |name|] == name
  {
  }

  /** The template `\1{orig_class_name}\2`. */
  function ClassTemplate(origName: string): string {
    "\\1" + origName + "\\2"
  }

  /**
   * `re.sub(rf'(\b(?:class|interface|enum)\s+){re.escape(obf)}(\b)', rf'\1{orig}\2', content, count=1)`:
   * an error when the template does not parse; otherwise the first match, if any, is
   * replaced by the expanded template with group 1 the keyword and whitespace and group 2 empty.
   */
  function SubstituteClassName(content: string, obfName: string, origName: string): Result<string> {
    match ParseTemplate(ClassTemplate(origName), 2)
    case Err => Err
    case Ok(ps) =>
      match FindDecl(content, obfName)
      case None => Ok(content)
      case Some(d) => Ok(RenameAt(content, ps, d, |obfName|))
  }

  /** The match of `d` (with a name of `nameLen` characters) replaced by the expanded template. */
  function RenameAt(content: string, ps: seq<Piece>, d: Decl, nameLen: nat): string
    requires d.NameStart() + nameLen <= |content| && RefsWithin(ps, 2)
  {
    content[..d.start] + Expand(ps, ClassGroups(content, d, nameLen)) + content[d.NameStart() + nameLen..]
  }

  /** With the template `\1NAME\2`, only the name changes. */
  lemma RenameAtPlain(content: string, origName: string, d: Decl, nameLen: nat)
    requires '\\' !in origName && (origName == [] || !IsAsciiDigit(origName[0]))
    requires d.NameStart() + nameLen <= |content|
    ensures RefsWithin([Group(1)] + Literal(origName) + [Group(2)], 2)
    ensures RenameAt(content, [Group(1)] + Literal(origName) + [Group(2)], d, nameLen)
            == content[..d.NameStart()] + origName + content[d.NameStart() + nameLen..]
  {
    var g := d.NameStart();
    NameBetweenGroups(origName, ClassGroups(content, d, nameLen));
    assert content[..d.start] + (content[d.start..g] + origName + "") == content[..g] + origName;
  }

  /** The text of group 0 (the whole match), group 1 (keyword and whitespace) and group 2 (empty). */
  function ClassGroups(content: string, d: Decl, nameLen: nat): (gt: seq<string>)
    requires d.NameStart() + nameLen <= |content|
    ensures |gt| == 3
  {
    [content[d.start..d.NameStart() + nameLen], content[d.start..d.NameStart()], ""]
  }

  /** `\1NAME\2` with a plain name parses to group 1, the name's characters and group 2. */
  lemma ClassTemplateParses(origName: string)
    requires '\\' !in origName && (origName == [] || !IsAsciiDigit(origName[0]))
    ensures ParseTemplate(ClassTemplate(origName), 2) == Ok([Group(1)] + Literal(origName) + [Group(2)])
  {
    ParseNameBetweenGroups(origName);
  }

  /** A parsed template and a found declaration: the declaration is rewritten. */
  lemma ClassSubstituteFound(content: string, obfName: string, origName: string, d: Decl, ps: seq<Piece>)
    requires ParseTemplate(ClassTemplate(origName), 2) == Ok(ps) && FindDecl(content, obfName) == Some(d)
    ensures RefsWithin(ps, 2) && SubstituteClassName(content, obfName, origName) == Ok(RenameAt(content, ps, d, |obfName|))
  {
  }

  /** A parsed template and no declaration: the text is unchanged. */
  lemma ClassSubstituteNotFound(content: string, obfName: string, origName: string)
    requires ParseTemplate(ClassTemplate(origName), 2).Ok? && FindDecl(content, obfName).None?
    ensures SubstituteClassName(content, obfName, origName) == Ok(content)
  {
  }

  /** With an original name that parses as plain text and no declaration, nothing changes. */
  lemma ClassRenameNone(content: string, obfName: string, origName: string)
    requires '\\' !in origName && (origName == [] || !IsAsciiDigit(origName[0]))
    requires FindDecl(content, obfName).None?
    ensures SubstituteClassName(content, obfName, origName) == Ok(content)
  {
    ClassTemplateParses(origName);
    ClassSubstituteNotFound(content, obfName, origName);
  }

  /**
   * With an original name that parses as plain text (no backslash, not starting with a
   * digit), only the name of the first declaration changes: keyword, whitespace and all
   * other text stay.
   */
  lemma ClassRenameOnlyName(content: string, obfName: string, origName: string, d: Decl)
    requires '\\' !in origName && (origName == [] || !IsAsciiDigit(origName[0]))
    requires FindDecl(content, obfName) == Some(d)
    ensures SubstituteClassName(content, obfName, origName)
            == Ok(content[..d.NameStart()] + origName + content[d.NameStart() + |obfName|..])
  {
    var ps := [Group(1)] + Literal(origName) + [Group(2)];
    RenameAtPlain(content, origName, d, |obfName|);
    var renamed := RenameAt(content, ps, d, |obfName|);
    ClassTemplateParses(origName);
    ClassSubstituteFound(content, obfName, origName, d, ps);
    assert SubstituteClassName(content, obfName, origName) == Ok(renamed);
  }

  /** A template that does not parse makes the substitution fail even when nothing matches. */
  lemma ClassTemplateErrorFails(content: string, obfName: string, origName: string)
    requires ParseTemplate(ClassTemplate(origName), 2).Err?
    ensures SubstituteClassName(content, obfName, origName).Err?
  {
  }

  /**
   * `package\s+.*?;` matches at `i` taking `m` whitespace characters and ending with the ';'
   * at `j`, with no newline between the whitespace and that ';'.
   */
  predicate IsPackageMatch(s: string, i: nat, m: nat, j: nat) {
    && StartsAt(s, i, "package") && 1 <= m && i + 7 + m <= j < |s|
    && AllSpace(s, i + 7, i + 7 + m) && NoNewline(s, i + 7 + m, j) && s[j] == ';'
  }

  /** A package match found by the engine: its start, its whitespace and its ';'. */
  datatype PackageDecl = PackageDecl(start: nat, spaces: nat, semicolon: nat)

  /** A match cannot take more whitespace than the run after `package` holds. */
  lemma PackageWithinRun(s: string, i: nat)
    ensures forall m: nat, j: nat :: IsPackageMatch(s, i, m, j) ==> m <= SpaceRun(s, i + 7)
  {
    forall m: nat, j: nat | IsPackageMatch(s, i, m, j) ensures m <= SpaceRun(s, i + 7) {
      SpaceRunSpans(s, i + 7);
    }
  }

  /** Backing off the whitespace cannot help: the same ';' is reached after the whole run. */
  lemma ShorterRunSameSemicolon(s: string, i: nat)
    requires StartsAt(s, i, "package")
    ensures forall m: nat, j: nat :: IsPackageMatch(s, i, m, j) ==> IsPackageMatch(s, i, SpaceRun(s, i + 7), j)
  {
    var w := SpaceRun(s, i + 7);
    SpaceRunSpans(s, i + 7);
    PackageWithinRun(s, i);
    forall m: nat, j: nat | IsPackageMatch(s, i, m, j) ensures IsPackageMatch(s, i, w, j) {
      assert !IsSpace(s[j]);
    }
  }

  /** The match at `i`: the whole whitespace run, then the first ';' before a newline. */
  function PackageAt(s: string, i: nat): (r: Option<PackageDecl>)
    ensures r.Some? ==> r.value.start == i && i < r.value.semicolon < |s|
  {
    if !StartsAt(s, i, "package") then None
    else
      var w := SpaceRun(s, i + 7);
      if w == 0 then None
      else
        match FirstBeforeNewline(s, ';', i + 7 + w, i + 7 + w)
        case Some(j) => Some(PackageDecl(i, w, j))
        case None => None
  }

  /** No package match starts at `i`. */
  ghost predicate NoPackageAt(s: string, i: nat) {
    forall m: nat, j: nat :: !IsPackageMatch(s, i, m, j)
  }

  /** `d` is a match, and of the matches at its start it comes first: the most whitespace, then the nearest ';'. */
  ghost predicate FirstAtStart(s: string, d: PackageDecl) {
    && IsPackageMatch(s, d.start, d.spaces, d.semicolon)
    && forall m: nat, j: nat :: IsPackageMatch(s, d.start, m, j) ==>
         m < d.spaces || (m == d.spaces && d.semicolon <= j)
  }

  /** When `PackageAt` finds a match, it is the first one at `i`. */
  lemma PackageAtSome(s: string, i: nat)
    requires PackageAt(s, i).Some?
    ensures FirstAtStart(s, PackageAt(s, i).value)
  {
    SpaceRunSpans(s, i + 7);
    PackageWithinRun(s, i);
    ShorterRunSameSemicolon(s, i);
  }

  /** When `PackageAt` finds nothing, no match starts at `i`. */
  lemma PackageAtNone(s: string, i: nat)
    requires PackageAt(s, i).None?
    ensures NoPackageAt(s, i)
  {
    if StartsAt(s, i, "package") {
      PackageWithinRun(s, i);
      ShorterRunSameSemicolon(s, i);
    }
  }

  /** The leftmost match at or after `i`. */
  function FindPackageFrom(s: string, i: nat): (r: Option<PackageDecl>)
    requires i <= |s|
    decreases |s| - i
    ensures r.Some? ==> i <= r.value.start < r.value.semicolon < |s|
  {
    match PackageAt(s, i)
    case Some(d) => Some(d)
    case None => if i == |s| then None else FindPackageFrom(s, i + 1)
  }

  /** No package match starts at any `i'` with `lo <= i' < hi`. */
  ghost predicate NoPackageBetween(s: string, lo: nat, hi: nat) {
    forall i': nat :: lo <= i' < hi ==> NoPackageAt(s, i')
  }

  /** No package match starts at or after `lo`. */
  ghost predicate NoPackageFrom(s: string, lo: nat) {
    forall i': nat :: lo <= i' ==> NoPackageAt(s, i')
  }

  lemma {:induction false} FindPackageFromLeast(s: string, i: nat)
    requires i <= |s|
    decreases |s| - i
    ensures FindPackageFrom(s, i).Some? ==>
              var d := FindPackageFrom(s, i).value;
              FirstAtStart(s, d) && NoPackageBetween(s, i, d.start)
    ensures FindPackageFrom(s, i).None? ==> NoPackageFrom(s, i)
  {
    if PackageAt(s, i).Some? {
      PackageAtSome(s, i);
      NoPackageBetweenEmpty(s, i);
    } else {
      PackageAtNone(s, i);
      if i < |s| {
        FindPackageFromLeast(s, i + 1);
        if FindPackageFrom(s, i + 1).Some? {
          NoPackageBetweenExtend(s, i, FindPackageFrom(s, i + 1).value.start);
        } else {
          NoPackageFromExtend(s, i);
        }
      } else {
        NoPackagePastEnd(s, i);
      }
    }
  }

  lemma NoPackageBetweenEmpty(s: string, i: nat)
    ensures NoPackageBetween(s, i, i)
  {
  }

  lemma NoPackageBetweenExtend(s: string, i: nat, hi: nat)
    requires NoPackageAt(s, i) && NoPackageBetween(s, i + 1, hi)
    ensures NoPackageBetween(s, i, hi)
  {
  }

  lemma NoPackageFromExtend(s: string, i: nat)
    requires NoPackageAt(s, i) && NoPackageFrom(s, i + 1)
    ensures NoPackageFrom(s, i)
  {
  }

  /** A match needs room for `package` after its start. */
  lemma NoPackagePastEnd(s: string, i: nat)
    requires i == |s| && NoPackageAt(s, i)
    ensures NoPackageFrom(s, i)
  {
    forall i': nat | i < i' ensures NoPackageAt(s, i') {}
  }

  /**
   * `re.search(r'package\s+.*?;', s)`: the leftmost match; there, the greedy whitespace and
   * then the lazy `.*?` stopping at the first ';'.
   */
  function FindPackage(s: string): (r: Option<PackageDecl>)
    ensures r.Some? ==> r.value.start < r.value.semicolon < |s|
  {
    FindPackageFrom(s, 0)
  }

  /** `FindPackage` finds the leftmost, first match, and `None` only when nothing matches. */
  lemma FindPackageLeftmost(s: string)
    ensures FindPackage(s).Some? ==>
              var d := FindPackage(s).value;
              FirstAtStart(s, d) && NoPackageBetween(s, 0, d.start)
    ensures FindPackage(s).None? <==> NoPackageFrom(s, 0)
  {
    FindPackageFromLeast(s, 0);
    if FindPackage(s).Some? {
      assert !NoPackageAt(s, FindPackage(s).value.start);
    }
  }

  /** The template `package {orig_package};`. */
  function PackageTemplate(pkg: string): string {
    "package " + pkg + ";"
  }

  /**
   * `re.sub(r'package\s+.*?;', f'package {pkg};', content, count=1)`: an error when the
   * template does not parse (the pattern has no groups); otherwise the first match, if any,
   * is replaced by the expanded template.
   */
  function SubstitutePackage(content: string, pkg: string): Result<string> {
    match ParseTemplate(PackageTemplate(pkg), 0)
    case Err => Err
    case Ok(ps) =>
      match FindPackage(content)
      case None => Ok(content)
      case Some(d) => Ok(ReplacePackageAt(content, ps, d))
  }

  /** The match of `d` replaced by the expanded template, with the match as group 0. */
  function ReplacePackageAt(content: string, ps: seq<Piece>, d: PackageDecl): string
    requires d.start < d.semicolon < |content| && RefsWithin(ps, 0)
  {
    content[..d.start] + Expand(ps, [content[d.start..d.semicolon + 1]]) + content[d.semicolon + 1..]
  }

  /**
   * With a backslash-free package name, the first package declaration, from `package` to its
   * ';', becomes `package <pkg>;` and the rest of the text is unchanged; without one nothing changes.
   */
  lemma PackageReplaced(content: string, pkg: string)
    requires '\\' !in pkg
    ensures FindPackage(content).None? ==> SubstitutePackage(content, pkg) == Ok(content)
    ensures FindPackage(content).Some? ==>
              var d := FindPackage(content).value;
              SubstitutePackage(content, pkg) == Ok(content[..d.start] + "package " + pkg + ";" + content[d.semicolon + 1..])
  {
    var t := PackageTemplate(pkg);
    PackageTemplatePlain(pkg);
    NoBackslashIsLiteral(t, 0, [""]);
    if FindPackage(content).Some? {
      ReplacePackageLiteral(content, pkg, FindPackage(content).value);
    }
  }

  lemma PackageTemplatePlain(pkg: string)
    requires '\\' !in pkg
    ensures '\\' !in PackageTemplate(pkg)
  {
    var t := PackageTemplate(pkg);
    forall k | 0 <= k < |t| ensures t[k] != '\\' {
      if 8 <= k < 8 + |pkg| { assert t[k] == pkg[k - 8]; }
    }
  }

  /** With a literal template, the match becomes the template text. */
  lemma ReplacePackageLiteral(content: string, pkg: string, d: PackageDecl)
    requires '\\' !in pkg && d.start < d.semicolon < |content|
    ensures RefsWithin(Literal(PackageTemplate(pkg)), 0)
    ensures ReplacePackageAt(content, Literal(PackageTemplate(pkg)), d)
            == content[..d.start] + "package " + pkg + ";" + content[d.semicolon + 1..]
  {
    var t := PackageTemplate(pkg);
    PackageTemplatePlain(pkg);
    NoBackslashIsLiteral(t, 0, [content[d.start..d.semicolon + 1]]);
    assert content[..d.start] + t + content[d.semicolon + 1..] == content[..d.start] + "package " + pkg + ";" + content[d.semicolon + 1..];
  }
}
