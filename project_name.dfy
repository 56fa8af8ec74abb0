/** `smart_project_name(apk_path)`: a directory name derived from the APK's file name. */
module ProjectName {
  import opened PyStrings
  import opened PosixPath

  /** The character class `[a-zA-Z0-9_]` (ASCII ranges, as written in the pattern). */
  predicate IsNameChar(c: char) {
    IsAsciiLetter(c) || IsAsciiDigit(c) || c == '_'
  }

  /** `re.sub(r'[^a-zA-Z0-9_]', '', s)`: keeps the characters of the class, in order, and drops the rest. */
  function KeepNameChars(s: string): (r: string)
    ensures |r| <= |s|
    ensures forall k :: 0 <= k < |r| ==> IsNameChar(r[k])
    ensures r == [] <==> forall k :: 0 <= k < |s| ==> !IsNameChar(s[k])
  {
    if s == [] then []
    else
      var rest := KeepNameChars(s[1..]);
      assert forall k :: 1 <= k < |s| ==> s[k] == s[1..][k - 1];
      if IsNameChar(s[0]) then [s[0]] + rest else rest
  }

  /** Every character of the class in `s` survives, and nothing else does. */
  lemma {:induction false} KeepNameCharsMembers(s: string)
    ensures forall c :: c in KeepNameChars(s) <==> c in s && IsNameChar(c)
  {
    if s != [] {
      KeepNameCharsMembers(s[1..]);
      assert s == [s[0]] + s[1..];
      assert forall c :: c in s <==> c == s[0] || c in s[1..];
    }
  }

  /** The substitution changes nothing exactly when every character is already in the class. */
  lemma {:induction false} KeepNameCharsIdentity(s: string)
    ensures KeepNameChars(s) == s <==> forall k :: 0 <= k < |s| ==> IsNameChar(s[k])
  {
    if s != [] && forall k :: 0 <= k < |s| ==> IsNameChar(s[k]) {
      assert forall k :: 0 <= k < |s| - 1 ==> s[1..][k] == s[k + 1];
      KeepNameCharsIdentity(s[1..]);
    }
  }

  /** One character is kept exactly when it is in the class. */
  lemma KeepNameCharsOne(c: char)
    ensures KeepNameChars([c]) == if IsNameChar(c) then [c] else []
  {
    assert [c][1..] == [];
  }

  /** The substitution works character by character, in order: it distributes over concatenation. */
  lemma {:induction false} KeepNameCharsAppend(a: string, b: string)
    ensures KeepNameChars(a + b) == KeepNameChars(a) + KeepNameChars(b)
  {
    if a == [] {
      assert a + b == b;
    } else {
      var s := a + b;
      assert s[0] == a[0] && s[1..] == a[1..] + b;
      KeepNameCharsAppend(a[1..], b);
    }
  }

  /** No character of the class is a slash, a dot or a space. */
  lemma NameCharsArePlain(n: string)
    requires forall k :: 0 <= k < |n| ==> IsNameChar(n[k])
    ensures forall k :: 0 <= k < |n| ==> n[k] != '/' && n[k] != '.' && n[k] != ' '
  {
  }

  /** Fallback used when nothing is left of the file name. */
  const DefaultName: string := "ApkProject"

  lemma DefaultNameValid()
    ensures DefaultName != [] && forall k :: 0 <= k < |DefaultName| ==> IsNameChar(DefaultName[k])
  {
  }

  /**
   * Spaces turned into '_', every character outside `[a-zA-Z0-9_]` removed, and
   * `"ApkProject"` if that leaves nothing.
   */
  function Sanitize(stem: string): (name: string)
    ensures name != []
    ensures forall k :: 0 <= k < |name| ==> IsNameChar(name[k])
  {
    var cleaned := KeepNameChars(ReplaceChar(stem, ' ', '_'));
    if cleaned != [] then cleaned else DefaultNameValid(); DefaultName
  }

  /** The basename's root under `os.path.splitext`, sanitised. */
  function SmartProjectName(apkPath: string): (name: string)
    ensures name != []
    ensures forall k :: 0 <= k < |name| ==> IsNameChar(name[k])
  {
    Sanitize(Stem(apkPath))
  }

  /** `os.path.splitext(os.path.basename(apk_path))[0]`. */
  function Stem(apkPath: string): string {
    SplitExt(Basename(apkPath)).0
  }

  /** A name without slashes, dots or spaces is its own basename and stem. */
  lemma PlainNameIsOwnStem(n: string)
    requires forall k :: 0 <= k < |n| ==> n[k] != '/' && n[k] != '.'
    ensures Basename(n) == n && SplitExt(n) == (n, [])
  {
    AfterLastSlashUnique(n, 0);
    AfterLastDotUnique(n, 0);
  }

  /** Sanitising a project name a second time changes nothing. */
  lemma SmartProjectNameIdempotent(apkPath: string)
    ensures SmartProjectName(SmartProjectName(apkPath)) == SmartProjectName(apkPath)
  {
    var n := SmartProjectName(apkPath);
    NameCharsArePlain(n);
    PlainNameIsOwnStem(n);
    assert Stem(n) == n;
    SanitizeValidName(n);
  }

  /** `dir/Stem.apk` with a stem made of letters, digits and '_' yields that stem. */
  lemma ApkFileStemKept(dir: string, stem: string)
    requires dir == [] || dir[|dir| - 1] == '/'
    requires stem != [] && forall k :: 0 <= k < |stem| ==> IsNameChar(stem[k])
    ensures SmartProjectName(dir + stem + ".apk") == stem
  {
    NameCharsArePlain(stem);
    StemOfApkFile(dir, stem);
    SanitizeValidName(stem);
  }

  /** The basename of `dir/Stem.apk` is `Stem.apk`, whose root is `Stem`. */
  lemma StemOfApkFile(dir: string, stem: string)
    requires dir == [] || dir[|dir| - 1] == '/'
    requires stem != [] && forall k :: 0 <= k < |stem| ==> stem[k] != '/' && stem[k] != '.'
    ensures Stem(dir + stem + ".apk") == stem
  {
    var file := stem + ".apk";
    assert dir + stem + ".apk" == dir + file;
    BasenameOfApkFile(dir, stem);
    RootOfApkFile(stem);
  }

  lemma BasenameOfApkFile(dir: string, stem: string)
    requires dir == [] || dir[|dir| - 1] == '/'
    requires forall k :: 0 <= k < |stem| ==> stem[k] != '/'
    ensures Basename(dir + (stem + ".apk")) == stem + ".apk"
  {
    AfterLastSlashUnique(stem, 0);
    AfterLastSlashSlashFreeTail(stem, ".apk");
    AfterLastSlashBehindDir(dir, stem + ".apk");
  }

  lemma RootOfApkFile(stem: string)
    requires stem != [] && forall k :: 0 <= k < |stem| ==> stem[k] != '/' && stem[k] != '.'
    ensures SplitExt(stem + ".apk").0 == stem
  {
    var file := stem + ".apk";
    AfterLastSlashUnique(stem, 0);
    AfterLastSlashSlashFreeTail(stem, ".apk");
    AfterLastDotOfExt(stem, ".apk");
    assert HasOtherThan(file[0..|stem|], '.') by { assert file[0] == stem[0]; }
    assert file[..|stem|] == stem;
  }

  /** A non-empty name made of `[a-zA-Z0-9_]` is left as it is. */
  lemma SanitizeValidName(n: string)
    requires n != [] && forall k :: 0 <= k < |n| ==> IsNameChar(n[k])
    ensures Sanitize(n) == n
  {
    NameCharsArePlain(n);
    ReplaceAbsentChar(n, ' ', '_');
    KeepNameCharsIdentity(n);
  }

  /** When the stem holds no letter, digit, '_' or space, the fallback name is used. */
  lemma FallbackWhenNothingLeft(apkPath: string)
    requires forall k :: 0 <= k < |Stem(apkPath)| ==> !IsNameChar(Stem(apkPath)[k]) && Stem(apkPath)[k] != ' '
    ensures SmartProjectName(apkPath) == DefaultName
  {
    SanitizeNothingLeft(Stem(apkPath));
  }

  lemma SanitizeNothingLeft(stem: string)
    requires forall k :: 0 <= k < |stem| ==> !IsNameChar(stem[k]) && stem[k] != ' '
    ensures Sanitize(stem) == DefaultName
  {
    var r := ReplaceChar(stem, ' ', '_');
    assert forall k :: 0 <= k < |r| ==> !IsNameChar(r[k]);
  }

  /** A space of `s` becomes an '_' that the filter keeps. */
  lemma SanitizeKeepsSpace(s: string, k: nat)
    requires k < |s| && s[k] == ' '
    ensures '_' in Sanitize(s) && Sanitize(s) != DefaultName
  {
    var r := ReplaceChar(s, ' ', '_');
    assert r[k] == '_';
    KeepNameCharsMembers(r);
    assert '_' !in DefaultName;
  }

  /** Every space of the stem turns into an '_' that survives the filter. */
  lemma SpaceBecomesUnderscore(apkPath: string, k: nat)
    requires k < |Stem(apkPath)| && Stem(apkPath)[k] == ' '
    ensures '_' in SmartProjectName(apkPath) && SmartProjectName(apkPath) != DefaultName
  {
    SanitizeKeepsSpace(Stem(apkPath), k);
  }
}
