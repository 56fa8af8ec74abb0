/** What the two substitutions of an entry make of the text it moved. */
module EntryText {
  import opened Wrappers
  import opened PyStrings
  import opened PosixPath
  import opened ReTemplate
  import opened Rewrite
  import opened MappingEngine

  /** The text with the name of its first `class`/`interface`/`enum` declaration of `obfName` replaced. */
  function RenamedDecl(content: string, obfName: string, origName: string): string {
    match FindDecl(content, obfName)
    case None => content
    case Some(d) => content[..d.NameStart()] + origName + content[d.NameStart() + |obfName|..]
  }

  /** The text with its first `package ...;` line replaced by `package <pkg>;`. */
  function ReplacedPackage(content: string, pkg: string): string {
    match FindPackage(content)
    case None => content
    case Some(d) => content[..d.start] + "package " + pkg + ";" + content[d.semicolon + 1..]
  }

  /** A name that the template `\1NAME\2` copies as it is. */
  predicate PlainName(name: string) {
    '\\' !in name && (name == [] || !IsAsciiDigit(name[0]))
  }

  /**
   * With plain names, neither template raises: the declaration is renamed, then the package
   * line replaced, and nothing else in the text changes.
   */
  lemma RewriteTextPlain(content: string, obfClass: string, origClass: string, pkg: string)
    requires PlainName(origClass) && '\\' !in pkg
    ensures RewriteText(content, obfClass, origClass, pkg)
            == Ok(ReplacedPackage(RenamedDecl(content, obfClass, origClass), pkg))
  {
    if FindDecl(content, obfClass).Some? {
      ClassRenameOnlyName(content, obfClass, origClass, FindDecl(content, obfClass).value);
    } else {
      ClassRenameNone(content, obfClass, origClass);
    }
    PackageReplaced(RenamedDecl(content, obfClass, origClass), pkg);
  }

  /** The two extensions an entry looks for. */
  predicate SourceExt(ext: string) {
    |ext| > 0 && ext[0] == '.' && '.' !in ext[1..] && '/' !in ext
  }

  lemma JavaAndKotlin()
    ensures SourceExt(".java") && SourceExt(".kt")
  {
  }

  /**
   * The class name taken from `code_dir/<name><ext>` is the last component of `name`, when
   * that component is not made only of dots.
   */
  lemma {:induction false} ClassNameOfSource(codeDir: string, name: string, ext: string)
    requires SourceExt(ext) && HasOtherThan(Basename(name), '.')
    ensures ClassName(Join(codeDir, name + ext)) == Basename(name)
  {
    JoinIs(codeDir, name + ext);
    var x :| Join(codeDir, name + ext) == x + (name + ext) && (x == [] || x[|x| - 1] == '/');
    assert x + (name + ext) == x + name + ext;
    BasenameOfRoot(x, name, ext);
  }

  /** A package name built from a backslash-free directory has no backslash. */
  lemma PackageOfPlain(orig: string)
    requires '\\' !in orig
    ensures '\\' !in PackageOf(orig)
  {
    DirnameIs(orig);
    var d := Dirname(orig);
    var r := ReplaceChar(d, '/', '.');
    forall k | 0 <= k < |r| ensures r[k] != '\\' {
      assert d[k] == orig[k];
    }
  }

  /** The package written for `x/y/Bar` is `x.y`: the directory, with its slashes as dots. */
  lemma PackageOfExample()
    ensures PackageOf("x/y/Bar") == "x.y"
  {
    DirnameExample();
    var r := ReplaceChar("x/y", '/', '.');
    assert r[0] == 'x' && r[1] == '.' && r[2] == 'y';
  }
}
