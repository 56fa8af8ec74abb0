/** What the rewrite loop of `apply_proguard_mapping` does to the working tree, entry by entry and as a whole. */
module EngineFacts {
  import opened Wrappers
  import opened PyStrings
  import opened PosixPath
  import opened MappingParser
  import opened Rewrite
  import opened MappingEngine
  import opened EntryText

  // ---------------------------------------------------------------------------
  // What `makedirs` does

  /** `makedirs` on a path that is a file raises, unless its last component is "." (then only the parent is made). */
  lemma MakeDirsOnFile(t: FileTree, name: string)
    requires name in t.files && name !in t.dirs && MakeDirsSplit(name).1 != "."
    ensures MakeDirs(t, name).Err?
  {
  }

  /** When `makedirs` succeeds, `name` is a directory afterwards, unless its last component is ".". */
  lemma MakeDirsMakes(t: FileTree, name: string)
    requires MakeDirs(t, name).Ok? && MakeDirsSplit(name).1 != "."
    ensures name in MakeDirs(t, name).value
  {
  }

  /** The directories `makedirs(name)` adds are `name` and the ancestors of `name`, and no others. */
  lemma {:induction false} MakeDirsAncestors(t: FileTree, name: string)
    requires MakeDirs(t, name).Ok?
    ensures forall p :: p in MakeDirs(t, name).value && p !in t.dirs ==> AncestorOrSelf(p, name)
    decreases |name|
  {
    var (head, tail) := MakeDirsSplit(name);
    if head != [] && tail != [] && !Exists(t, head) {
      MakeDirsAncestors(t, head);
      SplitHeadAncestor(name);
      forall p | p in MakeDirs(t, head).value && p !in t.dirs ensures AncestorOrSelf(p, name) {
        AncestorTransitive(p, head, name);
      }
    }
  }

  /** The head `makedirs` recurses on is an ancestor of the name. */
  lemma SplitHeadAncestor(name: string)
    requires MakeDirsSplit(name).0 != []
    ensures AncestorOrSelf(MakeDirsSplit(name).0, name)
  {
    if Basename(name) != [] {
      DirnameAncestor(name);
    } else {
      var d := Dirname(name);
      assert d != [] by { assert Dirname([]) == []; }
      DirnameAncestor(name);
      DirnameAncestor(d);
      AncestorTransitive(Dirname(d), d, name);
    }
  }

  /**
   * `makedirs(name)` succeeds when no ancestor of `name`, nor `name`, is a file. Paths are
   * compared as written, so the name must not end in '/' (except the root) and no
   * component may be ".", which the operating system would resolve.
   */
  lemma {:induction false} MakeDirsSucceeds(t: FileTree, name: string)
    requires name != [] && (name[|name| - 1] == '/' ==> !HasOtherThan(name, '/'))
    requires forall p :: AncestorOrSelf(p, name) ==> p !in t.files && Basename(p) != "."
    ensures MakeDirs(t, name).Ok?
    decreases |name|
  {
    var (head, tail) := MakeDirsSplit(name);
    assert AncestorOrSelf(name, name);
    if name[|name| - 1] != '/' {
      AfterLastSlashIs(name);
      assert head == Dirname(name) && tail == Basename(name);
      if head != [] {
        DirnameAncestor(name);
        DirnameIs(name);
        assert !HasOtherThan(head, '/') || head[|head| - 1] != '/';
        forall p | AncestorOrSelf(p, head) ensures p !in t.files && Basename(p) != "." {
          AncestorTransitive(p, head, name);
        }
        if !Exists(t, head) {
          MakeDirsSucceeds(t, head);
        }
      }
    } else {
      MakeDirsRoot(t, name);
    }
  }

  /** `makedirs` of the root, or of any path made of slashes only, succeeds unless it is a file. */
  lemma MakeDirsRoot(t: FileTree, name: string)
    requires name != [] && !HasOtherThan(name, '/') && name !in t.files
    ensures MakeDirs(t, name).Ok?
  {
    DirnameIs(name);
    assert !HasOtherThan(Dirname(name), '/') by {
      forall k | 0 <= k < |Dirname(name)| ensures Dirname(name)[k] == '/' {
        assert Dirname(name)[k] == name[k];
      }
    }
    assert name[|name| - 1] == '/';
    AfterLastSlashUnique(name, |name|);
  }

  /** `makedirs` never makes a path that is a file into a directory. */
  lemma MakeDirsKeepsApart(t: FileTree, name: string)
    requires Apart(t) && MakeDirs(t, name).Ok?
    ensures Apart(t.(dirs := MakeDirs(t, name).value))
  {
  }

  // ---------------------------------------------------------------------------
  // What one entry does

  /** Every path an entry may create, replace or remove. */
  function TouchedBy(codeDir: string, obf: string, orig: string): set<string> {
    var java, kt := Join(codeDir, obf + ".java"), Join(codeDir, obf + ".kt");
    var javaDst, ktDst := Join(codeDir, orig + ".java"), Join(codeDir, orig + ".kt");
    {java, kt, javaDst, ktDst, Join(javaDst, Basename(java)), Join(ktDst, Basename(kt))}
  }

  /** A move touches its source, its destination and the path inside the destination only. */
  lemma MoveEffect(t: FileTree, src: string, dst: string, p: string)
    requires src in t.files && Move(t, src, dst).Ok?
    requires p != src && p != dst && p != Join(dst, Basename(src))
    ensures SameAt(t.files, Move(t, src, dst).value, p)
  {
    if IsDir(t, dst) {
      RenameEffect(t.files, src, Join(dst, Basename(src)));
    } else {
      RenameEffect(t.files, src, dst);
    }
  }

  /** The `try` block touches `src`, `dst` and the path inside `dst` only. */
  lemma TransferFrame(t: FileTree, src: string, dst: string, orig: string, rewrite: Rewriter, p: string)
    requires p != src && p != dst && p != Join(dst, Basename(src))
    ensures SameAt(t.files, Transfer(t, src, dst, orig, rewrite).1.files, p)
  {
    if src in t.files && Move(t, src, dst).Ok? {
      MoveEffect(t, src, dst, p);
    }
  }

  /** The source, the destination and the path inside the destination of a located entry are in `TouchedBy`. */
  lemma LocatedTouched(t: FileTree, codeDir: string, obf: string, orig: string)
    requires Locate(t, codeDir, obf, orig).Some?
    ensures var (src, dst) := Locate(t, codeDir, obf, orig).value;
            src in TouchedBy(codeDir, obf, orig) && dst in TouchedBy(codeDir, obf, orig)
            && Join(dst, Basename(src)) in TouchedBy(codeDir, obf, orig)
  {
  }

  /** An entry leaves every file outside `TouchedBy` as it was. */
  lemma EntryFrame(t: FileTree, codeDir: string, obf: string, orig: string, rewrite: Rewriter, p: string)
    requires p !in TouchedBy(codeDir, obf, orig)
    ensures SameAt(t.files, EntryStep(t, codeDir, obf, orig, rewrite).1.files, p)
  {
    if Locate(t, codeDir, obf, orig).Some? {
      var (src, dst) := Locate(t, codeDir, obf, orig).value;
      LocatedTouched(t, codeDir, obf, orig);
      if MakeDirs(t, Dirname(dst)).Ok? {
        TransferFrame(t.(dirs := MakeDirs(t, Dirname(dst)).value), src, dst, orig, rewrite, p);
      }
    }
  }

  /** An entry removes no directory. */
  lemma EntryKeepsDirs(t: FileTree, codeDir: string, obf: string, orig: string, rewrite: Rewriter)
    ensures t.dirs <= EntryStep(t, codeDir, obf, orig, rewrite).1.dirs
  {
    if Locate(t, codeDir, obf, orig).Some? {
      var (src, dst) := Locate(t, codeDir, obf, orig).value;
      if MakeDirs(t, Dirname(dst)).Ok? {
        TransferReports(t.(dirs := MakeDirs(t, Dirname(dst)).value), src, dst, orig, rewrite);
      }
    }
  }

  /** The `try` block reports `dst` when it rewrites and `src` when it fails, and makes no directory. */
  lemma TransferReports(t: FileTree, src: string, dst: string, orig: string, rewrite: Rewriter)
    ensures var r := Transfer(t, src, dst, orig, rewrite).0;
            r == Rewritten(dst) || (r.Failed? && r.source == src)
    ensures Transfer(t, src, dst, orig, rewrite).1.dirs == t.dirs
  {
  }

  /**
   * An entry is skipped, and nothing changes, exactly when neither `<obf>.java` nor
   * `<obf>.kt` exists. Otherwise the `.java` file is used when it exists: the entry
   * reports the destination of that extension when it rewrites, its source when it fails,
   * and the destination's directory when `makedirs` raises.
   */
  lemma EntryLocate(t: FileTree, codeDir: string, obf: string, orig: string, rewrite: Rewriter)
    ensures var (r, t') := EntryStep(t, codeDir, obf, orig, rewrite);
            (r.Skipped? <==> !Exists(t, Join(codeDir, obf + ".java")) && !Exists(t, Join(codeDir, obf + ".kt")))
            && (r.Skipped? ==> t' == t)
    ensures var r := EntryStep(t, codeDir, obf, orig, rewrite).0;
            Exists(t, Join(codeDir, obf + ".java")) ==>
              (r.Rewritten? ==> r.file == Join(codeDir, orig + ".java"))
              && (r.Failed? ==> r.source == Join(codeDir, obf + ".java"))
              && (r.MakeDirsError? ==> r.dir == Dirname(Join(codeDir, orig + ".java")))
    ensures var r := EntryStep(t, codeDir, obf, orig, rewrite).0;
            !Exists(t, Join(codeDir, obf + ".java")) && Exists(t, Join(codeDir, obf + ".kt")) ==>
              (r.Rewritten? ==> r.file == Join(codeDir, orig + ".kt"))
              && (r.Failed? ==> r.source == Join(codeDir, obf + ".kt"))
              && (r.MakeDirsError? ==> r.dir == Dirname(Join(codeDir, orig + ".kt")))
  {
    if Locate(t, codeDir, obf, orig).Some? {
      var (src, dst) := Locate(t, codeDir, obf, orig).value;
      if MakeDirs(t, Dirname(dst)).Ok? {
        TransferReports(t.(dirs := MakeDirs(t, Dirname(dst)).value), src, dst, orig, rewrite);
      }
    }
  }

  /**
   * For a located entry: a `makedirs` error changes nothing. A source that is a directory,
   * or a move into a directory that already holds the name, leaves the files as they were
   * (only the directories `makedirs` made remain). A failed read or substitution leaves the
   * file moved with its text unchanged.
   */
  lemma EntryFailed(t: FileTree, codeDir: string, obf: string, orig: string, rewrite: Rewriter, src: string, dst: string)
    requires Locate(t, codeDir, obf, orig) == Some((src, dst))
    ensures var (r, t') := EntryStep(t, codeDir, obf, orig, rewrite);
            r.MakeDirsError? ==> t' == t && r.dir == Dirname(dst) && MakeDirs(t, Dirname(dst)).Err?
    ensures var (r, t') := EntryStep(t, codeDir, obf, orig, rewrite);
            r.Failed? && r.why == SourceIsDirectory ==> t'.files == t.files && src in t.dirs && src !in t.files
    ensures var (r, t') := EntryStep(t, codeDir, obf, orig, rewrite);
            r.Failed? && r.why == DestinationExists ==> t'.files == t.files
    ensures var (r, t') := EntryStep(t, codeDir, obf, orig, rewrite);
            r.Failed? && (r.why == NotAFile || r.why == BadTemplate) ==>
              src in t.files && Move(t.(dirs := t'.dirs), src, dst) == Ok(t'.files)
  {
    if MakeDirs(t, Dirname(dst)).Ok? {
      var made := t.(dirs := MakeDirs(t, Dirname(dst)).value);
      TransferReports(made, src, dst, orig, rewrite);
      TransferFailed(made, src, dst, orig, rewrite);
    }
  }

  /** The failures of the `try` block, on the tree `makedirs` left. */
  lemma TransferFailed(t: FileTree, src: string, dst: string, orig: string, rewrite: Rewriter)
    ensures var (r, t') := Transfer(t, src, dst, orig, rewrite);
            r.Failed? && (r.why == SourceIsDirectory || r.why == DestinationExists) ==> t' == t
    ensures var (r, t') := Transfer(t, src, dst, orig, rewrite);
            r.Failed? && r.why == SourceIsDirectory ==> src !in t.files
    ensures var (r, t') := Transfer(t, src, dst, orig, rewrite);
            r.Failed? && (r.why == NotAFile || r.why == BadTemplate) ==>
              src in t.files && Move(t, src, dst) == Ok(t'.files)
  {
  }

  /** The `try` block never makes a path both a file and a directory. */
  lemma TransferKeepsApart(t: FileTree, src: string, dst: string, orig: string, rewrite: Rewriter)
    requires Apart(t)
    ensures Apart(Transfer(t, src, dst, orig, rewrite).1)
  {
    if src in t.files && Move(t, src, dst).Ok? {
      var inside := Join(dst, Basename(src));
      if IsDir(t, dst) {
        RenameEffect(t.files, src, inside);
      } else {
        RenameEffect(t.files, src, dst);
      }
      var moved := Move(t, src, dst).value;
      assert forall p :: p in moved ==> p !in t.dirs;
    }
  }

  /** An entry never makes a path both a file and a directory. */
  lemma EntryKeepsApart(t: FileTree, codeDir: string, obf: string, orig: string, rewrite: Rewriter)
    requires Apart(t)
    ensures Apart(EntryStep(t, codeDir, obf, orig, rewrite).1)
  {
    if Locate(t, codeDir, obf, orig).Some? {
      var (src, dst) := Locate(t, codeDir, obf, orig).value;
      if MakeDirs(t, Dirname(dst)).Ok? {
        var made := t.(dirs := MakeDirs(t, Dirname(dst)).value);
        MakeDirsKeepsApart(t, Dirname(dst));
        TransferKeepsApart(made, src, dst, orig, rewrite);
      }
    }
  }

  /**
   * When the `try` block completes, the source's text, as read in text mode and passed
   * through `rewrite`, is the destination's new text, the source is gone (unless it is the
   * destination), and no other file changed. A move "into" a directory cannot end this way:
   * the file would then be at the path inside it and `dst` would stay a directory.
   */
  lemma TransferRewritten(t: FileTree, src: string, dst: string, orig: string, rewrite: Rewriter)
    requires Apart(t)
    ensures var (r, t') := Transfer(t, src, dst, orig, rewrite);
            r.Rewritten? ==>
              src in t.files && dst in t'.files
              && rewrite(TextModeRead(t.files[src]), src, dst, orig) == Ok(t'.files[dst])
              && t'.files == (t.files - {src})[dst := t'.files[dst]]
  {
    if src in t.files && Move(t, src, dst).Ok? {
      var moved := Move(t, src, dst).value;
      if dst in moved {
        var target := if IsDir(t, dst) then Join(dst, Basename(src)) else dst;
        RenameEffect(t.files, src, target);
        assert moved == Rename(t.files, src, target);
        assert dst == target;
      }
    }
  }

  /** The same, for a located entry; `makedirs` has only made directories. */
  lemma EntryRewritten(t: FileTree, codeDir: string, obf: string, orig: string, rewrite: Rewriter, src: string, dst: string)
    requires Apart(t) && Locate(t, codeDir, obf, orig) == Some((src, dst))
    ensures var (r, t') := EntryStep(t, codeDir, obf, orig, rewrite);
            r.Rewritten? ==>
              src in t.files && dst in t'.files
              && rewrite(TextModeRead(t.files[src]), src, dst, orig) == Ok(t'.files[dst])
              && t'.files == (t.files - {src})[dst := t'.files[dst]]
  {
    if MakeDirs(t, Dirname(dst)).Ok? {
      var made := t.(dirs := MakeDirs(t, Dirname(dst)).value);
      MakeDirsKeepsApart(t, Dirname(dst));
      TransferRewritten(made, src, dst, orig, rewrite);
    }
  }

  // ---------------------------------------------------------------------------
  // What one entry writes

  /**
   * For a located entry whose names are plain, the substitutions of `apply` rename the
   * declaration of the obfuscated class to the original class name and set the package
   * line to the original path's directory, with '/' turned into '.'.
   */
  lemma SubstitutionsOfEntry(codeDir: string, obf: string, orig: string, ext: string)
    requires ext == ".java" || ext == ".kt"
    requires HasOtherThan(Basename(obf), '.') && HasOtherThan(Basename(orig), '.')
    requires PlainName(Basename(orig)) && '\\' !in orig
    ensures forall content ::
              Substitutions(content, Join(codeDir, obf + ext), Join(codeDir, orig + ext), orig)
              == Ok(ReplacedPackage(RenamedDecl(content, Basename(obf), Basename(orig)), PackageOf(orig)))
  {
    JavaAndKotlin();
    ClassNameOfSource(codeDir, obf, ext);
    ClassNameOfSource(codeDir, orig, ext);
    PackageOfPlain(orig);
    forall content
      ensures Substitutions(content, Join(codeDir, obf + ext), Join(codeDir, orig + ext), orig)
              == Ok(ReplacedPackage(RenamedDecl(content, Basename(obf), Basename(orig)), PackageOf(orig)))
    {
      RewriteTextPlain(content, Basename(obf), Basename(orig), PackageOf(orig));
    }
  }

  /** With plain names no template error is possible. */
  lemma EntryNoTemplateError(t: FileTree, codeDir: string, obf: string, orig: string, src: string, dst: string)
    requires Locate(t, codeDir, obf, orig) == Some((src, dst))
    requires HasOtherThan(Basename(obf), '.') && HasOtherThan(Basename(orig), '.')
    requires PlainName(Basename(orig)) && '\\' !in orig
    ensures EntryStep(t, codeDir, obf, orig, Substitutions).0 != Failed(src, BadTemplate)
  {
    var ext := if Exists(t, Join(codeDir, obf + ".java")) then ".java" else ".kt";
    SubstitutionsOfEntry(codeDir, obf, orig, ext);
  }

  /**
   * With plain names, a rewritten entry's destination holds the source's text (as read in
   * text mode) with the declaration renamed and the package line replaced.
   */
  lemma EntryRenamesClass(t: FileTree, codeDir: string, obf: string, orig: string, src: string, dst: string)
    requires Apart(t) && Locate(t, codeDir, obf, orig) == Some((src, dst))
    requires HasOtherThan(Basename(obf), '.') && HasOtherThan(Basename(orig), '.')
    requires PlainName(Basename(orig)) && '\\' !in orig
    ensures var (r, t') := EntryStep(t, codeDir, obf, orig, Substitutions);
            r.Rewritten? ==>
              src in t.files && dst in t'.files
              && t'.files[dst] == ReplacedPackage(RenamedDecl(TextModeRead(t.files[src]), Basename(obf), Basename(orig)), PackageOf(orig))
  {
    var ext := if Exists(t, Join(codeDir, obf + ".java")) then ".java" else ".kt";
    SubstitutionsOfEntry(codeDir, obf, orig, ext);
    EntryRewritten(t, codeDir, obf, orig, Substitutions, src, dst);
  }
}
