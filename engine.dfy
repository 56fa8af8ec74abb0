/**
 * `apply_proguard_mapping(project_name)`: reads `mapping.txt` from the working directory,
 * builds the class table, and for every entry, in insertion order, moves
 * `code_dir/<obfuscated>.java` (or `.kt`) to `code_dir/<original>.<same extension>` and
 * rewrites its class declaration and package line.
 *
 * The file system is a map from file path to text, together with an explicit set of
 * directory paths.
 */
module MappingEngine {
  import opened Wrappers
  import opened PyStrings
  import opened PosixPath
  import opened MappingParser
  import opened Rewrite

  /** The files (path to text) and the directories of the working tree. */
  datatype FileTree = FileTree(files: map<string, string>, dirs: set<string>)

  // ---------------------------------------------------------------------------
  // The file system

  /** `os.path.exists(p)`. */
  predicate Exists(t: FileTree, p: string) {
    p in t.files || p in t.dirs
  }

  /** `os.path.isdir(p)`. */
  predicate IsDir(t: FileTree, p: string) {
    p in t.dirs
  }

  /** No path is both a file and a directory. */
  predicate Apart(t: FileTree) {
    forall p :: p in t.files ==> p !in t.dirs
  }

  /** A path that is empty (the working directory) or made of slashes only (the root). */
  predicate IsTop(p: string) {
    !HasOtherThan(p, '/')
  }

  /**
   * `os.mkdir(name)` as `makedirs(name, exist_ok=True)` calls it: an existing directory is
   * accepted; an existing file, an empty name, or a parent that is not a directory raises.
   */
  function Mkdir(t: FileTree, name: string): (r: Result<set<string>>)
    ensures r.Ok? ==> r.value == t.dirs + {name}
    ensures r.Ok? <==> name in t.dirs || (name !in t.files && name != [] && (IsTop(Dirname(name)) || Dirname(name) in t.dirs))
  {
    if name in t.dirs then Ok(t.dirs)
    else if name in t.files || name == [] then Err
    else if IsTop(Dirname(name)) || Dirname(name) in t.dirs then Ok(t.dirs + {name})
    else Err
  }

  /** `os.path.split(name)`, split once more when the tail is empty, as `makedirs` does. */
  function MakeDirsSplit(name: string): (r: (string, string))
    ensures r.1 != [] ==> |r.0| < |name|
  {
    if Basename(name) != [] then (Dirname(name), Basename(name))
    else (Dirname(Dirname(name)), Basename(Dirname(name)))
  }

  /**
   * `os.makedirs(name, exist_ok=True)`: a missing parent is made first, then `name`
   * itself, except that a last component "." only makes the parent. The result is the
   * new set of directories; files never change.
   */
  function MakeDirs(t: FileTree, name: string): (r: Result<set<string>>)
    ensures r.Ok? ==> t.dirs <= r.value
    ensures r.Ok? ==> forall p :: p in r.value && p !in t.dirs ==> p !in t.files
    decreases |name|
  {
    var (head, tail) := MakeDirsSplit(name);
    if head != [] && tail != [] && !Exists(t, head) then
      match MakeDirs(t, head)
      case Err => Err
      case Ok(dirs) => if tail == "." then Ok(dirs) else Mkdir(t.(dirs := dirs), name)
    else Mkdir(t, name)
  }

  /** `os.rename(src, dst)` for a file `src`: `dst` is created or replaced; a rename onto itself changes nothing. */
  function Rename(files: map<string, string>, src: string, dst: string): map<string, string>
    requires src in files
  {
    if src == dst then files else (files - {src})[dst := files[src]]
  }

  /**
   * `shutil.move(src, dst)` for a file `src`: into `dst/basename(src)` when `dst` is a
   * directory, which raises when that path exists; otherwise a rename onto `dst`. The
   * result is the new map of files.
   */
  function Move(t: FileTree, src: string, dst: string): Result<map<string, string>>
    requires src in t.files
  {
    if IsDir(t, dst) then
      var inside := Join(dst, Basename(src));
      if Exists(t, inside) then Err else Ok(Rename(t.files, src, inside))
    else Ok(Rename(t.files, src, dst))
  }

  /** `p` is a file in both maps with the same text, or in neither. */
  predicate SameAt(files: map<string, string>, files': map<string, string>, p: string) {
    (p in files <==> p in files') && (p in files && p in files' ==> files[p] == files'[p])
  }

  /** A rename touches its two paths only, and carries the text of `src` to `dst`. */
  lemma RenameEffect(files: map<string, string>, src: string, dst: string)
    requires src in files
    ensures dst in Rename(files, src, dst) && Rename(files, src, dst)[dst] == files[src]
    ensures src != dst ==> src !in Rename(files, src, dst)
    ensures forall p :: p != src && p != dst ==> SameAt(files, Rename(files, src, dst), p)
  {
  }

  // ---------------------------------------------------------------------------
  // One entry

  /** `os.path.join(project_name, "app", "src", "main", "java")`. */
  function CodeDir(projectName: string): string {
    Join(Join(Join(Join(projectName, "app"), "src"), "main"), "java")
  }

  /** `os.path.join(os.getcwd(), "mapping.txt")`. */
  function MappingFile(cwd: string): string {
    Join(cwd, "mapping.txt")
  }

  /** The class name of a source file: `os.path.basename(os.path.splitext(path)[0])`. */
  function ClassName(path: string): string {
    Basename(SplitExt(path).0)
  }

  /** `os.path.dirname(orig_path).replace('/', '.')`. */
  function PackageOf(origPath: string): string {
    ReplaceChar(Dirname(origPath), '/', '.')
  }

  /** Source and destination of an entry: the `.java` file when it exists, else the `.kt` file. */
  function Locate(t: FileTree, codeDir: string, obf: string, orig: string): Option<(string, string)> {
    if Exists(t, Join(codeDir, obf + ".java")) then
      Some((Join(codeDir, obf + ".java"), Join(codeDir, orig + ".java")))
    else if Exists(t, Join(codeDir, obf + ".kt")) then
      Some((Join(codeDir, obf + ".kt"), Join(codeDir, orig + ".kt")))
    else None
  }

  /** The two substitutions, class declaration first; either template can raise `re.error`. */
  function RewriteText(content: string, obfClass: string, origClass: string, pkg: string): Result<string> {
    match SubstituteClassName(content, obfClass, origClass)
    case Err => Err
    case Ok(renamed) => SubstitutePackage(renamed, pkg)
  }

  /**
   * How an entry turns the text it read into the text it writes, given the text, the
   * source path, the destination path and the original name from the mapping.
   */
  type Rewriter = (string, string, string, string) -> Result<string>

  /** The rewrite of the source: class names from both file names, package from the original name. */
  function Substitutions(content: string, src: string, dst: string, orig: string): Result<string> {
    RewriteText(content, ClassName(src), ClassName(dst), PackageOf(orig))
  }

  /** Why the `try` block of an entry raised. */
  datatype Failure =
    | SourceIsDirectory  // the obfuscated path names a directory
    | DestinationExists  // `shutil.move` into a directory that already holds the name
    | NotAFile           // the destination is a directory: `open` raises
    | BadTemplate        // a replacement template does not parse

  datatype EntryResult =
    | Skipped                                 // neither source file exists
    | Rewritten(file: string)                 // moved and written back
    | Failed(source: string, why: Failure)    // caught, logged, next entry
    | MakeDirsError(dir: string)              // raised outside the `try`: the run stops

  /** The `try` block: move `src` to `dst`, read it back, substitute, write. */
  function Transfer(t: FileTree, src: string, dst: string, orig: string, rewrite: Rewriter): (EntryResult, FileTree) {
    if src !in t.files then (Failed(src, SourceIsDirectory), t)
    else
      match Move(t, src, dst)
      case Err => (Failed(src, DestinationExists), t)
      case Ok(moved) =>
        if dst !in moved then (Failed(src, NotAFile), t.(files := moved))
        else
          match rewrite(TextModeRead(moved[dst]), src, dst, orig)
          case Err => (Failed(src, BadTemplate), t.(files := moved))
          case Ok(text) => (Rewritten(dst), t.(files := moved[dst := text]))
  }

  /** What one iteration of the rewrite loop does: locate, `makedirs`, then the `try` block. */
  function EntryStep(t: FileTree, codeDir: string, obf: string, orig: string, rewrite: Rewriter): (EntryResult, FileTree) {
    match Locate(t, codeDir, obf, orig)
    case None => (Skipped, t)
    case Some((src, dst)) =>
      match MakeDirs(t, Dirname(dst))
      case Err => (MakeDirsError(Dirname(dst)), t)
      case Ok(dirs) => Transfer(t.(dirs := dirs), src, dst, orig, rewrite)
  }

  // ---------------------------------------------------------------------------
  // The whole run

  /** The entries of the table in insertion order, as `mappings.items()` yields them. */
  function Items(table: Table): (items: seq<(string, string)>)
    requires table.Valid()
    ensures |items| == |table.keys|
    ensures forall i :: 0 <= i < |items| ==> items[i].0 == table.keys[i] && items[i].1 == table.values[table.keys[i]]
  {
    seq(|table.keys|, i requires 0 <= i < |table.keys| => (table.keys[i], table.values[table.keys[i]]))
  }

  /** The results so far, the tree, and whether a `makedirs` error ended the loop. */
  datatype Run = Run(results: seq<EntryResult>, tree: FileTree, aborted: bool)

  /**
   * The rewrite loop over `items`, stopping at the first `makedirs` error. It is stated for
   * any rewrite of the text; `apply_proguard_mapping` runs it with `Substitutions`.
   */
  function RunEntries(t0: FileTree, codeDir: string, items: seq<(string, string)>, rewrite: Rewriter): Run {
    if items == [] then Run([], t0, false)
    else
      var prev := RunEntries(t0, codeDir, items[..|items| - 1], rewrite);
      if prev.aborted then prev
      else
        var step := EntryStep(prev.tree, codeDir, items[|items| - 1].0, items[|items| - 1].1, rewrite);
        Run(prev.results + [step.0], step.1, step.0.MakeDirsError?)
  }

  datatype Outcome =
    | NoMappingFile                          // `mapping.txt` does not exist
    | MappingUnreadable                      // `open` raised: it is a directory
    | NoValidMapping                         // no class line
    | Finished(results: seq<EntryResult>)    // every entry was processed
    | Aborted(results: seq<EntryResult>)     // `os.makedirs` raised out of the function

  /** The outcome and the tree after `apply_proguard_mapping`. */
  function Apply(t: FileTree, cwd: string, projectName: string): (Outcome, FileTree) {
    var mapping := MappingFile(cwd);
    if !Exists(t, mapping) then (NoMappingFile, t)
    else if mapping !in t.files then (MappingUnreadable, t)
    else
      var table := ParseLines(Lines(t.files[mapping]));
      if table.keys == [] then (NoValidMapping, t)
      else
        var run := RunEntries(t, CodeDir(projectName), Items(table), Substitutions);
        (if run.aborted then Aborted(run.results) else Finished(run.results), run.tree)
  }

  /** The working tree the function operates on. */
  class Workspace {
    var files: map<string, string>
    var dirs: set<string>

    function State(): FileTree
      reads this
    {
      FileTree(files, dirs)
    }

    constructor (t: FileTree)
      ensures State() == t
    {
      files, dirs := t.files, t.dirs;
    }

    /** One iteration of the rewrite loop: locate, `makedirs`, then the `try` block. */
    method ProcessEntry(codeDir: string, obf: string, orig: string) returns (result: EntryResult)
      modifies this
      ensures (result, State()) == EntryStep(old(State()), codeDir, obf, orig, Substitutions)
    {
      var javaFile := Join(codeDir, obf + ".java");
      var ktFile := Join(codeDir, obf + ".kt");
      var src, dst;
      if Exists(State(), javaFile) {
        src, dst := javaFile, Join(codeDir, orig + ".java");
      } else if Exists(State(), ktFile) {
        src, dst := ktFile, Join(codeDir, orig + ".kt");
      } else {
        return Skipped;
      }
      assert Locate(State(), codeDir, obf, orig) == Some((src, dst));
      var dir := Dirname(dst);
      var made := MakeDirs(State(), dir);
      if made.Err? {
        return MakeDirsError(dir);
      }
      dirs := made.value;
      result := TransferFile(src, dst, orig);
    }

    /** The `try` block of an entry: every exception it raises is caught and reported. */
    method TransferFile(src: string, dst: string, orig: string) returns (result: EntryResult)
      modifies this
      ensures (result, State()) == Transfer(old(State()), src, dst, orig, Substitutions)
    {
      if src !in files {
        return Failed(src, SourceIsDirectory);
      }
      var moved := Move(State(), src, dst);
      if moved.Err? {
        return Failed(src, DestinationExists);
      }
      files := moved.value;
      if dst !in files {
        return Failed(src, NotAFile);
      }
      var content := TextModeRead(files[dst]);
      var renamed := SubstituteClassName(content, ClassName(src), ClassName(dst));
      if renamed.Err? {
        return Failed(src, BadTemplate);
      }
      var newContent := SubstitutePackage(renamed.value, PackageOf(orig));
      if newContent.Err? {
        return Failed(src, BadTemplate);
      }
      files := files[dst := newContent.value];
      result := Rewritten(dst);
    }

    /** `apply_proguard_mapping`: the parse loop, then the rewrite loop over the table. */
    method ApplyProguardMapping(cwd: string, projectName: string) returns (outcome: Outcome)
      modifies this
      ensures (outcome, State()) == Apply(old(State()), cwd, projectName)
    {
      var mapping := MappingFile(cwd);
      var codeDir := CodeDir(projectName);
      if !Exists(State(), mapping) {
        return NoMappingFile;
      }
      if mapping !in files {
        return MappingUnreadable;
      }
      var mappings := ParseMapping(files[mapping]);
      if mappings.keys == [] {
        return NoValidMapping;
      }
      var results, aborted := RewriteAll(codeDir, Items(mappings));
      outcome := if aborted then Aborted(results) else Finished(results);
    }

    /** The rewrite loop over the table's items; a `makedirs` error leaves it. */
    method RewriteAll(codeDir: string, items: seq<(string, string)>) returns (results: seq<EntryResult>, aborted: bool)
      modifies this
      ensures RunEntries(old(State()), codeDir, items, Substitutions) == Run(results, State(), aborted)
    {
      results := [];
      var i := 0;
      while i < |items|
        invariant i <= |items|
        invariant RunEntries(old(State()), codeDir, items[..i], Substitutions) == Run(results, State(), false)
      {
        RunEntriesNext(old(State()), codeDir, items, Substitutions, i);
        var result := ProcessEntry(codeDir, items[i].0, items[i].1);
        results := results + [result];
        if result.MakeDirsError? {
          RunStopsAtAbort(old(State()), codeDir, items, Substitutions, i + 1);
          return results, true;
        }
        i := i + 1;
      }
      assert items[..i] == items;
      aborted := false;
    }
  }

  /** One more iteration of the loop, while it has not stopped. */
  lemma RunEntriesNext(t0: FileTree, codeDir: string, items: seq<(string, string)>, rewrite: Rewriter, i: nat)
    requires i < |items| && !RunEntries(t0, codeDir, items[..i], rewrite).aborted
    ensures var prev := RunEntries(t0, codeDir, items[..i], rewrite);
            var step := EntryStep(prev.tree, codeDir, items[i].0, items[i].1, rewrite);
            RunEntries(t0, codeDir, items[..i + 1], rewrite) == Run(prev.results + [step.0], step.1, step.0.MakeDirsError?)
  {
    assert items[..i + 1][..i] == items[..i];
  }

  /** Once the loop has stopped, the remaining entries change nothing. */
  lemma {:induction false} RunStopsAtAbort(t0: FileTree, codeDir: string, items: seq<(string, string)>, rewrite: Rewriter, n: nat)
    requires n <= |items| && RunEntries(t0, codeDir, items[..n], rewrite).aborted
    ensures RunEntries(t0, codeDir, items, rewrite) == RunEntries(t0, codeDir, items[..n], rewrite)
    decreases |items|
  {
    if n < |items| {
      var init := items[..|items| - 1];
      assert init[..n] == items[..n];
      RunStopsAtAbort(t0, codeDir, init, rewrite, n);
    } else {
      assert items[..n] == items;
    }
  }
}
