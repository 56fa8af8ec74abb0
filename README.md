# apksource core, modelled in Dafny

`apksource` decompiles an Android APK into a source project. This model covers three parts
of `apksource/core.py`:

- `apply_proguard_mapping(project_name)`. It reads `mapping.txt` from the working directory
  and collects its class lines (`obfuscated.Name -> original.Name:`) into a dictionary. The
  keys are the obfuscated paths, in insertion order. For every entry it does four things:
  - It locates `code_dir/<obfuscated>.java`, or failing that `.kt`.
  - It makes the destination's directory with `os.makedirs`.
  - It moves the file to `code_dir/<original>.<ext>` with `shutil.move`.
  - It rewrites the first `class`/`interface`/`enum` declaration of the obfuscated class
    name, then the first `package ...;` line.
- `compare_versions(v1, v2)`: the dependency check's version comparison.
- `smart_project_name(apk_path)`: derives the project name from an APK path.

The working tree is a `FileTree`: a map from file path to text, plus a set of directory
paths. `apply_proguard_mapping` changes it step by step, so it is the class
`MappingEngine.Workspace`:
- Its fields are the files and the directories.
- `ParseMapping` is the parse loop.
- `RewriteAll` is the rewrite loop.
- `ProcessEntry` and `TransferFile` are the two halves of one entry. Only the second runs
  inside the `try` block.

Each method is proved against a function on `FileTree` values: `Apply`, `RunEntries`,
`EntryStep` and `Transfer`. The lemmas in `EngineFacts`, `EntryText` and `RunFacts` state
what those functions guarantee.

Python semantics the model spells out:
- `str.strip` and `str.isspace`.
- Universal-newline text reading and `str.split`.
- POSIX `os.path.join`, `basename`, `dirname` and `splitext`.
- The leftmost-match rules of the three regular expressions, with ASCII `\b`.
- The parsing of `re.sub` replacement templates, as Python 3.12 does it. A backslash or a
  leading digit in a name changes what is written, or raises `re.error`.
- `os.makedirs(exist_ok=True)`, as CPython splits and recurses.
- `shutil.move` into an existing directory.

`compare_versions` returns `None` where Python's `int()` raises `ValueError`.

The mapping's direction follows the code. Group 1 of `(.+?) -> (.+?):` is the key, and the
code looks it up on disk, so `code_dir/<obfuscated>.java` is the file that moves. A tree
that holds the files under their original names is left alone.

## Model

| member | source | states |
|---|---|---|
| Versions.TrimZeroGroups | apksource/core.py:50 | `re.sub(r'(\.0+)*$', '', v)` cuts at the leftmost point whose suffix is a run of `.0…` groups: the result is a prefix, the cut part is zero groups, and no earlier cut is possible |
| Versions.ParseInts | apksource/core.py:50 | `[int(x) for x in ...]` succeeds iff every piece is a non-empty digit string, element by element |
| Versions.CompareIgnoresTrailingZeroGroup | apksource/core.py:49-51 | appending `.0…` to either version does not change the comparison |
| Versions.CompareVersionsTotal | apksource/core.py:51 | on numeric versions the comparison is reflexive and total |
| Versions.CompareVersionsAntisymmetric | apksource/core.py:51 | `v >= w` and `w >= v` only when both normalise to the same list |
| Versions.CompareVersionsTransitive | apksource/core.py:51 | `>=` on versions is transitive |
| Versions.NonNumericPieceRaises | apksource/core.py:50 | a non-numeric piece makes the comparison raise in both argument orders |
| Versions.ListGeAtFirstDifference | apksource/core.py:51 | Python's list `>=` holds exactly when, at the first index where the lists differ, the left list holds the larger number, or the right list is a prefix of the left one |
| Versions.CompareVersionsMeaning | apksource/core.py:47-51 | `compare_versions(v, w)` raises exactly when a side does not normalise; otherwise it is True exactly when `v`'s list is larger at the first differing group, or `w`'s list is a prefix of `v`'s |
| Versions.MinimumVersionExamples | apksource/core.py:47-51 | `"2.7" >= "2.7.0"` holds and `"2.6.9" >= "2.7.0"` does not |
| ProjectName.KeepNameChars | apksource/core.py:98 | `re.sub(r'[^a-zA-Z0-9_]', '', s)` keeps exactly the ASCII letters, digits and `_`, in order |
| ProjectName.KeepNameCharsAppend | apksource/core.py:98 | the substitution works character by character, in order: it distributes over concatenation |
| ProjectName.KeepNameCharsOne | apksource/core.py:98 | one character is kept exactly when it is an ASCII letter, digit or `_` |
| ProjectName.SmartProjectName | apksource/core.py:93-99 | the name is never empty and holds only ASCII letters, digits and `_` |
| ProjectName.SmartProjectNameIdempotent | apksource/core.py:93-99 | naming a project name again gives the same name |
| ProjectName.ApkFileStemKept | apksource/core.py:95-99 | `dir/<stem>.apk` with a valid stem is named `<stem>` |
| ProjectName.FallbackWhenNothingLeft | apksource/core.py:99 | a stem with no letter, digit, `_` or space gives `"ApkProject"` |
| ProjectName.SpaceBecomesUnderscore | apksource/core.py:98 | a space in the stem survives as `_`, so the fallback is not used |
| PyStrings.StripSpec | apksource/core.py:309 | `strip()` removes exactly the leading and trailing whitespace |
| PyStrings.Split | apksource/core.py:50 | `split('.')` pieces hold no separator and join back to the input |
| PyStrings.TextModeRead | apksource/core.py:307-308 | universal newlines: no `'\r'` remains, and text without `'\r'` is unchanged |
| PyStrings.TextModeReadAppend | apksource/core.py:307 | reading is done piece by piece: text that does not end in `'\r'` reads independently of what follows it |
| PyStrings.TextModeReadCrLfLine | apksource/core.py:307 | a line ended by `"\r\n"` reads as the same line ended by `"\n"` |
| PyStrings.TextModeReadCrLine | apksource/core.py:307 | a line ended by a lone `'\r'` reads as the same line ended by `"\n"` |
| MappingParser.Lines | apksource/core.py:307-309 | the lines are the pieces of the text-mode read between newlines: they hold no `'\n'` or `'\r'` and, joined with `'\n'`, give back the read text. Python's lines keep their `'\n'`; the model drops it, which `strip()` on line 309 would remove anyway |
| MappingParser.MatchClassLineLeast | apksource/core.py:314 | `re.match(r'(.+?) -> (.+?):')` finds the match with the shortest group 1, then the shortest group 2, and fails only when no match exists |
| MappingParser.ParseLineCases | apksource/core.py:309-319 | blank and `#` lines are skipped; a line maps iff its stripped text matches; both names are non-empty and dot-free after `replace('.', '/')` |
| MappingParser.ClassLineMatch | apksource/core.py:314 | in `a -> b:` followed by any text, with no space in `a` and no colon in `b`, the groups are exactly `a` and `b` |
| MappingParser.ClassLineMaps | apksource/core.py:309-318 | `a -> b:` followed by any text (the rest of a ProGuard class line) maps `a` to `b` with dots turned into slashes |
| MappingParser.ClassLineExample | apksource/core.py:314-318 | `a.b -> x.Main:` maps `a/b` to `x/Main` |
| MappingParser.MemberLineIgnored | apksource/core.py:321-325 | an indented member line such as `1:1:void a() -> show` adds no entry |
| MappingParser.NoLateColonNoMatch | apksource/core.py:314 | a line without a ':' at position 6 or later is not a class line |
| MappingParser.Table.Insert | apksource/core.py:318 | `mappings[k] = v`: a new key goes last; an existing key keeps its place and takes the new value |
| MappingParser.ParseMapping | apksource/core.py:305-319 | the parse loop builds the table of the file's class lines |
| MappingParser.ParsedKeys | apksource/core.py:314-318 | the table's keys are exactly the obfuscated names of class lines |
| MappingParser.LastLineWins | apksource/core.py:318 | a key's value comes from its last class line |
| MappingParser.IgnoredLineAddsNothing | apksource/core.py:310-311 | a line that is not a class line changes nothing |
| MappingParser.EntriesAppend | apksource/core.py:308 | lines are processed independently, in order |
| Rewrite.FindDeclLeftmost | apksource/core.py:372-377 | the declaration found is the leftmost match of `\b(class\|interface\|enum)\s+NAME\b`; none is found only when none exists |
| Rewrite.ClassRenameOnlyName | apksource/core.py:372-377 | with a plain name, only the first declaration's name changes; keyword, whitespace and all other text stay |
| Rewrite.ClassRenameNone | apksource/core.py:372-377 | no declaration: the text is unchanged |
| Rewrite.ClassTemplateErrorFails | apksource/core.py:374 | a template that does not parse raises even when nothing matches |
| Rewrite.FindPackageLeftmost | apksource/core.py:381 | `package\s+.*?;` is found at its leftmost start, with the nearest `;` on the line |
| Rewrite.PackageReplaced | apksource/core.py:380-381 | the first package statement becomes `package <pkg>;`, the rest stays; no statement means no change |
| ReTemplate.NoBackslashIsLiteral | apksource/core.py:381 | a replacement template without a backslash is inserted literally |
| ReTemplate.ParseNameBetweenGroups | apksource/core.py:374 | `\1NAME\2` with a plain name is group 1, the name, then group 2 |
| ReTemplate.DigitLedName | apksource/core.py:374 | a name starting with a digit joins `\1` into a group reference of 10 or more, so the template fails to parse, unless the name starts with two octal digits; then `\1dd` is an octal escape and the template no longer starts with group 1 |
| PosixPath.BasenameIs | apksource/core.py:95 | `basename` is the slash-free tail after the last `/` |
| PosixPath.DirnameIs | apksource/core.py:354 | `dirname` is the path up to its last slash less the slashes that end it, or, when that part is slashes only, all of it; it is empty exactly when the path has no `/` |
| PosixPath.DirnameExample | apksource/core.py:380 | `dirname("x/y/Bar")` is `"x/y"` |
| PosixPath.DirnameAncestor | apksource/core.py:354 | a non-empty `dirname` is an ancestor of the path: a prefix ending just before a slash, or the root |
| PosixPath.JoinIs | apksource/core.py:297 | `join(a, b)` is `b` when `b` is absolute, `a + b` when `a` is empty or ends in `/`, and `a + "/" + b` otherwise |
| PosixPath.JoinBasename | apksource/core.py:338-342 | `basename(join(a, b))` is `b` for a non-empty, slash-free `b` |
| PosixPath.SplitExt | apksource/core.py:96 | `splitext` splits at the last dot of the last component, unless only dots precede that dot in the component |
| PosixPath.BasenameOfRoot | apksource/core.py:365-366 | the class name of `dir/<path><ext>` is the last component of `path` |
| MappingEngine.Mkdir | apksource/core.py:354 | one `mkdir` with `exist_ok`: it adds only `name`, and succeeds exactly when `name` is a directory already, or is non-empty, not a file, and has a parent that is a directory or the root |
| MappingEngine.MakeDirs | apksource/core.py:354 | `makedirs(exist_ok=True)` only adds directories, and never at a path that is a file |
| MappingEngine.RenameEffect | apksource/core.py:358 | a rename carries the text from `src` to `dst` and touches no other path |
| MappingEngine.Items | apksource/core.py:337 | `mappings.items()` lists the keys in insertion order with their values |
| MappingEngine.Workspace.ApplyProguardMapping | apksource/core.py:293-390 | the tree and the outcome are those of `Apply` |
| MappingEngine.Workspace.RewriteAll | apksource/core.py:337-388 | the loop's results and tree are `RunEntries`; it stops at the first `makedirs` error |
| MappingEngine.Workspace.ProcessEntry | apksource/core.py:338-354 | one entry: locate, `makedirs` (outside the `try`), then the `try` block |
| MappingEngine.Workspace.TransferFile | apksource/core.py:356-388 | the `try` block: move, read, two substitutions and the write; each raise is caught and reported |
| MappingEngine.RunEntriesNext | apksource/core.py:337 | entry `i` runs on the tree the entries before it left |
| MappingEngine.RunStopsAtAbort | apksource/core.py:354 | after a `makedirs` error no later entry runs |
| EngineFacts.MakeDirsOnFile | apksource/core.py:354 | `makedirs` on a path that is a file raises |
| EngineFacts.MakeDirsMakes | apksource/core.py:354 | after `makedirs` succeeds the path is a directory |
| EngineFacts.MakeDirsAncestors | apksource/core.py:354 | the directories `makedirs(name)` adds are `name` and its ancestors, and no others |
| EngineFacts.MakeDirsSucceeds | apksource/core.py:354 | `makedirs(name)` succeeds when neither `name` nor any ancestor of it is a file (for a name without a trailing `/` or a `.` component) |
| EngineFacts.MakeDirsRoot | apksource/core.py:354 | `makedirs` of the root (a path of slashes only) succeeds unless that path is a file |
| EngineFacts.MakeDirsKeepsApart | apksource/core.py:354 | `makedirs` never makes a file path a directory |
| EngineFacts.MoveEffect | apksource/core.py:358 | `shutil.move` touches only the source, the destination and the path inside the destination |
| EngineFacts.TransferFrame | apksource/core.py:356-388 | the `try` block touches only those paths |
| EngineFacts.EntryFrame | apksource/core.py:338-388 | an entry leaves every file outside its six candidate paths as it was |
| EngineFacts.EntryKeepsDirs | apksource/core.py:354-388 | an entry removes no directory |
| EngineFacts.TransferReports | apksource/core.py:356-388 | the `try` block reports the destination on success and the source on failure, and makes no directory |
| EngineFacts.EntryLocate | apksource/core.py:344-351 | skipped, with nothing changed, iff neither `.java` nor `.kt` exists; `.java` is preferred |
| EngineFacts.EntryFailed | apksource/core.py:354-388 | a `makedirs` error changes nothing; a failed move leaves the files; a failed read or substitution leaves the file moved and unchanged |
| EngineFacts.TransferFailed | apksource/core.py:356-388 | the same, for the `try` block alone |
| EngineFacts.TransferKeepsApart | apksource/core.py:356-388 | the `try` block never makes a path both a file and a directory |
| EngineFacts.EntryKeepsApart | apksource/core.py:338-388 | an entry never makes a path both a file and a directory |
| EngineFacts.TransferRewritten | apksource/core.py:358-384 | on success the destination holds the rewritten source text; the source is gone; nothing else changed |
| EngineFacts.EntryRewritten | apksource/core.py:338-384 | the same for a located entry |
| EngineFacts.SubstitutionsOfEntry | apksource/core.py:365-381 | with plain names the two substitutions rename the obfuscated class and set the package of the original path |
| EngineFacts.EntryNoTemplateError | apksource/core.py:372-381 | with plain names neither substitution raises |
| EngineFacts.EntryRenamesClass | apksource/core.py:358-384 | with plain names the destination holds the source text with the declaration renamed and the package replaced |
| EntryText.RewriteTextPlain | apksource/core.py:372-381 | with plain names the rewrite is the declaration rename followed by the package replacement |
| EntryText.ClassNameOfSource | apksource/core.py:365-366 | the class name of `code_dir/<name>.java` or `.kt` is the last component of `name` |
| EntryText.PackageOfExample | apksource/core.py:380 | the package written for `x/y/Bar` is `x.y` |
| EntryText.PackageOfPlain | apksource/core.py:380 | the package of a backslash-free path has no backslash |
| RunFacts.RunShape | apksource/core.py:337-388 | the loop stops right after the first `makedirs` error and only then |
| RunFacts.RunLength | apksource/core.py:337 | one result per entry processed; every entry when the loop did not stop |
| RunFacts.RunResultAt | apksource/core.py:337-388 | result `i` is entry `i` on the tree the earlier entries left |
| RunFacts.RunKeepsApart | apksource/core.py:337-388 | the loop never makes a path both a file and a directory |
| RunFacts.RunFrame | apksource/core.py:337-388 | files no entry touches are unchanged; no directory is removed |
| RunFacts.NoClassLineEmptyTable | apksource/core.py:331-333 | the table is empty iff no line is a class line |
| RunFacts.ApplyEarlyExits | apksource/core.py:299-333 | no `mapping.txt`, a directory there, or no class line: an early return that changes nothing |
| RunFacts.ApplyRuns | apksource/core.py:335-390 | otherwise there is one result per table entry, or the loop stopped at a `makedirs` error |
| RunFacts.ApplyKeepsApart | apksource/core.py:293-390 | `apply` never makes a path both a file and a directory |

## Left out

- Logging (`log_info`, `track` progress bars) has no effect on the model.
- Reading `mapping.txt` can fail in two ways the model does not cover: a decode error, and a
  permission error. Only a directory at that path is modelled (`MappingUnreadable`).
  Source files are assumed to decode.
- The working directory is a parameter (`cwd`) rather than `os.getcwd()`.
- Versions.TrimZeroGroups: cuts zero groups only at the very end of the text. Python's `$`
  also matches just before a final `'\n'`, so there `"1.0\n"` becomes `"1\n"`. No version
  the code compares ends in a newline.
- Versions.ParseInts: accepts only non-empty ASCII digit strings. Python's `int()` also
  takes a sign, surrounding whitespace, underscores between digits and non-ASCII digits.
- Paths are not normalised: `a//b` and `a/./b` are distinct keys of the tree.
- MappingEngine.MakeDirs: the operating system resolves the parent of `a/./b` to `a`, and
  creates `a/b` for `a/b/`. The model compares paths as written, so it fails on such names.
  This is why EngineFacts.MakeDirsSucceeds requires a name with no `.` component and no
  trailing `/`. The engine's calls pass a `dirname`, which never ends in `/` except at the root.
- Symbolic links and permissions are left out.
- Directories are an explicit set. The root, and any path made only of slashes, count as
  existing parents.
- MappingEngine.Transfer: a source path that is a directory is reported as
  `SourceIsDirectory`, and nothing moves. In the code, `shutil.move` would move the whole
  directory tree, and the later `open` would then raise.
- `shutil.move`'s fallback from `os.rename` to copy-and-delete gives the same result here,
  so it is not modelled separately.
- `os.makedirs`' `except FileExistsError` for a directory created concurrently cannot
  happen in a sequential model.
- Regular expressions use ASCII `\w`/`\b`. Python's Unicode word characters are not modelled.
- MappingEngine.RunEntries: stated for any text rewrite (`Rewriter`). Only the lemmas
  that pass `Substitutions` state what `apply_proguard_mapping` writes.
- The rest of `core.py` is not part of this model: dependency checks, running apktool and
  jadx, and project generation. `cli.py` is not part of this model either.
