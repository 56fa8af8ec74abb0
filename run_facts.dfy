/** What the rewrite loop of `apply_proguard_mapping` does over all entries, and what `apply` reports. */
module RunFacts {
  import opened Wrappers
  import opened PyStrings
  import opened PosixPath
  import opened MappingParser
  import opened MappingEngine
  import opened EngineFacts

  /**
   * The loop stops right after the first `makedirs` error, and only then: no earlier
   * result is one, and a run that did not stop has none.
   */
  lemma {:induction false} RunShape(t0: FileTree, codeDir: string, items: seq<(string, string)>, rewrite: Rewriter)
    ensures var run := RunEntries(t0, codeDir, items, rewrite);
            && (forall i :: 0 <= i < |run.results| - 1 ==> !run.results[i].MakeDirsError?)
            && (run.aborted <==> run.results != [] && run.results[|run.results| - 1].MakeDirsError?)
    ensures var run := RunEntries(t0, codeDir, items, rewrite);
            !run.aborted ==> forall i :: 0 <= i < |run.results| ==> !run.results[i].MakeDirsError?
  {
    if items != [] {
      RunShape(t0, codeDir, items[..|items| - 1], rewrite);
    }
  }

  /** At most one result per entry, and exactly one when the loop did not stop. */
  lemma {:induction false} RunLength(t0: FileTree, codeDir: string, items: seq<(string, string)>, rewrite: Rewriter)
    ensures |RunEntries(t0, codeDir, items, rewrite).results| <= |items|
    ensures !RunEntries(t0, codeDir, items, rewrite).aborted ==> |RunEntries(t0, codeDir, items, rewrite).results| == |items|
  {
    if items != [] {
      RunLength(t0, codeDir, items[..|items| - 1], rewrite);
    }
  }

  /** Result `i` is what entry `i` reports on the tree the entries before it left. */
  lemma {:induction false} RunResultAt(t0: FileTree, codeDir: string, items: seq<(string, string)>, rewrite: Rewriter, i: nat)
    requires i < |RunEntries(t0, codeDir, items, rewrite).results|
    ensures i < |items| && !RunEntries(t0, codeDir, items[..i], rewrite).aborted
    ensures RunEntries(t0, codeDir, items, rewrite).results[i]
            == EntryStep(RunEntries(t0, codeDir, items[..i], rewrite).tree, codeDir, items[i].0, items[i].1, rewrite).0
  {
    RunLength(t0, codeDir, items, rewrite);
    var init := items[..|items| - 1];
    var prev := RunEntries(t0, codeDir, init, rewrite);
    RunLength(t0, codeDir, init, rewrite);
    if i < |prev.results| {
      RunResultAt(t0, codeDir, init, rewrite, i);
      assert init[..i] == items[..i];
    } else {
      assert init == items[..i];
    }
  }

  /** No entry makes a path both a file and a directory. */
  lemma {:induction false} RunKeepsApart(t0: FileTree, codeDir: string, items: seq<(string, string)>, rewrite: Rewriter)
    requires Apart(t0)
    ensures Apart(RunEntries(t0, codeDir, items, rewrite).tree)
  {
    if items != [] {
      var init := items[..|items| - 1];
      RunKeepsApart(t0, codeDir, init, rewrite);
      var prev := RunEntries(t0, codeDir, init, rewrite);
      EntryKeepsApart(prev.tree, codeDir, items[|items| - 1].0, items[|items| - 1].1, rewrite);
    }
  }

  /** `p` is none of the paths any entry may touch. */
  predicate Untouched(codeDir: string, items: seq<(string, string)>, p: string) {
    forall i :: 0 <= i < |items| ==> p !in TouchedBy(codeDir, items[i].0, items[i].1)
  }

  /** A file no entry touches is left as it was, and no directory is removed. */
  lemma {:induction false} RunFrame(t0: FileTree, codeDir: string, items: seq<(string, string)>, rewrite: Rewriter, p: string)
    requires Untouched(codeDir, items, p)
    ensures SameAt(t0.files, RunEntries(t0, codeDir, items, rewrite).tree.files, p)
    ensures t0.dirs <= RunEntries(t0, codeDir, items, rewrite).tree.dirs
  {
    if items != [] {
      var init := items[..|items| - 1];
      assert Untouched(codeDir, init, p) by {
        forall i | 0 <= i < |init| ensures p !in TouchedBy(codeDir, init[i].0, init[i].1) {
          assert init[i] == items[i];
        }
      }
      RunFrame(t0, codeDir, init, rewrite, p);
      var prev := RunEntries(t0, codeDir, init, rewrite);
      EntryFrame(prev.tree, codeDir, items[|items| - 1].0, items[|items| - 1].1, rewrite, p);
      EntryKeepsDirs(prev.tree, codeDir, items[|items| - 1].0, items[|items| - 1].1, rewrite);
    }
  }

  /** Whether `text` has a class line. */
  predicate HasClassLine(text: string) {
    exists k :: 0 <= k < |Lines(text)| && ParseLine(Lines(text)[k]).Some?
  }

  /** A class line puts its obfuscated name in the table. */
  lemma LineGivesKey(lines: seq<string>, k: nat)
    requires k < |lines| && ParseLine(lines[k]).Some?
    ensures ParseLines(lines).keys != []
  {
    var x := ParseLine(lines[k]).value.0;
    assert DefinesKey(lines, k, x);
    ParsedKeys(lines, x);
    assert x in ParseLines(lines).keys;
  }

  /** Every name in the table comes from a class line. */
  lemma KeyHasLine(lines: seq<string>)
    requires ParseLines(lines).keys != []
    ensures exists k :: 0 <= k < |lines| && ParseLine(lines[k]).Some?
  {
    ParsedKeys(lines, ParseLines(lines).keys[0]);
  }

  /** The table is empty exactly when no line of the text is a class line. */
  lemma NoClassLineEmptyTable(text: string)
    ensures ParseLines(Lines(text)).keys == [] <==> !HasClassLine(text)
  {
    var lines := Lines(text);
    if ParseLines(lines).keys != [] {
      KeyHasLine(lines);
    }
    if HasClassLine(text) {
      var k :| 0 <= k < |lines| && ParseLine(lines[k]).Some?;
      LineGivesKey(lines, k);
    }
  }

  /**
   * `apply` returns early, changing nothing, when `mapping.txt` does not exist, when it is a
   * directory, and exactly when it holds no class line.
   */
  lemma ApplyEarlyExits(t: FileTree, cwd: string, projectName: string)
    ensures var (o, t') := Apply(t, cwd, projectName);
            (o.NoMappingFile? <==> !Exists(t, MappingFile(cwd)))
            && (o.MappingUnreadable? <==> IsDir(t, MappingFile(cwd)) && MappingFile(cwd) !in t.files)
            && (o.NoValidMapping? <==> MappingFile(cwd) in t.files && !HasClassLine(t.files[MappingFile(cwd)]))
            && (o.NoMappingFile? || o.MappingUnreadable? || o.NoValidMapping? ==> t' == t)
  {
    if MappingFile(cwd) in t.files {
      NoClassLineEmptyTable(t.files[MappingFile(cwd)]);
    }
  }

  /**
   * Otherwise `apply` runs the loop over the table's entries: it finishes with one result
   * per entry and no `makedirs` error, or stops with a `makedirs` error as its last result.
   */
  lemma ApplyRuns(t: FileTree, cwd: string, projectName: string)
    ensures var (o, t') := Apply(t, cwd, projectName);
            o.Finished? ==> |o.results| == |ParseLines(Lines(t.files[MappingFile(cwd)])).keys|
                            && forall i :: 0 <= i < |o.results| ==> !o.results[i].MakeDirsError?
    ensures var (o, t') := Apply(t, cwd, projectName);
            o.Aborted? ==> o.results != [] && o.results[|o.results| - 1].MakeDirsError?
  {
    var mapping := MappingFile(cwd);
    if mapping in t.files {
      var table := ParseLines(Lines(t.files[mapping]));
      var items := Items(table);
      var run := RunEntries(t, CodeDir(projectName), items, Substitutions);
      RunShape(t, CodeDir(projectName), items, Substitutions);
      RunLength(t, CodeDir(projectName), items, Substitutions);
      if table.keys != [] {
        assert Apply(t, cwd, projectName) == (if run.aborted then Aborted(run.results) else Finished(run.results), run.tree);
      }
    }
  }

  /** `apply` never makes a path both a file and a directory. */
  lemma ApplyKeepsApart(t: FileTree, cwd: string, projectName: string)
    requires Apart(t)
    ensures Apart(Apply(t, cwd, projectName).1)
  {
    var mapping := MappingFile(cwd);
    if mapping in t.files {
      var table := ParseLines(Lines(t.files[mapping]));
      RunKeepsApart(t, CodeDir(projectName), Items(table), Substitutions);
    }
  }
}
