/** What the ordinary comparison reports, finding by finding and in which order. */
module ComparisonFindings {
  import opened Options
  import opened KeyOrder
  import opened OrderedMap
  import opened SuiteTitleMap
  import opened SplitTheorems

  /** What is said about a file of a script that both sides collected. */
  ghost predicate ReportsFile(script: Text, path: Text, pinned: map<Text, seq<Text>>, found: map<Text, seq<Text>>, f: Finding) {
    || (path !in pinned && path in found && f == Finding(script, FileAdded, [path], []))
    || (path in pinned && path !in found && f == Finding(script, FileDropped, [path], []))
    || (path in pinned && path in found && f.title in pinned[path] && f.title !in found[path]
        && f == Finding(script, TitleDropped, [path], f.title))
    || (path in pinned && path in found && f.title in found[path] && f.title !in pinned[path]
        && f == Finding(script, TitleAdded, [path], f.title))
  }

  ghost predicate ReportsScript(script: Text, before: Option<View>, after: Option<View>, renames: Renames, f: Finding) {
    match (before, after)
    case (Some(_), None) => f == Finding(script, ScriptRemoved, [], [])
    case (None, Some(_)) => f == Finding(script, ScriptAdded, [], [])
    case (None, None) => false
    case (Some(b), Some(a)) => exists path :: ReportsFile(script, path, Mapped(renames, b), Contents(a), f)
  }

  lemma {:induction false} FilesFindingsHave(
    script: Text, paths: seq<Text>, pinned: map<Text, seq<Text>>, found: map<Text, seq<Text>>, f: Finding)
    ensures f in FilesFindings(script, paths, pinned, found) <==>
            exists path :: path in paths && f in FileFindings(script, path, pinned, found)
  {
    if paths != [] {
      FilesFindingsHave(script, paths[..|paths| - 1], pinned, found, f);
      assert paths == paths[..|paths| - 1] + [paths[|paths| - 1]];
    }
  }

  lemma ScriptReports(script: Text, before: Option<View>, after: Option<View>, renames: Renames, f: Finding)
    ensures f in ScriptFindings(script, before, after, renames) <==> ReportsScript(script, before, after, renames, f)
  {
    if before.Some? && after.Some? {
      var pinned, found := Mapped(renames, before.value), Contents(after.value);
      var paths := SortedSet(NewPaths(renames, before.value) + KeysOf(after.value));
      MappedPaths(renames, before.value);
      KeysAreKnown(after.value);
      FilesFindingsHave(script, paths, pinned, found, f);
      forall path ensures path in paths <==> path in pinned || path in found {
      }
      forall path | path in paths
        ensures f in FileFindings(script, path, pinned, found) <==> ReportsFile(script, path, pinned, found, f)
      {
        FileFindingsAre(script, path, pinned, found, f);
      }
      assert forall path :: ReportsFile(script, path, pinned, found, f) ==> path in paths;
    }
  }

  lemma {:induction false} ScriptsFindingsHave(
    names: seq<Text>, pin: SuiteMap, tree: SuiteMap, renames: Renames, f: Finding)
    ensures f in ScriptsFindings(names, pin, tree, renames) <==>
            exists name :: name in names && f in ScriptFindings(name, Expand(pin, name), Expand(tree, name), renames)
  {
    if names != [] {
      ScriptsFindingsHave(names[..|names| - 1], pin, tree, renames, f);
      assert names == names[..|names| - 1] + [names[|names| - 1]];
    }
  }

  lemma ReportsItsScript(script: Text, before: Option<View>, after: Option<View>, renames: Renames, f: Finding)
    requires ReportsScript(script, before, after, renames, f)
    ensures f.script == script && (before.Some? || after.Some?)
  {
  }

  /** The findings of a comparison, exactly: for every script of either side, or the one chosen, that only one side has
      it; or for each path, after the declared renames, that only one side has it, or a title only one side has there. */
  lemma ComparisonReports(pin: SuiteMap, tree: SuiteMap, renames: Renames, only: Text, f: Finding)
    ensures f in Comparison(pin, tree, renames, only) <==>
            && (only == [] || f.script == only)
            && ReportsScript(f.script, Expand(pin, f.script), Expand(tree, f.script), renames, f)
  {
    var names := ScriptNames(pin, tree, only);
    ScriptsFindingsHave(names, pin, tree, renames, f);
    KeysAreKnown(pin.scripts);
    KeysAreKnown(tree.scripts);
    forall name
      ensures f in ScriptFindings(name, Expand(pin, name), Expand(tree, name), renames)
              <==> ReportsScript(name, Expand(pin, name), Expand(tree, name), renames, f)
      ensures ReportsScript(name, Expand(pin, name), Expand(tree, name), renames, f) ==>
        name == f.script && (name in names <==> only == [] || name == only)
    {
      ScriptReports(name, Expand(pin, name), Expand(tree, name), renames, f);
      if ReportsScript(name, Expand(pin, name), Expand(tree, name), renames, f) {
        ReportsItsScript(name, Expand(pin, name), Expand(tree, name), renames, f);
      }
    }
  }

  // ---- In which order -------------------------------------------------------------------------------

  /** Scripts in code-unit order, and within a script the files. */
  ghost predicate Follows(f: Finding, g: Finding) {
    || Precedes(f.script, g.script)
    || (f.script == g.script && (f.files == g.files || (f.files != [] && g.files != [] && Precedes(f.files[0], g.files[0]))))
  }

  ghost predicate InTurn(fs: seq<Finding>) {
    forall i, j :: 0 <= i < j < |fs| ==> Follows(fs[i], fs[j])
  }

  lemma InTurnConcat(a: seq<Finding>, b: seq<Finding>)
    requires InTurn(a) && InTurn(b) && forall f, g :: f in a && g in b ==> Follows(f, g)
    ensures InTurn(a + b)
  {
    forall i, j | 0 <= i < j < |a + b| ensures Follows((a + b)[i], (a + b)[j]) {
      if i < |a| <= j {
        assert a[i] in a && b[j - |a|] in b;
      }
    }
  }

  lemma FileInTurn(script: Text, path: Text, pinned: map<Text, seq<Text>>, found: map<Text, seq<Text>>)
    ensures InTurn(FileFindings(script, path, pinned, found))
    ensures forall f :: f in FileFindings(script, path, pinned, found) ==> f.script == script && f.files == [path]
  {
    var fs := FileFindings(script, path, pinned, found);
    forall f | f in fs ensures f.script == script && f.files == [path] {
      FileFindingsAre(script, path, pinned, found, f);
    }
    forall i, j | 0 <= i < j < |fs| ensures Follows(fs[i], fs[j]) {
      assert fs[i] in fs && fs[j] in fs;
    }
  }

  lemma {:induction false} FilesInTurn(
    script: Text, paths: seq<Text>, pinned: map<Text, seq<Text>>, found: map<Text, seq<Text>>)
    requires Ascending(paths)
    ensures InTurn(FilesFindings(script, paths, pinned, found))
  {
    if paths != [] {
      var front, last := paths[..|paths| - 1], paths[|paths| - 1];
      FilesInTurn(script, front, pinned, found);
      FileInTurn(script, last, pinned, found);
      forall f, g | f in FilesFindings(script, front, pinned, found) && g in FileFindings(script, last, pinned, found)
        ensures Follows(f, g)
      {
        EarlierFile(script, front, last, pinned, found, f);
      }
      InTurnConcat(FilesFindings(script, front, pinned, found), FileFindings(script, last, pinned, found));
    }
  }

  lemma EarlierFile(
    script: Text, front: seq<Text>, last: Text, pinned: map<Text, seq<Text>>, found: map<Text, seq<Text>>, f: Finding)
    requires Ascending(front + [last]) && f in FilesFindings(script, front, pinned, found)
    ensures f.script == script && |f.files| == 1 && Precedes(f.files[0], last)
  {
    FilesFindingsHave(script, front, pinned, found, f);
    var path :| path in front && f in FileFindings(script, path, pinned, found);
    FileInTurn(script, path, pinned, found);
    var i :| 0 <= i < |front| && front[i] == path;
    assert (front + [last])[i] == path && (front + [last])[|front|] == last;
    LessIsByCodeUnit(path, last);
  }

  lemma ScriptInTurn(script: Text, before: Option<View>, after: Option<View>, renames: Renames)
    ensures InTurn(ScriptFindings(script, before, after, renames))
    ensures forall f :: f in ScriptFindings(script, before, after, renames) ==> f.script == script
  {
    forall f | f in ScriptFindings(script, before, after, renames) ensures f.script == script {
      ScriptReports(script, before, after, renames, f);
    }
    if before.Some? && after.Some? {
      FilesInTurn(script, SortedSet(NewPaths(renames, before.value) + KeysOf(after.value)),
                  Mapped(renames, before.value), Contents(after.value));
    }
  }

  lemma {:induction false} ScriptsInTurn(names: seq<Text>, pin: SuiteMap, tree: SuiteMap, renames: Renames)
    requires Ascending(names)
    ensures InTurn(ScriptsFindings(names, pin, tree, renames))
  {
    if names != [] {
      var front, last := names[..|names| - 1], names[|names| - 1];
      var before, after := Expand(pin, last), Expand(tree, last);
      ScriptsInTurn(front, pin, tree, renames);
      ScriptInTurn(last, before, after, renames);
      forall f | f in ScriptsFindings(front, pin, tree, renames) ensures Precedes(f.script, last) {
        EarlierScript(front, last, pin, tree, renames, f);
      }
      InTurnConcat(ScriptsFindings(front, pin, tree, renames), ScriptFindings(last, before, after, renames));
    }
  }

  lemma EarlierScript(front: seq<Text>, last: Text, pin: SuiteMap, tree: SuiteMap, renames: Renames, f: Finding)
    requires Ascending(front + [last]) && f in ScriptsFindings(front, pin, tree, renames)
    ensures Precedes(f.script, last)
  {
    ScriptsFindingsHave(front, pin, tree, renames, f);
    var name :| name in front && f in ScriptFindings(name, Expand(pin, name), Expand(tree, name), renames);
    ScriptInTurn(name, Expand(pin, name), Expand(tree, name), renames);
    var i :| 0 <= i < |front| && front[i] == name;
    assert (front + [last])[i] == name && (front + [last])[|front|] == last;
    LessIsByCodeUnit(name, last);
  }

  /** The findings come script by script in code-unit order, and within a script file by file in that order. */
  lemma ComparisonIsInTurn(pin: SuiteMap, tree: SuiteMap, renames: Renames, only: Text)
    ensures InTurn(Comparison(pin, tree, renames, only))
  {
    ScriptsInTurn(ScriptNames(pin, tree, only), pin, tree, renames);
  }
}
