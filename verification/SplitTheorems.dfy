/** What an empty result of the split comparison means: every split keeps its titles as a multiset, every
    other file keeps its title set. */
module SplitTheorems {
  import opened Options
  import opened Collections
  import opened KeyOrder
  import opened OrderedMap
  import opened SuiteTitleMap
  import opened SplitCompare

  // ---- When the ordinary comparison is empty ----------------------------------------------------------

  ghost predicate SameTitles(a: seq<Text>, b: seq<Text>) {
    forall t :: t in a <==> t in b
  }

  /** The same paths, each with the same set of titles. */
  ghost predicate SameFiles(a: map<Text, seq<Text>>, b: map<Text, seq<Text>>) {
    (forall p :: p in a <==> p in b) && forall p :: p in a && p in b ==> SameTitles(a[p], b[p])
  }

  lemma {:induction false} LackingIsEmpty(script: Text, kind: Kind, path: Text, titles: seq<Text>, other: seq<Text>)
    ensures Lacking(script, kind, path, titles, other) == [] <==> forall t :: t in titles ==> t in other
  {
    if titles != [] {
      var front, last := titles[..|titles| - 1], titles[|titles| - 1];
      LackingIsEmpty(script, kind, path, front, other);
      assert titles == front + [last];
    }
  }

  lemma {:induction false} LackingReports(
    script: Text, kind: Kind, path: Text, titles: seq<Text>, other: seq<Text>, f: Finding)
    ensures f in Lacking(script, kind, path, titles, other)
            <==> f == Finding(script, kind, [path], f.title) && f.title in titles && f.title !in other
  {
    if titles != [] {
      LackingReports(script, kind, path, titles[..|titles| - 1], other, f);
      assert titles == titles[..|titles| - 1] + [titles[|titles| - 1]];
    }
  }

  /** What is reported for a file: that only one side has it, or the titles that only one side has, each
      under its own kind. */
  lemma FileFindingsAre(
    script: Text, path: Text, mapped: map<Text, seq<Text>>, after: map<Text, seq<Text>>, f: Finding)
    ensures f in FileFindings(script, path, mapped, after) <==> (
              if path !in mapped then f == Finding(script, FileAdded, [path], [])
              else if path !in after then f == Finding(script, FileDropped, [path], [])
              else
                || (f == Finding(script, TitleDropped, [path], f.title) && f.title in mapped[path] && f.title !in after[path])
                || (f == Finding(script, TitleAdded, [path], f.title) && f.title in after[path] && f.title !in mapped[path]))
  {
    if path in mapped && path in after {
      LackingReports(script, TitleDropped, path, mapped[path], after[path], f);
      LackingReports(script, TitleAdded, path, after[path], mapped[path], f);
    }
  }

  lemma FileIsClean(script: Text, path: Text, mapped: map<Text, seq<Text>>, after: map<Text, seq<Text>>)
    requires path in mapped || path in after
    ensures FileFindings(script, path, mapped, after) == []
            <==> path in mapped && path in after && SameTitles(mapped[path], after[path])
  {
    if path in mapped && path in after {
      LackingIsEmpty(script, TitleDropped, path, mapped[path], after[path]);
      LackingIsEmpty(script, TitleAdded, path, after[path], mapped[path]);
    }
  }

  ghost function IsClean(script: Text, mapped: map<Text, seq<Text>>, after: map<Text, seq<Text>>): Text -> bool {
    (path: Text) => FileFindings(script, path, mapped, after) == []
  }

  lemma {:induction false} NoFileFindings(
    script: Text, paths: seq<Text>, mapped: map<Text, seq<Text>>, after: map<Text, seq<Text>>)
    ensures FilesFindings(script, paths, mapped, after) == [] <==> All(paths, IsClean(script, mapped, after))
  {
    if paths != [] {
      NoFileFindings(script, paths[..|paths| - 1], mapped, after);
    }
  }

  lemma FilesAreClean(script: Text, paths: seq<Text>, mapped: map<Text, seq<Text>>, after: map<Text, seq<Text>>)
    ensures FilesFindings(script, paths, mapped, after) == []
            <==> forall i :: 0 <= i < |paths| ==> FileFindings(script, paths[i], mapped, after) == []
  {
    NoFileFindings(script, paths, mapped, after);
    AllIsEach(paths, IsClean(script, mapped, after));
  }

  lemma {:induction false} MappedPaths(renames: Renames, v: View)
    ensures forall p :: p in Mapped(renames, v) <==> p in NewPaths(renames, v)
  {
    if v != [] {
      MappedPaths(renames, v[..|v| - 1]);
    }
  }

  lemma PathIsClean(script: Text, paths: seq<Text>, mapped: map<Text, seq<Text>>, there: map<Text, seq<Text>>, p: Text)
    requires FilesFindings(script, paths, mapped, there) == [] && p in paths && (p in mapped || p in there)
    ensures p in mapped && p in there && SameTitles(mapped[p], there[p])
  {
    FilesAreClean(script, paths, mapped, there);
    var i :| 0 <= i < |paths| && paths[i] == p;
    FileIsClean(script, p, mapped, there);
  }

  lemma SameFilesAreClean(
    script: Text, paths: seq<Text>, mapped: map<Text, seq<Text>>, there: map<Text, seq<Text>>)
    requires SameFiles(mapped, there) && forall p :: p in paths ==> p in mapped || p in there
    ensures FilesFindings(script, paths, mapped, there) == []
  {
    forall i | 0 <= i < |paths| ensures FileFindings(script, paths[i], mapped, there) == [] {
      assert paths[i] in paths;
      FileIsClean(script, paths[i], mapped, there);
    }
    FilesAreClean(script, paths, mapped, there);
  }

  lemma PathsAreClean(script: Text, paths: seq<Text>, mapped: map<Text, seq<Text>>, there: map<Text, seq<Text>>)
    requires forall p :: p in paths <==> p in mapped || p in there
    ensures FilesFindings(script, paths, mapped, there) == [] <==> SameFiles(mapped, there)
  {
    if FilesFindings(script, paths, mapped, there) == [] {
      forall p | p in mapped || p in there ensures p in mapped && p in there && SameTitles(mapped[p], there[p]) {
        PathIsClean(script, paths, mapped, there, p);
      }
    }
    if SameFiles(mapped, there) {
      SameFilesAreClean(script, paths, mapped, there);
    }
  }

  lemma ScriptIsClean(script: Text, before: View, after: View, renames: Renames)
    ensures ScriptFindings(script, Some(before), Some(after), renames) == []
            <==> SameFiles(Mapped(renames, before), Contents(after))
  {
    var paths := SortedSet(NewPaths(renames, before) + KeysOf(after));
    MappedPaths(renames, before);
    KeysAreKnown(after);
    PathsAreClean(script, paths, Mapped(renames, before), Contents(after));
  }

  ghost predicate ComparesClean(name: Text, pin: SuiteMap, tree: SuiteMap, renames: Renames) {
    ScriptFindings(name, Expand(pin, name), Expand(tree, name), renames) == []
  }

  ghost function ScriptIsAlike(pin: SuiteMap, tree: SuiteMap, renames: Renames): Text -> bool {
    (name: Text) => ComparesClean(name, pin, tree, renames)
  }

  lemma {:induction false} NoScriptFindings(names: seq<Text>, pin: SuiteMap, tree: SuiteMap, renames: Renames)
    ensures ScriptsFindings(names, pin, tree, renames) == [] <==> All(names, ScriptIsAlike(pin, tree, renames))
  {
    if names != [] {
      NoScriptFindings(names[..|names| - 1], pin, tree, renames);
    }
  }

  lemma ScriptsAreClean(names: seq<Text>, pin: SuiteMap, tree: SuiteMap, renames: Renames)
    ensures ScriptsFindings(names, pin, tree, renames) == []
            <==> forall i :: 0 <= i < |names| ==> ComparesClean(names[i], pin, tree, renames)
  {
    NoScriptFindings(names, pin, tree, renames);
    AllIsEach(names, ScriptIsAlike(pin, tree, renames));
  }

  // ---- Views without some files -------------------------------------------------------------------------

  lemma {:induction false} ContentsAppend<V>(entries: seq<Entry<Text, V>>, e: Entry<Text, V>)
    ensures Contents(entries + [e])
            == if e.key in Contents(entries) then Contents(entries) else Contents(entries)[e.key := e.value]
  {
    var more := entries + [e];
    if entries == [] {
      assert more == [e] && [e][1..] == [];
    } else {
      assert more[1..] == entries[1..] + [e] && more[0] == entries[0];
      ContentsAppend(entries[1..], e);
    }
  }

  lemma {:induction false} PickedContents(v: View, keys: seq<Text>)
    requires forall k :: k in keys ==> k in Contents(v)
    ensures forall k :: k in Contents(Picked(v, keys)) <==> k in keys
    ensures forall k :: k in keys ==> Contents(Picked(v, keys))[k] == Contents(v)[k]
  {
    if keys != [] {
      var front, last := keys[..|keys| - 1], keys[|keys| - 1];
      PickedContents(v, front);
      ContentsAppend(Picked(v, front), Entry(last, Contents(v)[last]));
      assert keys == front + [last];
    }
  }

  /** Path order changes nothing a lookup can see. */
  lemma InOrderContents(v: View)
    ensures Contents(InOrder(v)) == Contents(v)
  {
    KeysAreKnown(v);
    PickedContents(v, SortedSet(KeysOf(v)));
  }

  lemma {:induction false} KeptContents<V>(files: seq<Entry<Text, V>>, drop: set<Text>)
    ensures Contents(Kept(files, drop)) == Contents(files) - drop
  {
    if files != [] {
      var front, last := files[..|files| - 1], files[|files| - 1];
      KeptContents(front, drop);
      ContentsAppend(front, last);
      ContentsAppend(Kept(front, drop), last);
      assert files == front + [last];
      assert Kept(front, drop) + [] == Kept(front, drop);
    }
  }

  lemma {:induction false} KeptNone<V>(files: seq<Entry<Text, V>>)
    ensures Kept(files, {}) == files
  {
    if files != [] {
      KeptNone(files[..|files| - 1]);
      assert files == files[..|files| - 1] + [files[|files| - 1]];
    }
  }

  lemma {:induction false} ListedKept(m: SuiteMap, m': SuiteMap, files: seq<Entry<Text, Text>>, drop: set<Text>)
    requires m'.titleSets == m.titleSets
    ensures Listed(m', Kept(files, drop)) == Kept(Listed(m, files), drop)
  {
    if files != [] {
      var front, last := files[..|files| - 1], files[|files| - 1];
      ListedKept(m, m', front, drop);
      assert last.key !in drop ==> (Kept(front, drop) + [last])[..|Kept(front, drop)|] == Kept(front, drop);
      assert Listed(m, files)[..|files| - 1] == Listed(m, front);
      assert Kept(front, drop) + [] == Kept(front, drop);
    }
  }

  lemma {:induction false} KeptScriptContents(scripts: seq<Entry<Text, Script>>, drop: map<Text, set<Text>>, name: Text)
    ensures name in Contents(KeptScripts(scripts, drop)) <==> name in Contents(scripts)
    ensures name in Contents(scripts) ==>
      Contents(KeptScripts(scripts, drop))[name] == KeptScript(Entry(name, Contents(scripts)[name]), drop).value
  {
    if scripts != [] {
      assert KeptScripts(scripts, drop)[1..] == KeptScripts(scripts[1..], drop);
      KeptScriptContents(scripts[1..], drop, name);
    }
  }

  /** Taking files out leaves the others of the script as they are. */
  lemma FilesWithout(m: SuiteMap, drop: map<Text, set<Text>>, name: Text)
    ensures FilesOf(Without(m, drop), name)
            == match FilesOf(m, name) case None => None case Some(v) => Some(Kept(v, Dropped(drop, name)))
  {
    KeptScriptContents(m.scripts, drop, name);
    if FilesOf(m, name).Some? {
      var files := Contents(m.scripts)[name].files.value;
      if name in drop {
        ListedKept(m, Without(m, drop), files, drop[name]);
      } else {
        KeptNone(files);
        ListedKept(m, Without(m, drop), files, {});
      }
    }
  }

  // ---- What the grading takes out -------------------------------------------------------------------------

  ghost function IsGradedClean(n: Input): Text -> bool {
    (name: Text) => GradeOf(n, name).differences == []
  }

  lemma {:induction false} NoGradeFindings(n: Input, names: seq<Text>)
    ensures GradeAll(n, names).differences == [] <==> All(names, IsGradedClean(n))
  {
    if names != [] {
      NoGradeFindings(n, names[..|names| - 1]);
      GradeOrNothing(n, names[|names| - 1]);
    }
  }

  lemma GradedAll(n: Input, names: seq<Text>)
    ensures GradeAll(n, names).differences == []
            <==> forall i :: 0 <= i < |names| ==> GradeOf(n, names[i]).differences == []
  {
    NoGradeFindings(n, names);
    AllIsEach(names, IsGradedClean(n));
  }

  lemma {:induction false} TakenOut(n: Input, names: seq<Text>, s: Text)
    ensures Dropped(GradeAll(n, names).dropPin, s) == if s in names then GradeOf(n, s).pinned else {}
    ensures Dropped(GradeAll(n, names).dropTree, s) == if s in names then GradeOf(n, s).parts else {}
  {
    if names != [] {
      var front, last := names[..|names| - 1], names[|names| - 1];
      TakenOut(n, front, s);
      GradeOrNothing(n, last);
      InFront(names, s);
    }
  }

  lemma InFront(names: seq<Text>, s: Text)
    requires names != []
    ensures s in names <==> s in names[..|names| - 1] || s == names[|names| - 1]
  {
    assert names == names[..|names| - 1] + [names[|names| - 1]];
  }

  lemma GradeOrNothing(n: Input, name: Text)
    ensures !GradeOf(n, name).any ==> GradeOf(n, name) == Graded([], {}, {}, false)
  {
    if FilesOf(n.pin, name).Some? && FilesOf(n.tree, name).Some? {
      NothingGraded(name, FilesOf(n.pin, name).value, FilesOf(n.tree, name).value, n.renames, n.splits,
                    Sort(KeysOf(n.splits)));
    }
  }

  /** A script passes when its splits are graded without a finding and the rest of it compares without one. */
  ghost predicate ScriptPasses(n: Input, name: Text) {
    match (FilesOf(n.pin, name), FilesOf(n.tree, name))
    case (Some(before), Some(after)) =>
      var g := GradeOf(n, name);
      && g.differences == []
      && SameFiles(Mapped(n.renames, InOrder(Kept(before, g.pinned))), Contents(Kept(after, g.parts)))
    case (None, None) => true
    case _ => false
  }

  lemma RestOfScript(n: Input, name: Text, dropPin: map<Text, set<Text>>, dropTree: map<Text, set<Text>>)
    requires Dropped(dropPin, name) == GradeOf(n, name).pinned && Dropped(dropTree, name) == GradeOf(n, name).parts
    ensures ScriptPasses(n, name) <==> (
              && GradeOf(n, name).differences == []
              && ComparesClean(name, Without(n.pin, dropPin), Without(n.tree, dropTree), n.renames))
  {
    FilesWithout(n.pin, dropPin, name);
    FilesWithout(n.tree, dropTree, name);
    if FilesOf(n.pin, name).Some? && FilesOf(n.tree, name).Some? {
      var g := GradeOf(n, name);
      var before, after := Kept(FilesOf(n.pin, name).value, g.pinned), Kept(FilesOf(n.tree, name).value, g.parts);
      ScriptIsClean(name, InOrder(before), InOrder(after), n.renames);
      InOrderContents(after);
    }
  }

  /** Every script name the run looks at. */
  ghost predicate Looked(n: Input, name: Text) {
    (n.only == [] || name == n.only) && (name in Contents(n.pin.scripts) || name in Contents(n.tree.scripts))
  }

  /** What the run makes of one script, in terms of what the two steps report. */
  lemma ScriptInRun(n: Input, s: Text)
    ensures
      var p := GradeAll(n, PinNames(n));
      var pin, tree := Without(n.pin, p.dropPin), Without(n.tree, p.dropTree);
      && (s in ScriptNames(pin, tree, n.only) <==> Looked(n, s))
      && (s in PinNames(n) ==> Looked(n, s))
      && (Looked(n, s) && s !in PinNames(n) ==> GradeOf(n, s).differences == [])
      && (Looked(n, s) ==>
            (ScriptPasses(n, s) <==> GradeOf(n, s).differences == [] && ComparesClean(s, pin, tree, n.renames)))
  {
    var p := GradeAll(n, PinNames(n));
    LookedAt(n, s, p.dropPin, p.dropTree);
    TakenOut(n, PinNames(n), s);
    if Looked(n, s) {
      RestOfScript(n, s, p.dropPin, p.dropTree);
    }
  }

  /** The comparison is empty exactly when every script passes. */
  lemma EmptyMeansEveryScriptPasses(n: Input)
    ensures SplitComparison(n) == [] <==> forall name :: Looked(n, name) ==> ScriptPasses(n, name)
  {
    var names, p := PinNames(n), GradeAll(n, PinNames(n));
    var pin, tree := Without(n.pin, p.dropPin), Without(n.tree, p.dropTree);
    var all := ScriptNames(pin, tree, n.only);
    GradedAll(n, names);
    ScriptsAreClean(all, pin, tree, n.renames);
    if SplitComparison(n) == [] {
      forall s | Looked(n, s) ensures ScriptPasses(n, s) {
        ScriptInRun(n, s);
        var j :| 0 <= j < |all| && all[j] == s;
        if s in names {
          var i :| 0 <= i < |names| && names[i] == s;
        }
      }
    }
    if forall s :: Looked(n, s) ==> ScriptPasses(n, s) {
      forall i | 0 <= i < |names| ensures GradeOf(n, names[i]).differences == [] {
        ScriptInRun(n, names[i]);
      }
      forall i | 0 <= i < |all| ensures ComparesClean(all[i], pin, tree, n.renames) {
        ScriptInRun(n, all[i]);
      }
    }
  }

  lemma LookedAt(n: Input, s: Text, dropPin: map<Text, set<Text>>, dropTree: map<Text, set<Text>>)
    ensures s in PinNames(n) <==> (n.only == [] || s == n.only) && s in Contents(n.pin.scripts)
    ensures s in ScriptNames(Without(n.pin, dropPin), Without(n.tree, dropTree), n.only) <==> Looked(n, s)
  {
    SortKeepsKeys(Chosen(n.only, KeysOf(n.pin.scripts)));
    KeysAreKnown(n.pin.scripts);
    KeysAreKnown(Without(n.pin, dropPin).scripts);
    KeysAreKnown(Without(n.tree, dropTree).scripts);
    KeptScriptContents(n.pin.scripts, dropPin, s);
    KeptScriptContents(n.tree.scripts, dropTree, s);
  }

  /** Without splits the result is the ordinary comparison. */
  lemma NoSplitsIsComparison(n: Input)
    requires n.splits == []
    ensures SplitComparison(n) == Comparison(n.pin, n.tree, n.renames, n.only)
  {
    assert Sort(KeysOf(n.splits)) == [];
    NothingToGrade(n, PinNames(n));
    WithoutNothing(n.pin.scripts);
    WithoutNothing(n.tree.scripts);
  }

  lemma {:induction false} NothingToGrade(n: Input, names: seq<Text>)
    requires n.splits == []
    ensures GradeAll(n, names) == Progress([], map[], map[])
  {
    if names != [] {
      NothingToGrade(n, names[..|names| - 1]);
    }
  }

  lemma WithoutNothing(scripts: seq<Entry<Text, Script>>)
    ensures KeptScripts(scripts, map[]) == scripts
  {
  }
}
