/** Pinned files renamed to one path: only the last of them is read, and that is the one thing that can keep an
    empty result from meaning that no title was lost. */
module SplitClashes {
  import opened Options
  import opened KeyOrder
  import opened OrderedMap
  import opened SuiteTitleMap
  import opened SplitMap
  import opened SplitCompare
  import opened SplitTheorems
  import opened SplitConservation

  // ---- What is read of files that share a path --------------------------------------------------------

  /** No later file of the view has the same new path. */
  ghost predicate IsLastOfPath(renames: Renames, v: View, i: nat)
    requires i < |v|
  {
    forall j :: i < j < |v| ==> NewPath(renames, v[j].key) != NewPath(renames, v[i].key)
  }

  /** The renamed pin holds the last file of each path. */
  lemma {:induction false} LastOfPathIsHeld(renames: Renames, v: View, i: nat)
    requires i < |v| && IsLastOfPath(renames, v, i)
    ensures
      var path := NewPath(renames, v[i].key);
      path in Mapped(renames, v) && Mapped(renames, v)[path] == Retitled(renames, path, v[i].value)
    decreases |v|
  {
    var front, last := v[..|v| - 1], |v| - 1;
    if i < last {
      assert NewPath(renames, v[last].key) != NewPath(renames, v[i].key);
      LastOfPathIsHeld(renames, front, i);
    }
  }

  lemma {:induction false} PathHasLast(renames: Renames, v: View, path: Text) returns (i: nat)
    requires path in Mapped(renames, v)
    ensures i < |v| && NewPath(renames, v[i].key) == path && IsLastOfPath(renames, v, i)
  {
    var front, last := v[..|v| - 1], |v| - 1;
    if NewPath(renames, v[last].key) == path {
      i := last;
    } else {
      i := PathHasLast(renames, front, path);
    }
  }

  /** Two views of the same files whose titles differ at most in files that a later one hides. */
  ghost predicate SameLastFiles(renames: Renames, v: View, w: View) {
    && KeysOf(v) == KeysOf(w)
    && forall i :: 0 <= i < |v| && i < |w| && IsLastOfPath(renames, v, i) ==> v[i].value == w[i].value
  }

  lemma SameKeys(v: View, w: View)
    requires KeysOf(v) == KeysOf(w)
    ensures |v| == |w| && forall i :: 0 <= i < |v| ==> v[i].key == w[i].key
  {
    assert |KeysOf(v)| == |KeysOf(w)|;
    forall i | 0 <= i < |v| ensures v[i].key == w[i].key {
      assert KeysOf(v)[i] == KeysOf(w)[i];
    }
  }

  lemma HeldAlike(renames: Renames, v: View, w: View, path: Text)
    requires SameLastFiles(renames, v, w) && path in Mapped(renames, v)
    ensures path in Mapped(renames, w) && Mapped(renames, w)[path] == Mapped(renames, v)[path]
  {
    var i := PathHasLast(renames, v, path);
    SameKeys(v, w);
    LastOfPathIsHeld(renames, v, i);
    LastOfPathIsHeld(renames, w, i);
  }

  /** Only the last file of each path, in the order read, decides the renamed pin. */
  lemma OnlyLastFilesDecide(renames: Renames, v: View, w: View)
    requires SameLastFiles(renames, v, w)
    ensures Mapped(renames, v) == Mapped(renames, w)
  {
    SameKeys(v, w);
    forall path | path in Mapped(renames, v)
      ensures path in Mapped(renames, w) && Mapped(renames, w)[path] == Mapped(renames, v)[path]
    {
      HeldAlike(renames, v, w, path);
    }
    forall path | path in Mapped(renames, w) ensures path in Mapped(renames, v) {
      HeldAlike(renames, w, v, path);
    }
  }

  lemma {:induction false} KeysGivePaths(renames: Renames, v: View, w: View)
    requires KeysOf(v) == KeysOf(w)
    ensures NewPaths(renames, v) == NewPaths(renames, w) && Origins(renames, v) == Origins(renames, w)
  {
    SameKeys(v, w);
    if v != [] {
      KeysGivePaths(renames, v[..|v| - 1], w[..|w| - 1]);
    }
  }

  /** Titles of a hidden file reach no finding of the ordinary comparison, which reads in path order. */
  lemma HiddenTitlesAreNotCompared(script: Text, before: View, changed: View, after: Option<View>, renames: Renames)
    requires SameLastFiles(renames, InOrder(before), InOrder(changed))
    ensures ScriptFindings(script, Some(InOrder(before)), after, renames)
            == ScriptFindings(script, Some(InOrder(changed)), after, renames)
  {
    OnlyLastFilesDecide(renames, InOrder(before), InOrder(changed));
    KeysGivePaths(renames, InOrder(before), InOrder(changed));
  }

  /** Nor any finding of a split, which reads in the order listed. */
  lemma {:induction false} HiddenTitlesAreNotGraded(
    script: Text, before: View, changed: View, after: View, renames: Renames, splits: Splits, files: seq<Text>)
    requires SameLastFiles(renames, before, changed)
    ensures GradeScript(script, before, after, renames, splits, files)
            == GradeScript(script, changed, after, renames, splits, files)
  {
    OnlyLastFilesDecide(renames, before, changed);
    KeysGivePaths(renames, before, changed);
    if files != [] {
      HiddenTitlesAreNotGraded(script, before, changed, after, renames, splits, files[..|files| - 1]);
    }
  }

  // ---- A clash lets a title be lost -------------------------------------------------------------------

  ghost predicate PathsApart(renames: Renames, names: seq<Text>) {
    forall a, b :: a in names && b in names && NewPath(renames, a) == NewPath(renames, b) ==> a == b
  }

  function Titled(name: Text, lost: Text): Entry<Text, seq<Text>> {
    Entry(name, if name == lost then [[]] else [])
  }

  /** Files of which only `lost` has a title. */
  function OneTitle(names: seq<Text>, lost: Text): (v: View)
    ensures |v| == |names| && forall i :: 0 <= i < |v| ==> v[i] == Titled(names[i], lost)
  {
    if names == [] then [] else OneTitle(names[..|names| - 1], lost) + [Titled(names[|names| - 1], lost)]
  }

  lemma OneTitleKeys(names: seq<Text>, lost: Text)
    ensures KeysOf(OneTitle(names, lost)) == names
  {
  }

  function NoTitles(paths: seq<Text>): (v: View)
    ensures |v| == |paths| && KeysOf(v) == paths && forall i :: 0 <= i < |v| ==> v[i] == Entry(paths[i], [])
  {
    if paths == [] then [] else NoTitles(paths[..|paths| - 1]) + [Entry(paths[|paths| - 1], [])]
  }

  /** The collected files carry the new paths and no title at all. */
  function LossCase(renames: Renames, names: seq<Text>, lost: Text): Case {
    var before := OneTitle(names, lost);
    Case(renames, [], before, NoTitles(SortedSet(NewPaths(renames, before))))
  }

  lemma DistinctEntries<V>(v: seq<Entry<Text, V>>)
    ensures OrderedMap.Distinct(v) <==> KeyOrder.Distinct(KeysOf(v))
  {
    assert forall i :: 0 <= i < |v| ==> KeysOf(v)[i] == v[i].key;
  }

  lemma AscendingIsDistinct(keys: seq<Text>)
    requires Ascending(keys)
    ensures KeyOrder.Distinct(keys)
  {
    forall i, j | 0 <= i < j < |keys| ensures keys[i] != keys[j] {
      LessIsStrict(keys[i], keys[j]);
    }
  }

  lemma ContentsOf<V>(v: seq<Entry<Text, V>>, i: nat)
    requires KeyOrder.Distinct(KeysOf(v)) && i < |v|
    ensures v[i].key in Contents(v) && Contents(v)[v[i].key] == v[i].value
  {
    DistinctEntries(v);
    HasEntry(v, i);
  }

  /** In path order the lesser of two files with one path is not the last of it. */
  lemma LesserIsHidden(renames: Renames, v: View, x: Text, y: Text, i: nat)
    requires x in Contents(v) && y in Contents(v) && Less(x, y) && NewPath(renames, x) == NewPath(renames, y)
    requires i < |InOrder(v)| && IsLastOfPath(renames, InOrder(v), i)
    ensures InOrder(v)[i].key != x
  {
    if InOrder(v)[i].key == x {
      var j := PlaceInOrder(v, y);
      EarlierInOrder(v, i, j);
    }
  }

  lemma PlaceInOrder(v: View, y: Text) returns (j: nat)
    requires y in Contents(v)
    ensures j < |InOrder(v)| && InOrder(v)[j].key == y
  {
    var keys := SortedSet(KeysOf(v));
    KeysAreKnown(v);
    PickedKeys(v, keys);
    j :| 0 <= j < |keys| && keys[j] == y;
  }

  lemma EarlierInOrder(v: View, i: nat, j: nat)
    requires i < |InOrder(v)| && j < |InOrder(v)| && Less(InOrder(v)[i].key, InOrder(v)[j].key)
    ensures i < j
  {
    var keys := SortedSet(KeysOf(v));
    KeysAreKnown(v);
    PickedKeys(v, keys);
    LessIsStrict(keys[i], keys[j]);
  }

  lemma TitlesAt(names: seq<Text>, lost: Text, name: Text)
    requires KeyOrder.Distinct(names) && name in names
    ensures name in Contents(OneTitle(names, lost))
    ensures Contents(OneTitle(names, lost))[name] == if name == lost then [[]] else []
  {
    var k :| 0 <= k < |names| && names[k] == name;
    OneTitleKeys(names, lost);
    ContentsOf(OneTitle(names, lost), k);
  }

  /** Hence nothing with a title is held. */
  lemma NothingIsHeld(renames: Renames, names: seq<Text>, x: Text, y: Text, path: Text)
    requires KeyOrder.Distinct(names) && x in names && y in names
    requires Less(x, y) && NewPath(renames, x) == NewPath(renames, y)
    requires path in Mapped(renames, InOrder(OneTitle(names, x)))
    ensures Mapped(renames, InOrder(OneTitle(names, x)))[path] == []
  {
    var v := OneTitle(names, x);
    OneTitleKeys(names, x);
    TitlesAt(names, x, x);
    TitlesAt(names, x, y);
    var i := PathHasLast(renames, InOrder(v), path);
    LesserIsHidden(renames, v, x, y, i);
    InOrderEntry(v, i);
    KeysAreKnown(v);
    TitlesAt(names, x, InOrder(v)[i].key);
    HeldWithoutTitles(renames, InOrder(v), i);
  }

  lemma HeldWithoutTitles(renames: Renames, v: View, i: nat)
    requires i < |v| && IsLastOfPath(renames, v, i) && v[i].value == []
    ensures
      var path := NewPath(renames, v[i].key);
      path in Mapped(renames, v) && Mapped(renames, v)[path] == []
  {
    LastOfPathIsHeld(renames, v, i);
  }

  lemma InOrderEntry(v: View, i: nat)
    requires i < |InOrder(v)|
    ensures InOrder(v)[i].key in Contents(v) && InOrder(v)[i].value == Contents(v)[InOrder(v)[i].key]
  {
    InOrderIsDistinct(v);
    HasEntry(InOrder(v), i);
    InOrderContents(v);
  }

  /** A clash has a pin that loses a title and passes all the same. */
  lemma ClashLosesTitle(renames: Renames, names: seq<Text>, x: Text, y: Text, script: Text)
    requires KeyOrder.Distinct(names) && x in names && y in names
    requires Less(x, y) && NewPath(renames, x) == NewPath(renames, y)
    ensures LossCase(renames, names, x).Passes(script) && !LossCase(renames, names, x).Conforms()
  {
    LossPasses(renames, names, x, y, script);
    TitleIsLost(renames, names, x);
  }

  lemma NoSplitsNoFindings(c: Case, script: Text)
    requires c.splits == []
    ensures c.Graded(script) == Graded([], {}, {}, false)
  {
    assert c.Files() == [];
  }

  lemma LossPasses(renames: Renames, names: seq<Text>, x: Text, y: Text, script: Text)
    requires KeyOrder.Distinct(names) && x in names && y in names
    requires Less(x, y) && NewPath(renames, x) == NewPath(renames, y)
    ensures LossCase(renames, names, x).Passes(script)
  {
    var c := LossCase(renames, names, x);
    NoSplitsNoFindings(c, script);
    KeptNone(c.before);
    KeptNone(c.after);
    HeldIsCollected(renames, names, x, y);
  }

  lemma HeldIsCollected(renames: Renames, names: seq<Text>, x: Text, y: Text)
    requires KeyOrder.Distinct(names) && x in names && y in names
    requires Less(x, y) && NewPath(renames, x) == NewPath(renames, y)
    ensures
      var v := OneTitle(names, x);
      SameFiles(Mapped(renames, InOrder(v)), Contents(NoTitles(SortedSet(NewPaths(renames, v)))))
  {
    var v := OneTitle(names, x);
    var paths := SortedSet(NewPaths(renames, v));
    var mapped, there := Mapped(renames, InOrder(v)), Contents(NoTitles(paths));
    forall path ensures path in mapped <==> path in there {
      PathsInOrder(renames, v, path);
      KeysAreKnown(NoTitles(paths));
    }
    forall path | path in mapped && path in there ensures SameTitles(mapped[path], there[path]) {
      NothingIsHeld(renames, names, x, y, path);
      KeysAreKnown(NoTitles(paths));
      NoTitleThere(paths, path);
    }
  }

  lemma NoTitleThere(paths: seq<Text>, path: Text)
    requires Ascending(paths) && path in paths
    ensures path in Contents(NoTitles(paths)) && Contents(NoTitles(paths))[path] == []
  {
    AscendingIsDistinct(paths);
    var i :| 0 <= i < |paths| && paths[i] == path;
    ContentsOf(NoTitles(paths), i);
  }

  /** Path order keeps the set of new paths. */
  lemma PathsInOrder(renames: Renames, v: View, path: Text)
    ensures path in Mapped(renames, InOrder(v)) <==> path in NewPaths(renames, v)
  {
    InOrderContents(v);
    MappedPaths(renames, v);
    if path in Mapped(renames, InOrder(v)) {
      var f := MappedHasFile(renames, InOrder(v), path);
      PathOfFile(renames, v, f);
    }
    if path in Mapped(renames, v) {
      var f := MappedHasFile(renames, v, path);
      PathOfFile(renames, InOrder(v), f);
    }
  }

  lemma PathOfFile(renames: Renames, v: View, file: Text)
    requires file in Contents(v)
    ensures NewPath(renames, file) in Mapped(renames, v)
  {
    HasKey(v, file);
    var i :| 0 <= i < |v| && v[i].key == file;
    PathAt(renames, v, i);
  }

  lemma {:induction false} PathAt(renames: Renames, v: View, i: nat)
    requires i < |v|
    ensures NewPath(renames, v[i].key) in Mapped(renames, v)
  {
    if i < |v| - 1 {
      PathAt(renames, v[..|v| - 1], i);
    }
  }

  lemma TitleIsLost(renames: Renames, names: seq<Text>, x: Text)
    requires KeyOrder.Distinct(names) && x in names
    ensures !LossCase(renames, names, x).Conforms()
  {
    var c := LossCase(renames, names, x);
    TitlesAt(names, x, x);
    assert c.IsPinned(x) && !c.IsSplit(x) && |c.Titles(x)| == 1;
    assert c.Titles(x)[0] in c.Titles(x);
    if c.Carried(x) {
      KeysAreKnown(c.after);
      NoTitleThere(SortedSet(NewPaths(renames, c.before)), c.Path(x));
    }
  }

  // ---- Exactly when passing means conforming ------------------------------------------------------------

  /** Whatever the pinned files hold, however they are split and whatever was collected. */
  ghost predicate PassingDecides(renames: Renames, names: seq<Text>) {
    forall c: Case, script: Text :: c.renames == renames && KeysOf(c.before) == names ==>
      (c.Passes(script) <==> c.Conforms())
  }

  /** For given pinned files and renames, passing means that no title is lost exactly when no two of the files are
      renamed to one path. */
  lemma PassingDecidesExactly(renames: Renames, names: seq<Text>)
    requires KeyOrder.Distinct(names)
    ensures PassingDecides(renames, names) <==> PathsApart(renames, names)
  {
    if PathsApart(renames, names) {
      forall c: Case, script: Text | c.renames == renames && KeysOf(c.before) == names
        ensures c.Passes(script) <==> c.Conforms()
      {
        DistinctEntries(c.before);
        KeysAreKnown(c.before);
        PassingMeansConforming(c, script);
      }
    } else {
      var x, y := ClashOf(renames, names);
      ClashLosesTitle(renames, names, x, y, []);
      var c := LossCase(renames, names, x);
      OneTitleKeys(names, x);
      assert c.renames == renames && KeysOf(c.before) == names && c.Passes([]);
    }
  }

  lemma ClashOf(renames: Renames, names: seq<Text>) returns (x: Text, y: Text)
    requires !PathsApart(renames, names)
    ensures x in names && y in names && Less(x, y) && NewPath(renames, x) == NewPath(renames, y)
  {
    x, y :| x in names && y in names && NewPath(renames, x) == NewPath(renames, y) && x != y;
    LessIsTotal(x, y);
    if !Less(x, y) {
      x, y := y, x;
    }
  }

  // ---- The same over whole runs ---------------------------------------------------------------------------

  /** Every script that the pin collected has exactly these files. */
  ghost predicate PinsFiles(n: Input, names: seq<Text>) {
    && ValidMap(n.pin)
    && forall script: Text :: FilesOf(n.pin, script).Some? ==> KeysOf(FilesOf(n.pin, script).value) == names
  }

  ghost predicate EmptyDecides(n: Input) {
    SplitComparison(n) == [] <==> forall script: Text :: Looked(n, script) ==> ScriptConforms(n, script)
  }

  ghost predicate RunsDecide(renames: Renames, names: seq<Text>) {
    forall n: Input :: n.renames == renames && PinsFiles(n, names) ==> EmptyDecides(n)
  }

  const TITLED: Text := [0]
  const SCRIPT: Text := [0]

  function Keyed(name: Text, lost: Text): Entry<Text, Text> {
    Entry(name, if name == lost then TITLED else [])
  }

  /** The same files as a map holds them: the titled one by the key of its title list. */
  function Filed(names: seq<Text>, lost: Text): (files: seq<Entry<Text, Text>>)
    ensures |files| == |names| && forall i :: 0 <= i < |files| ==> files[i] == Keyed(names[i], lost)
  {
    if names == [] then [] else Filed(names[..|names| - 1], lost) + [Keyed(names[|names| - 1], lost)]
  }

  lemma FiledKeys(names: seq<Text>, lost: Text)
    ensures KeysOf(Filed(names, lost)) == names
  {
  }

  function MapOf(titleSets: map<Text, seq<Text>>, files: seq<Entry<Text, Text>>): SuiteMap {
    SuiteMap(titleSets, [Entry(SCRIPT, Script(Some(files)))])
  }

  lemma FilesOfMap(titleSets: map<Text, seq<Text>>, files: seq<Entry<Text, Text>>, script: Text)
    ensures FilesOf(MapOf(titleSets, files), script)
            == if script == SCRIPT then Some(Listed(MapOf(titleSets, files), files)) else None
    ensures script in Contents(MapOf(titleSets, files).scripts) <==> script == SCRIPT
  {
    var e := Entry(SCRIPT, Script(Some(files)));
    assert Contents([e][1..]) == map[];
  }

  /** A run of one script that pins these files and loses a title. */
  function LossRun(renames: Renames, names: seq<Text>, lost: Text): Input {
    var paths := SortedSet(NewPaths(renames, OneTitle(names, lost)));
    Input(MapOf(map[TITLED := [[]]], Filed(names, lost)), MapOf(map[], Filed(paths, [])), renames, [], [])
  }

  lemma {:induction false} ListedTitles(m: SuiteMap, names: seq<Text>, lost: Text)
    requires m.titleSets == map[TITLED := [[]]]
    ensures Listed(m, Filed(names, lost)) == OneTitle(names, lost)
  {
    if names != [] {
      ListedTitles(m, names[..|names| - 1], lost);
      assert Filed(names, lost)[..|names| - 1] == Filed(names[..|names| - 1], lost);
    }
  }

  lemma {:induction false} ListedNothing(m: SuiteMap, paths: seq<Text>)
    requires m.titleSets == map[]
    ensures Listed(m, Filed(paths, [])) == NoTitles(paths)
  {
    if paths != [] {
      ListedNothing(m, paths[..|paths| - 1]);
      assert Filed(paths, [])[..|paths| - 1] == Filed(paths[..|paths| - 1], []);
    }
  }

  lemma LossRunFiles(renames: Renames, names: seq<Text>, lost: Text, script: Text)
    ensures
      var n, c := LossRun(renames, names, lost), LossCase(renames, names, lost);
      && FilesOf(n.pin, script) == (if script == SCRIPT then Some(c.before) else None)
      && FilesOf(n.tree, script) == (if script == SCRIPT then Some(c.after) else None)
      && (Looked(n, script) <==> script == SCRIPT)
  {
    var n, paths := LossRun(renames, names, lost), SortedSet(NewPaths(renames, OneTitle(names, lost)));
    ListedTitles(n.pin, names, lost);
    ListedNothing(n.tree, paths);
    FilesOfMap(map[TITLED := [[]]], Filed(names, lost), script);
    FilesOfMap(map[], Filed(paths, []), script);
  }

  lemma LossRunPins(renames: Renames, names: seq<Text>, lost: Text)
    requires KeyOrder.Distinct(names)
    ensures PinsFiles(LossRun(renames, names, lost), names)
  {
    var n := LossRun(renames, names, lost);
    FiledKeys(names, lost);
    OneScriptIsValid(map[TITLED := [[]]], Filed(names, lost));
    forall script: Text | FilesOf(n.pin, script).Some? ensures KeysOf(FilesOf(n.pin, script).value) == names {
      LossRunFiles(renames, names, lost, script);
      OneTitleKeys(names, lost);
    }
  }

  lemma OneScriptIsValid(titleSets: map<Text, seq<Text>>, files: seq<Entry<Text, Text>>)
    requires KeyOrder.Distinct(KeysOf(files))
    ensures ValidMap(MapOf(titleSets, files))
  {
    DistinctEntries(files);
  }

  lemma LossRunIsItsCase(renames: Renames, names: seq<Text>, lost: Text)
    ensures
      var n, c := LossRun(renames, names, lost), LossCase(renames, names, lost);
      CaseOf(n, SCRIPT) == Some(c) && (ScriptPasses(n, SCRIPT) <==> c.Passes(SCRIPT))
  {
    LossRunFiles(renames, names, lost, SCRIPT);
  }

  lemma LossRunIsEmpty(renames: Renames, names: seq<Text>, x: Text, y: Text)
    requires KeyOrder.Distinct(names) && x in names && y in names
    requires Less(x, y) && NewPath(renames, x) == NewPath(renames, y)
    ensures !EmptyDecides(LossRun(renames, names, x))
  {
    var n := LossRun(renames, names, x);
    LossRunIsItsCase(renames, names, x);
    ClashLosesTitle(renames, names, x, y, SCRIPT);
    EmptyMeansEveryScriptPasses(n);
    forall script | Looked(n, script) ensures ScriptPasses(n, script) {
      LossRunFiles(renames, names, x, script);
    }
    LossRunFiles(renames, names, x, SCRIPT);
    assert Looked(n, SCRIPT) && !ScriptConforms(n, SCRIPT);
  }

  lemma ApartHasNoClashes(n: Input, names: seq<Text>)
    requires PinsFiles(n, names) && PathsApart(n.renames, names)
    ensures NoClashes(n)
  {
    forall script | CaseOf(n, script).Some? ensures CaseOf(n, script).value.NoClash() {
      KeysAreKnown(CaseOf(n, script).value.before);
    }
  }

  /** For given pinned files and renames, an empty result means over all runs that no title was lost exactly when no
      two of the files are renamed to one path. */
  lemma RunsDecideExactly(renames: Renames, names: seq<Text>)
    requires KeyOrder.Distinct(names)
    ensures RunsDecide(renames, names) <==> PathsApart(renames, names)
  {
    if PathsApart(renames, names) {
      forall n: Input | n.renames == renames && PinsFiles(n, names) ensures EmptyDecides(n) {
        ApartHasNoClashes(n, names);
        EmptyMeansConserved(n);
      }
    } else {
      var x, y := ClashOf(renames, names);
      LossRunPins(renames, names, x);
      LossRunIsEmpty(renames, names, x, y);
    }
  }
}
