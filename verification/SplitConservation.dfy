/** The meaning of a passing script, stated over the pinned and the collected files themselves. */
module SplitConservation {
  import opened Options
  import opened Collections
  import opened KeyOrder
  import opened OrderedMap
  import opened SuiteTitleMap
  import opened SplitMap
  import opened SplitGrading
  import opened SplitCompare
  import opened SplitTheorems

  ghost predicate PathsDiffer(renames: Renames, v: View) {
    forall a, b :: a in Contents(v) && b in Contents(v) && NewPath(renames, a) == NewPath(renames, b) ==> a == b
  }

  /** One script: its pinned files and its collected ones. */
  datatype Case = Case(renames: Renames, splits: Splits, before: View, after: View)
  {
    /** The path a pinned file has just before the splits. */
    function Path(file: Text): Text {
      NewPath(renames, file)
    }

    ghost predicate IsPinned(file: Text) {
      file in Contents(before)
    }

    function Titles(file: Text): seq<Text>
      requires file in Contents(before)
    {
      Retitled(renames, Path(file), Contents(before)[file])
    }

    ghost predicate IsSplit(file: Text) {
      Path(file) in KeysOf(splits)
    }

    /** The path of a pinned file. */
    ghost predicate IsTaken(path: Text) {
      exists file :: IsPinned(file) && Path(file) == path
    }

    /** A collected file that some split pinned file was split into. */
    ghost predicate IsPart(path: Text) {
      exists file :: IsPinned(file) && IsSplit(file) && path in PartsOf(splits, Path(file))
    }

    /** A split file's parts collect its titles, each as often, and take no other pinned file's path. */
    ghost predicate Conserved(file: Text)
      requires IsPinned(file)
    {
      && multiset(Titles(file)) == multiset(Collected(after, PartsOf(splits, Path(file))))
      && forall p :: p in PartsOf(splits, Path(file)) && p != Path(file) ==> !IsTaken(p)
    }

    /** Any other pinned file is there under its new path with the same set of titles. */
    ghost predicate Carried(file: Text)
      requires IsPinned(file)
    {
      && Path(file) in Contents(after) && !IsPart(Path(file))
      && SameTitles(Titles(file), Contents(after)[Path(file)])
    }

    /** The path of a pinned file that is not split. */
    ghost predicate IsExpected(path: Text) {
      exists file :: IsPinned(file) && Path(file) == path && !IsSplit(file)
    }

    ghost predicate Conforms() {
      && (forall file :: IsPinned(file) && IsSplit(file) ==> Conserved(file))
      && (forall file :: IsPinned(file) && !IsSplit(file) ==> Carried(file))
      && forall path :: path in Contents(after) && !IsPart(path) ==> IsExpected(path)
    }

    /** No two pinned files are renamed to one path. */
    ghost predicate NoClash() {
      PathsDiffer(renames, before)
    }

    function Files(): seq<Text> {
      Sort(KeysOf(splits))
    }

    function Graded(script: Text): Graded {
      GradeScript(script, before, after, renames, splits, Files())
    }

    ghost predicate Passes(script: Text) {
      && Graded(script).differences == []
      && SameFiles(Mapped(renames, InOrder(Kept(before, Graded(script).pinned))),
                   Contents(Kept(after, Graded(script).parts)))
    }
  }

  // ---- Distinct files ---------------------------------------------------------------------------------

  lemma {:induction false} PickedKeys(v: View, keys: seq<Text>)
    requires forall k :: k in keys ==> k in Contents(v)
    ensures |Picked(v, keys)| == |keys| && forall i :: 0 <= i < |keys| ==> Picked(v, keys)[i].key == keys[i]
  {
    if keys != [] {
      PickedKeys(v, keys[..|keys| - 1]);
    }
  }

  lemma InOrderIsDistinct(v: View)
    ensures OrderedMap.Distinct(InOrder(v))
  {
    var keys := SortedSet(KeysOf(v));
    KeysAreKnown(v);
    PickedKeys(v, keys);
    forall i, j | 0 <= i < j < |keys| ensures keys[i] != keys[j] {
      LessIsStrict(keys[i], keys[j]);
    }
  }

  // ---- Without clashes, the renamed pin holds every file -------------------------------------------------

  lemma {:induction false} MappedByFile(renames: Renames, v: View, file: Text)
    requires OrderedMap.Distinct(v) && PathsDiffer(renames, v) && file in Contents(v)
    ensures NewPath(renames, file) in Mapped(renames, v)
    ensures Mapped(renames, v)[NewPath(renames, file)]
            == Retitled(renames, NewPath(renames, file), Contents(v)[file])
  {
    if v != [] {
      var front, last := v[..|v| - 1], v[|v| - 1];
      assert v == front + [last];
      DistinctAppend(front, last);
      KeysAreKnown(front);
      ContentsAppend(front, last);
      if file != last.key {
        MappedByFile(renames, front, file);
      }
    }
  }

  lemma {:induction false} MappedHasFile(renames: Renames, v: View, path: Text) returns (file: Text)
    requires path in Mapped(renames, v)
    ensures file in Contents(v) && NewPath(renames, file) == path
  {
    var front, last := v[..|v| - 1], v[|v| - 1];
    assert v == front + [last];
    ContentsAppend(front, last);
    if path == NewPath(renames, last.key) {
      file := last.key;
    } else {
      file := MappedHasFile(renames, front, path);
    }
  }

  // ---- What the grading of a script looks at -------------------------------------------------------------

  lemma {:induction false} OriginsAre(renames: Renames, v: View, path: Text, file: Text)
    ensures path in Origins(renames, v) && file in Origins(renames, v)[path]
            <==> file in Contents(v) && NewPath(renames, file) == path
  {
    if v != [] {
      var front, last := v[..|v| - 1], v[|v| - 1];
      assert v == front + [last];
      ContentsAppend(front, last);
      OriginsAre(renames, front, path, file);
    }
  }

  lemma {:induction false} PinnedTaken(
    script: Text, before: View, after: View, renames: Renames, splits: Splits, files: seq<Text>, file: Text)
    ensures file in GradeScript(script, before, after, renames, splits, files).pinned
            <==> file in Contents(before) && NewPath(renames, file) in files
  {
    if files != [] {
      var front, last := files[..|files| - 1], files[|files| - 1];
      PinnedTaken(script, before, after, renames, splits, front, file);
      OriginsAre(renames, before, last, file);
      OriginsAreMapped(renames, before);
      InFront(files, NewPath(renames, file));
    }
  }

  lemma {:induction false} PartsTaken(
    script: Text, before: View, after: View, renames: Renames, splits: Splits, files: seq<Text>, part: Text)
    ensures part in GradeScript(script, before, after, renames, splits, files).parts
            <==> exists i :: 0 <= i < |files| && files[i] in Mapped(renames, before) && part in PartsOf(splits, files[i])
  {
    if files != [] {
      var front, last := files[..|files| - 1], files[|files| - 1];
      PartsTaken(script, before, after, renames, splits, front, part);
      assert files == front + [last];
    }
  }

  ghost function SplitIsClean(
    script: Text, after: View, splits: Splits, mapped: map<Text, seq<Text>>): Text -> bool
  {
    (file: Text) => file in mapped ==> Grade(Context(script, file, PartsOf(splits, file), after), mapped) == []
  }

  lemma {:induction false} NoSplitFindings(
    script: Text, before: View, after: View, renames: Renames, splits: Splits, files: seq<Text>)
    ensures GradeScript(script, before, after, renames, splits, files).differences == []
            <==> All(files, SplitIsClean(script, after, splits, Mapped(renames, before)))
  {
    if files != [] {
      NoSplitFindings(script, before, after, renames, splits, files[..|files| - 1]);
    }
  }

  lemma SplitsGraded(script: Text, before: View, after: View, renames: Renames, splits: Splits, files: seq<Text>)
    ensures GradeScript(script, before, after, renames, splits, files).differences == [] <==>
              forall i :: 0 <= i < |files| && files[i] in Mapped(renames, before) ==>
                Grade(Context(script, files[i], PartsOf(splits, files[i]), after), Mapped(renames, before)) == []
  {
    NoSplitFindings(script, before, after, renames, splits, files);
    AllIsEach(files, SplitIsClean(script, after, splits, Mapped(renames, before)));
  }

  // ---- The meaning of passing ---------------------------------------------------------------------------

  lemma GradedMeansConserved(c: Case, script: Text)
    requires OrderedMap.Distinct(c.before) && c.NoClash()
    ensures c.Graded(script).differences == [] <==> forall f :: c.IsPinned(f) && c.IsSplit(f) ==> c.Conserved(f)
  {
    var mapped, files := Mapped(c.renames, c.before), c.Files();
    SplitsGraded(script, c.before, c.after, c.renames, c.splits, files);
    SortKeepsKeys(KeysOf(c.splits));
    forall f | c.IsPinned(f) && c.IsSplit(f)
      ensures c.Path(f) in files && c.Path(f) in mapped
      ensures c.Conserved(f)
              <==> Grade(Context(script, c.Path(f), PartsOf(c.splits, c.Path(f)), c.after), mapped) == []
    {
      ConservedExactly(c, script, f);
    }
    forall i | 0 <= i < |files| && files[i] in mapped
      ensures exists f :: c.IsPinned(f) && c.IsSplit(f) && c.Path(f) == files[i]
    {
      var f := MappedHasFile(c.renames, c.before, files[i]);
      assert c.IsPinned(f) && c.IsSplit(f);
    }
  }

  lemma ConservedExactly(c: Case, script: Text, file: Text)
    requires OrderedMap.Distinct(c.before) && c.NoClash() && c.IsPinned(file)
    ensures c.Path(file) in Mapped(c.renames, c.before)
    ensures c.Conserved(file) <==>
            Grade(Context(script, c.Path(file), PartsOf(c.splits, c.Path(file)), c.after), Mapped(c.renames, c.before)) == []
  {
    var mapped, parts := Mapped(c.renames, c.before), PartsOf(c.splits, c.Path(file));
    MappedByFile(c.renames, c.before, file);
    GradeIsEmptyExactly(Context(script, c.Path(file), parts, c.after), mapped);
    forall p ensures p in mapped <==> c.IsTaken(p) {
      TakenPaths(c, p);
    }
  }

  lemma TakenPaths(c: Case, path: Text)
    requires OrderedMap.Distinct(c.before) && c.NoClash()
    ensures path in Mapped(c.renames, c.before) <==> c.IsTaken(path)
  {
    if path in Mapped(c.renames, c.before) {
      var file := MappedHasFile(c.renames, c.before, path);
      assert c.IsPinned(file) && c.Path(file) == path;
    }
    if file :| c.IsPinned(file) && c.Path(file) == path {
      MappedByFile(c.renames, c.before, file);
    }
  }

  lemma PartsAre(c: Case, script: Text, path: Text)
    requires OrderedMap.Distinct(c.before) && c.NoClash()
    ensures path in c.Graded(script).parts <==> c.IsPart(path)
  {
    var files, mapped := c.Files(), Mapped(c.renames, c.before);
    PartsTaken(script, c.before, c.after, c.renames, c.splits, files, path);
    SortKeepsKeys(KeysOf(c.splits));
    if path in c.Graded(script).parts {
      var i :| 0 <= i < |files| && files[i] in mapped && path in PartsOf(c.splits, files[i]);
      var f := MappedHasFile(c.renames, c.before, files[i]);
      assert c.IsPinned(f) && c.IsSplit(f);
    }
    if f :| c.IsPinned(f) && c.IsSplit(f) && path in PartsOf(c.splits, c.Path(f)) {
      MappedByFile(c.renames, c.before, f);
      var i :| 0 <= i < |files| && files[i] == c.Path(f);
    }
  }

  /** What is left of the renamed pin: the files that are not split, under their new paths. */
  ghost predicate IsRest(c: Case, rest: map<Text, seq<Text>>) {
    && (forall f :: c.IsPinned(f) && !c.IsSplit(f) ==> c.Path(f) in rest && rest[c.Path(f)] == c.Titles(f))
    && forall p :: p in rest ==> c.IsExpected(p)
  }

  ghost predicate IsThere(c: Case, there: map<Text, seq<Text>>) {
    && (forall p :: p in there <==> p in Contents(c.after) && !c.IsPart(p))
    && forall p :: p in there ==> there[p] == Contents(c.after)[p]
  }

  /** What is left to the ordinary comparison. */
  lemma RestIs(c: Case, script: Text)
    requires OrderedMap.Distinct(c.before) && c.NoClash()
    ensures IsRest(c, Mapped(c.renames, InOrder(Kept(c.before, c.Graded(script).pinned))))
  {
    var pinned := c.Graded(script).pinned;
    var v := InOrder(Kept(c.before, pinned));
    var rest := Mapped(c.renames, v);
    KeptContents(c.before, pinned);
    InOrderContents(Kept(c.before, pinned));
    InOrderIsDistinct(Kept(c.before, pinned));
    SortKeepsKeys(KeysOf(c.splits));
    forall f ensures f in Contents(v) <==> c.IsPinned(f) && !c.IsSplit(f) {
      PinnedTaken(script, c.before, c.after, c.renames, c.splits, c.Files(), f);
    }
    forall f | c.IsPinned(f) && !c.IsSplit(f) ensures c.Path(f) in rest && rest[c.Path(f)] == c.Titles(f) {
      MappedByFile(c.renames, v, f);
    }
    forall p | p in rest ensures c.IsExpected(p) {
      var f := MappedHasFile(c.renames, v, p);
    }
  }

  lemma AlikeIsCarried(c: Case, rest: map<Text, seq<Text>>, there: map<Text, seq<Text>>)
    requires IsRest(c, rest) && IsThere(c, there) && SameFiles(rest, there)
    ensures forall f :: c.IsPinned(f) && !c.IsSplit(f) ==> c.Carried(f)
    ensures forall p :: p in Contents(c.after) && !c.IsPart(p) ==> c.IsExpected(p)
  {
    forall f | c.IsPinned(f) && !c.IsSplit(f) ensures c.Carried(f) {
      assert c.Path(f) in rest && c.Path(f) in there;
    }
    forall p | p in Contents(c.after) && !c.IsPart(p) ensures c.IsExpected(p) {
      assert p in there && p in rest;
    }
  }

  lemma CarriedIsAlike(c: Case, rest: map<Text, seq<Text>>, there: map<Text, seq<Text>>)
    requires IsRest(c, rest) && IsThere(c, there)
    requires forall f :: c.IsPinned(f) && !c.IsSplit(f) ==> c.Carried(f)
    requires forall p :: p in Contents(c.after) && !c.IsPart(p) ==> c.IsExpected(p)
    ensures SameFiles(rest, there)
  {
    forall p | p in rest || p in there ensures p in rest && p in there && SameTitles(rest[p], there[p]) {
      assert c.IsExpected(p);
      var f :| c.IsPinned(f) && c.Path(f) == p && !c.IsSplit(f);
      assert c.Carried(f);
    }
  }

  lemma RestMeansCarried(c: Case, script: Text)
    requires OrderedMap.Distinct(c.before) && c.NoClash()
    ensures
      var rest := Mapped(c.renames, InOrder(Kept(c.before, c.Graded(script).pinned)));
      SameFiles(rest, Contents(Kept(c.after, c.Graded(script).parts))) <==> (
        && (forall f :: c.IsPinned(f) && !c.IsSplit(f) ==> c.Carried(f))
        && forall p :: p in Contents(c.after) && !c.IsPart(p) ==> c.IsExpected(p))
  {
    var rest := Mapped(c.renames, InOrder(Kept(c.before, c.Graded(script).pinned)));
    var there := Contents(Kept(c.after, c.Graded(script).parts));
    RestIs(c, script);
    ThereIs(c, script);
    if SameFiles(rest, there) {
      AlikeIsCarried(c, rest, there);
    } else if (forall f :: c.IsPinned(f) && !c.IsSplit(f) ==> c.Carried(f))
              && forall p :: p in Contents(c.after) && !c.IsPart(p) ==> c.IsExpected(p) {
      CarriedIsAlike(c, rest, there);
    }
  }

  /** What the tree is left with: the collected files that are no part. */
  lemma ThereIs(c: Case, script: Text)
    requires OrderedMap.Distinct(c.before) && c.NoClash()
    ensures IsThere(c, Contents(Kept(c.after, c.Graded(script).parts)))
  {
    KeptContents(c.after, c.Graded(script).parts);
    forall p ensures p in Contents(Kept(c.after, c.Graded(script).parts)) <==> p in Contents(c.after) && !c.IsPart(p) {
      PartsAre(c, script, p);
    }
  }

  /** When no two pinned files are renamed to one path, a script passes exactly when every split conserves its
      titles as a multiset, every other file keeps its title set, and nothing else was collected. */
  lemma PassingMeansConforming(c: Case, script: Text)
    requires OrderedMap.Distinct(c.before) && c.NoClash()
    ensures c.Passes(script) <==> c.Conforms()
  {
    GradedMeansConserved(c, script);
    RestMeansCarried(c, script);
  }

  // ---- All scripts ----------------------------------------------------------------------------------------

  lemma FilesAreDistinct(m: SuiteMap, name: Text)
    requires ValidMap(m) && FilesOf(m, name).Some?
    ensures OrderedMap.Distinct(FilesOf(m, name).value)
  {
    HasKey(m.scripts, name);
    var i :| 0 <= i < |m.scripts| && m.scripts[i].key == name;
    HasEntry(m.scripts, i);
  }

  function CaseOf(n: Input, name: Text): Option<Case> {
    match (FilesOf(n.pin, name), FilesOf(n.tree, name))
    case (Some(before), Some(after)) => Some(Case(n.renames, n.splits, before, after))
    case _ => None
  }

  /** Both sides collected the script and it conforms, or neither did. */
  ghost predicate ScriptConforms(n: Input, name: Text) {
    match CaseOf(n, name)
    case Some(c) => c.Conforms()
    case None => FilesOf(n.pin, name).None? && FilesOf(n.tree, name).None?
  }

  ghost predicate NoClashes(n: Input) {
    forall name :: Looked(n, name) && CaseOf(n, name).Some? ==> CaseOf(n, name).value.NoClash()
  }

  /** The comparison with splits finds nothing exactly when every script conforms. */
  lemma EmptyMeansConserved(n: Input)
    requires ValidMap(n.pin) && NoClashes(n)
    ensures SplitComparison(n) == [] <==> forall name :: Looked(n, name) ==> ScriptConforms(n, name)
  {
    EmptyMeansEveryScriptPasses(n);
    forall name | Looked(n, name) ensures ScriptPasses(n, name) <==> ScriptConforms(n, name) {
      if CaseOf(n, name).Some? {
        FilesAreDistinct(n.pin, name);
        PassingMeansConforming(CaseOf(n, name).value, name);
      }
    }
  }
}
