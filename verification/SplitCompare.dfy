/** The split grading in front of the ordinary comparison. */
module SplitCompare {
  import opened Options
  import opened Collections
  import opened KeyOrder
  import opened OrderedMap
  import opened SuiteTitleMap
  import opened SplitMap

  // ---- Taking files out of a map --------------------------------------------------------------------

  function Kept<V>(files: seq<Entry<Text, V>>, drop: set<Text>): seq<Entry<Text, V>> {
    if files == [] then []
    else Kept(files[..|files| - 1], drop) + if files[|files| - 1].key in drop then [] else [files[|files| - 1]]
  }

  function Dropped(drop: map<Text, set<Text>>, name: Text): set<Text> {
    if name in drop then drop[name] else {}
  }

  function KeptScript(s: Entry<Text, Script>, drop: map<Text, set<Text>>): Entry<Text, Script> {
    if s.key in drop && s.value.files.Some? then Entry(s.key, Script(Some(Kept(s.value.files.value, drop[s.key])))) else s
  }

  function KeptScripts(scripts: seq<Entry<Text, Script>>, drop: map<Text, set<Text>>): (r: seq<Entry<Text, Script>>)
    ensures |r| == |scripts| && forall i :: 0 <= i < |r| ==> r[i] == KeptScript(scripts[i], drop)
  {
    if scripts == [] then []
    else KeptScripts(scripts[..|scripts| - 1], drop) + [KeptScript(scripts[|scripts| - 1], drop)]
  }

  function Without(m: SuiteMap, drop: map<Text, set<Text>>): SuiteMap {
    m.(scripts := KeptScripts(m.scripts, drop))
  }

  method KeepFiles(files: seq<Entry<Text, Text>>, drop: set<Text>) returns (r: seq<Entry<Text, Text>>)
    ensures r == Kept(files, drop)
  {
    r := [];
    for i := 0 to |files|
      invariant r == Kept(files[..i], drop)
    {
      assert files[..i + 1][..i] == files[..i];
      if files[i].key !in drop {
        r := r + [files[i]];
      }
    }
    assert files[..|files|] == files;
  }

  method WithoutFiles(m: SuiteMap, drop: map<Text, set<Text>>) returns (r: SuiteMap)
    ensures r == Without(m, drop)
  {
    var scripts: seq<Entry<Text, Script>> := [];
    for i := 0 to |m.scripts|
      invariant scripts == KeptScripts(m.scripts[..i], drop)
    {
      assert m.scripts[..i + 1][..i] == m.scripts[..i];
      var s := m.scripts[i];
      if s.key in drop && s.value.files.Some? {
        var files := KeepFiles(s.value.files.value, drop[s.key]);
        scripts := scripts + [Entry(s.key, Script(Some(files)))];
      } else {
        scripts := scripts + [s];
      }
    }
    assert m.scripts[..|m.scripts|] == m.scripts;
    r := m.(scripts := scripts);
  }

  // ---- The renamed pin ------------------------------------------------------------------------------

  /** Which pinned files stand under each new path. */
  function Origins(renames: Renames, v: View): map<Text, seq<Text>>
  {
    if v == [] then map[]
    else
      var last, front := v[|v| - 1].key, Origins(renames, v[..|v| - 1]);
      var path := NewPath(renames, last);
      front[path := (if path in front then front[path] else []) + [last]]
  }

  lemma {:induction false} OriginsAreMapped(renames: Renames, v: View)
    ensures Origins(renames, v).Keys == Mapped(renames, v).Keys
  {
    if v != [] {
      OriginsAreMapped(renames, v[..|v| - 1]);
    }
  }

  method RenamedView(before: View, renames: Renames)
    returns (mapped: map<Text, seq<Text>>, origin: map<Text, seq<Text>>)
    ensures mapped == Mapped(renames, before) && origin == Origins(renames, before)
  {
    mapped, origin := map[], map[];
    for i := 0 to |before|
      invariant mapped == Mapped(renames, before[..i]) && origin == Origins(renames, before[..i])
    {
      assert before[..i + 1][..i] == before[..i];
      var path := NewPath(renames, before[i].key);
      mapped := mapped[path := Retitled(renames, path, before[i].value)];
      origin := origin[path := (if path in origin then origin[path] else []) + [before[i].key]];
    }
    assert before[..|before|] == before;
  }

  // ---- Grading every split of a script --------------------------------------------------------------

  function PartsOf(splits: Splits, whole: Text): seq<Text> {
    if whole in Contents(splits) && Contents(splits)[whole].Paths? then Contents(splits)[whole].paths else []
  }

  /** What the splits make of one script: the findings and the files taken out of the pin and of the tree. */
  datatype Graded = Graded(differences: seq<Finding>, pinned: set<Text>, parts: set<Text>, any: bool)

  function GradeScript(script: Text, before: View, after: View, renames: Renames, splits: Splits, files: seq<Text>)
    : Graded
  {
    if files == [] then Graded([], {}, {}, false)
    else
      var front, whole := GradeScript(script, before, after, renames, splits, files[..|files| - 1]), files[|files| - 1];
      var mapped := Mapped(renames, before);
      if whole !in mapped then front
      else
        OriginsAreMapped(renames, before);
        var parts := PartsOf(splits, whole);
        Graded(front.differences + Grade(Context(script, whole, parts, after), mapped),
               front.pinned + SetOf(Origins(renames, before)[whole]), front.parts + SetOf(parts), true)
  }

  method GradeSplits(script: Text, before: View, after: View, renames: Renames, splits: Splits, files: seq<Text>)
    returns (g: Graded)
    ensures g == GradeScript(script, before, after, renames, splits, files)
  {
    var mapped, origin := RenamedView(before, renames);
    OriginsAreMapped(renames, before);
    g := Graded([], {}, {}, false);
    for i := 0 to |files|
      invariant g == GradeScript(script, before, after, renames, splits, files[..i])
    {
      assert files[..i + 1][..i] == files[..i];
      var whole := files[i];
      if whole in mapped {
        var parts := PartsOf(splits, whole);
        var found := GradeSplit(Context(script, whole, parts, after), mapped);
        g := Graded(g.differences + found, g.pinned + SetOf(origin[whole]), g.parts + SetOf(parts), true);
      }
    }
    assert files[..|files|] == files;
  }

  // ---- All scripts ------------------------------------------------------------------------------------

  datatype Input = Input(pin: SuiteMap, tree: SuiteMap, renames: Renames, splits: Splits, only: Text)

  datatype Progress = Progress(differences: seq<Finding>, dropPin: map<Text, set<Text>>, dropTree: map<Text, set<Text>>)

  /** What the splits make of a script that both sides collected. */
  function GradeOf(n: Input, name: Text): Graded {
    match (FilesOf(n.pin, name), FilesOf(n.tree, name))
    case (Some(before), Some(after)) => GradeScript(name, before, after, n.renames, n.splits, Sort(KeysOf(n.splits)))
    case _ => Graded([], {}, {}, false)
  }

  function Add(p: Progress, name: Text, g: Graded): Progress {
    if !g.any then p
    else Progress(p.differences + g.differences, p.dropPin[name := g.pinned], p.dropTree[name := g.parts])
  }

  function GradeAll(n: Input, names: seq<Text>): Progress {
    if names == [] then Progress([], map[], map[])
    else Add(GradeAll(n, names[..|names| - 1]), names[|names| - 1], GradeOf(n, names[|names| - 1]))
  }

  function PinNames(n: Input): seq<Text> {
    Sort(Chosen(n.only, KeysOf(n.pin.scripts)))
  }

  /** The findings of a run with a usable record. */
  function SplitComparison(n: Input): seq<Finding> {
    var p := GradeAll(n, PinNames(n));
    p.differences + Comparison(Without(n.pin, p.dropPin), Without(n.tree, p.dropTree), n.renames, n.only)
  }

  lemma {:induction false} NothingGraded(
    script: Text, before: View, after: View, renames: Renames, splits: Splits, files: seq<Text>)
    ensures !GradeScript(script, before, after, renames, splits, files).any ==>
      GradeScript(script, before, after, renames, splits, files) == Graded([], {}, {}, false)
  {
    if files != [] {
      NothingGraded(script, before, after, renames, splits, files[..|files| - 1]);
    }
  }

  method GradeScripts(n: Input) returns (p: Progress)
    ensures p == GradeAll(n, PinNames(n))
  {
    var names := PinNames(n);
    p := Progress([], map[], map[]);
    for i := 0 to |names|
      invariant p == GradeAll(n, names[..i])
    {
      assert names[..i + 1][..i] == names[..i];
      var before, after := FilesOf(n.pin, names[i]), FilesOf(n.tree, names[i]);
      if before.Some? && after.Some? {
        var g := GradeSplits(names[i], before.value, after.value, n.renames, n.splits, Sort(KeysOf(n.splits)));
        p := Add(p, names[i], g);
      }
    }
    assert names[..|names|] == names;
  }

  method CompareWithSplits(pin: SuiteMap, tree: SuiteMap, renames: Renames, record: Option<Splits>, only: Text)
    returns (differences: seq<Finding>)
    ensures record.Some? && Usable(record.value) ==>
      differences == SplitComparison(Input(pin, tree, renames, record.value, only))
    ensures !(record.Some? && Usable(record.value)) ==>
      differences != [] && forall i :: 0 <= i < |differences| ==> differences[i].kind == SplitRecord
  {
    var problems := ValidateSplits(record);
    if problems != [] {
      differences := [];
      for i := 0 to |problems|
        invariant |differences| == i && forall k :: 0 <= k < i ==> differences[k].kind == SplitRecord
      {
        differences := differences + [Finding(ALL, SplitRecord, [Named(problems[i])], [])];
      }
      return;
    }
    var n := Input(pin, tree, renames, record.value, only);
    var p := GradeScripts(n);
    var restPin := WithoutFiles(pin, p.dropPin);
    var restTree := WithoutFiles(tree, p.dropTree);
    var rest := Compare(restPin, restTree, renames, only);
    differences := p.differences + rest;
  }

  const ALL: Text := [0x2A]

  function Named(p: Problem): Text {
    match p
    case NotAnObject => []
    case BadParts(whole) => whole
    case NamedTwice(part) => part
    case PartIsSplit(part) => part
  }
}
