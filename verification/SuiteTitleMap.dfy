/** Pinned test titles against collected ones, file by file. */
module SuiteTitleMap {
  import opened Options
  import opened KeyOrder
  import opened OrderedMap

  /** A script's files with the key of each file's title list, or nothing when it did not collect any. */
  datatype Script = Script(files: Option<seq<Entry<Text, Text>>>)
  datatype SuiteMap = SuiteMap(titleSets: map<Text, seq<Text>>, scripts: seq<Entry<Text, Script>>)

  /** Files with their titles. */
  type View = seq<Entry<Text, seq<Text>>>

  /** Declared path and title renames; the flat form has no title renames. */
  datatype Renames = Renames(paths: map<Text, Text>, titles: map<Text, map<Text, Text>>)

  datatype Kind =
    | TitleDropped | TitleMoved | TitleAdded | TitleDuplicated
    | FileAdded | FileDropped | ScriptAdded | ScriptRemoved | PartCollides | SplitRecord
  datatype Finding = Finding(script: Text, kind: Kind, files: seq<Text>, title: Text)

  /** An object has each of its keys once. */
  ghost predicate ValidMap(m: SuiteMap) {
    && OrderedMap.Distinct(m.scripts)
    && forall i :: 0 <= i < |m.scripts| && m.scripts[i].value.files.Some? ==>
        OrderedMap.Distinct(m.scripts[i].value.files.value)
  }

  /** A list of titles, empty when its key is unknown. */
  function TitlesOf(m: SuiteMap, key: Text): seq<Text> {
    if key in m.titleSets then m.titleSets[key] else []
  }

  function Listed(m: SuiteMap, files: seq<Entry<Text, Text>>): (v: View)
    ensures |v| == |files|
    ensures forall i :: 0 <= i < |v| ==> v[i] == Entry(files[i].key, TitlesOf(m, files[i].value))
  {
    if files == [] then []
    else
      var last := files[|files| - 1];
      Listed(m, files[..|files| - 1]) + [Entry(last.key, TitlesOf(m, last.value))]
  }

  /** The files of a script, or none when the map did not collect it. */
  function FilesOf(m: SuiteMap, name: Text): Option<View> {
    if name in Contents(m.scripts) && Contents(m.scripts)[name].files.Some?
    then Some(Listed(m, Contents(m.scripts)[name].files.value))
    else None
  }

  function Picked(v: View, keys: seq<Text>): View
    requires forall k :: k in keys ==> k in Contents(v)
  {
    if keys == [] then []
    else
      var last := keys[|keys| - 1];
      Picked(v, keys[..|keys| - 1]) + [Entry(last, Contents(v)[last])]
  }

  lemma KeysAreKnown<V>(entries: seq<Entry<Text, V>>)
    ensures forall k :: k in KeysOf(entries) <==> k in Contents(entries)
  {
    forall k ensures k in KeysOf(entries) <==> k in Contents(entries) {
      HasKey(entries, k);
      if i :| 0 <= i < |entries| && entries[i].key == k {
        assert KeysOf(entries)[i] == k;
      }
    }
  }

  /** The same files in path order. */
  function InOrder(v: View): View {
    KeysAreKnown(v);
    Picked(v, SortedSet(KeysOf(v)))
  }

  /** The files of a script in path order. */
  function Expand(m: SuiteMap, name: Text): Option<View> {
    match FilesOf(m, name)
    case None => None
    case Some(v) => Some(InOrder(v))
  }

  // ---- Renames ------------------------------------------------------------------------------------

  /** An empty new path or title counts as none. */
  function OrElse(m: map<Text, Text>, key: Text): Text {
    if key in m && m[key] != [] then m[key] else key
  }

  function NewPath(renames: Renames, path: Text): Text {
    OrElse(renames.paths, path)
  }

  function Retitled(renames: Renames, path: Text, titles: seq<Text>): (r: seq<Text>)
    ensures |r| == |titles|
  {
    if titles == [] then []
    else
      var table := if path in renames.titles then renames.titles[path] else map[];
      Retitled(renames, path, titles[..|titles| - 1]) + [OrElse(table, titles[|titles| - 1])]
  }

  /** What the pin says under the new names. Of two files renamed to one path the later one stays. */
  function Mapped(renames: Renames, v: View): map<Text, seq<Text>> {
    if v == [] then map[]
    else
      var last := v[|v| - 1];
      var path := NewPath(renames, last.key);
      Mapped(renames, v[..|v| - 1])[path := Retitled(renames, path, last.value)]
  }

  // ---- What is reported -----------------------------------------------------------------------------

  /** One finding for every title that the other list lacks. */
  function Lacking(script: Text, kind: Kind, path: Text, titles: seq<Text>, other: seq<Text>): seq<Finding> {
    if titles == [] then []
    else
      var title := titles[|titles| - 1];
      Lacking(script, kind, path, titles[..|titles| - 1], other)
      + if title in other then [] else [Finding(script, kind, [path], title)]
  }

  function FileFindings(script: Text, path: Text, mapped: map<Text, seq<Text>>, after: map<Text, seq<Text>>)
    : seq<Finding>
  {
    if path !in mapped then [Finding(script, FileAdded, [path], [])]
    else if path !in after then [Finding(script, FileDropped, [path], [])]
    else
      Lacking(script, TitleDropped, path, mapped[path], after[path])
      + Lacking(script, TitleAdded, path, after[path], mapped[path])
  }

  function FilesFindings(script: Text, paths: seq<Text>, mapped: map<Text, seq<Text>>, after: map<Text, seq<Text>>)
    : seq<Finding>
  {
    if paths == [] then []
    else
      FilesFindings(script, paths[..|paths| - 1], mapped, after)
      + FileFindings(script, paths[|paths| - 1], mapped, after)
  }

  function NewPaths(renames: Renames, v: View): seq<Text> {
    if v == [] then [] else NewPaths(renames, v[..|v| - 1]) + [NewPath(renames, v[|v| - 1].key)]
  }

  function ScriptFindings(script: Text, before: Option<View>, after: Option<View>, renames: Renames): seq<Finding> {
    if before.None? && after.None? then []
    else if after.None? then [Finding(script, ScriptRemoved, [], [])]
    else if before.None? then [Finding(script, ScriptAdded, [], [])]
    else
      FilesFindings(script, SortedSet(NewPaths(renames, before.value) + KeysOf(after.value)),
                    Mapped(renames, before.value), Contents(after.value))
  }

  /** A run can be narrowed to one script; the empty name means all. */
  function Chosen(only: Text, names: seq<Text>): (r: seq<Text>)
    ensures forall k :: k in r <==> k in names && (only == [] || k == only)
  {
    if names == [] then []
    else
      var last := names[|names| - 1];
      assert names == names[..|names| - 1] + [last];
      Chosen(only, names[..|names| - 1]) + if only == [] || last == only then [last] else []
  }

  function ScriptNames(pin: SuiteMap, tree: SuiteMap, only: Text): seq<Text> {
    SortedSet(Chosen(only, KeysOf(pin.scripts) + KeysOf(tree.scripts)))
  }

  function ScriptsFindings(names: seq<Text>, pin: SuiteMap, tree: SuiteMap, renames: Renames): seq<Finding> {
    if names == [] then []
    else
      var last := names[|names| - 1];
      ScriptsFindings(names[..|names| - 1], pin, tree, renames)
      + ScriptFindings(last, Expand(pin, last), Expand(tree, last), renames)
  }

  function Comparison(pin: SuiteMap, tree: SuiteMap, renames: Renames, only: Text): seq<Finding> {
    ScriptsFindings(ScriptNames(pin, tree, only), pin, tree, renames)
  }

  // ---- The loops ------------------------------------------------------------------------------------

  method ReportLacking(script: Text, kind: Kind, path: Text, titles: seq<Text>, other: seq<Text>)
    returns (r: seq<Finding>)
    ensures r == Lacking(script, kind, path, titles, other)
  {
    r := [];
    for i := 0 to |titles|
      invariant r == Lacking(script, kind, path, titles[..i], other)
    {
      assert titles[..i + 1][..i] == titles[..i];
      if titles[i] !in other {
        r := r + [Finding(script, kind, [path], titles[i])];
      }
    }
    assert titles[..|titles|] == titles;
  }

  method MapRenamed(renames: Renames, v: View) returns (mapped: map<Text, seq<Text>>)
    ensures mapped == Mapped(renames, v)
  {
    mapped := map[];
    for i := 0 to |v|
      invariant mapped == Mapped(renames, v[..i])
    {
      assert v[..i + 1][..i] == v[..i];
      var path := NewPath(renames, v[i].key);
      mapped := mapped[path := Retitled(renames, path, v[i].value)];
    }
    assert v[..|v|] == v;
  }

  method CompareFiles(script: Text, paths: seq<Text>, mapped: map<Text, seq<Text>>, after: map<Text, seq<Text>>)
    returns (differences: seq<Finding>)
    ensures differences == FilesFindings(script, paths, mapped, after)
  {
    differences := [];
    for i := 0 to |paths|
      invariant differences == FilesFindings(script, paths[..i], mapped, after)
    {
      assert paths[..i + 1][..i] == paths[..i];
      var path := paths[i];
      if path !in mapped {
        differences := differences + [Finding(script, FileAdded, [path], [])];
      } else if path !in after {
        differences := differences + [Finding(script, FileDropped, [path], [])];
      } else {
        var gone := ReportLacking(script, TitleDropped, path, mapped[path], after[path]);
        var added := ReportLacking(script, TitleAdded, path, after[path], mapped[path]);
        differences := differences + (gone + added);
      }
    }
    assert paths[..|paths|] == paths;
  }

  method CompareScript(script: Text, before: Option<View>, after: Option<View>, renames: Renames)
    returns (differences: seq<Finding>)
    ensures differences == ScriptFindings(script, before, after, renames)
  {
    if before.None? && after.None? {
      return [];
    } else if before.None? || after.None? {
      return [Finding(script, if before.Some? then ScriptRemoved else ScriptAdded, [], [])];
    }
    var mapped := MapRenamed(renames, before.value);
    var paths := SortedSet(NewPaths(renames, before.value) + KeysOf(after.value));
    differences := CompareFiles(script, paths, mapped, Contents(after.value));
  }

  method Compare(pin: SuiteMap, tree: SuiteMap, renames: Renames, only: Text) returns (differences: seq<Finding>)
    ensures differences == Comparison(pin, tree, renames, only)
  {
    differences := [];
    var names := ScriptNames(pin, tree, only);
    for i := 0 to |names|
      invariant differences == ScriptsFindings(names[..i], pin, tree, renames)
    {
      assert names[..i + 1][..i] == names[..i];
      var found := CompareScript(names[i], Expand(pin, names[i]), Expand(tree, names[i]), renames);
      differences := differences + found;
    }
    assert names[..|names|] == names;
  }
}
