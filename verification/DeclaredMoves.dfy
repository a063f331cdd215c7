/** Declared renames, read off the rename tables alone: what a pure move or a declared new title does. */
module DeclaredMoves {
  import opened Options
  import opened KeyOrder
  import opened OrderedMap
  import opened SuiteTitleMap
  import opened SplitMap
  import opened SplitCompare
  import opened SplitTheorems
  import opened SplitConservation

  /** The declared new name when there is one that is not empty, and the old name otherwise. */
  ghost predicate Becomes(table: map<Text, Text>, was: Text, name: Text) {
    || (was in table && table[was] != [] && name == table[was])
    || ((was in table ==> table[was] == []) && name == was)
  }

  /** The title renames declared for a new path. */
  function TitleTable(renames: Renames, path: Text): map<Text, Text> {
    if path in renames.titles then renames.titles[path] else map[]
  }

  /** One list holds exactly the new names of the titles of the other. */
  ghost predicate TitlesMoved(table: map<Text, Text>, was: seq<Text>, now: seq<Text>) {
    forall u :: u in now <==> exists t :: t in was && Becomes(table, t, u)
  }

  ghost predicate FileMoved(renames: Renames, before: map<Text, seq<Text>>, after: map<Text, seq<Text>>, a: Text, b: Text) {
    && a in before && b in after && Becomes(renames.paths, a, b)
    && TitlesMoved(TitleTable(renames, b), before[a], after[b])
  }

  /** The second tree is the first one with every file under its declared path and every title under its declared name. */
  ghost predicate MovedAsDeclared(renames: Renames, before: map<Text, seq<Text>>, after: map<Text, seq<Text>>) {
    && (forall a :: a in before ==> exists b :: FileMoved(renames, before, after, a, b))
    && (forall b :: b in after ==> exists a :: FileMoved(renames, before, after, a, b))
  }

  /** No two files are declared to move to one path. */
  ghost predicate TargetsDiffer(renames: Renames, files: map<Text, seq<Text>>) {
    forall a, b, path :: a in files && b in files && Becomes(renames.paths, a, path) && Becomes(renames.paths, b, path) ==> a == b
  }

  // ---- The tables decide ------------------------------------------------------------------------------

  lemma NameIsDeclared(table: map<Text, Text>, was: Text, name: Text)
    ensures Becomes(table, was, name) <==> name == OrElse(table, was)
  {
  }

  lemma {:induction false} TitleIsDeclared(renames: Renames, path: Text, titles: seq<Text>, i: nat)
    requires i < |titles|
    ensures Becomes(TitleTable(renames, path), titles[i], Retitled(renames, path, titles)[i])
  {
    if i < |titles| - 1 {
      TitleIsDeclared(renames, path, titles[..|titles| - 1], i);
    }
  }

  /** Every pinned file is compared under its declared path, with its titles under their declared names, splits or not. */
  lemma CaseIsDeclared(c: Case, file: Text)
    requires c.IsPinned(file)
    ensures forall path :: Becomes(c.renames.paths, file, path) <==> path == c.Path(file)
    ensures |c.Titles(file)| == |Contents(c.before)[file]|
    ensures forall i :: 0 <= i < |c.Titles(file)| ==>
      Becomes(TitleTable(c.renames, c.Path(file)), Contents(c.before)[file][i], c.Titles(file)[i])
  {
    forall path ensures Becomes(c.renames.paths, file, path) <==> path == c.Path(file) {
      NameIsDeclared(c.renames.paths, file, path);
    }
    forall i | 0 <= i < |c.Titles(file)|
      ensures Becomes(TitleTable(c.renames, c.Path(file)), Contents(c.before)[file][i], c.Titles(file)[i])
    {
      TitleIsDeclared(c.renames, c.Path(file), Contents(c.before)[file], i);
    }
  }

  lemma RetitledMoves(renames: Renames, path: Text, was: seq<Text>, now: seq<Text>)
    ensures SameTitles(Retitled(renames, path, was), now) <==> TitlesMoved(TitleTable(renames, path), was, now)
  {
    forall u
      ensures u in Retitled(renames, path, was) <==> exists t :: t in was && Becomes(TitleTable(renames, path), t, u)
    {
      RetitledHas(renames, path, was, u);
    }
  }

  lemma RetitledHas(renames: Renames, path: Text, was: seq<Text>, t: Text)
    ensures t in Retitled(renames, path, was) <==> exists o :: o in was && Becomes(TitleTable(renames, path), o, t)
  {
    var table, titles := TitleTable(renames, path), Retitled(renames, path, was);
    if t in titles {
      var i :| 0 <= i < |titles| && titles[i] == t;
      TitleIsDeclared(renames, path, was, i);
    }
    if o :| o in was && Becomes(table, o, t) {
      var i :| 0 <= i < |was| && was[i] == o;
      TitleIsDeclared(renames, path, was, i);
      assert titles[i] == t;
    }
  }

  lemma TargetsInPlainTerms(renames: Renames, v: View)
    ensures PathsDiffer(renames, v) <==> TargetsDiffer(renames, Contents(v))
  {
    forall a ensures Becomes(renames.paths, a, NewPath(renames, a)) {
      NameIsDeclared(renames.paths, a, NewPath(renames, a));
    }
  }

  // ---- Without splits, a clean comparison is a declared move --------------------------------------------

  lemma CarriedMeansMoved(c: Case, file: Text)
    requires c.splits == [] && c.IsPinned(file)
    ensures c.Carried(file) <==> FileMoved(c.renames, Contents(c.before), Contents(c.after), file, c.Path(file))
  {
    CaseIsDeclared(c, file);
    if c.Path(file) in Contents(c.after) {
      RetitledMoves(c.renames, c.Path(file), Contents(c.before)[file], Contents(c.after)[c.Path(file)]);
    }
  }

  lemma MovedTo(c: Case, file: Text, path: Text)
    requires c.splits == [] && FileMoved(c.renames, Contents(c.before), Contents(c.after), file, path)
    ensures c.IsPinned(file) && c.Path(file) == path && c.Carried(file) && c.IsExpected(path)
  {
    CaseIsDeclared(c, file);
    CarriedMeansMoved(c, file);
  }

  lemma ConformingIsMoved(c: Case)
    requires c.splits == [] && c.Conforms()
    ensures MovedAsDeclared(c.renames, Contents(c.before), Contents(c.after))
  {
    forall a | a in Contents(c.before)
      ensures FileMoved(c.renames, Contents(c.before), Contents(c.after), a, c.Path(a))
    {
      assert !c.IsSplit(a) && c.IsPinned(a);
      CarriedMeansMoved(c, a);
    }
    forall b | b in Contents(c.after)
      ensures exists a :: FileMoved(c.renames, Contents(c.before), Contents(c.after), a, b)
    {
      assert !c.IsPart(b) && c.IsExpected(b);
    }
  }

  lemma MovedConforms(c: Case)
    requires c.splits == [] && MovedAsDeclared(c.renames, Contents(c.before), Contents(c.after))
    ensures c.Conforms()
  {
    forall a | c.IsPinned(a) ensures c.Carried(a) {
      var b :| FileMoved(c.renames, Contents(c.before), Contents(c.after), a, b);
      MovedTo(c, a, b);
    }
    forall b | b in Contents(c.after) ensures c.IsExpected(b) {
      var a :| FileMoved(c.renames, Contents(c.before), Contents(c.after), a, b);
      MovedTo(c, a, b);
    }
  }

  /** Both sides collected the script and the one is the other moved as declared, or neither did. */
  ghost predicate ScriptMoved(n: Input, name: Text) {
    match (FilesOf(n.pin, name), FilesOf(n.tree, name))
    case (Some(before), Some(after)) => MovedAsDeclared(n.renames, Contents(before), Contents(after))
    case (None, None) => true
    case _ => false
  }

  lemma ConformsAsMoved(n: Input, name: Text)
    requires n.splits == []
    ensures ScriptConforms(n, name) <==> ScriptMoved(n, name)
  {
    if CaseOf(n, name).Some? {
      var c := CaseOf(n, name).value;
      if c.Conforms() { ConformingIsMoved(c); } else if ScriptMoved(n, name) { MovedConforms(c); }
    }
  }

  lemma NoneClash(n: Input, name: Text)
    requires CaseOf(n, name).Some? && TargetsDiffer(n.renames, Contents(FilesOf(n.pin, name).value))
    ensures CaseOf(n, name).value.NoClash()
  {
    TargetsInPlainTerms(n.renames, FilesOf(n.pin, name).value);
  }

  /** When no two pinned files are declared to move to one path, the comparison finds nothing, with a record that splits
      nothing or none at all, exactly when every script is moved as declared. */
  lemma ComparesCleanExactly(n: Input)
    requires ValidMap(n.pin) && n.splits == []
    requires forall name :: Looked(n, name) && FilesOf(n.pin, name).Some? ==>
               TargetsDiffer(n.renames, Contents(FilesOf(n.pin, name).value))
    ensures Comparison(n.pin, n.tree, n.renames, n.only) == [] <==> forall name :: Looked(n, name) ==> ScriptMoved(n, name)
    ensures SplitComparison(n) == [] <==> forall name :: Looked(n, name) ==> ScriptMoved(n, name)
  {
    NoSplitsIsComparison(n);
    forall name | Looked(n, name) && CaseOf(n, name).Some? ensures CaseOf(n, name).value.NoClash() {
      NoneClash(n, name);
    }
    EmptyMeansConserved(n);
    forall name ensures ScriptConforms(n, name) <==> ScriptMoved(n, name) {
      ConformsAsMoved(n, name);
    }
  }
}
