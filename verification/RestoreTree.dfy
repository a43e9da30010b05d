/** Restoring all files of a snapshot below one directory. Line numbers are those of src/core/engine.c. */
module RestoreTree {
  import opened Bytes
  import opened ChunkStore
  import opened Manifest
  import opened Path
  import opened RelativePath
  import opened Restore
  import opened Wrappers

  /** The names on the way from the output directory to a file. */
  type Place = seq<string>

  /** The files below the output directory. */
  type Tree = map<Place, seq<byte>>

  function WithoutDots(names: seq<string>): Place {
    if names == [] then [] else (if names[0] == "." then [] else [names[0]]) + WithoutDots(names[1..])
  }

  /** Where a recorded path leads; nowhere if it ends in a dot, which is a directory. */
  function PlaceOf(path: string): Place {
    var names := Components(path);
    if names == [] || names[|names| - 1] == "." then [] else WithoutDots(names)
  }

  /** All names of a path that are not "." count, in their order. */
  lemma PlaceIs(path: string, names: seq<string>)
    requires Components(path) == names && "." !in names
    ensures PlaceOf(path) == names
  {
    hide Components;
    NoDots(names);
  }

  lemma {:induction false} NoDots(names: seq<string>)
    requires "." !in names
    ensures WithoutDots(names) == names
  {
    if names != [] {
      NoDots(names[1..]);
      assert names == [names[0]] + names[1..];
    }
  }

  /** A "." within a path changes nothing, and at its end it leaves no file to write. */
  lemma DotsGoNowhere(path: string, plain: string, front: seq<string>, rest: seq<string>)
    requires Components(path) == front + ["."] + rest && Components(plain) == front + rest
    ensures PlaceOf(path) == if rest == [] then [] else PlaceOf(plain)
  {
    hide Components;
    if rest != [] {
      assert (front + ["."] + rest)[|front| + |rest|] == rest[|rest| - 1] == (front + rest)[|front| + |rest| - 1];
      OneDot(front, rest);
    }
  }

  lemma {:induction false} OneDot(front: seq<string>, rest: seq<string>)
    ensures WithoutDots(front + ["."] + rest) == WithoutDots(front + rest)
  {
    if front == [] {
      assert ([] + ["."] + rest)[1..] == rest && [] + rest == rest;
    } else {
      assert (front + ["."] + rest)[1..] == front[1..] + ["."] + rest && (front + rest)[1..] == front[1..] + rest;
      OneDot(front[1..], rest);
    }
  }

  /** Neither of two places is a directory on the way to the other. */
  predicate Apart(a: Place, b: Place) { !(a < b) && !(b < a) }

  /** Lines 356-372: no file stands where a directory is needed, and no directory where the file is to go. */
  predicate Takes(tree: Tree, place: Place) { place != [] && forall k :: k in tree ==> Apart(k, place) }

  datatype Restoration = Restoration(tree: Tree, done: bool)

  /** Lines 1587-1592: one file after the other, up to the first that fails. */
  function RestoreAll(tree: Tree, blobs: Blobs, files: seq<File>, passphrase: seq<byte>): Restoration
    decreases |files|
  {
    if files == [] then Restoration(tree, true)
    else
      var data := RestoredFile(blobs, files[0], passphrase);
      if data.None? || !Takes(tree, PlaceOf(files[0].path)) then Restoration(tree, false)
      else RestoreAll(tree[PlaceOf(files[0].path) := data.value], blobs, files[1..], passphrase)
  }

  /** The output directory while files are restored into it. */
  class OutputDir {
    var tree: Tree

    constructor (tree: Tree)
      ensures this.tree == tree
    {
      this.tree := tree;
    }

    /** Lines 356-372. */
    method WriteFile(path: string, data: seq<byte>) returns (rc: int)
      modifies this
      ensures rc == if Takes(old(tree), PlaceOf(path)) then 0 else -1
      ensures var place := PlaceOf(path);
              rc == 0 <==> place != [] && forall k :: k in old(tree) ==> !(k < place) && !(place < k)
      ensures tree == if rc == 0 then old(tree)[PlaceOf(path) := data] else old(tree)
    {
      if !Takes(tree, PlaceOf(path)) {
        return -1;
      }
      tree := tree[PlaceOf(path) := data];
      rc := 0;
    }

    /** Lines 1587-1592 and 450-452. `stray` is set where a chunk would be copied to a place outside its buffer. */
    method RestoreFiles(store: ChunkStore, files: seq<File>, passphrase: seq<byte>) returns (status: int, stray: bool)
      modifies this
      ensures var all := RestoreAll(old(tree), store.blobs, files, passphrase);
              tree == all.tree && status == if all.done then 0 else -1
      ensures stray ==> status != 0
    {
      hide RestoredFile, Takes, PlaceOf, GoesAstray;
      stray := false;
      assert files[0..] == files;
      for i := 0 to |files|
        invariant RestoreAll(tree, store.blobs, files[i..], passphrase) == RestoreAll(old(tree), store.blobs, files, passphrase)
        invariant store.blobs == old(store.blobs)
      {
        assert files[i..][0] == files[i] && files[i..][1..] == files[i + 1..];
        var data;
        status, data, stray := RestoreFile(store, files[i], passphrase);
        if status != 0 {
          return;
        }
        status := WriteFile(files[i].path, data);
        if status != 0 {
          return;
        }
      }
      return 0, false;
    }
  }

  // ---- When everything is restored, and what is there then ----

  /** All the paths lead to a file, and no place is on the way to another one, old or new. */
  predicate Compatible(tree: Tree, files: seq<File>) {
    && (forall i :: 0 <= i < |files| ==> Takes(tree, PlaceOf(files[i].path)))
    && (forall i, j :: 0 <= i < j < |files| ==> Apart(PlaceOf(files[i].path), PlaceOf(files[j].path)))
  }

  predicate AllRestored(blobs: Blobs, files: seq<File>, passphrase: seq<byte>) {
    forall i :: 0 <= i < |files| ==> RestoredFile(blobs, files[i], passphrase).Some?
  }

  /** No later file goes to the same place. */
  predicate IsLast(files: seq<File>, i: nat)
    requires i < |files|
  {
    forall j :: i < j < |files| ==> PlaceOf(files[j].path) != PlaceOf(files[i].path)
  }

  lemma CompatibleStep(tree: Tree, files: seq<File>, data: seq<byte>)
    requires files != []
    ensures var place := PlaceOf(files[0].path);
            Compatible(tree, files) <==> Takes(tree, place) && Compatible(tree[place := data], files[1..])
  {
    hide PlaceOf;
    var place, rest := PlaceOf(files[0].path), files[1..];
    var next := tree[place := data];
    if Compatible(tree, files) {
      forall i | 0 <= i < |rest| ensures Takes(next, PlaceOf(rest[i].path)) {
        assert Takes(tree, PlaceOf(files[i + 1].path)) && Apart(place, PlaceOf(files[i + 1].path));
      }
      forall i, j | 0 <= i < j < |rest| ensures Apart(PlaceOf(rest[i].path), PlaceOf(rest[j].path)) {
        assert Apart(PlaceOf(files[i + 1].path), PlaceOf(files[j + 1].path));
      }
    }
    if Takes(tree, place) && Compatible(next, rest) {
      forall i | 0 <= i < |files| ensures Takes(tree, PlaceOf(files[i].path)) {
        if i > 0 { TakenBefore(tree, place, data, PlaceOf(rest[i - 1].path)); }
      }
      forall i, j | 0 <= i < j < |files| ensures Apart(PlaceOf(files[i].path), PlaceOf(files[j].path)) {
        assert Takes(next, PlaceOf(rest[j - 1].path)) && place in next;
        if i > 0 { assert Apart(PlaceOf(rest[i - 1].path), PlaceOf(rest[j - 1].path)); }
      }
    }
  }

  lemma TakenBefore(tree: Tree, place: Place, data: seq<byte>, other: Place)
    requires Takes(tree[place := data], other)
    ensures Takes(tree, other)
  {
    forall k | k in tree ensures Apart(k, other) { assert k in tree[place := data]; }
  }

  lemma {:induction false} RestoreCompletesIff(tree: Tree, blobs: Blobs, files: seq<File>, passphrase: seq<byte>)
    ensures RestoreAll(tree, blobs, files, passphrase).done <==> AllRestored(blobs, files, passphrase) && Compatible(tree, files)
    decreases |files|
  {
    hide RestoredFile, PlaceOf, Takes, Apart;
    if files != [] {
      var place, data := PlaceOf(files[0].path), RestoredFile(blobs, files[0], passphrase);
      if data.Some? {
        CompatibleStep(tree, files, data.value);
        RestoreCompletesIff(tree[place := data.value], blobs, files[1..], passphrase);
        assert forall i :: 0 < i < |files| ==> files[i] == files[1..][i - 1];
        assert AllRestored(blobs, files, passphrase) <==> AllRestored(blobs, files[1..], passphrase);
      }
    }
  }

  predicate GoesTo(files: seq<File>, place: Place) { exists i :: 0 <= i < |files| && PlaceOf(files[i].path) == place }

  /** A place to which no file goes is as it was. */
  lemma {:induction false} OthersStay(tree: Tree, blobs: Blobs, files: seq<File>, passphrase: seq<byte>, k: Place)
    requires RestoreAll(tree, blobs, files, passphrase).done && !GoesTo(files, k)
    ensures var t := RestoreAll(tree, blobs, files, passphrase).tree; (k in t <==> k in tree) && (k in t ==> t[k] == tree[k])
    decreases |files|
  {
    hide RestoredFile, PlaceOf, Takes;
    if files != [] {
      var place, data := PlaceOf(files[0].path), RestoredFile(blobs, files[0], passphrase).value;
      assert place != k;
      NotBehind(files, k);
      OthersStay(tree[place := data], blobs, files[1..], passphrase, k);
    }
  }

  lemma NotBehind(files: seq<File>, k: Place)
    requires files != [] && !GoesTo(files, k)
    ensures !GoesTo(files[1..], k)
  {
    hide PlaceOf;
    assert forall j :: 0 <= j < |files[1..]| ==> files[1..][j] == files[j + 1];
  }

  /** The last file of a place is what is there. */
  lemma {:induction false} LastStands(tree: Tree, blobs: Blobs, files: seq<File>, passphrase: seq<byte>, i: nat)
    requires RestoreAll(tree, blobs, files, passphrase).done && i < |files| && IsLast(files, i)
    ensures var t, place := RestoreAll(tree, blobs, files, passphrase).tree, PlaceOf(files[i].path);
            place in t && Some(t[place]) == RestoredFile(blobs, files[i], passphrase)
    decreases |files|
  {
    hide RestoredFile, PlaceOf, Takes;
    var place, data := PlaceOf(files[0].path), RestoredFile(blobs, files[0], passphrase).value;
    if i == 0 {
      NoneBehindLast(files);
      OthersStay(tree[place := data], blobs, files[1..], passphrase, place);
    } else {
      LastInRest(files, i);
      LastStands(tree[place := data], blobs, files[1..], passphrase, i - 1);
    }
  }

  lemma NoneBehindLast(files: seq<File>)
    requires files != [] && IsLast(files, 0)
    ensures !GoesTo(files[1..], PlaceOf(files[0].path))
  {
    hide PlaceOf;
    assert forall j :: 0 <= j < |files[1..]| ==> files[1..][j] == files[j + 1];
  }

  lemma LastInRest(files: seq<File>, i: nat)
    requires 0 < i < |files| && IsLast(files, i)
    ensures IsLast(files[1..], i - 1)
  {
    hide PlaceOf;
    assert forall j :: 0 <= j < |files[1..]| ==> files[1..][j] == files[j + 1];
  }

  lemma {:induction false} LastOfPlace(files: seq<File>, i: nat) returns (last: nat)
    requires i < |files|
    ensures i <= last < |files| && PlaceOf(files[last].path) == PlaceOf(files[i].path) && IsLast(files, last)
    decreases |files| - i
  {
    hide PlaceOf;
    last := i;
    if !IsLast(files, i) {
      var j :| i < j < |files| && PlaceOf(files[j].path) == PlaceOf(files[i].path);
      last := LastOfPlace(files, j);
    }
  }

  /** The restore runs to its end and afterwards every file is there with its data. */
  predicate GivesBack(tree: Tree, blobs: Blobs, files: seq<File>, datas: seq<seq<byte>>, passphrase: seq<byte>)
    requires |files| == |datas|
  {
    var all := RestoreAll(tree, blobs, files, passphrase);
    all.done && forall i :: 0 <= i < |files| ==> PlaceOf(files[i].path) in all.tree && all.tree[PlaceOf(files[i].path)] == datas[i]
  }

  /** The last file of the place of each file is restored to that file's data. */
  predicate LastOnesRight(blobs: Blobs, files: seq<File>, datas: seq<seq<byte>>, passphrase: seq<byte>)
    requires |files| == |datas|
  {
    forall i, j :: 0 <= i <= j < |files| && PlaceOf(files[i].path) == PlaceOf(files[j].path) && IsLast(files, j) ==>
      RestoredFile(blobs, files[j], passphrase) == Some(datas[i])
  }

  /** Everything is given back exactly when no file fails, the paths do not stand in each other's way, and the last file of
      each place has the data of all. */
  lemma GivesBackIff(tree: Tree, blobs: Blobs, files: seq<File>, datas: seq<seq<byte>>, passphrase: seq<byte>)
    requires |files| == |datas|
    ensures GivesBack(tree, blobs, files, datas, passphrase)
            <==> Compatible(tree, files) && AllRestored(blobs, files, passphrase) && LastOnesRight(blobs, files, datas, passphrase)
  {
    hide RestoredFile, PlaceOf, Compatible, RestoreAll, AllRestored, IsLast;
    RestoreCompletesIff(tree, blobs, files, passphrase);
    var all := RestoreAll(tree, blobs, files, passphrase);
    if all.done {
      if LastOnesRight(blobs, files, datas, passphrase) {
        forall i | 0 <= i < |files|
          ensures PlaceOf(files[i].path) in all.tree && all.tree[PlaceOf(files[i].path)] == datas[i]
        {
          var j := LastOfPlace(files, i);
          LastStands(tree, blobs, files, passphrase, j);
        }
      }
      if GivesBack(tree, blobs, files, datas, passphrase) {
        forall i, j | 0 <= i <= j < |files| && PlaceOf(files[i].path) == PlaceOf(files[j].path) && IsLast(files, j)
          ensures RestoredFile(blobs, files[j], passphrase) == Some(datas[i])
        {
          LastStands(tree, blobs, files, passphrase, j);
        }
      }
    }
  }

  /** Files that can each be restored to their data are all given back exactly when besides no two of them with different
      data go to one place. */
  lemma GivesBackApartIff(tree: Tree, blobs: Blobs, files: seq<File>, datas: seq<seq<byte>>, passphrase: seq<byte>)
    requires |files| == |datas|
    requires forall i :: 0 <= i < |files| ==> RestoredFile(blobs, files[i], passphrase) == Some(datas[i])
    ensures GivesBack(tree, blobs, files, datas, passphrase)
            <==> Compatible(tree, files)
                 && forall i, j :: 0 <= i < j < |files| && PlaceOf(files[i].path) == PlaceOf(files[j].path) ==> datas[i] == datas[j]
  {
    hide RestoredFile, PlaceOf, Compatible, GivesBack;
    GivesBackIff(tree, blobs, files, datas, passphrase);
    if LastOnesRight(blobs, files, datas, passphrase) {
      forall i, j | 0 <= i < j < |files| && PlaceOf(files[i].path) == PlaceOf(files[j].path) ensures datas[i] == datas[j] {
        var last := LastOfPlace(files, j);
        assert RestoredFile(blobs, files[last], passphrase) == Some(datas[i]);
      }
    }
  }

  /** Two files of one place: the restore completes and the second is all that is there. */
  lemma SecondReplacesFirst(blobs: Blobs, first: File, second: File, passphrase: seq<byte>)
    requires RestoredFile(blobs, first, passphrase).Some? && RestoredFile(blobs, second, passphrase).Some?
    requires PlaceOf(first.path) == PlaceOf(second.path) != []
    ensures RestoreAll(map[], blobs, [first, second], passphrase)
            == Restoration(map[PlaceOf(first.path) := RestoredFile(blobs, second, passphrase).value], true)
  {
    hide RestoredFile, PlaceOf;
    var files, place, none: Tree := [first, second], PlaceOf(first.path), map[];
    assert files[1..] == [second] && files[1..][1..] == [];
    var one := none[place := RestoredFile(blobs, first, passphrase).value];
    assert one == map[place := RestoredFile(blobs, first, passphrase).value];
    var two := one[place := RestoredFile(blobs, second, passphrase).value];
    assert two == map[place := RestoredFile(blobs, second, passphrase).value];
    assert RestoreAll(one, blobs, files[1..], passphrase) == Restoration(two, true);
  }

  /** A backup of the source "/" records two files of one name in different directories under that name alone, and the
      first of them is lost in the restore. */
  lemma RootLosesFirst(rel1: string, rel2: string, name: string, blobs: Blobs, first: File, second: File, passphrase: seq<byte>)
    requires Normalize(rel1) == rel1 && !Rooted(rel1) && |rel1| + 1 < PATH_CAP
    requires Normalize(rel2) == rel2 && !Rooted(rel2) && |rel2| + 1 < PATH_CAP
    requires Ends(rel1, name) && Ends(rel2, name) && name != "."
    requires MakeRelative("/", "/" + rel1, PATH_CAP) == Some(first.path)
    requires MakeRelative("/", "/" + rel2, PATH_CAP) == Some(second.path)
    requires RestoredFile(blobs, first, passphrase).Some? && RestoredFile(blobs, second, passphrase).Some?
    ensures first.path == second.path == name
    ensures RestoreAll(map[], blobs, [first, second], passphrase)
            == Restoration(map[[name] := RestoredFile(blobs, second, passphrase).value], true)
  {
    hide RestoredFile, RestoreAll, PlaceOf, MakeRelative, Normalize, Components;
    RootRecordsNames(rel1);
    RootRecordsNames(rel2);
    PlaceOfName(name);
    SecondReplacesFirst(blobs, first, second, passphrase);
  }

  predicate Ends(path: string, name: string) {
    IsComponent(name) && Components(path) != [] && Components(path)[|Components(path)| - 1] == name
  }

  lemma PlaceOfName(name: string)
    requires IsComponent(name) && name != "."
    ensures PlaceOf(name) == [name]
  {
    ComponentsOfSegment(name, "");
    assert name + "" == name && Components("") == [];
    var names := [name];
    assert names[1..] == [];
    assert WithoutDots(names[1..]) == [];
  }

  /** Such as "/a/f" and "/b/f". */
  lemma TwoOfOneName()
    ensures MakeRelative("/", "/a/f", PATH_CAP) == Some("f") == MakeRelative("/", "/b/f", PATH_CAP)
  {
    hide MakeRelative, Normalize, Components;
    TwoNames("a", "f");
    TwoNames("b", "f");
    assert "a" + "/" + "f" == "a/f" && "b" + "/" + "f" == "b/f" && "/" + "a/f" == "/a/f" && "/" + "b/f" == "/b/f";
    RootRecordsNames("a/f");
    RootRecordsNames("b/f");
  }

  lemma TwoNames(a: string, b: string)
    requires IsComponent(a) && IsComponent(b)
    ensures var rel := a + "/" + b; Normalize(rel) == rel && !Rooted(rel) && Components(rel) == [a, b]
  {
    var names, rel := [a, b], a + "/" + b;
    assert names[1..] == [b];
    RenderCons(a, [b]);
    RenderOne(b);
    assert [a] + [b] == names;
    ComponentsOfRender(names);
    assert Render(names) == rel;
    assert rel[0] == a[0];
    NormalizeIsCanonical(rel);
  }
}
