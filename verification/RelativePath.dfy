/** Paths as the engine records them: relative to the source directory. */
module RelativePath {
  import opened Path
  import opened Text
  import opened Wrappers

  /** Where the last name of a path starts. */
  function NameStart(path: string): (n: nat)
    ensures n <= |path|
  {
    if path == "" then 0 else if IsSep(path[|path| - 1]) then |path| else NameStart(path[..|path| - 1])
  }

  function Basename(path: string): string { path[NameStart(path)..] }

  /** The full path without the root in front; its last name when the root is not in front of it. */
  function MakeRelative(root: string, full: string, size: nat): Option<string> {
    var r, f := NormalizeTo(root, PATH_CAP), NormalizeTo(full, PATH_CAP);
    if size == 0 || r.None? || f.None? then None
    else if r.value < f.value && r.value != "" && IsSep(f.value[|r.value|])
      then NormalizeTo(f.value[|r.value| + 1..], size)
    else NormalizeTo(Basename(f.value), size)
  }

  lemma {:induction false} RenderConcat(a: seq<string>, b: seq<string>)
    requires a != [] && b != []
    ensures Render(a + b) == Render(a) + "/" + Render(b)
  {
    RenderCons(a[0], a[1..] + b);
    assert a + b == [a[0]] + (a[1..] + b) && a == [a[0]] + a[1..];
    if |a| == 1 {
      assert a[1..] + b == b;
    } else {
      RenderConcat(a[1..], b);
      Assoc(a[0] + "/", Render(a[1..]), "/" + Render(b));
      Assoc(a[0] + "/" + Render(a[1..]), "/", Render(b));
      Assoc(Render(a[1..]), "/", Render(b));
    }
  }

  lemma {:induction false} NameStartOf(front: string, name: string)
    requires IsComponent(name) && (front == "" || EndsWithSep(front))
    ensures Basename(front + name) == name
  {
    NameStartAt(front, name);
    assert (front + name)[|front|..] == name;
  }

  lemma {:induction false} NameStartAt(front: string, name: string)
    requires (forall i :: 0 <= i < |name| ==> !IsSep(name[i])) && (front == "" || EndsWithSep(front))
    ensures NameStart(front + name) == |front|
  {
    if name == "" {
      assert front + name == front;
    } else {
      var shorter := name[..|name| - 1];
      assert (front + name)[..|front + name| - 1] == front + shorter;
      NameStartAt(front, shorter);
    }
  }

  lemma {:induction false} SoleName(names: seq<string>)
    requires AreComponents(names) && names != []
    ensures Basename("/" + Render(names)) == names[|names| - 1]
    ensures names[|names| - 1] == Render(names) <==> |names| == 1
  {
    var last := names[|names| - 1];
    var front := names[..|names| - 1];
    RenderOne(last);
    assert names == front + [last];
    if front == [] {
      assert names == [last];
      NameStartOf("/", last);
    } else {
      RenderConcat(front, [last]);
      NameStartOf("/" + Render(front) + "/", last);
      Assoc("/", Render(front) + "/", last);
      Assoc("/", Render(front), "/");
    }
  }

  /** A normalised relative path is its own names, rendered. */
  lemma RelativeIsRendered(rel: string)
    requires Normalize(rel) == rel && !Rooted(rel)
    ensures Components(rel) != [] && rel == Render(Components(rel))
  {
    NormalizeIsCanonical(rel);
    ComponentsOfCanonical(false, Components(rel));
  }

  lemma NameIsNormal(name: string)
    requires IsComponent(name)
    ensures Normalize(name) == name
  {
    ComponentsOfSegment(name, "");
    assert name + "" == name;
    ComponentsStep("");
    NormalizeIsCanonical(name);
    RenderOne(name);
  }

  lemma JoinedIsNormal(root: string, rel: string)
    requires root != "" && rel != "" && !Rooted(rel) && JoinTo(root, rel, PATH_CAP).Some?
    ensures var full := JoinTo(root, rel, PATH_CAP).value;
            full == Join(root, rel) && NormalizeTo(full, PATH_CAP) == Some(full) && |full| < PATH_CAP
    ensures NormalizeTo(root, PATH_CAP) == Some(Normalize(root)) && Fits(rel, PATH_CAP)
  {
    assert WithoutLeadingSeps(rel) == rel;
    var whole := root + (if EndsWithSep(root) then "" else "/") + rel;
    NormalizeIdempotent(whole);
    FitsWhenShorter(root, PATH_CAP);
    FitsWhenShorter(rel, PATH_CAP);
    FitsWhenShorter(Normalize(whole), PATH_CAP);
  }

  lemma StripsRoot(root: string, full: string, rel: string)
    requires NormalizeTo(root, PATH_CAP).Some? && NormalizeTo(full, PATH_CAP) == Some(full)
    requires var r := NormalizeTo(root, PATH_CAP).value; r != "" && full == r + "/" + rel
    requires NormalizeTo(rel, PATH_CAP) == Some(rel)
    ensures MakeRelative(root, full, PATH_CAP) == Some(rel)
  {
    hide NormalizeTo;
    var r := NormalizeTo(root, PATH_CAP).value;
    assert full[|r| + 1..] == rel;
  }

  lemma TakesBasename(root: string, full: string, rel: string)
    requires NormalizeTo(root, PATH_CAP) == Some("/") && NormalizeTo(full, PATH_CAP) == Some(full)
    requires full == "/" + rel && rel != "" && !IsSep(rel[0])
    ensures MakeRelative(root, full, PATH_CAP) == NormalizeTo(Basename(full), PATH_CAP)
  {
    hide NormalizeTo;
  }

  lemma UnderSlash(root: string, full: string, names: seq<string>)
    requires AreComponents(names) && names != []
    requires NormalizeTo(root, PATH_CAP) == Some("/") && NormalizeTo(full, PATH_CAP) == Some(full) && |full| < PATH_CAP
    requires full == "/" + Render(names)
    ensures MakeRelative(root, full, PATH_CAP) == Some(names[|names| - 1])
    ensures names[|names| - 1] == Render(names) <==> |names| == 1
  {
    hide Render, NormalizeTo;
    RenderEnds(names);
    TakesBasename(root, full, Render(names));
    SoleName(names);
    NameFits(names[|names| - 1]);
  }

  lemma BelowNames(root: string, full: string, rooted: bool, a: seq<string>, b: seq<string>)
    requires AreComponents(a) && AreComponents(b) && a != [] && b != []
    requires NormalizeTo(root, PATH_CAP) == Some(Canonical(rooted, a)) && NormalizeTo(full, PATH_CAP) == Some(full)
    requires full == Canonical(rooted, a + b) && NormalizeTo(Render(b), PATH_CAP) == Some(Render(b))
    ensures MakeRelative(root, full, PATH_CAP) == Some(Render(b)) && Canonical(rooted, a) != "/"
  {
    hide Render, NormalizeTo;
    RenderEnds(a);
    CanonicalConcat(rooted, a, b);
    StripsRoot(root, full, Render(b));
  }

  /** Joining to a root and taking the root off again gives back the relative path, unless the root is "/" and the path has several names. */
  lemma RelativeUndoesJoin(root: string, rel: string)
    requires root != "" && Normalize(rel) == rel && !Rooted(rel)
    requires JoinTo(root, rel, PATH_CAP).Some?
    ensures var full := JoinTo(root, rel, PATH_CAP).value;
            MakeRelative(root, full, PATH_CAP) == Some(rel) <==> Normalize(root) != "/" || |Components(rel)| == 1
  {
    RelativeIsRendered(rel);
    RenderEnds(Components(rel));
    JoinedIsNormal(root, rel);
    JoinConcatenates(root, rel);
    NormalizeIsCanonical(root);
    NoNamesAllSeps(root);
    RenderNone();
    UndoCases(root, JoinTo(root, rel, PATH_CAP).value, rel);
  }

  /** Under the root "/" only the last name of a path is recorded. */
  lemma RootRecordsNames(rel: string)
    requires Normalize(rel) == rel && !Rooted(rel) && |rel| + 1 < PATH_CAP
    ensures var names := Components(rel);
            names != [] && MakeRelative("/", "/" + rel, PATH_CAP) == Some(names[|names| - 1])
  {
    hide Normalize, Components, Render, MakeRelative, Collapsed, NormalizeTo;
    RelativeIsRendered(rel);
    UnderRootFits(rel);
    UnderSlash("/", "/" + rel, Components(rel));
  }

  lemma UnderRootFits(rel: string)
    requires Normalize(rel) == rel && !Rooted(rel) && |rel| + 1 < PATH_CAP && rel == Render(Components(rel))
    ensures NormalizeTo("/", PATH_CAP) == Some("/") && NormalizeTo("/" + rel, PATH_CAP) == Some("/" + rel)
  {
    hide Normalize, Components, Render;
    NamesUnderRoot(rel);
    NormalizeIsCanonical("/" + rel);
    NormalizeIsCanonical("/");
    RenderNone();
    assert "/" + "" == "/";
    FitsWhenShorter("/" + rel, PATH_CAP);
    FitsWhenShorter("/", PATH_CAP);
    hide Fits;
  }

  lemma NamesUnderRoot(rel: string)
    ensures Rooted("/" + rel) && Components("/" + rel) == Components(rel)
    ensures Rooted("/") && Components("/") == []
  {
    assert ("/" + rel)[1..] == rel && "/"[1..] == "";
  }

  lemma UndoCases(root: string, full: string, rel: string)
    requires Components(rel) != [] && rel == Render(Components(rel)) && NormalizeTo(rel, PATH_CAP) == Some(rel)
    requires NormalizeTo(root, PATH_CAP) == Some(Normalize(root)) && (Components(root) == [] ==> Rooted(root))
    requires Normalize(root) == Canonical(Rooted(root), Components(root))
    requires NormalizeTo(full, PATH_CAP) == Some(full) && |full| < PATH_CAP
    requires full == Canonical(Rooted(root), Components(root) + Components(rel))
    ensures MakeRelative(root, full, PATH_CAP) == Some(rel) <==> Normalize(root) != "/" || |Components(rel)| == 1
  {
    var a, b := Components(root), Components(rel);
    hide Normalize, Components, NormalizeTo, Rooted, MakeRelative;
    if a == [] {
      assert a + b == b;
      RenderNone();
      assert "/" + "" == "/";
      UnderSlash(root, full, b);
    } else {
      BelowNames(root, full, Rooted(root), a, b);
    }
  }

  lemma CanonicalConcat(rooted: bool, a: seq<string>, b: seq<string>)
    requires a != [] && b != []
    ensures Canonical(rooted, a + b) == Canonical(rooted, a) + "/" + Render(b)
  {
    RenderConcat(a, b);
    Assoc("/" + Render(a), "/", Render(b));
    Assoc("/", Render(a) + "/", Render(b));
    Assoc("/", Render(a), "/");
  }

  lemma NameFits(name: string)
    requires IsComponent(name) && |name| < PATH_CAP
    ensures NormalizeTo(name, PATH_CAP) == Some(name)
  {
    NameIsNormal(name);
    FitsWhenShorter(name, PATH_CAP);
  }

  /** Lines 163-180 of src/common/path.c. */
  method FindName(path: string) returns (last: nat)
    ensures last == NameStart(path)
  {
    last := 0;
    for cursor := 0 to |path|
      invariant last == NameStart(path[..cursor])
    {
      assert path[..cursor + 1][..cursor] == path[..cursor];
      if IsSep(path[cursor]) {
        last := cursor + 1;
      }
    }
    assert path[..|path|] == path;
  }

  lemma TextOfHeld(buffer: array<char>, text: string, k: nat)
    requires Holds(buffer, PATH_CAP, text) && k <= |text|
    ensures '\0' in buffer[k..] && TextOf(buffer[k..]) == text[k..]
  {
    assert buffer[k..][|text| - k] == '\0';
    assert buffer[k..][..|text| - k] == text[k..];
    TextOfTerminated(text[k..], buffer[k..]);
  }

  /** Lines 179-209 of src/core/engine.c. */
  method MakeRelativePath(sourceRoot: array<char>, fullPath: array<char>, out: array<char>, outSize: nat) returns (rc: int)
    requires '\0' in sourceRoot[..] && '\0' in fullPath[..]
    requires outSize <= out.Length && out != sourceRoot && out != fullPath
    modifies out
    ensures var r := MakeRelative(TextOf(sourceRoot[..]), TextOf(fullPath[..]), outSize);
            && rc == (if r.Some? then 0 else -1)
            && (rc == 0 ==> Holds(out, outSize, r.value))
  {
    hide TextOf, Normalize, Collapsed, NameStart;
    ghost var rootText, fullText := TextOf(sourceRoot[..]), TextOf(fullPath[..]);
    assert sourceRoot[0..] == sourceRoot[..] && fullPath[0..] == fullPath[..];
    if outSize == 0 {
      return -1;
    }
    var normalizedRoot, normalizedFull := new char[PATH_CAP], new char[PATH_CAP];
    var ok, rootLength := CopyNormalized(sourceRoot, 0, normalizedRoot, PATH_CAP);
    if !ok {
      return -1;
    }
    var r := normalizedRoot[..rootLength];
    var fullLength;
    ok, fullLength := CopyNormalized(fullPath, 0, normalizedFull, PATH_CAP);
    if !ok {
      return -1;
    }
    var f := normalizedFull[..fullLength];
    var start;
    if r == f {
      start := FindName(f);
    } else if rootLength > 0 && r <= f && IsSep(f[rootLength]) {
      start := rootLength + 1;
    } else {
      start := FindName(f);
    }
    TextOfHeld(normalizedFull, f, start);
    var done, _ := CopyNormalized(normalizedFull, start, out, outSize);
    rc := if done then 0 else -1;
  }
}
