/** Path normalisation and joining over NUL-terminated buffers.
    Line numbers are those of src/common/path.c. */
module Path {
  import opened Text
  import opened Wrappers

  const PATH_CAP := 4096

  predicate IsSep(c: char) { c == '/' || c == '\\' }

  // ---- What a path means ----

  predicate Rooted(path: string) { path != "" && IsSep(path[0]) }

  /** Length of the leading stretch without separators. */
  function SegmentLength(path: string): (n: nat)
    ensures n <= |path| && (forall i :: 0 <= i < n ==> !IsSep(path[i]))
    ensures n < |path| ==> IsSep(path[n])
  {
    if path == "" || IsSep(path[0]) then 0 else 1 + SegmentLength(path[1..])
  }

  /** The names between the separators, from left to right. */
  function Components(path: string): (r: seq<string>)
    ensures forall i :: 0 <= i < |r| ==> IsComponent(r[i])
    decreases |path|
  {
    if path == "" then []
    else if IsSep(path[0]) then Components(path[1..])
    else
      var n := SegmentLength(path);
      [path[..n]] + Components(path[n..])
  }

  predicate IsComponent(s: string) {
    s != "" && forall i :: 0 <= i < |s| ==> !IsSep(s[i])
  }

  predicate AreComponents(names: seq<string>) {
    forall i :: 0 <= i < |names| ==> IsComponent(names[i])
  }

  /** The names with one '/' between neighbours. */
  function Render(names: seq<string>): string {
    if names == [] then "" else if |names| == 1 then names[0] else names[0] + "/" + Render(names[1..])
  }

  /** The one spelling of a path: '/' in front when it is rooted, '.' when nothing is left. */
  function Canonical(rooted: bool, names: seq<string>): string {
    if rooted then "/" + Render(names) else if names == [] then "." else Render(names)
  }

  // ---- What the code computes ----

  /** Separators become '/', and a separator after a separator goes away. */
  function Collapsed(path: string, lastWasSep: bool): (r: string)
    ensures |r| <= |path| && ('\0' !in path ==> '\0' !in r)
  {
    if path == "" then ""
    else if !IsSep(path[0]) then [path[0]] + Collapsed(path[1..], false)
    else if lastWasSep then Collapsed(path[1..], true)
    else "/" + Collapsed(path[1..], true)
  }

  function Trimmed(s: string): string {
    if s == "" then "." else if |s| > 1 && s[|s| - 1] == '/' then s[..|s| - 1] else s
  }

  function Normalize(path: string): string { Trimmed(Collapsed(path, false)) }

  predicate EndsWithSep(path: string) { path != "" && IsSep(path[|path| - 1]) }

  lemma SplitTail(path: string, n: nat)
    requires n < |path|
    ensures path[1..][n..] == path[n + 1..] && [path[0]] + path[1..][..n] == path[..n + 1]
  {
  }

  lemma {:induction false} CollapsedSegment(path: string)
    ensures Collapsed(path, false) == path[..SegmentLength(path)] + Collapsed(path[SegmentLength(path)..], false)
  {
    if path != "" && !IsSep(path[0]) {
      var rest, n := path[1..], SegmentLength(path) - 1;
      CollapsedSegment(rest);
      SplitTail(path, n);
      Assoc([path[0]], rest[..n], Collapsed(rest[n..], false));
    }
  }

  lemma LastSepIrrelevant(path: string)
    requires path != "" ==> !IsSep(path[0])
    ensures Collapsed(path, true) == Collapsed(path, false)
  {
  }

  /** The remaining names, and a '/' if the path ends in a separator behind the last of them. */
  function TailText(path: string): string {
    Render(Components(path)) + if Components(path) != [] && EndsWithSep(path) then "/" else ""
  }

  lemma {:induction false} CollapsedRendersTail(path: string)
    ensures Collapsed(path, true) == TailText(path)
    decreases |path|
  {
    if path == "" {
    } else if IsSep(path[0]) {
      CollapsedRendersTail(path[1..]);
    } else {
      var rest := path[SegmentLength(path)..];
      if rest != "" { CollapsedRendersTail(rest[1..]); }
      CollapsedName(path);
    }
  }

  /** One more name in front of what is known to collapse well. */
  lemma CollapsedName(path: string)
    requires path != "" && !IsSep(path[0])
    requires var rest := path[SegmentLength(path)..];
             rest != "" ==> Collapsed(rest[1..], true) == TailText(rest[1..])
    ensures Collapsed(path, true) == TailText(path)
  {
    CollapsedSegment(path);
    LastSepIrrelevant(path);
    var n := SegmentLength(path);
    var first, rest := path[..n], path[n..];
    assert Components(path) == [first] + Components(rest);
    if rest == "" {
      RenderOne(first);
    } else {
      CollapsedAfterSegment(first, rest);
      EndOf(path, n);
      hide Components, Collapsed, Render;
    }
  }

  lemma EndOf(path: string, n: nat)
    requires n < |path|
    ensures EndsWithSep(path) == EndsWithSep(path[n..])
  {
  }

  lemma CollapsedEmpty(s: string, lastWasSep: bool)
    requires s == ""
    ensures Collapsed(s, lastWasSep) == ""
  {
  }

  lemma NoComponents()
    ensures Components("") == []
  {
  }

  lemma CollapsedStep(path: string, k: nat, lastWasSep: bool)
    requires k < |path|
    ensures Collapsed(path[k..], lastWasSep)
            == (if !IsSep(path[k]) then [path[k]] else if lastWasSep then "" else "/") + Collapsed(path[k + 1..], IsSep(path[k]))
  {
    assert path[k..][1..] == path[k + 1..];
  }

  /** The character that is copied and what is then still to come, behind what is already done. */
  lemma CopyStep(path: string, k: nat, lastWasSep: bool, done: string)
    requires k < |path|
    ensures var rest := Collapsed(path[k + 1..], IsSep(path[k]));
            done + Collapsed(path[k..], lastWasSep)
            == if IsSep(path[k]) && lastWasSep then done + rest else done + [if IsSep(path[k]) then '/' else path[k]] + rest
  {
    CollapsedStep(path, k, lastWasSep);
    hide Collapsed;
    var rest := Collapsed(path[k + 1..], IsSep(path[k]));
    assert "" + rest == rest;
    assert "/" == ['/'];
    Assoc(done, [if IsSep(path[k]) then '/' else path[k]], rest);
  }

  lemma CollapsedAfterSegment(first: string, rest: string)
    requires first != "" && rest != "" && IsSep(rest[0]) && Collapsed(rest[1..], true) == TailText(rest[1..])
    ensures Components(rest) == Components(rest[1..])
    ensures first + Collapsed(rest, false) == Render([first] + Components(rest)) + if EndsWithSep(rest) then "/" else ""
  {
    var names := Components(rest[1..]);
    assert Components(rest) == names;
    RenderCons(first, names);
    CollapsedHead(rest);
    NoNamesAllSeps(rest[1..]);
    RenderNone();
    hide Components, Render, Collapsed;
    if names == [] {
      assert EndsWithSep(rest);
    } else {
      SomeNames(rest[1..]);
      EndOf(rest, 1);
      var last := if EndsWithSep(rest) then "/" else "";
      Assoc(first, "/", Render(names) + last);
      Assoc(first + "/", Render(names), last);
    }
  }

  lemma CollapsedHead(path: string)
    requires Rooted(path)
    ensures Collapsed(path, false) == "/" + Collapsed(path[1..], true)
  {
  }

  lemma ComponentsStep(path: string)
    ensures path == "" ==> Components(path) == []
    ensures Rooted(path) ==> Components(path) == Components(path[1..])
    ensures path != "" && !Rooted(path) ==>
      Components(path) == [path[..SegmentLength(path)]] + Components(path[SegmentLength(path)..])
  {
  }

  lemma SomeNames(path: string)
    requires Components(path) != []
    ensures path != ""
  {
  }

  lemma RenderCons(first: string, names: seq<string>)
    ensures Render([first] + names) == if names == [] then first else first + "/" + Render(names)
  {
    assert ([first] + names)[1..] == names;
  }

  lemma {:induction false} NoNamesAllSeps(path: string)
    ensures Components(path) == [] ==> forall i :: 0 <= i < |path| ==> IsSep(path[i])
  {
    if path != "" && IsSep(path[0]) {
      NoNamesAllSeps(path[1..]);
    }
  }

  lemma {:induction false} RenderEnds(names: seq<string>)
    requires AreComponents(names) && names != []
    ensures Render(names) != "" && !IsSep(Render(names)[0]) && !EndsWithSep(Render(names))
  {
    if |names| > 1 { RenderEnds(names[1..]); }
  }

  lemma TrimmedCases(body: string)
    requires body != "" && !IsSep(body[|body| - 1])
    ensures Trimmed(body) == body && Trimmed(body + "/") == body
    ensures Trimmed("/" + body) == "/" + body && Trimmed("/" + (body + "/")) == "/" + body
  {
    assert "/" + (body + "/") == ("/" + body) + "/";
  }

  /** The code's result is the canonical spelling. */
  lemma NormalizeIsCanonical(path: string)
    ensures Normalize(path) == Canonical(Rooted(path), Components(path))
  {
    var names := Components(path);
    RenderNone();
    if names != [] {
      RenderEnds(names);
      TrimmedCases(Render(names));
    }
    if Rooted(path) {
      RootedCollapses(path);
    } else {
      CollapsedRendersTail(path);
      LastSepIrrelevant(path);
      NoNamesAllSeps(path);
    }
    hide Render, Components, Collapsed, Rooted, Trimmed;
    if names == [] {
      assert Trimmed("") == "." && Trimmed("/") == "/" by { TrimmedNothing(); }
      assert "/" + "" == "/";
    } else {
      var body := Render(names);
      assert body + "" == body;
    }
  }

  lemma TrimmedNothing()
    ensures Trimmed("") == "." && Trimmed("/") == "/"
  {
  }

  lemma RootedCollapses(path: string)
    requires Rooted(path)
    ensures Components(path[1..]) == Components(path)
    ensures Collapsed(path, false) == "/" + TailText(path)
  {
    CollapsedRendersTail(path[1..]);
    CollapsedHead(path);
    assert Components(path[1..]) == Components(path);
    hide Render, Components, Collapsed;
    if path[1..] == "" {
      NoComponents();
    } else {
      EndOf(path, 1);
    }
  }

  lemma RenderNone()
    ensures Render([]) == ""
  {
  }

  lemma {:induction false} ComponentsOfSegment(name: string, rest: string)
    requires IsComponent(name) && (rest == "" || IsSep(rest[0]))
    ensures Components(name + rest) == [name] + Components(rest)
  {
    SegmentOf(name, rest);
    assert (name + rest)[..|name|] == name && (name + rest)[|name|..] == rest;
  }

  lemma {:induction false} SegmentOf(name: string, rest: string)
    requires (forall i :: 0 <= i < |name| ==> !IsSep(name[i])) && (rest == "" || IsSep(rest[0]))
    ensures SegmentLength(name + rest) == |name|
  {
    if name == "" {
      assert name + rest == rest;
    } else {
      SegmentOf(name[1..], rest);
      assert (name + rest)[1..] == name[1..] + rest;
    }
  }

  /** Splitting what was rendered gives back the names. */
  lemma {:induction false} ComponentsOfRender(names: seq<string>)
    requires AreComponents(names)
    ensures Components(Render(names)) == names
  {
    if names != [] {
      ComponentsOfRender(names[1..]);
      var rest := if |names| == 1 then "" else "/" + Render(names[1..]);
      assert Render(names) == names[0] + rest;
      ComponentsOfSegment(names[0], rest);
      if |names| > 1 { assert rest[1..] == Render(names[1..]); }
    }
  }

  lemma ComponentsOfCanonical(rooted: bool, names: seq<string>)
    requires AreComponents(names)
    ensures Components(Canonical(rooted, names)) == if !rooted && names == [] then ["."] else names
    ensures Rooted(Canonical(rooted, names)) == rooted
  {
    ComponentsOfRender(names);
    if rooted {
      assert ("/" + Render(names))[1..] == Render(names);
    } else if names == [] {
      var dot := ".";
      ComponentsOfSegment(dot, "");
      assert dot + "" == dot;
    } else {
      RenderEnds(names);
    }
  }

  /** Two paths normalise alike exactly when they name the same components from the same start. */
  lemma SameMeaning(a: string, b: string)
    ensures Normalize(a) == Normalize(b)
            <==> Rooted(a) == Rooted(b) && (Components(a) == Components(b)
                 || (!Rooted(a) && Components(a) in {[], ["."]} && Components(b) in {[], ["."]}))
  {
    NormalizeIsCanonical(a);
    NormalizeIsCanonical(b);
    ComponentsOfCanonical(Rooted(a), Components(a));
    ComponentsOfCanonical(Rooted(b), Components(b));
  }

  /** Normalising again changes nothing. */
  lemma NormalizeIdempotent(path: string)
    ensures Normalize(Normalize(path)) == Normalize(path)
  {
    RenderOne(".");
    hide Normalize, Components, Rooted, Render;
    NormalizeIsCanonical(path);
    ComponentsOfCanonical(Rooted(path), Components(path));
    NormalizeIsCanonical(Normalize(path));
  }

  lemma RenderOne(name: string)
    ensures Render([name]) == name
  {
  }

  // ---- Joining ----

  function WithoutLeadingSeps(path: string): (r: string)
    ensures |r| <= |path| && !Rooted(r) && r == path[|path| - |r|..]
  {
    if path != "" && IsSep(path[0]) then WithoutLeadingSeps(path[1..]) else path
  }

  function Join(left: string, right: string): string {
    var tail := WithoutLeadingSeps(right);
    if left == "" then Normalize(tail)
    else if tail == "" then Normalize(left)
    else Normalize(left + (if EndsWithSep(left) then "" else "/") + tail)
  }

  lemma {:induction false} ComponentsOfTail(path: string)
    ensures Components(WithoutLeadingSeps(path)) == Components(path)
  {
    if path != "" && IsSep(path[0]) { ComponentsOfTail(path[1..]); }
  }

  lemma {:induction false} ComponentsOfConcat(left: string, right: string)
    requires left == "" || EndsWithSep(left) || Rooted(right)
    ensures Components(left + right) == Components(left) + Components(right)
    decreases |left|
  {
    ComponentsStep(left);
    ComponentsStep(left + right);
    hide Components;
    if left == "" {
      assert left + right == right;
    } else if IsSep(left[0]) {
      assert (left + right)[1..] == left[1..] + right;
      ComponentsOfConcat(left[1..], right);
    } else {
      var n := SegmentLength(left);
      ComponentsOfConcat(left[n..], right);
      ComponentsOfSegment(left[..n], left[n..] + right);
      Assoc(left[..n], left[n..], right);
      assert left[..n] + left[n..] == left;
    }
  }

  /** The joined path names the left's components and then the right's; only two empty sides give ".". */
  lemma JoinConcatenates(left: string, right: string)
    ensures var names := Components(left) + Components(right);
            Join(left, right) == Canonical(Rooted(left), names)
  {
    var tail := WithoutLeadingSeps(right);
    ComponentsOfTail(right);
    NoComponents();
    hide Normalize, Components, Canonical;
    if left == "" {
      NormalizeIsCanonical(tail);
      assert Components(left) + Components(right) == Components(tail);
    } else if tail == "" {
      NormalizeIsCanonical(left);
      assert Components(left) + Components(right) == Components(left);
    } else {
      NormalizeIsCanonical(left + (if EndsWithSep(left) then "" else "/") + tail);
      ComponentsOfJoined(left, tail);
    }
  }

  lemma ComponentsOfJoined(left: string, tail: string)
    requires left != "" && tail != ""
    ensures var whole := left + (if EndsWithSep(left) then "" else "/") + tail;
            Components(whole) == Components(left) + Components(tail) && Rooted(whole) == Rooted(left)
  {
    if EndsWithSep(left) {
      assert left + "" + tail == left + tail;
      ComponentsOfConcat(left, tail);
    } else {
      assert ("/" + tail)[1..] == tail;
      assert left + ("/" + tail) == left + "/" + tail;
      ComponentsOfConcat(left, "/" + tail);
    }
  }

  // ---- With buffers of fixed size ----

  /** Room for the collapsed text (before the trailing '/' goes) and its NUL. */
  predicate Fits(path: string, size: nat) {
    var c := Collapsed(path, false);
    size > 0 && |c| < size && (c == "" ==> size >= 2)
  }

  function NormalizeTo(path: string, size: nat): Option<string> {
    if Fits(path, size) then Some(Normalize(path)) else None
  }

  function JoinTo(left: string, right: string, size: nat): Option<string> {
    var tail := WithoutLeadingSeps(right);
    if size == 0 then None
    else if left == "" then NormalizeTo(tail, size)
    else if tail == "" then NormalizeTo(left, size)
    else if |left| + 2 + |tail| > size then None
    else Some(Join(left, right))
  }

  ghost predicate Holds(buffer: array<char>, size: nat, text: string)
    reads buffer
  {
    |text| < size <= buffer.Length && buffer[..|text|] == text && buffer[|text|] == '\0' && '\0' !in text
  }

  lemma TextAt(buffer: seq<char>, k: nat)
    requires k <= |TextOf(buffer)| < |buffer|
    ensures buffer[k] == '\0' <==> k == |TextOf(buffer)|
    ensures k < |TextOf(buffer)| ==> buffer[k] == TextOf(buffer)[k]
  {
  }

  /** Lines 21-76. `output` may be the input's own buffer. */
  method CopyNormalized(input: array<char>, start: nat, output: array<char>, outputSize: nat) returns (ok: bool, length: nat)
    requires start <= input.Length && '\0' in input[start..]
    requires outputSize <= output.Length && (input == output ==> start == 0)
    modifies output
    ensures ok <==> Fits(old(TextOf(input[start..])), outputSize)
    ensures ok ==> length == |Normalize(old(TextOf(input[start..])))|
    ensures ok ==> Holds(output, outputSize, Normalize(old(TextOf(input[start..]))))
  {
    hide Collapsed, TextOf;
    ghost var was := input[start..];
    ghost var text := TextOf(was);
    ghost var all := Collapsed(text, false);
    assert text[0..] == text;
    ok, length := false, 0;
    if outputSize == 0 {
      return;
    }
    var inI, outI := 0, 0;
    var lastWasSep := false;
    while input[start + inI] != '\0'
      invariant inI <= |text| < |was| && outI <= inI && outI < outputSize
      invariant forall k :: inI <= k < |was| ==> input[start + k] == was[k]
      invariant output[..outI] + Collapsed(text[inI..], lastWasSep) == all
      decreases |text| - inI
    {
      TextAt(was, inI);
      ghost var done, rest := output[..outI], Collapsed(text[inI + 1..], IsSep(text[inI]));
      CopyStep(text, inI, lastWasSep, done);
      var ch := input[start + inI];
      inI := inI + 1;
      var skip := IsSep(ch) && lastWasSep;
      if IsSep(ch) {
        ch := '/';
        lastWasSep := true;
      } else {
        lastWasSep := false;
      }
      if !skip {
        if outI + 1 >= outputSize {
          assert |all| >= outputSize;
          return;
        }
        output[outI] := ch;
        outI := outI + 1;
        assert output[..outI] == done + [ch];
      }
      assert output[..outI] + rest == all;
    }
    TextAt(was, inI);
    CollapsedEmpty(text[inI..], lastWasSep);
    assert all == output[..outI];
    ok, length := Finish(output, outputSize, outI, all);
  }

  /** Lines 56-75: the end of the copy. */
  method Finish(output: array<char>, outputSize: nat, written: nat, ghost all: string) returns (ok: bool, length: nat)
    requires written < outputSize <= output.Length && output[..written] == all && '\0' !in all
    modifies output
    ensures ok <==> all != "" || outputSize >= 2
    ensures ok ==> length == |Trimmed(all)| && Holds(output, outputSize, Trimmed(all))
  {
    ok, length := false, 0;
    var outI := written;
    if outI == 0 {
      if outputSize < 2 {
        return;
      }
      output[outI] := '.';
      outI := outI + 1;
    }
    if outI > 1 && output[outI - 1] == '/' {
      outI := outI - 1;
    }
    assert output[..outI] == Trimmed(all);
    output[outI] := '\0';
    assert output[..outI] == Trimmed(all);
    return true, outI;
  }

  /** Lines 84-95: the result is the same as for a separate buffer. */
  method NormalizeInPlace(path: array<char>, size: nat) returns (rc: int)
    requires size <= path.Length && '\0' in path[..]
    modifies path
    ensures rc == if Fits(old(TextOf(path[..])), size) then 0 else -1
    ensures rc == 0 ==> Holds(path, size, Normalize(old(TextOf(path[..]))))
  {
    assert path[0..] == path[..];
    var ok, _ := CopyNormalized(path, 0, path, size);
    rc := if ok then 0 else -1;
  }

  lemma SkipOne(path: string, k: nat)
    requires k < |path| && IsSep(path[k])
    ensures WithoutLeadingSeps(path[k..]) == WithoutLeadingSeps(path[k + 1..])
  {
    assert path[k..][1..] == path[k + 1..];
  }

  lemma SkipNone(path: string, k: nat)
    requires k <= |path| && (k < |path| ==> !IsSep(path[k]))
    ensures WithoutLeadingSeps(path[k..]) == path[k..]
  {
  }

  /** Lines 110-112. */
  method SkipSeps(right: array<char>) returns (rStart: nat)
    requires '\0' in right[..]
    ensures rStart <= |TextOf(right[..])| && WithoutLeadingSeps(TextOf(right[..])) == TextOf(right[..])[rStart..]
    ensures '\0' in right[rStart..] && TextOf(right[rStart..]) == TextOf(right[..])[rStart..]
  {
    hide TextOf, WithoutLeadingSeps;
    ghost var r := TextOf(right[..]);
    rStart := 0;
    assert r[0..] == r;
    while right[rStart] != '\0' && IsSep(right[rStart])
      invariant rStart <= |r| && WithoutLeadingSeps(r) == WithoutLeadingSeps(r[rStart..])
      decreases |r| - rStart
    {
      TextAt(right[..], rStart);
      SkipOne(r, rStart);
      rStart := rStart + 1;
    }
    TextAt(right[..], rStart);
    SkipNone(r, rStart);
    TextFrom(right[..], rStart);
    assert right[..][rStart..] == right[rStart..];
  }

  /** Lines 97-143. */
  method JoinInto(out: array<char>, outSize: nat, left: array<char>, right: array<char>) returns (rc: int)
    requires outSize <= out.Length && out != left && out != right && '\0' in left[..] && '\0' in right[..]
    modifies out
    ensures var r := JoinTo(TextOf(left[..]), TextOf(right[..]), outSize);
            && rc == (if r.Some? then 0 else -1)
            && (rc == 0 ==> Holds(out, outSize, r.value))
  {
    hide TextOf, Collapsed, Normalize;
    var l, r := TextOf(left[..]), TextOf(right[..]);
    if outSize == 0 {
      return -1;
    }
    var rStart := SkipSeps(right);
    var tail := r[rStart..];
    assert left[0..] == left[..];
    if |l| == 0 {
      var ok, _ := CopyNormalized(right, rStart, out, outSize);
      return if ok then 0 else -1;
    }
    if rStart >= |r| {
      var ok, _ := CopyNormalized(left, 0, out, outSize);
      return if ok then 0 else -1;
    }
    if |l| + 2 + |tail| > outSize {
      return -1;
    }
    Concatenate(out, outSize, l, tail);
    FitsWhenShorter(l + (if EndsWithSep(l) then "" else "/") + tail, outSize);
    rc := NormalizeInPlace(out, outSize);
  }

  /** Lines 132-141: both texts into the buffer, a separator between them. */
  method Concatenate(out: array<char>, outSize: nat, left: string, tail: string)
    requires left != "" && |left| + 2 + |tail| <= outSize <= out.Length && '\0' !in left && '\0' !in tail
    modifies out
    ensures '\0' in out[..] && TextOf(out[..]) == left + (if EndsWithSep(left) then "" else "/") + tail
  {
    hide TextOf;
    forall k | 0 <= k < |left| { out[k] := left[k]; }
    var i := |left|;
    assert out[..i] == left;
    ghost var glue := if EndsWithSep(left) then "" else "/";
    if i > 0 && !IsSep(out[i - 1]) {
      out[i] := '/';
      i := i + 1;
    }
    assert out[..i] == left + glue;
    forall k | 0 <= k < |tail| { out[i + k] := tail[k]; }
    out[i + |tail|] := '\0';
    ghost var front, whole := left + glue, left + glue + tail;
    assert out[..i] == front && out[i..i + |tail|] == tail;
    assert out[..i + |tail|] == out[..i] + out[i..i + |tail|];
    assert |whole| == i + |tail| && out[..][|whole|] == '\0';
    TextOfTerminated(whole, out[..]);
  }

  lemma FitsWhenShorter(path: string, size: nat)
    requires path != "" && |path| < size
    ensures Fits(path, size)
  {
  }

  lemma {:induction false} TextFrom(buffer: seq<char>, k: nat)
    requires k <= |TextOf(buffer)| < |buffer|
    ensures TextOf(buffer[k..]) == TextOf(buffer)[k..] && '\0' in buffer[k..]
  {
    assert buffer[k..][|TextOf(buffer)| - k] == '\0';
    TextOfTerminated(TextOf(buffer)[k..], buffer[k..]);
  }

  // ---- Parent references ----

  /** Lines 214-239. */
  method HasParentReference(path: string) returns (found: bool)
    ensures found <==> ".." in Components(path)
  {
    hide Components;
    var segment, cursor := 0, 0;
    assert path[0..] == path;
    found := false;
    while true
      invariant segment <= cursor <= |path|
      invariant forall i :: segment <= i < cursor ==> !IsSep(path[i])
      invariant ".." in Components(path) <==> ".." in Components(path[segment..])
      decreases |path| - cursor
    {
      if cursor == |path| || IsSep(path[cursor]) {
        SegmentIs(path[segment..], cursor - segment);
        if cursor - segment == 2 && path[segment] == '.' && path[segment + 1] == '.' {
          return true;
        }
        if cursor == |path| {
          break;
        }
        assert path[segment..][cursor - segment + 1..] == path[cursor + 1..];
        segment := cursor + 1;
      }
      cursor := cursor + 1;
    }
  }

  /** Whether ".." occurs is settled by the first stretch and by what follows its separator. */
  lemma SegmentIs(path: string, n: nat)
    requires n <= |path| && (forall i :: 0 <= i < n ==> !IsSep(path[i])) && (n < |path| ==> IsSep(path[n]))
    ensures ".." in Components(path) <==> path[..n] == ".." || (n < |path| && ".." in Components(path[n + 1..]))
  {
    assert path[..n] + path[n..] == path;
    SegmentOf(path[..n], path[n..]);
    ComponentsStep(path);
    ComponentsStep(path[n..]);
    hide Components;
    if n < |path| { assert path[n..][1..] == path[n + 1..]; }
  }
}
