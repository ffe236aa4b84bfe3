/** Containment of an artifact path in an artifact root, decided on normalised parts. */
module ArtifactPath {

  /** `value.replace(/\\/g, "/")`. */
  function Forward(value: string): string {
    seq(|value|, i requires 0 <= i < |value| => if value[i] == '\\' then '/' else value[i])
  }

  /** `value.split("/")`. */
  function Split(value: string): (segments: seq<string>)
    ensures segments != []
  {
    if value == [] then [""] else Prepend(value[0], Split(value[1..]))
  }

  /** The segments when one more character stands in front. */
  function Prepend(c: char, segments: seq<string>): (r: seq<string>)
    requires segments != []
    ensures r != []
  {
    if c == '/' then [""] + segments else [[c] + segments[0]] + segments[1..]
  }

  /** The effect of one segment on the stack of parts. */
  function Step(parts: seq<string>, segment: string): seq<string> {
    if segment == "" || segment == "." then parts
    else if segment == ".." then (if parts == [] then [] else parts[..|parts| - 1])
    else parts + [segment]
  }

  function Walk(parts: seq<string>, segments: seq<string>): seq<string>
    decreases |segments|
  {
    if segments == [] then parts else Walk(Step(parts, segments[0]), segments[1..])
  }

  function Normalize(value: string): seq<string> {
    Walk([], Split(Forward(value)))
  }

  method NormalizePathParts(value: string) returns (parts: seq<string>)
    ensures parts == Normalize(value)
  {
    parts := [];
    var segments := Split(Forward(value));
    for k := 0 to |segments|
      invariant Walk(parts, segments[k..]) == Normalize(value)
    {
      var part := segments[k];
      assert segments[k..][0] == part && segments[k..][1..] == segments[k + 1..];
      if part == "" || part == "." {
        continue;
      }
      if part == ".." {
        if parts != [] {
          parts := parts[..|parts| - 1];
        }
        continue;
      }
      parts := parts + [part];
    }
  }

  predicate IsLetter(c: char) {
    'a' <= c <= 'z' || 'A' <= c <= 'Z'
  }

  predicate IsAbsolute(value: string) {
    (value != [] && value[0] == '/') ||
    (|value| >= 3 && IsLetter(value[0]) && value[1] == ':' && (value[2] == '\\' || value[2] == '/'))
  }

  predicate IsRootContained(artifactRoot: string, artifactPath: string) {
    var raw := Split(Forward(artifactPath));
    if !IsAbsolute(artifactPath) && ".." in raw then false
    else
      var root, target := Normalize(artifactRoot), Normalize(artifactPath);
      if root == [] || target == [] || '\0' in artifactPath then false
      else if IsAbsolute(artifactPath) then root <= target
      else ".." !in target
  }

  /** Where an artifact path leads: an absolute one on its own, a relative one from the root. */
  function Resolve(artifactRoot: string, artifactPath: string): seq<string> {
    if IsAbsolute(artifactPath) then Normalize(artifactPath)
    else Normalize(artifactRoot + "/" + artifactPath)
  }

  /** Absolute is what begins with a slash, or with a drive letter, a colon and either slash. */
  lemma AbsoluteIs(value: string)
    ensures IsAbsolute(value) <==>
            "/" <= value ||
            exists drive: char, slash: char :: [drive, ':', slash] <= value && slash in "/\\" &&
              (0x41 <= drive as int <= 0x5A || 0x61 <= drive as int <= 0x7A)
  {
    if |value| >= 3 {
      assert value[2] in "/\\" <==> value[2] == '/' || value[2] == '\\';
      assert value[1] == ':' ==> [value[0], ':', value[2]] <= value;
    }
  }

  function Join(segments: seq<string>): string {
    if segments == [] then ""
    else if |segments| == 1 then segments[0]
    else segments[0] + "/" + Join(segments[1..])
  }

  /** The segments are what stands between slashes: they hold none, and joined by slashes they are the text again. */
  lemma {:induction false} SplitIs(value: string)
    ensures Join(Split(value)) == value
    ensures forall segment <- Split(value) :: '/' !in segment
    decreases |value|
  {
    if value != [] {
      assert Split(value) == Prepend(value[0], Split(value[1..]));
      assert value == [value[0]] + value[1..];
      hide Split, Prepend, Join;
      SplitIs(value[1..]);
      JoinPrepended(value[0], Split(value[1..]));
    }
  }

  lemma JoinPrepended(c: char, segments: seq<string>)
    requires segments != [] && forall segment <- segments :: '/' !in segment
    ensures Join(Prepend(c, segments)) == [c] + Join(segments)
    ensures forall segment <- Prepend(c, segments) :: '/' !in segment
  {
    var all := Prepend(c, segments);
    if c == '/' {
      assert all[1..] == segments;
      assert Join(all) == "" + "/" + Join(segments);
    } else {
      assert all[1..] == segments[1..] && all[0] == [c] + segments[0];
      assert segments[0] in segments && forall segment <- segments[1..] :: segment in segments;
    }
  }

  /** Backslashes become slashes, and nothing else changes. */
  lemma ForwardIs(value: string)
    ensures |Forward(value)| == |value| && '\\' !in Forward(value)
    ensures forall i: nat | i < |value| && value[i] != '\\' :: Forward(value)[i] == value[i]
    ensures forall i: nat | i < |value| && value[i] == '\\' :: Forward(value)[i] == '/'
  {
  }

  lemma PrependConcat(c: char, a: seq<string>, b: seq<string>)
    requires a != []
    ensures Prepend(c, a + b) == Prepend(c, a) + b
  {
    assert (a + b)[0] == a[0] && (a + b)[1..] == a[1..] + b;
  }

  lemma {:induction false} SplitJoin(a: string, b: string)
    ensures Split(a + "/" + b) == Split(a) + Split(b)
    decreases |a|
  {
    var joined := a + "/" + b;
    if a == [] {
      assert joined[0] == '/' && joined[1..] == b;
      assert Split(joined) == Prepend('/', Split(b));
    } else {
      assert joined[0] == a[0] && joined[1..] == a[1..] + "/" + b;
      assert Split(joined) == Prepend(a[0], Split(joined[1..]));
      assert Split(a) == Prepend(a[0], Split(a[1..]));
      hide Split;
      SplitJoin(a[1..], b);
      PrependConcat(a[0], Split(a[1..]), Split(b));
    }
  }

  lemma {:induction false} WalkConcat(parts: seq<string>, a: seq<string>, b: seq<string>)
    ensures Walk(parts, a + b) == Walk(Walk(parts, a), b)
    decreases |a|
  {
    if a == [] {
      assert a + b == b;
    } else {
      assert (a + b)[1..] == a[1..] + b;
      WalkConcat(Step(parts, a[0]), a[1..], b);
    }
  }

  /** Normalising a join walks the second path from where the first one leads. */
  lemma NormalizeJoin(root: string, path: string)
    ensures Normalize(root + "/" + path) == Walk(Normalize(root), Split(Forward(path)))
  {
    assert Forward(root + "/" + path) == Forward(root) + "/" + Forward(path);
    SplitJoin(Forward(root), Forward(path));
    WalkConcat([], Split(Forward(root)), Split(Forward(path)));
  }

  /** A part: what a path can lead into. */
  ghost predicate Plain(name: string) {
    name != "" && name != "." && name != ".." && '/' !in name && '\\' !in name
  }

  lemma {:induction false} SplitPlain(name: string)
    requires '/' !in name
    ensures Split(name) == [name]
    decreases |name|
  {
    if name != [] {
      assert name == [name[0]] + name[1..] && name[0] != '/';
      SplitPlain(name[1..]);
    }
  }

  /** The segments of a path that goes into a directory and out of it again. */
  lemma DetourSegments(name: string, path: string)
    requires Plain(name)
    ensures Split(Forward(name + "/../" + path)) == [name] + ([".."] + Split(Forward(path)))
  {
    assert Forward(name + "/../" + path) == name + "/" + (".." + "/" + Forward(path));
    SplitJoin(name, ".." + "/" + Forward(path));
    SplitJoin("..", Forward(path));
    SplitPlain(name);
    SplitPlain("..");
    hide Split, Forward;
  }

  lemma WalkDetour(parts: seq<string>, name: string, rest: seq<string>)
    requires Plain(name)
    ensures Walk(parts, [name] + ([".."] + rest)) == Walk(parts, rest)
  {
    assert ([name] + ([".."] + rest))[1..] == [".."] + rest && ([".."] + rest)[1..] == rest;
    assert Step(parts, name) == parts + [name];
    assert Step(parts + [name], "..") == parts;
  }

  /** Going into a directory and out of it again leads nowhere. */
  lemma ParentUndoes(root: string, name: string, path: string)
    requires Plain(name)
    ensures Normalize(root + "/" + (name + "/../" + path)) == Normalize(root + "/" + path)
  {
    var detour := name + "/../" + path;
    hide *;
    NormalizeJoin(root, detour);
    NormalizeJoin(root, path);
    DetourSegments(name, path);
    WalkDetour(Normalize(root), name, Split(Forward(path)));
  }

  /** There is nothing above the root. */
  lemma NothingAboveRoot(path: string)
    ensures Normalize("../" + path) == Normalize(path)
  {
    assert "../" + path == ".." + "/" + path;
    NormalizeJoin("..", path);
    SplitPlain("..");
    assert Forward("..") == "..";
    assert Normalize("..") == Walk([], [".."]) == [];
  }

  /** Segments without `..` only add to the parts they start from, and add the same everywhere. */
  lemma {:induction false} WalkOnlyAdds(parts: seq<string>, segments: seq<string>)
    requires ".." !in segments
    ensures Walk(parts, segments) == parts + Walk([], segments)
    decreases |segments|
  {
    if segments == [] {
      assert parts + [] == parts;
    } else {
      var first := Step([], segments[0]);
      assert segments[0] in segments;
      assert Step(parts, segments[0]) == parts + first;
      WalkOnlyAdds(parts + first, segments[1..]);
      WalkOnlyAdds(first, segments[1..]);
      assert parts + first + Walk([], segments[1..]) == parts + (first + Walk([], segments[1..]));
    }
  }

  /** No normalised part is empty, `.` or `..`. */
  lemma {:induction false} WalkClean(parts: seq<string>, segments: seq<string>)
    requires forall p <- parts :: p != "" && p != "." && p != ".."
    ensures forall p <- Walk(parts, segments) :: p != "" && p != "." && p != ".."
    decreases |segments|
  {
    if segments != [] {
      WalkClean(Step(parts, segments[0]), segments[1..]);
    }
  }

  /** An accepted path leads inside the root: the root's parts come first.  A relative one leads to
      exactly its own parts below the root. */
  lemma ContainmentSound(artifactRoot: string, artifactPath: string)
    requires IsRootContained(artifactRoot, artifactPath)
    ensures Normalize(artifactRoot) != [] && Normalize(artifactRoot) <= Resolve(artifactRoot, artifactPath)
    ensures !IsAbsolute(artifactPath) ==>
              Resolve(artifactRoot, artifactPath) == Normalize(artifactRoot) + Normalize(artifactPath)
              && Normalize(artifactRoot) < Resolve(artifactRoot, artifactPath)
  {
    if !IsAbsolute(artifactPath) {
      NormalizeJoin(artifactRoot, artifactPath);
      WalkOnlyAdds(Normalize(artifactRoot), Split(Forward(artifactPath)));
    }
  }

  /** What is refused: paths with a NUL, paths or roots without parts, relative paths with a `..`
      segment, and absolute paths that lead outside.  The last check on `..` never refuses. */
  lemma ContainmentComplete(artifactRoot: string, artifactPath: string)
    requires '\0' !in artifactPath && Normalize(artifactRoot) != [] && Normalize(artifactPath) != []
    ensures IsAbsolute(artifactPath) ==>
              (IsRootContained(artifactRoot, artifactPath) <==>
               Normalize(artifactRoot) <= Resolve(artifactRoot, artifactPath))
    ensures !IsAbsolute(artifactPath) ==>
              (IsRootContained(artifactRoot, artifactPath) <==> ".." !in Split(Forward(artifactPath)))
  {
    WalkClean([], Split(Forward(artifactPath)));
  }
}
