/** `util/path.cc`: lexical normalisation and joining of paths. */
module Paths {
  import opened Sequences
  import opened Splitting

  predicate IsAbsolutePath(path: string) {
    path != "" && path[0] == '/'
  }

  function FirstSlash(s: string): nat { First(s, '/') }

  /** `absl::StrSplit(s, '/', absl::SkipEmpty())`. */
  function Components(s: string): seq<string> { Pieces(s, '/') }

  /** `absl::StrJoin(parts, "/")`. */
  function Join(parts: seq<string>): string { JoinWith(parts, '/') }

  /** The deque of parts and the count of leading `..` while a path is scanned. */
  datatype Scan = Scan(ups: nat, parts: seq<string>)

  function Step(a: Scan, part: string): Scan {
    if part == ".." then
      if a.parts == [] then Scan(a.ups + 1, []) else Scan(a.ups, a.parts[..|a.parts| - 1])
    else if part == "." then a
    else Scan(a.ups, a.parts + [part])
  }

  function ScanAll(a: Scan, cs: seq<string>): Scan
    decreases |cs|
  {
    if cs == [] then a else ScanAll(Step(a, cs[0]), cs[1..])
  }

  function Ups(n: nat): (r: seq<string>)
    ensures |r| == n && forall i :: 0 <= i < n ==> r[i] == ".."
  {
    seq(n, _ => "..")
  }

  /** The components that remain. */
  function Remaining(absolute: bool, a: Scan): seq<string> {
    if absolute then a.parts else Ups(a.ups) + a.parts
  }

  function Render(absolute: bool, cs: seq<string>): string {
    if absolute then (if cs == [] then "/" else Join([""] + cs))
    else if cs == [] then "." else Join(cs)
  }

  /** The components of the cleaned path. */
  function CleanParts(path: string): seq<string> {
    Remaining(IsAbsolutePath(path), ScanAll(Scan(0, []), Components(path)))
  }

  function Clean(path: string): string {
    Render(IsAbsolutePath(path), CleanParts(path))
  }

  method PushDotDots(dotdotNum: nat, parts: seq<string>) returns (r: seq<string>)
    ensures r == Ups(dotdotNum) + parts
  {
    r := parts;
    for i := 0 to dotdotNum
      invariant r == Ups(i) + parts
    {
      assert [".."] + Ups(i) == Ups(i + 1);
      Associates([".."], Ups(i), parts);
      r := [".."] + r;
    }
  }

  method CleanPath(uncleanPath: string) returns (r: string)
    ensures r == Clean(uncleanPath)
  {
    var dotdotNum: nat := 0;
    var parts: seq<string> := [];
    var cs := Components(uncleanPath);
    for i := 0 to |cs|
      invariant ScanAll(Scan(0, []), cs) == ScanAll(Scan(dotdotNum, parts), cs[i..])
    {
      if cs[i] == ".." {
        if parts == [] {
          dotdotNum := dotdotNum + 1;
        } else {
          parts := parts[..|parts| - 1];
        }
      } else if cs[i] != "." {
        parts := parts + [cs[i]];
      }
    }
    if IsAbsolutePath(uncleanPath) {
      if parts == [] {
        return "/";
      }
      parts := [""] + parts;
    } else {
      parts := PushDotDots(dotdotNum, parts);
      if parts == [] {
        return ".";
      }
    }
    return Join(parts);
  }

  /** `internal::JoinPathImpl`, one path. */
  function JoinStep(result: string, path: string): string {
    if path == "" then result
    else if result == "" then path
    else
      var comp := if path[0] == '/' then path[1..] else path;
      if result[|result| - 1] == '/' then result + comp else result + "/" + comp
  }

  function JoinAll(result: string, paths: seq<string>): string
    decreases |paths|
  {
    if paths == [] then result else JoinAll(JoinStep(result, paths[0]), paths[1..])
  }

  function JoinPath(a: string, b: string): string { JoinStep(JoinStep("", a), b) }

  /** The components of all paths, in order. */
  function AllComponents(paths: seq<string>): seq<string> {
    if paths == [] then [] else Components(paths[0]) + AllComponents(paths[1..])
  }

  /** The first path that is not empty is absolute. */
  predicate StartsAbsolute(paths: seq<string>) {
    paths != [] && if paths[0] == "" then StartsAbsolute(paths[1..]) else IsAbsolutePath(paths[0])
  }

  /** Joins any number of paths: the components of the result are those of the paths, in order, and
      it is absolute exactly when the first path that is not empty is. */
  method JoinPathImpl(paths: seq<string>) returns (result: string)
    ensures Components(result) == AllComponents(paths)
    ensures IsAbsolutePath(result) <==> StartsAbsolute(paths)
    ensures result == JoinAll("", paths)
  {
    JoinAllKeeps("", paths);
    result := "";
    for i := 0 to |paths|
      invariant JoinAll("", paths) == JoinAll(result, paths[i..])
    {
      var path := paths[i];
      if path == "" {
        continue;
      }
      if result == "" {
        result := path;
        continue;
      }
      var comp := if path[0] == '/' then path[1..] else path;
      if result[|result| - 1] == '/' {
        result := result + comp;
      } else {
        result := result + "/" + comp;
      }
    }
  }

  // ----- splitting and joining -----

  predicate Component(c: string) {
    Piece(c, '/')
  }

  /** A component that names something: neither `.` nor `..`. */
  predicate Proper(c: string) {
    Component(c) && c != "." && c != ".."
  }

  lemma JoinAbsolute(cs: seq<string>)
    requires cs != []
    ensures Join([""] + cs) == "/" + Join(cs)
  {
    assert ([""] + cs)[1..] == cs;
  }

  lemma JoinStart(cs: seq<string>)
    requires cs != [] && Component(cs[0])
    ensures Join(cs) != "" && Join(cs)[0] == cs[0][0] != '/'
  {
    assert cs[0][0] in cs[0];
  }

  /** Rendering keeps the components, except that no component is rendered as `.`. */
  lemma RenderKeeps(absolute: bool, cs: seq<string>)
    requires forall c :: c in cs ==> Component(c)
    ensures IsAbsolutePath(Render(absolute, cs)) == absolute
    ensures Components(Render(absolute, cs)) == if cs == [] && !absolute then ["."] else cs
  {
    if cs == [] {
      assert "/"[1..] == "";
      PiecesOne(".", '/');
    } else {
      PiecesJoin(cs, '/');
      JoinStart(cs);
      if absolute {
        JoinAbsolute(cs);
        assert ("/" + Join(cs))[1..] == Join(cs);
      }
    }
  }

  // ----- scanning -----

  lemma {:induction false} ScanAppend(a: Scan, cs: seq<string>, ds: seq<string>)
    ensures ScanAll(a, cs + ds) == ScanAll(ScanAll(a, cs), ds)
    decreases |cs|
  {
    if cs == [] {
      assert cs + ds == ds;
    } else {
      assert (cs + ds)[1..] == cs[1..] + ds;
      ScanAppend(Step(a, cs[0]), cs[1..], ds);
    }
  }

  /** The parts collected are always proper. */
  lemma {:induction false} ScanProper(a: Scan, cs: seq<string>)
    requires forall c :: c in a.parts ==> Proper(c)
    requires forall c :: c in cs ==> Component(c)
    ensures forall c :: c in ScanAll(a, cs).parts ==> Proper(c)
    decreases |cs|
  {
    if cs != [] {
      assert cs[0] in cs;
      ScanProper(Step(a, cs[0]), cs[1..]);
    }
  }

  /** Proper parts are collected as they are. */
  lemma {:induction false} ScanParts(a: Scan, cs: seq<string>)
    requires forall c :: c in cs ==> Proper(c)
    ensures ScanAll(a, cs) == Scan(a.ups, a.parts + cs)
    decreases |cs|
  {
    if cs != [] {
      assert cs[0] in cs;
      ScanParts(Step(a, cs[0]), cs[1..]);
      assert a.parts + [cs[0]] + cs[1..] == a.parts + cs;
    }
  }

  lemma {:induction false} ScanUps(n: nat, m: nat)
    ensures ScanAll(Scan(m, []), Ups(n)) == Scan(m + n, [])
    decreases n
  {
    if n > 0 {
      assert Ups(n)[1..] == Ups(n - 1);
      ScanUps(n - 1, m + 1);
    }
  }

  /** What precedes the root does not matter to the parts. */
  lemma {:induction false} ScanSameParts(a: Scan, b: Scan, cs: seq<string>)
    requires a.parts == b.parts
    ensures ScanAll(a, cs).parts == ScanAll(b, cs).parts
    decreases |cs|
  {
    if cs != [] {
      ScanSameParts(Step(a, cs[0]), Step(b, cs[0]), cs[1..]);
    }
  }

  // ----- cleaning -----

  /** `..` only as a leading run, and only in a relative path; everything else is proper. */
  ghost predicate CleanShape(absolute: bool, cs: seq<string>) {
    exists n: nat :: CleanShapeAt(absolute, cs, n)
  }

  ghost predicate CleanShapeAt(absolute: bool, cs: seq<string>, n: nat) {
    && n <= |cs| && (absolute ==> n == 0)
    && (forall i :: 0 <= i < n ==> cs[i] == "..")
    && (forall i :: n <= i < |cs| ==> Proper(cs[i]))
  }

  lemma CleanPartsShape(path: string)
    ensures CleanShape(IsAbsolutePath(path), CleanParts(path))
    ensures forall c :: c in CleanParts(path) ==> Component(c)
  {
    PiecesArePieces(path, '/');
    ScanProper(Scan(0, []), Components(path));
    var a := ScanAll(Scan(0, []), Components(path));
    assert CleanShapeAt(IsAbsolutePath(path), CleanParts(path), if IsAbsolutePath(path) then 0 else a.ups);
  }

  lemma {:induction false} Rescan(absolute: bool, a: Scan)
    requires forall c :: c in a.parts ==> Proper(c)
    ensures var cs := Remaining(absolute, a);
            ScanAll(Scan(0, []), if cs == [] && !absolute then ["."] else cs)
            == if absolute then Scan(0, a.parts) else a
  {
    if absolute {
      ScanParts(Scan(0, []), a.parts);
    } else if a == Scan(0, []) {
      assert ScanAll(Scan(0, []), ["."]) == ScanAll(Scan(0, []), ["."][1..]);
    } else {
      ScanAppend(Scan(0, []), Ups(a.ups), a.parts);
      ScanUps(a.ups, 0);
      ScanParts(Scan(a.ups, []), a.parts);
    }
  }

  /** Scanning the components of a cleaned path again finds the same parts. */
  lemma ScanCleaned(path: string)
    ensures IsAbsolutePath(Clean(path)) == IsAbsolutePath(path)
    ensures var a := ScanAll(Scan(0, []), Components(path));
            ScanAll(Scan(0, []), Components(Clean(path))) == if IsAbsolutePath(path) then Scan(0, a.parts) else a
  {
    var a := ScanAll(Scan(0, []), Components(path));
    CleanPartsShape(path);
    RenderKeeps(IsAbsolutePath(path), CleanParts(path));
    PiecesArePieces(path, '/');
    ScanProper(Scan(0, []), Components(path));
    Rescan(IsAbsolutePath(path), a);
  }

  /** Cleaning twice is cleaning once. */
  lemma CleanIdempotent(path: string)
    ensures Clean(Clean(path)) == Clean(path)
    ensures CleanParts(Clean(path)) == CleanParts(path)
  {
    ScanCleaned(path);
  }

  /** The form of a cleaned path: absoluteness is kept, it is the canonical spelling of its
      components, `.` is only the whole path, and `..` only leads a relative path. */
  lemma CleanForm(path: string)
    ensures IsAbsolutePath(Clean(path)) == IsAbsolutePath(path)
    ensures Clean(path) == "." || (CleanShape(IsAbsolutePath(path), Components(Clean(path)))
                                   && Clean(path) == Render(IsAbsolutePath(path), Components(Clean(path))))
  {
    CleanPartsShape(path);
    RenderKeeps(IsAbsolutePath(path), CleanParts(path));
  }

  /** A prefix can be cleaned before the rest is appended, exactly when it is not empty. */
  lemma CleanPrefix(a: string, b: string)
    ensures Clean(a + "/" + b) == Clean(Clean(a) + "/" + b) <==> a != ""
  {
    var s, t := a + "/" + b, Clean(a) + "/" + b;
    ScanCleaned(a);
    ScanCleaned(s);
    ScanCleaned(t);
    if a != "" {
      PiecesAppend(a, b, '/');
      PiecesAppend(Clean(a), b, '/');
      ScanAppend(Scan(0, []), Components(a), Components(b));
      ScanAppend(Scan(0, []), Components(Clean(a)), Components(b));
      if IsAbsolutePath(a) {
        ScanSameParts(ScanAll(Scan(0, []), Components(a)), ScanAll(Scan(0, []), Components(Clean(a))), Components(b));
      }
      CleanNotEmpty(a);
      assert IsAbsolutePath(s) == IsAbsolutePath(a) && IsAbsolutePath(t) == IsAbsolutePath(Clean(a));
    }
  }

  lemma CleanNotEmpty(path: string)
    ensures Clean(path) != ""
  {
    var cs := CleanParts(path);
    CleanPartsShape(path);
    if cs != [] {
      JoinStart(cs);
      JoinAbsolute(cs);
    }
  }

  // ----- joining -----

  lemma JoinStepComponents(a: string, b: string)
    ensures Components(JoinStep(a, b)) == Components(a) + Components(b)
  {
    if a != "" && b != "" {
      var comp := if b[0] == '/' then b[1..] else b;
      if a[|a| - 1] == '/' {
        var a' := a[..|a| - 1];
        assert a + comp == a' + "/" + comp;
        assert a == a' + "/" + "";
        PiecesAppend(a', comp, '/');
        PiecesAppend(a', "", '/');
      } else {
        PiecesAppend(a, comp, '/');
      }
    }
  }

  lemma {:induction false} JoinAllKeeps(result: string, paths: seq<string>)
    ensures Components(JoinAll(result, paths)) == Components(result) + AllComponents(paths)
    ensures IsAbsolutePath(JoinAll(result, paths))
            <==> if result == "" then StartsAbsolute(paths) else IsAbsolutePath(result)
    decreases |paths|
  {
    if paths != [] {
      JoinStepComponents(result, paths[0]);
      JoinAllKeeps(JoinStep(result, paths[0]), paths[1..]);
    }
  }

  /** Joining two paths and writing a separator between them clean to the same path. */
  lemma JoinPathCleans(a: string, b: string)
    requires a != ""
    ensures Clean(JoinPath(a, b)) == Clean(a + "/" + b)
  {
    JoinStepComponents(a, b);
    PiecesAppend(a, b, '/');
    assert IsAbsolutePath(JoinPath(a, b)) == IsAbsolutePath(a);
  }
}
