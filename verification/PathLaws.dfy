/** What cleaning a path means: it leads to the same place, and nothing shorter of its kind does. */
module PathLaws {
  import opened Sequences
  import opened Splitting
  import opened Paths

  // ----- where a path leads -----

  /** One step from a place, which is the list of names on the way from the root. */
  function Go(at: seq<string>, c: string): seq<string> {
    if c == "." then at
    else if c == ".." then if at == [] then [] else at[..|at| - 1]
    else at + [c]
  }

  function Walk(at: seq<string>, cs: seq<string>): seq<string>
    decreases |cs|
  {
    if cs == [] then at else Walk(Go(at, cs[0]), cs[1..])
  }

  /** The place that a path leads to from a working directory, in a tree without links. */
  function Place(cwd: seq<string>, path: string): seq<string> {
    Walk(if IsAbsolutePath(path) then [] else cwd, Components(path))
  }

  /** `n` levels up, or the root. */
  function Above(at: seq<string>, n: nat): seq<string> { if n > |at| then [] else at[..|at| - n] }

  /** The place that a scan stands for. */
  function Reached(at: seq<string>, a: Scan): seq<string> { Above(at, a.ups) + a.parts }

  lemma {:induction false} WalkScans(at: seq<string>, a: Scan, cs: seq<string>)
    ensures Walk(Reached(at, a), cs) == Reached(at, ScanAll(a, cs))
    decreases |cs|
  {
    if cs != [] {
      assert Go(Reached(at, a), cs[0]) == Reached(at, Step(a, cs[0]));
      WalkScans(at, Step(a, cs[0]), cs[1..]);
    }
  }

  lemma PlaceScans(cwd: seq<string>, path: string)
    ensures Place(cwd, path)
            == Reached(if IsAbsolutePath(path) then [] else cwd, ScanAll(Scan(0, []), Components(path)))
  {
    var at := if IsAbsolutePath(path) then [] else cwd;
    WalkScans(at, Scan(0, []), Components(path));
    assert Reached(at, Scan(0, [])) == at;
  }

  /** A cleaned path leads where the path does, from every directory. */
  lemma CleanKeepsPlace(cwd: seq<string>, path: string)
    ensures Place(cwd, Clean(path)) == Place(cwd, path)
  {
    PlaceScans(cwd, path);
    PlaceScans(cwd, Clean(path));
    ScanCleaned(path);
  }

  // ----- there is only one clean path to a place -----

  /** `.`, or the canonical spelling of leading `..` and proper components. */
  ghost predicate Canonical(r: string) {
    r == "." || (CleanShape(IsAbsolutePath(r), Components(r)) && r == Render(IsAbsolutePath(r), Components(r)))
  }

  /** Leading `..` and proper components scan to themselves. */
  lemma ShapeScans(absolute: bool, cs: seq<string>, n: nat)
    requires CleanShapeAt(absolute, cs, n)
    ensures ScanAll(Scan(0, []), cs) == Scan(n, cs[n..]) && Remaining(absolute, Scan(n, cs[n..])) == cs
  {
    var ups, names := Ups(n), cs[n..];
    assert cs == ups + names;
    assert absolute ==> cs[0..] == cs;
    ScanAppend(Scan(0, []), ups, names);
    ScanUps(n, 0);
    ScanParts(Scan(n, []), names);
    assert [] + names == names;
  }

  /** What a canonical path scans to, and that the scan determines the path. */
  lemma CanonicalScan(r: string) returns (a: Scan)
    requires Canonical(r)
    ensures ScanAll(Scan(0, []), Components(r)) == a && (IsAbsolutePath(r) ==> a.ups == 0)
    ensures r == Render(IsAbsolutePath(r), Remaining(IsAbsolutePath(r), a))
  {
    var cs := Components(r);
    a := ScanAll(Scan(0, []), cs);
    if r == "." {
      PiecesOne(".", '/');
      assert ScanAll(Scan(0, []), ["."]) == Step(Scan(0, []), ".");
    } else {
      var n: nat :| CleanShapeAt(IsAbsolutePath(r), cs, n);
      ShapeScans(IsAbsolutePath(r), cs, n);
    }
  }

  /** Scans that lead to the same places are the same. */
  lemma ReachedOnce(a: Scan, b: Scan)
    requires forall at :: Reached(at, a) == Reached(at, b)
    ensures a == b
  {
    assert Reached([], a) == a.parts && Reached([], b) == b.parts;
    var at := Ups(a.ups + b.ups);
    assert |Reached(at, a)| == b.ups + |a.parts| && |Reached(at, b)| == a.ups + |b.parts|;
  }

  /** The cleaned path is the only canonical one of its kind that leads where the path does. */
  lemma CleanUnique(path: string, r: string)
    requires IsAbsolutePath(r) == IsAbsolutePath(path) && Canonical(r)
    requires forall cwd :: Place(cwd, r) == Place(cwd, path)
    ensures r == Clean(path)
  {
    var absolute, c := IsAbsolutePath(path), Clean(path);
    CleanForm(path);
    var a := CanonicalScan(r);
    var b := CanonicalScan(c);
    if absolute {
      SameReach([], path, r, c);
      assert Reached([], a) == a.parts && Reached([], b) == b.parts;
    } else {
      forall at ensures Reached(at, a) == Reached(at, b) {
        SameReach(at, path, r, c);
      }
      ReachedOnce(a, b);
    }
  }

  lemma SameReach(cwd: seq<string>, path: string, r: string, c: string)
    requires Place(cwd, r) == Place(cwd, path) && c == Clean(path) && IsAbsolutePath(r) == IsAbsolutePath(c)
    ensures var at := if IsAbsolutePath(r) then [] else cwd;
            Reached(at, ScanAll(Scan(0, []), Components(r))) == Reached(at, ScanAll(Scan(0, []), Components(c)))
  {
    CleanKeepsPlace(cwd, path);
    PlaceScans(cwd, r);
    PlaceScans(cwd, c);
  }

  // ----- single steps -----

  lemma SameScanCleans(s: string, t: string)
    requires IsAbsolutePath(s) == IsAbsolutePath(t)
    requires ScanAll(Scan(0, []), Components(s)) == ScanAll(Scan(0, []), Components(t))
    ensures Clean(s) == Clean(t)
  {
  }

  /** A component and the `..` behind it can be left out. */
  lemma DotDotRemoves(a: string, c: string, b: string)
    requires a != "" && Proper(c)
    ensures Clean(a + "/" + c + "/../" + b) == Clean(a + "/" + b)
  {
    var x := Scan(0, []);
    var p, q := a + "/" + c, a + "/" + c + "/" + "..";
    assert a + "/" + c + "/../" + b == q + "/" + b;
    PiecesAppend(a, c, '/');
    PiecesAppend(p, "..", '/');
    PiecesAppend(q, b, '/');
    PiecesAppend(a, b, '/');
    PiecesOne(c, '/');
    PiecesOne("..", '/');
    ScanAppend(x, Components(a), [c]);
    ScanAppend(x, Components(p), [".."]);
    ScanAppend(x, Components(q), Components(b));
    ScanAppend(x, Components(a), Components(b));
    var y := ScanAll(x, Components(a));
    assert ScanAll(y, [c]) == Step(y, c) && ScanAll(Step(y, c), [".."]) == Step(Step(y, c), "..") == y;
    SameScanCleans(a + "/" + c + "/../" + b, a + "/" + b);
  }

  /** So can a `.`. */
  lemma DotRemoves(a: string, b: string)
    requires a != ""
    ensures Clean(a + "/./" + b) == Clean(a + "/" + b)
  {
    var x, p := Scan(0, []), a + "/" + ".";
    assert a + "/./" + b == p + "/" + b;
    PiecesAppend(a, ".", '/');
    PiecesAppend(p, b, '/');
    PiecesAppend(a, b, '/');
    PiecesOne(".", '/');
    ScanAppend(x, Components(a), ["."]);
    ScanAppend(x, Components(p), Components(b));
    ScanAppend(x, Components(a), Components(b));
    var y := ScanAll(x, Components(a));
    assert ScanAll(y, ["."]) == Step(y, ".") == y;
    SameScanCleans(a + "/./" + b, a + "/" + b);
  }

  /** A `..` at the root leads nowhere else. */
  lemma DotDotAtRoot(b: string)
    ensures Clean("/../" + b) == Clean("/" + b)
  {
    var s, t := "/../" + b, "/" + b;
    assert s == "/.." + "/" + b && "/.." == "" + "/" + ".." && t == "" + "/" + b;
    PiecesAppend("", "..", '/');
    PiecesAppend("/..", b, '/');
    PiecesAppend("", b, '/');
    PiecesOne("..", '/');
    ScanAppend(Scan(0, []), [".."], Components(b));
    assert ScanAll(Scan(0, []), [".."]) == Scan(1, []);
    ScanSameParts(Scan(1, []), Scan(0, []), Components(b));
  }

  /** An absolute path of proper components is kept. */
  lemma ProperIsKept(cs: seq<string>)
    requires forall c :: c in cs ==> Proper(c)
    ensures Clean("/" + Join(cs)) == "/" + Join(cs) && CleanParts("/" + Join(cs)) == cs
  {
    assert "/" + Join(cs) == "" + "/" + Join(cs);
    PiecesAppend("", Join(cs), '/');
    PiecesJoin(cs, '/');
    ScanParts(Scan(0, []), cs);
    if cs != [] {
      JoinAbsolute(cs);
    }
  }

  // ----- joining -----

  lemma {:induction false} JoinAppend(a: seq<string>, b: seq<string>)
    requires a != [] && b != []
    ensures Join(a + b) == Join(a) + "/" + Join(b)
  {
    assert (a + b)[1..] == a[1..] + b;
    if |a| > 1 {
      JoinAppend(a[1..], b);
      assert a[0] + "/" + (Join(a[1..]) + "/" + Join(b)) == a[0] + "/" + Join(a[1..]) + "/" + Join(b);
    } else {
      assert a[1..] + b == b;
    }
  }

  lemma {:induction false} JoinEnd(cs: seq<string>)
    requires cs != [] && forall c :: c in cs ==> Component(c)
    ensures Join(cs) != "" && Join(cs)[|Join(cs)| - 1] != '/'
  {
    assert cs[0] in cs;
    if |cs| > 1 {
      JoinEnd(cs[1..]);
    } else {
      assert cs[0][|cs[0]| - 1] in cs[0];
    }
  }

  /** Joining canonical spellings gives the canonical spelling. */
  lemma JoinIsCanonical(absolute: bool, a: seq<string>, b: seq<string>)
    requires a != [] && (forall c :: c in a ==> Component(c)) && (forall c :: c in b ==> Component(c))
    ensures JoinPath(Render(absolute, a), Join(b)) == Render(absolute, a + b)
  {
    var r := Render(absolute, a);
    JoinEnd(a);
    JoinAbsolute(a);
    JoinAbsolute(a + b);
    assert r[|r| - 1] == Join(a)[|Join(a)| - 1];
    if b == [] {
      assert a + b == a;
    } else {
      JoinStart(b);
      JoinAppend(a, b);
      assert "/" + (Join(a) + "/" + Join(b)) == "/" + Join(a) + "/" + Join(b);
    }
  }

  /** One slash at the end of the first path or at the start of the second makes no difference. */
  lemma JoinSlash(a: string, b: string)
    requires a != "" && a[|a| - 1] != '/' && b != "" && b[0] != '/'
    ensures JoinPath(a, "/" + b) == JoinPath(a + "/", b) == JoinPath(a, b) == a + "/" + b
  {
    assert ("/" + b)[1..] == b;
    assert (a + "/")[|a|] == '/';
  }
}
