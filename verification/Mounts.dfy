/** `Mounts`: the tree edited in place, addressed by strings. */
module MountPoints {
  import opened Options
  import opened Splitting
  import opened Paths
  import opened MountTrees
  import opened Decimals

  // ----- a place in the tree is the path that leads to it -----

  lemma {:induction false} PutDeeper(t: MountTree, path: seq<string>, part: string, sub: MountTree)
    requires Has(t, path) && part in At(t, path).entries
    ensures Has(t, path + [part]) && At(t, path + [part]) == At(t, path).entries[part]
    ensures Put(t, path + [part], sub)
            == Put(t, path, At(t, path).(entries := At(t, path).entries[part := sub]))
    decreases |path|
  {
    var p := path + [part];
    if path == [] {
      assert p[1..] == [];
    } else {
      assert p[1..] == path[1..] + [part];
      PutDeeper(t.entries[path[0]], path[1..], part, sub);
    }
  }

  lemma {:induction false} PutAt(t: MountTree, path: seq<string>, sub: MountTree, sub': MountTree)
    requires Has(t, path)
    ensures Has(Put(t, path, sub), path) && At(Put(t, path, sub), path) == sub
    ensures Put(Put(t, path, sub), path, sub') == Put(t, path, sub')
    ensures Put(t, path, At(t, path)) == t
    decreases |path|
  {
    if path != [] {
      PutAt(t.entries[path[0]], path[1..], sub, sub');
      var k, s := path[0], Put(t.entries[path[0]], path[1..], sub);
      var s' := Put(t.entries[path[0]], path[1..], sub');
      assert t.entries[k := s][k := s'] == t.entries[k := s'];
      assert t.entries[k := t.entries[k]] == t.entries;
    }
  }

  // ----- components of a path -----

  lemma {:induction false} ComponentsKeepNul(s: string)
    requires NoNul(s)
    ensures forall c :: c in Components(s) ==> NoNul(c)
    decreases |s|
  {
    if s != "" {
      if s[0] == '/' {
        assert forall c :: c in s[1..] ==> c in s;
        ComponentsKeepNul(s[1..]);
      } else {
        var i := FirstSlash(s);
        assert forall c :: c in s[i..] ==> c in s;
        assert forall c :: c in s[..i] ==> c in s;
        ComponentsKeepNul(s[i..]);
      }
    }
  }

  lemma {:induction false} ScanKeepsNul(a: Scan, cs: seq<string>)
    requires (forall c :: c in a.parts ==> NoNul(c)) && (forall c :: c in cs ==> NoNul(c))
    ensures forall c :: c in ScanAll(a, cs).parts ==> NoNul(c)
    decreases |cs|
  {
    if cs != [] {
      assert cs[0] in cs;
      ScanKeepsNul(Step(a, cs[0]), cs[1..]);
    }
  }

  /** The components that a path without null bytes leads through are good keys. */
  lemma PathKeysAreGood(path: string)
    requires IsAbsolutePath(path) && NoNul(path)
    ensures forall c :: c in CleanParts(path) ==> GoodKey(c)
  {
    ComponentsKeepNul(path);
    ScanKeepsNul(Scan(0, []), Components(path));
    PiecesArePieces(path, '/');
    ScanProper(Scan(0, []), Components(path));
  }

  /** `absl::StrSplit(s, '/')`, which keeps empty pieces. */
  function Split(s: string): seq<string>
    decreases |s|
  {
    var i := FirstSlash(s);
    if i == |s| then [s] else [s[..i]] + Split(s[i + 1..])
  }

  function StripSlash(s: string): string {
    if s != "" && s[0] == '/' then s[1..] else s
  }

  lemma {:induction false} FirstSlashJoin(cs: seq<string>)
    requires cs != [] && (forall c :: c in cs ==> Component(c))
    ensures FirstSlash(Join(cs)) == |cs[0]|
    ensures |cs| == 1 ==> Join(cs) == cs[0]
    ensures |cs| > 1 ==> Join(cs) == cs[0] + "/" + Join(cs[1..])
  {
    assert cs[0] in cs;
    FirstNone(cs[0], '/');
    if |cs| > 1 {
      FirstAppend(cs[0], Join(cs[1..]), '/');
    }
  }

  lemma {:induction false} SplitJoin(cs: seq<string>)
    requires cs != [] && (forall c :: c in cs ==> Component(c))
    ensures Split(Join(cs)) == cs
  {
    FirstSlashJoin(cs);
    if |cs| > 1 {
      var s := Join(cs);
      assert s[..|cs[0]|] == cs[0] && s[|cs[0]| + 1..] == Join(cs[1..]);
      SplitJoin(cs[1..]);
    }
  }

  /** The pieces that the code cuts a cleaned absolute path into are its components. */
  lemma CleanedPieces(path: string)
    requires IsAbsolutePath(path)
    ensures StripSlash(Clean(path)) == Join(CleanParts(path))
    ensures Clean(path) == "/" <==> CleanParts(path) == []
    ensures Clean(path) != "/" ==> Split(StripSlash(Clean(path))) == CleanParts(path)
    ensures forall c :: c in CleanParts(path) ==> Component(c)
  {
    var cs := CleanParts(path);
    CleanPartsShape(path);
    if cs != [] {
      JoinAbsolute(cs);
      JoinStart(cs);
      SplitJoin(cs);
      assert ("/" + Join(cs))[1..] == Join(cs);
    }
  }

  /** Paths that name a place below the root. */
  predicate GoodPath(path: string) {
    NoNul(path) && IsAbsolutePath(path) && CleanParts(path) != []
  }

  function InsertPath(stat: Stat, t: MountTree, path: string, node: Node): (Status, MountTree) {
    if GoodPath(path) && GoodNode(node) then InsertAt(stat, t, CleanParts(path), node) else (InvalidArgument, t)
  }

  function RemovePath(t: MountTree, path: string): (Status, MountTree) {
    if GoodPath(path) then RemoveAt(t, CleanParts(path)) else (InvalidArgument, t)
  }

  /** What no mount can be inserted with: a path with a null byte, or not absolute, or the root, or a
      source that is missing or holds a null byte. */
  predicate Unmountable(path: string, node: Node) {
    || '\0' in path || !IsAbsolutePath(path) || Clean(path) == "/"
    || node.RootNode? || (!node.TmpfsNode? && (node.outside == "" || '\0' in node.outside))
  }

  /** `Insert` by path: rejected exactly when unmountable, otherwise it succeeds exactly when no file
      is above and the node fits, and then it, or one that agrees with it, is mounted there. */
  lemma InsertPathIff(stat: Stat, t: MountTree, path: string, node: Node)
    ensures var (status, t') := InsertPath(stat, t, path, node);
            && (status == InvalidArgument <==> Unmountable(path, node))
            && (status == Ok <==> !Unmountable(path, node) && !FileAbove(t, CleanParts(path))
                                  && Fits(stat, Target(t, CleanParts(path)), node))
            && (status == Ok || status == InvalidArgument || status == FailedPrecondition)
            && (status == Ok ==> MountedLike(stat, t', CleanParts(path), node))
  {
    if IsAbsolutePath(path) {
      CleanedPieces(path);
      InsertSucceedsIff(stat, t, CleanParts(path), node);
      if InsertPath(stat, t, path, node).0 == Ok {
        InsertedNode(stat, t, CleanParts(path), node);
      }
    }
  }

  predicate MountedLike(stat: Stat, t: MountTree, parts: seq<string>, node: Node) {
    Has(t, parts) && At(t, parts).node.Some? && Agree(stat, At(t, parts).node.value, node)
  }

  /** `Remove` by path: rejected for a null byte, a relative path and the root, otherwise it succeeds
      exactly on the paths in the tree, and leaves nothing there. */
  lemma RemovePathIff(t: MountTree, path: string)
    requires WellFormedRoot(t)
    ensures var (status, t') := RemovePath(t, path);
            && (status == InvalidArgument <==> '\0' in path || !IsAbsolutePath(path) || Clean(path) == "/")
            && (status == Ok <==> status != InvalidArgument && Has(t, CleanParts(path)))
            && (status == Ok || status == InvalidArgument || status == NotFound)
            && (status == Ok ==> Has(t', CleanParts(path)) && At(t', CleanParts(path)) == EMPTY_TREE)
  {
    if IsAbsolutePath(path) {
      CleanedPieces(path);
      RemoveSucceedsIff(t, CleanParts(path));
      RemoveStatus(t, CleanParts(path));
      if RemovePath(t, path).0 == Ok {
        RemoveKeepsNodes(t, CleanParts(path), []);
      }
    }
  }

  lemma {:induction false} RemoveStatus(t: MountTree, parts: seq<string>)
    ensures RemoveAt(t, parts).0 in {Ok, NotFound}
    decreases |parts|
  {
    if parts != [] && !t.IsFile() && parts[0] in t.entries {
      RemoveStatus(t.entries[parts[0]], parts[1..]);
    }
  }

  /** A mounted node that the listing shows. */
  predicate Listed(t: MountTree, path: seq<string>) {
    Has(t, path) && At(t, path).node.Some? && !At(t, path).node.value.RootNode?
  }

  /** The path of an entry as the listing spells it. */
  function Spell(path: seq<string>): string {
    if path == [] then "" else Spell(path[..|path| - 1]) + "/" + path[|path| - 1]
  }

  function OutsideEntry(n: Node): string {
    match n
    case DirNode(outside, _) => outside + "/"
    case FileNode(outside, _) => outside
    case TmpfsNode(options) => "tmpfs: " + options
    case RootNode(_) => ""
  }

  function InsideEntry(n: Node, path: string): string {
    match n
    case DirNode(_, writable) => (if writable then "W " else "R ") + path + "/"
    case FileNode(_, writable) => (if writable then "W " else "R ") + path
    case TmpfsNode(_) => path
    case RootNode(_) => ""
  }

  class Mounts {
    var tree: MountTree

    ghost predicate Valid()
      reads this
    {
      WellFormedRoot(tree)
    }

    constructor ()
      ensures Valid() && tree == MountTree(Some(RootNode(false)), map[])
    {
      tree := MountTree(Some(RootNode(false)), map[]);
    }

    method SetRootWritable()
      requires Valid()
      modifies this
      ensures Valid() && tree == old(tree).(node := Some(RootNode(true)))
    {
      tree := tree.(node := Some(RootNode(true)));
    }

    /** The walk of `Insert`, with a cursor that creates the entries it does not find. */
    method InsertWalk(stat: Stat, parts: seq<string>, node: Node) returns (status: Status)
      requires parts != []
      modifies this
      ensures (status, tree) == InsertAt(stat, old(tree), parts, node)
    {
      var dirs, finalPart := parts[..|parts| - 1], parts[|parts| - 1];
      var cursor: seq<string> := [];
      ghost var all := InsertAt(stat, tree, parts, node);
      assert parts[0..] == parts;
      for i := 0 to |dirs|
        invariant Has(tree, cursor)
        invariant var r := InsertAt(stat, At(tree, cursor), parts[i..], node);
                  all == (r.0, Put(tree, cursor, r.1))
      {
        cursor := Descend(cursor, dirs[i], stat, parts[i..], node, all);
        assert parts[i..][1..] == parts[i + 1..];
        if At(tree, cursor).IsFile() {
          return FailedPrecondition;
        }
      }
      cursor := Descend(cursor, finalPart, stat, parts[|dirs|..], node, all);
      assert parts[|dirs|..][1..] == [];
      var cur := At(tree, cursor);
      PutAt(tree, cursor, cur, cur);
      if cur.node.Some? {
        if IsEquivalentNode(stat, cur.node.value, node) {
          return Ok;
        }
        return FailedPrecondition;
      }
      if node.FileNode? && cur.entries != map[] {
        return FailedPrecondition;
      }
      tree := Put(tree, cursor, cur.(node := Some(node)));
      return Ok;
    }

    /** Moves the cursor to the entry for `part`, which is created empty if there is none.
        `all` is what inserting at `cursor` and the `rest` of the path comes to. */
    method Descend(cursor: seq<string>, part: string, ghost stat: Stat, ghost rest: seq<string>, ghost node: Node,
                   ghost all: (Status, MountTree))
      returns (next: seq<string>)
      requires rest != [] && part == rest[0] && Has(tree, cursor)
      requires var r := InsertAt(stat, At(tree, cursor), rest, node);
               all == (r.0, Put(tree, cursor, r.1))
      modifies this
      ensures next == cursor + [part] && Has(tree, next)
      ensures |rest| > 1 && At(tree, next).IsFile() ==> all == (FailedPrecondition, tree)
      ensures !(|rest| > 1 && At(tree, next).IsFile()) ==>
                var r := InsertAt(stat, At(tree, next), rest[1..], node);
                all == (r.0, Put(tree, next, r.1))
    {
      ghost var before := tree;
      var cur := At(tree, cursor);
      tree := Put(tree, cursor, Ensure(cur, part));
      next := cursor + [part];
      ghost var sub := InsertAt(stat, Ensure(cur, part).entries[part], rest[1..], node).1;
      PutAt(before, cursor, Ensure(cur, part), Ensure(cur, part).(entries := Ensure(cur, part).entries[part := sub]));
      PutDeeper(tree, cursor, part, sub);
    }

    method Insert(stat: Stat, path: string, node: Node) returns (status: Status)
      requires Valid()
      modifies this
      ensures Valid()
      ensures (status, tree) == InsertPath(stat, old(tree), path, node)
      ensures status != Ok ==> tree == old(tree)
      ensures status == InvalidArgument <==> Unmountable(path, node)
      ensures status == Ok ==> MountedLike(stat, tree, CleanParts(path), node)
    {
      InsertPathIff(stat, tree, path, node);
      if '\0' in path {
        return InvalidArgument;
      }
      match node {
        case FileNode(_, _) | DirNode(_, _) =>
          if node.outside == "" {
            return InvalidArgument;
          }
          if '\0' in node.outside {
            return InvalidArgument;
          }
        case RootNode(_) =>
          return InvalidArgument;
        case TmpfsNode(_) =>
      }
      var fixedPath := CleanPath(path);
      ScanCleaned(path);
      if !IsAbsolutePath(fixedPath) {
        return InvalidArgument;
      }
      CleanedPieces(path);
      if fixedPath == "/" {
        return InvalidArgument;
      }
      var parts := Split(StripSlash(fixedPath));
      PathKeysAreGood(path);
      InsertKeepsRoot(stat, tree, parts, node);
      if InsertAt(stat, tree, parts, node).0 != Ok {
        FailedInsertChangesNothing(stat, tree, parts, node);
      }
      status := InsertWalk(stat, parts, node);
    }

    method RemoveWalk(parts: seq<string>) returns (status: Status)
      modifies this
      ensures (status, tree) == RemoveAt(old(tree), parts)
    {
      var cursor: seq<string> := [];
      ghost var all := RemoveAt(tree, parts);
      assert parts[0..] == parts;
      for i := 0 to |parts|
        invariant Has(tree, cursor) && tree == old(tree)
        invariant var r := RemoveAt(At(tree, cursor), parts[i..]);
                  all == (r.0, Put(tree, cursor, r.1))
      {
        var cur := At(tree, cursor);
        PutAt(tree, cursor, cur, cur);
        if cur.IsFile() {
          return NotFound;
        }
        if parts[i] !in cur.entries {
          return NotFound;
        }
        PutDeeper(tree, cursor, parts[i], RemoveAt(cur.entries[parts[i]], parts[i + 1..]).1);
        assert parts[i..][1..] == parts[i + 1..];
        cursor := cursor + [parts[i]];
      }
      tree := Put(tree, cursor, EMPTY_TREE);
      return Ok;
    }

    method Remove(path: string) returns (status: Status)
      requires Valid()
      modifies this
      ensures Valid()
      ensures (status, tree) == RemovePath(old(tree), path)
      ensures status != Ok ==> tree == old(tree)
    {
      if '\0' in path {
        return InvalidArgument;
      }
      var fixedPath := CleanPath(path);
      ScanCleaned(path);
      if !IsAbsolutePath(fixedPath) {
        return InvalidArgument;
      }
      CleanedPieces(path);
      if fixedPath == "/" {
        return InvalidArgument;
      }
      var parts := Split(StripSlash(fixedPath));
      RemoveKeepsRoot(tree, parts);
      if RemoveAt(tree, parts).0 != Ok {
        FailedRemoveChangesNothing(tree, parts);
      }
      status := RemoveWalk(parts);
    }

    method ResolvePath(path: string) returns (r: Resolved)
      ensures r == if !IsAbsolutePath(path) then Failed(InvalidArgument) else Resolve(tree, CleanParts(path))
    {
      if !IsAbsolutePath(path) {
        return Failed(InvalidArgument);
      }
      var fixedPath := CleanPath(path);
      var tail := StripSlash(fixedPath);
      var curtree := tree;
      CleanedPieces(path);
      ghost var parts := CleanParts(path);
      while tail != ""
        invariant forall c :: c in parts ==> Component(c)
        invariant tail == Join(parts)
        invariant Resolve(tree, CleanParts(path)) == Resolve(curtree, parts)
        decreases |parts|
      {
        FirstSlashJoin(parts);
        var i := FirstSlash(tail);
        var cur, rest := tail[..i], if i == |tail| then "" else tail[i + 1..];
        assert cur == parts[0] && rest == Join(parts[1..]);
        if cur !in curtree.entries {
          if curtree.IsDir() {
            return Outside(JoinPath(curtree.node.value.outside, tail));
          }
          return Failed(NotFound);
        }
        curtree := curtree.entries[cur];
        tail := rest;
        parts := parts[1..];
      }
      assert parts == [] by { if parts != [] { JoinStart(parts); } }
      if curtree.IsFile() || curtree.IsDir() {
        return Outside(curtree.node.value.outside);
      }
      return Failed(NotFound);
    }

    method AddFileAt(stat: Stat, outside: string, inside: string, isRo: bool) returns (status: Status)
      requires Valid()
      modifies this
      ensures Valid() && (status, tree) == InsertPath(stat, old(tree), inside, FileNode(outside, !isRo))
      ensures status != Ok ==> tree == old(tree)
    {
      status := Insert(stat, inside, FileNode(outside, !isRo));
    }

    method AddDirectoryAt(stat: Stat, outside: string, inside: string, isRo: bool) returns (status: Status)
      requires Valid()
      modifies this
      ensures Valid() && (status, tree) == InsertPath(stat, old(tree), inside, DirNode(outside, !isRo))
      ensures status != Ok ==> tree == old(tree)
    {
      status := Insert(stat, inside, DirNode(outside, !isRo));
    }

    method AddTmpfs(stat: Stat, inside: string, sz: nat) returns (status: Status)
      requires Valid()
      modifies this
      ensures Valid() && (status, tree) == InsertPath(stat, old(tree), inside, TmpfsNode("size=" + OfNat(sz)))
      ensures status != Ok ==> tree == old(tree)
    {
      status := Insert(stat, inside, TmpfsNode("size=" + OfNat(sz)));
    }

    method RecursivelyListMounts() returns (outsideEntries: seq<string>, insideEntries: seq<string>)
      ensures exists at :: Lists(tree, [], outsideEntries, insideEntries, at)
    {
      ghost var at;
      outsideEntries, insideEntries, at := ListBelow(tree, "", []);
    }
  }

  /** The entries are those of the listed nodes of `t`, each exactly once: the pair number `i`
      is the one of the node at `at[i]`, spelt below `prefix`. */
  ghost predicate Lists(t: MountTree, prefix: seq<string>, outs: seq<string>, ins: seq<string>, at: seq<seq<string>>) {
    && |outs| == |ins| == |at|
    && (forall i :: 0 <= i < |at| ==> PairAt(t, prefix, outs[i], ins[i], at[i]))
    && (forall i, j :: 0 <= i < j < |at| ==> at[i] != at[j])
    && (forall q :: Listed(t, q) ==> q in at)
  }

  ghost predicate PairAt(t: MountTree, prefix: seq<string>, outside: string, inside: string, q: seq<string>) {
    && Listed(t, q)
    && outside == OutsideEntry(At(t, q).node.value)
    && inside == InsideEntry(At(t, q).node.value, Spell(prefix + q))
  }

  /** `RecursivelyListMountsImpl`, for every order in which the entries may be visited. */
  method ListBelow(t: MountTree, path: string, ghost prefix: seq<string>)
    returns (outs: seq<string>, ins: seq<string>, ghost at: seq<seq<string>>)
    requires path == Spell(prefix)
    ensures Lists(t, prefix, outs, ins, at)
    decreases t
  {
    outs, ins, at := [], [], [];
    if t.node.Some? && !t.node.value.RootNode? {
      outs, ins, at := [OutsideEntry(t.node.value)], [InsideEntry(t.node.value, path)], [[]];
      assert prefix + [] == prefix;
    }
    var ks := t.entries.Keys;
    while ks != {}
      invariant ks <= t.entries.Keys && ListsSoFar(t, prefix, outs, ins, at, ks)
      decreases |ks|
    {
      var k :| k in ks;
      assert (prefix + [k])[..|prefix|] == prefix;
      var o, i, w := ListBelow(t.entries[k], path + "/" + k, prefix + [k]);
      ListsMore(t, prefix, outs, ins, at, ks, k, o, i, w);
      outs, ins, at := outs + o, ins + i, at + Under(k, w);
      ks := ks - {k};
    }
  }

  /** The listing while the entries in `ks` are still to be visited. */
  ghost predicate ListsSoFar(t: MountTree, prefix: seq<string>, outs: seq<string>, ins: seq<string>,
                             at: seq<seq<string>>, ks: set<string>)
  {
    && |outs| == |ins| == |at|
    && (forall i :: 0 <= i < |at| ==> PairAt(t, prefix, outs[i], ins[i], at[i]))
    && (forall i :: 0 <= i < |at| ==> at[i] == [] || at[i][0] !in ks)
    && (forall i, j :: 0 <= i < j < |at| ==> at[i] != at[j])
    && (forall q :: Listed(t, q) && (q == [] || q[0] !in ks) ==> q in at)
  }

  lemma ListsMore(t: MountTree, prefix: seq<string>, outs: seq<string>, ins: seq<string>, at: seq<seq<string>>,
                  ks: set<string>, k: string, o: seq<string>, i: seq<string>, w: seq<seq<string>>)
    requires k in ks && ks <= t.entries.Keys && ListsSoFar(t, prefix, outs, ins, at, ks)
    requires Lists(t.entries[k], prefix + [k], o, i, w)
    ensures ListsSoFar(t, prefix, outs + o, ins + i, at + Under(k, w), ks - {k})
  {
    PairsUnder(t, prefix, k, o, i, w);
    MembersUnder(t, k, w);
    var at' := at + Under(k, w);
    forall q | Listed(t, q) && (q == [] || q[0] !in ks - {k}) ensures q in at' {
      if q != [] && q[0] == k {
        assert q in Under(k, w);
      } else {
        assert q in at;
      }
    }
  }

  ghost function Under(k: string, w: seq<seq<string>>): (r: seq<seq<string>>)
    ensures |r| == |w| && forall i :: 0 <= i < |w| ==> r[i] == [k] + w[i]
  {
    seq(|w|, i requires 0 <= i < |w| => [k] + w[i])
  }

  lemma ListedUnder(t: MountTree, k: string, q: seq<string>)
    requires k in t.entries
    ensures Listed(t, [k] + q) <==> Listed(t.entries[k], q)
    ensures Listed(t.entries[k], q) ==> At(t, [k] + q) == At(t.entries[k], q)
  {
    assert ([k] + q)[1..] == q;
  }

  lemma PairsUnder(t: MountTree, prefix: seq<string>, k: string, o: seq<string>, i: seq<string>, w: seq<seq<string>>)
    requires k in t.entries && Lists(t.entries[k], prefix + [k], o, i, w)
    ensures forall j :: 0 <= j < |w| ==> PairAt(t, prefix, o[j], i[j], Under(k, w)[j])
    ensures forall j, l :: 0 <= j < l < |w| ==> Under(k, w)[j] != Under(k, w)[l]
  {
    forall j | 0 <= j < |w| ensures PairAt(t, prefix, o[j], i[j], Under(k, w)[j]) {
      assert PairAt(t.entries[k], prefix + [k], o[j], i[j], w[j]);
      ListedUnder(t, k, w[j]);
      assert prefix + [k] + w[j] == prefix + ([k] + w[j]);
    }
    forall j, l | 0 <= j < l < |w| ensures Under(k, w)[j] != Under(k, w)[l] {
      assert w[j] == Under(k, w)[j][1..] && w[l] == Under(k, w)[l][1..];
    }
  }

  lemma MembersUnder(t: MountTree, k: string, w: seq<seq<string>>)
    requires k in t.entries && (forall q :: Listed(t.entries[k], q) ==> q in w)
    ensures forall q :: Listed(t, q) && q != [] && q[0] == k ==> q in Under(k, w)
  {
    forall q | Listed(t, q) && q != [] && q[0] == k ensures q in Under(k, w) {
      assert q == [k] + q[1..];
      ListedUnder(t, k, q[1..]);
      var i :| 0 <= i < |w| && w[i] == q[1..];
      assert Under(k, w)[i] == q;
    }
  }

  // ----- the listing and the resolution of paths agree -----

  lemma {:induction false} PathIsProper(t: MountTree, q: seq<string>)
    requires (WellFormed(t) || WellFormedRoot(t)) && Has(t, q)
    ensures forall c :: c in q ==> GoodKey(c)
    decreases |q|
  {
    if q != [] {
      PathIsProper(t.entries[q[0]], q[1..]);
      assert q == [q[0]] + q[1..];
    }
  }

  lemma {:induction false} SpellComponents(q: seq<string>)
    requires forall c :: c in q ==> Component(c)
    ensures Components(Spell(q)) == q
    ensures q != [] ==> IsAbsolutePath(Spell(q))
  {
    if q != [] {
      var init, c := q[..|q| - 1], q[|q| - 1];
      assert c in q && q == init + [c];
      SpellComponents(init);
      PiecesAppend(Spell(init), c, '/');
      PiecesOne(c, '/');
    }
  }

  lemma SpellCleans(q: seq<string>)
    requires q != [] && forall c :: c in q ==> Proper(c)
    ensures IsAbsolutePath(Spell(q)) && CleanParts(Spell(q)) == CleanParts(Spell(q) + "/") == q
  {
    var s := Spell(q);
    SpellComponents(q);
    PiecesAppend(s, "", '/');
    assert s + "/" + "" == s + "/" && (s + "/")[0] == s[0];
    assert Components(s + "/") == q + [] == q;
    ScanParts(Scan(0, []), q);
  }

  /** What the listing says of a mount: a file or directory is marked W exactly when it is writable
      and R otherwise, a directory has a slash on both sides, and a tmpfs is shown with its options. */
  lemma ListedAs(n: Node, path: string)
    requires !n.RootNode?
    ensures n.TmpfsNode? ==> InsideEntry(n, path) == path && OutsideEntry(n) == "tmpfs: " + n.options
    ensures !n.TmpfsNode? ==>
              && |InsideEntry(n, path)| >= 2 && InsideEntry(n, path)[..2] == (if n.writable then "W " else "R ")
              && InsideEntry(n, path)[2..] == (if n.DirNode? then path + "/" else path)
              && OutsideEntry(n) == if n.DirNode? then n.outside + "/" else n.outside
  {
    if !n.TmpfsNode? {
      assert InsideEntry(n, path) == (if n.writable then "W " else "R ") + if n.DirNode? then path + "/" else path;
    }
  }

  /** The inside path of a listed file or directory, with or without the trailing slash,
      resolves to its outside path. */
  lemma ListedResolves(t: MountTree, q: seq<string>)
    requires WellFormedRoot(t) && Listed(t, q) && (At(t, q).IsFile() || At(t, q).IsDir())
    ensures IsAbsolutePath(Spell(q))
    ensures Resolve(t, CleanParts(Spell(q))) == Outside(At(t, q).node.value.outside)
    ensures Resolve(t, CleanParts(Spell(q) + "/")) == Outside(At(t, q).node.value.outside)
  {
    PathIsProper(t, q);
    SpellCleans(q);
    ResolveAt(t, q);
  }
}
