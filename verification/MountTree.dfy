/**
 The tree of mounts as a value: what `Mounts::Insert`, `Mounts::Remove` and
 `Mounts::ResolvePath` do to it, and how their effects on paths relate.
 */
module MountTrees {
  import opened Options
  import opened Paths

  datatype Node =
    | FileNode(outside: string, writable: bool)
    | DirNode(outside: string, writable: bool)
    | TmpfsNode(options: string)
    | RootNode(writable: bool)

  datatype MountTree = MountTree(node: Option<Node>, entries: map<string, MountTree>) {
    predicate IsFile() { node.Some? && node.value.FileNode? }

    predicate IsDir() { node.Some? && node.value.DirNode? }
  }

  datatype Status = Ok | InvalidArgument | NotFound | FailedPrecondition

  datatype Resolved = Outside(path: string) | Failed(status: Status)

  /** The device and inode that `stat` reports, if it succeeds. */
  type Stat = string -> Option<(int, int)>

  const EMPTY_TREE := MountTree(None, map[])

  predicate IsSameFile(stat: Stat, a: string, b: string) {
    a == b || (stat(a).Some? && stat(b).Some? && stat(a) == stat(b))
  }

  predicate IsEquivalentNode(stat: Stat, a: Node, b: Node) {
    match (a, b)
    case (FileNode(o, w), FileNode(o', w')) => w == w' && IsSameFile(stat, o, o')
    case (DirNode(o, w), DirNode(o', w')) => w == w' && IsSameFile(stat, o, o')
    case (TmpfsNode(o), TmpfsNode(o')) => o == o'
    case (RootNode(w), RootNode(w')) => w == w'
    case _ => false
  }

  // ----- places in a tree -----

  predicate Has(t: MountTree, path: seq<string>)
    decreases |path|
  {
    path == [] || (path[0] in t.entries && Has(t.entries[path[0]], path[1..]))
  }

  function At(t: MountTree, path: seq<string>): MountTree
    requires Has(t, path)
    decreases |path|
  {
    if path == [] then t else At(t.entries[path[0]], path[1..])
  }

  /** `t` with the subtree at `path` replaced. */
  function Put(t: MountTree, path: seq<string>, sub: MountTree): MountTree
    requires Has(t, path)
    decreases |path|
  {
    if path == [] then sub else t.(entries := t.entries[path[0] := Put(t.entries[path[0]], path[1..], sub)])
  }

  /** `entries.insert({part, MountTree()})`: an existing entry is kept. */
  function Ensure(t: MountTree, part: string): MountTree {
    if part in t.entries then t else t.(entries := t.entries[part := EMPTY_TREE])
  }

  // ----- the operations -----

  /** What `Insert` does to the last entry of the path. */
  function InsertNode(stat: Stat, t: MountTree, node: Node): (Status, MountTree) {
    if t.node.Some? then (if IsEquivalentNode(stat, t.node.value, node) then Ok else FailedPrecondition, t)
    else if node.FileNode? && t.entries != map[] then (FailedPrecondition, t)
    else (Ok, t.(node := Some(node)))
  }

  /** `Insert` below `t`.  The tree is returned as it is left, also after an error: the walk
      creates the entries it does not find before it looks at them. */
  function InsertAt(stat: Stat, t: MountTree, parts: seq<string>, node: Node): (Status, MountTree)
    decreases |parts|
  {
    if parts == [] then InsertNode(stat, t, node)
    else
      var t' := Ensure(t, parts[0]);
      var sub := t'.entries[parts[0]];
      if |parts| > 1 && sub.IsFile() then (FailedPrecondition, t')
      else
        var r := InsertAt(stat, sub, parts[1..], node);
        (r.0, t'.(entries := t'.entries[parts[0] := r.1]))
  }

  function RemoveAt(t: MountTree, parts: seq<string>): (Status, MountTree)
    decreases |parts|
  {
    if parts == [] then (Ok, EMPTY_TREE)
    else if t.IsFile() || parts[0] !in t.entries then (NotFound, t)
    else
      var r := RemoveAt(t.entries[parts[0]], parts[1..]);
      (r.0, t.(entries := t.entries[parts[0] := r.1]))
  }

  function Resolve(t: MountTree, parts: seq<string>): Resolved
    decreases |parts|
  {
    if parts == [] then
      if t.IsFile() || t.IsDir() then Outside(t.node.value.outside) else Failed(NotFound)
    else if parts[0] in t.entries then Resolve(t.entries[parts[0]], parts[1..])
    else if t.IsDir() then Outside(JoinPath(t.node.value.outside, Join(parts)))
    else Failed(NotFound)
  }

  // ----- failing changes nothing -----

  lemma {:induction false} InsertIntoEmpty(stat: Stat, parts: seq<string>, node: Node)
    ensures InsertAt(stat, EMPTY_TREE, parts, node).0 == Ok
    decreases |parts|
  {
    if parts != [] {
      InsertIntoEmpty(stat, parts[1..], node);
    }
  }

  /** An `Insert` that fails leaves the whole tree as it was. */
  lemma {:induction false} FailedInsertChangesNothing(stat: Stat, t: MountTree, parts: seq<string>, node: Node)
    requires InsertAt(stat, t, parts, node).0 != Ok
    ensures InsertAt(stat, t, parts, node).1 == t
    decreases |parts|
  {
    if parts != [] {
      if parts[0] !in t.entries {
        InsertIntoEmpty(stat, parts[1..], node);
      } else if !(|parts| > 1 && t.entries[parts[0]].IsFile()) {
        FailedInsertChangesNothing(stat, t.entries[parts[0]], parts[1..], node);
        assert t.entries == t.entries[parts[0] := t.entries[parts[0]]];
      }
    }
  }

  lemma {:induction false} FailedRemoveChangesNothing(t: MountTree, parts: seq<string>)
    requires RemoveAt(t, parts).0 != Ok
    ensures RemoveAt(t, parts).1 == t
    decreases |parts|
  {
    if parts != [] && !t.IsFile() && parts[0] in t.entries {
      FailedRemoveChangesNothing(t.entries[parts[0]], parts[1..]);
      assert t.entries == t.entries[parts[0] := t.entries[parts[0]]];
    }
  }

  // ----- when they succeed -----

  /** The subtree at `parts`, or the empty one that a walk would create there. */
  function Target(t: MountTree, parts: seq<string>): MountTree {
    if Has(t, parts) then At(t, parts) else EMPTY_TREE
  }

  /** A file is mounted at a proper prefix of `parts`, other than the root. */
  ghost predicate FileAbove(t: MountTree, parts: seq<string>) {
    exists n :: 0 < n < |parts| && FileAt(t, parts[..n])
  }

  predicate FileAt(t: MountTree, parts: seq<string>) {
    Has(t, parts) && At(t, parts).IsFile()
  }

  lemma FileAtStep(t: MountTree, parts: seq<string>, n: nat)
    requires 0 < n <= |parts| && parts[0] in t.entries
    ensures FileAt(t, parts[..n]) <==> FileAt(t.entries[parts[0]], parts[1..][..n - 1])
  {
    assert parts[..n][1..] == parts[1..][..n - 1];
  }

  lemma FileAboveStep(t: MountTree, parts: seq<string>)
    requires |parts| > 1 && parts[0] in t.entries
    ensures FileAbove(t, parts) <==> t.entries[parts[0]].IsFile() || FileAbove(t.entries[parts[0]], parts[1..])
  {
    var sub := t.entries[parts[0]];
    FileAtStep(t, parts, 1);
    assert parts[1..][..0] == [];
    if n :| 0 < n < |parts[1..]| && FileAt(sub, parts[1..][..n]) {
      FileAtStep(t, parts, n + 1);
    }
    if n :| 1 < n < |parts| && FileAt(t, parts[..n]) {
      FileAtStep(t, parts, n);
    }
  }

  /** Mounts of the same kind, with the same flag, of the same file or with the same options. */
  predicate Agree(stat: Stat, a: Node, b: Node) {
    && a.FileNode? == b.FileNode? && a.DirNode? == b.DirNode? && a.TmpfsNode? == b.TmpfsNode?
    && (a.TmpfsNode? ==> a.options == b.options)
    && (!a.TmpfsNode? ==> a.writable == b.writable)
    && (a.FileNode? || a.DirNode? ==>
          a.outside == b.outside || (stat(a.outside).Some? && stat(a.outside) == stat(b.outside)))
  }

  /** The entry is free for `node`, which is no file above others, or holds a mount that agrees. */
  predicate Fits(stat: Stat, t: MountTree, node: Node) {
    if t.node.Some? then Agree(stat, t.node.value, node) else node.FileNode? ==> t.entries == map[]
  }

  /** `Insert` succeeds exactly when no file is mounted above and the node fits the entry. */
  lemma {:induction false} InsertSucceedsIff(stat: Stat, t: MountTree, parts: seq<string>, node: Node)
    ensures InsertAt(stat, t, parts, node).0 == Ok <==> !FileAbove(t, parts) && Fits(stat, Target(t, parts), node)
    ensures InsertAt(stat, t, parts, node).0 in {Ok, FailedPrecondition}
    decreases |parts|
  {
    if parts != [] {
      if parts[0] !in t.entries {
        InsertIntoEmpty(stat, parts[1..], node);
        assert forall n :: 0 < n < |parts| ==> !Has(t, parts[..n]);
      } else {
        InsertSucceedsIff(stat, t.entries[parts[0]], parts[1..], node);
        if |parts| > 1 { FileAboveStep(t, parts); }
      }
    }
  }

  // ----- what they do to the resolution of paths -----

  /** Walking along `q` enters an entry that inserting at `parts` creates. */
  predicate EntersCreated(t: MountTree, parts: seq<string>, q: seq<string>)
    decreases |parts|
  {
    && parts != [] && q != [] && parts[0] == q[0]
    && (parts[0] !in t.entries || EntersCreated(t.entries[parts[0]], parts[1..], q[1..]))
  }

  /** After a successful `Insert` at `parts`, the paths below it resolve in the subtree there
      with its node set, the paths that enter an entry created on the way are not found, and
      all other paths resolve as before. */
  lemma {:induction false} InsertResolves(stat: Stat, t: MountTree, parts: seq<string>, node: Node, q: seq<string>)
    requires InsertAt(stat, t, parts, node).0 == Ok
    ensures Resolve(InsertAt(stat, t, parts, node).1, q)
            == if parts <= q then Resolve(InsertNode(stat, Target(t, parts), node).1, q[|parts|..])
               else if EntersCreated(t, parts, q) then Failed(NotFound)
               else Resolve(t, q)
    decreases |parts|
  {
    if parts != [] {
      var t' := Ensure(t, parts[0]);
      var sub := t'.entries[parts[0]];
      if q != [] && q[0] == parts[0] {
        InsertResolves(stat, sub, parts[1..], node, q[1..]);
        assert parts <= q <==> parts[1..] <= q[1..];
        assert parts <= q ==> q[1..][|parts[1..]|..] == q[|parts|..];
        if parts[0] !in t.entries {
          NothingInEmpty(parts[1..], q[1..]);
        }
      }
    }
  }

  lemma NothingInEmpty(parts: seq<string>, q: seq<string>)
    ensures Resolve(EMPTY_TREE, q) == Failed(NotFound)
    ensures Target(EMPTY_TREE, parts) == EMPTY_TREE
  {
  }

  /** Where a successful `Insert` puts its node. */
  lemma {:induction false} InsertedAt(stat: Stat, t: MountTree, parts: seq<string>, node: Node)
    requires InsertAt(stat, t, parts, node).0 == Ok
    ensures var t' := InsertAt(stat, t, parts, node).1;
            Has(t', parts) && At(t', parts) == InsertNode(stat, Target(t, parts), node).1
    decreases |parts|
  {
    if parts != [] {
      InsertedAt(stat, Ensure(t, parts[0]).entries[parts[0]], parts[1..], node);
      if parts[0] !in t.entries {
        NothingInEmpty(parts[1..], []);
      }
    }
  }

  /** A successful `Insert` leaves its node at the path, or one that was there and agrees with it. */
  lemma InsertedNode(stat: Stat, t: MountTree, parts: seq<string>, node: Node)
    requires InsertAt(stat, t, parts, node).0 == Ok
    ensures var t' := InsertAt(stat, t, parts, node).1;
            && Has(t', parts) && At(t', parts).entries == Target(t, parts).entries
            && At(t', parts).node == (if Target(t, parts).node.Some? then Target(t, parts).node else Some(node))
            && Agree(stat, At(t', parts).node.value, node)
  {
    InsertedAt(stat, t, parts, node);
    InsertSucceedsIff(stat, t, parts, node);
  }

  /** `Insert` never changes a node that is set. */
  lemma {:induction false} InsertKeepsNodes(stat: Stat, t: MountTree, parts: seq<string>, node: Node, q: seq<string>)
    requires Has(t, q) && At(t, q).node.Some?
    ensures var t' := InsertAt(stat, t, parts, node).1;
            Has(t', q) && At(t', q).node == At(t, q).node
    decreases |parts|
  {
    if parts != [] && q != [] && q[0] == parts[0] && !(|parts| > 1 && t.entries[parts[0]].IsFile()) {
      InsertKeepsNodes(stat, t.entries[parts[0]], parts[1..], node, q[1..]);
    }
  }

  /** `Insert` sets no node but the one at its path. */
  lemma {:induction false} InsertSetsOnly(stat: Stat, t: MountTree, parts: seq<string>, node: Node, q: seq<string>)
    requires var t' := InsertAt(stat, t, parts, node).1; Has(t', q) && At(t', q).node.Some? && q != parts
    ensures Has(t, q) && At(t, q).node == At(InsertAt(stat, t, parts, node).1, q).node
    decreases |parts|
  {
    if parts != [] && q != [] && q[0] == parts[0] {
      var sub := Ensure(t, parts[0]).entries[parts[0]];
      if !(|parts| > 1 && sub.IsFile()) {
        InsertSetsOnly(stat, sub, parts[1..], node, q[1..]);
      }
    }
  }

  /** In particular the path itself resolves to the new outside path, or to the one of the
      equivalent node that was there. */
  lemma InsertedResolves(stat: Stat, t: MountTree, parts: seq<string>, node: Node)
    requires InsertAt(stat, t, parts, node).0 == Ok && (node.FileNode? || node.DirNode?)
    ensures var r := Resolve(InsertAt(stat, t, parts, node).1, parts);
            r.Outside? && (r.path == node.outside
                           || (Resolve(t, parts) == r && IsSameFile(stat, r.path, node.outside)))
  {
    InsertResolves(stat, t, parts, node, parts);
    InsertSucceedsIff(stat, t, parts, node);
    if Has(t, parts) { ResolveAt(t, parts); }
  }

  lemma {:induction false} ResolveAt(t: MountTree, parts: seq<string>)
    requires Has(t, parts)
    ensures Resolve(t, parts) == Resolve(At(t, parts), [])
    decreases |parts|
  {
    if parts != [] {
      ResolveAt(t.entries[parts[0]], parts[1..]);
    }
  }

  /** A path is resolved by the deepest entry on it: the whole path if a file or directory is
      mounted there, otherwise relative to the directory mounted at that entry, if any. */
  lemma {:induction false} DeepestEntryResolves(t: MountTree, q: seq<string>, n: nat)
    requires n <= |q| && Has(t, q[..n]) && (n < |q| ==> !Has(t, q[..n + 1]))
    ensures var deepest := At(t, q[..n]);
            Resolve(t, q) == if n == |q| && (deepest.IsFile() || deepest.IsDir())
                               then Outside(deepest.node.value.outside)
                             else if n < |q| && deepest.IsDir()
                               then Outside(JoinPath(deepest.node.value.outside, Join(q[n..])))
                             else Failed(NotFound)
    decreases n
  {
    if n == 0 {
      if q != [] {
        assert q[..1][0] == q[0] && q[..1][1..] == [];
      }
      assert q[0..] == q;
    } else {
      var sub := t.entries[q[0]];
      assert q[..n][1..] == q[1..][..n - 1];
      if n < |q| {
        assert q[..n + 1][1..] == q[1..][..n];
      }
      assert q[1..][n - 1..] == q[n..];
      DeepestEntryResolves(sub, q[1..], n - 1);
    }
  }

  /** After a successful `Remove` the path and everything below it is not found, and every
      other path resolves as before. */
  lemma {:induction false} RemoveResolves(t: MountTree, parts: seq<string>, q: seq<string>)
    requires RemoveAt(t, parts).0 == Ok
    ensures Resolve(RemoveAt(t, parts).1, q) == if parts <= q then Failed(NotFound) else Resolve(t, q)
    decreases |parts|
  {
    if parts != [] && q != [] && q[0] == parts[0] {
      RemoveResolves(t.entries[parts[0]], parts[1..], q[1..]);
      assert parts <= q <==> parts[1..] <= q[1..];
    }
  }

  /** And the entry itself is empty, while what is mounted elsewhere stays as it was. */
  lemma {:induction false} RemoveKeepsNodes(t: MountTree, parts: seq<string>, q: seq<string>)
    requires RemoveAt(t, parts).0 == Ok
    ensures var t' := RemoveAt(t, parts).1;
            && Has(t', parts) && At(t', parts) == EMPTY_TREE
            && (!(parts <= q) ==> (Has(t', q) <==> Has(t, q)) && (Has(t, q) ==> At(t', q).node == At(t, q).node))
    decreases |parts|
  {
    if parts != [] {
      RemoveKeepsNodes(t.entries[parts[0]], parts[1..], if q == [] then [] else q[1..]);
      if q != [] && q[0] == parts[0] {
        assert parts <= q <==> parts[1..] <= q[1..];
      }
    }
  }

  // ----- the shape of trees -----

  predicate NoNul(s: string) { '\0' !in s }

  predicate GoodNode(n: Node) {
    match n
    case FileNode(o, _) => o != "" && NoNul(o)
    case DirNode(o, _) => o != "" && NoNul(o)
    case TmpfsNode(_) => true
    case RootNode(_) => false
  }

  predicate GoodKey(k: string) { Proper(k) && NoNul(k) }

  /** A subtree below the root: a file has no entries, entries have clean names, and bind
      mounts have sources that C can represent. */
  ghost predicate WellFormed(t: MountTree)
    decreases t
  {
    && (t.node.Some? ==> GoodNode(t.node.value))
    && (t.IsFile() ==> t.entries == map[])
    && (forall k :: k in t.entries ==> GoodKey(k) && WellFormed(t.entries[k]))
  }

  /** The whole tree: a root node and well-formed entries. */
  ghost predicate WellFormedRoot(t: MountTree) {
    && t.node.Some? && t.node.value.RootNode?
    && forall k :: k in t.entries ==> GoodKey(k) && WellFormed(t.entries[k])
  }

  lemma EntryKeepsWellFormed(t: MountTree, key: string, sub: MountTree)
    requires WellFormed(t) && !t.IsFile() && GoodKey(key) && WellFormed(sub)
    ensures WellFormed(t.(entries := t.entries[key := sub]))
  {
  }

  /** `Insert` keeps subtrees well-formed. */
  lemma {:induction false} InsertKeepsWellFormed(stat: Stat, t: MountTree, parts: seq<string>, node: Node)
    requires WellFormed(t) && GoodNode(node) && (forall p :: p in parts ==> GoodKey(p))
    requires parts != [] ==> !t.IsFile()
    ensures WellFormed(InsertAt(stat, t, parts, node).1)
    decreases |parts|
  {
    if parts != [] {
      assert parts[0] in parts;
      var t' := Ensure(t, parts[0]);
      var sub := t'.entries[parts[0]];
      assert WellFormed(EMPTY_TREE);
      EntryKeepsWellFormed(t, parts[0], sub);
      if !(|parts| > 1 && sub.IsFile()) {
        InsertKeepsWellFormed(stat, sub, parts[1..], node);
        EntryKeepsWellFormed(t', parts[0], InsertAt(stat, sub, parts[1..], node).1);
      }
    }
  }

  lemma {:induction false} RemoveKeepsWellFormed(t: MountTree, parts: seq<string>)
    requires WellFormed(t)
    ensures WellFormed(RemoveAt(t, parts).1)
    decreases |parts|
  {
    if parts != [] && !t.IsFile() && parts[0] in t.entries {
      RemoveKeepsWellFormed(t.entries[parts[0]], parts[1..]);
    }
  }

  /** The same for the whole tree, where the path is not the root. */
  lemma InsertKeepsRoot(stat: Stat, t: MountTree, parts: seq<string>, node: Node)
    requires WellFormedRoot(t) && parts != [] && GoodNode(node) && (forall p :: p in parts ==> GoodKey(p))
    ensures WellFormedRoot(InsertAt(stat, t, parts, node).1)
  {
    var t' := Ensure(t, parts[0]);
    var sub := t'.entries[parts[0]];
    assert WellFormed(EMPTY_TREE);
    assert parts[0] in parts;
    if !(|parts| > 1 && sub.IsFile()) {
      InsertKeepsWellFormed(stat, sub, parts[1..], node);
    }
  }

  lemma RemoveKeepsRoot(t: MountTree, parts: seq<string>)
    requires WellFormedRoot(t) && parts != []
    ensures WellFormedRoot(RemoveAt(t, parts).1)
  {
    if parts[0] in t.entries {
      RemoveKeepsWellFormed(t.entries[parts[0]], parts[1..]);
    }
  }

  /** In a well-formed tree `Remove` succeeds exactly on the paths that are in it. */
  lemma {:induction false} RemoveSucceedsIff(t: MountTree, parts: seq<string>)
    requires WellFormed(t) || WellFormedRoot(t)
    ensures RemoveAt(t, parts).0 == Ok <==> Has(t, parts)
    decreases |parts|
  {
    if parts != [] && parts[0] in t.entries {
      RemoveSucceedsIff(t.entries[parts[0]], parts[1..]);
    }
  }
}
