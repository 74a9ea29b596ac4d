/** The transitive closure of library dependencies in `Mounts::AddMappingsForBinary`. */
module Libraries {
  import opened Options
  import opened Paths
  import opened MountTrees
  import opened MountPoints

  const MAX_WORK_QUEUE_SIZE: nat := 1000
  const MAX_RESOLVING_DEPTH: nat := 10
  const MAX_RESOLVED_ENTRIES: nat := 1000
  const MAX_LOADED_ENTRIES: nat := 100
  const MAX_IMPORTED_LIBRARIES: nat := 100

  /** The files as the code sees them: the names a binary imports, the path a name resolves to
      (empty when it does not), and the names imported by a library that parses. */
  datatype World = World(direct: seq<string>, resolve: string -> string, imports: string -> Option<seq<string>>)

  datatype Error =
    | PendingLimit
    | ResolvedLimit
    | DepthLimit
    | LibraryLimit
    | LoadedLimit
    | ParseFailed(path: string)
    | MountFailed(status: Status)

  datatype Collection = Collected(libs: set<string>) | Err(error: Error)

  // ----- what is to be collected -----

  ghost predicate Imported(w: World, names: seq<string>, lib: string) {
    lib != "" && exists n :: n in names && w.resolve(n) == lib
  }

  /** Libraries, each imported by the one before it and the first by the binary. */
  ghost predicate Chain(w: World, chain: seq<string>) {
    && chain != []
    && Imported(w, w.direct, chain[0])
    && forall i :: 0 <= i < |chain| - 1 ==> Imports(w, chain[i], chain[i + 1])
  }

  ghost predicate Imports(w: World, a: string, b: string) {
    w.imports(a).Some? && Imported(w, w.imports(a).value, b)
  }

  ghost predicate ChainTo(w: World, chain: seq<string>, lib: string) {
    Chain(w, chain) && chain[|chain| - 1] == lib
  }

  ghost predicate Reachable(w: World, lib: string) {
    exists chain :: ChainTo(w, chain, lib)
  }

  // ----- the worklist -----

  ghost predicate NoRepeats(ls: seq<string>) {
    forall i, j :: 0 <= i < j < |ls| ==> ls[i] != ls[j]
  }

  /** A chain without repeats within a set of libraries. */
  ghost predicate SimpleIn(chain: seq<string>, libs: set<string>) {
    NoRepeats(chain) && forall l :: l in chain ==> l in libs
  }

  /** A pending name at depth `n` stands behind a simple chain of `n - 1` collected libraries. */
  ghost predicate Justified(w: World, libs: set<string>, item: (string, nat)) {
    if item.1 == 1 then item.0 in w.direct
    else exists chain :: |chain| == item.1 - 1 && SimpleIn(chain, libs) && BehindChain(w, chain, item.0)
  }

  ghost predicate BehindChain(w: World, chain: seq<string>, name: string) {
    Chain(w, chain) && w.imports(chain[|chain| - 1]).Some? && name in w.imports(chain[|chain| - 1]).value
  }

  /** Nothing is left to do for `name`, or it is pending. */
  ghost predicate Covered(w: World, name: string, libs: set<string>, pending: seq<(string, nat)>) {
    w.resolve(name) == "" || w.resolve(name) in libs || exists i :: 0 <= i < |pending| && pending[i].0 == name
  }

  ghost predicate AllJustified(w: World, libs: set<string>, pending: seq<(string, nat)>) {
    forall i :: 0 <= i < |pending| ==> Justified(w, libs, pending[i])
  }

  ghost predicate AllReachable(w: World, libs: set<string>) {
    forall l :: l in libs ==> Reachable(w, l)
  }

  ghost predicate AllParsed(w: World, libs: set<string>) {
    forall l :: l in libs ==> w.imports(l).Some?
  }

  /** Every name imported by the binary or a collected library is covered. */
  ghost predicate AllCovered(w: World, libs: set<string>, pending: seq<(string, nat)>)
    requires AllParsed(w, libs)
  {
    && (forall n :: n in w.direct ==> Covered(w, n, libs, pending))
    && (forall l, n :: l in libs && n in w.imports(l).value ==> Covered(w, n, libs, pending))
  }

  ghost predicate Inv(w: World, libs: set<string>, pending: seq<(string, nat)>) {
    && AllJustified(w, libs, pending)
    && AllReachable(w, libs)
    && AllParsed(w, libs)
    && AllCovered(w, libs, pending)
  }

  /** The library that a justified name resolves to is reachable, by a chain of that depth. */
  lemma JustifiedReaches(w: World, libs: set<string>, item: (string, nat)) returns (chain: seq<string>)
    requires Justified(w, libs, item) && w.resolve(item.0) != "" && w.resolve(item.0) !in libs
    ensures |chain| == (if item.1 == 1 then 1 else item.1) && SimpleIn(chain, libs + {w.resolve(item.0)})
    ensures ChainTo(w, chain, w.resolve(item.0)) && Reachable(w, w.resolve(item.0))
  {
    var lib := w.resolve(item.0);
    if item.1 == 1 {
      chain := [lib];
      assert Imported(w, w.direct, lib);
    } else {
      var prefix :| |prefix| == item.1 - 1 && SimpleIn(prefix, libs) && BehindChain(w, prefix, item.0);
      chain := prefix + [lib];
      var last := prefix[|prefix| - 1];
      assert Imported(w, w.imports(last).value, lib);
      assert Imports(w, last, lib);
      forall i | 0 <= i < |chain| - 1 ensures Imports(w, chain[i], chain[i + 1]) {
        if i < |prefix| - 1 { assert Imports(w, prefix[i], prefix[i + 1]); }
      }
    }
    assert ChainTo(w, chain, lib);
  }

  /** Dropping a name that needs no work. */
  lemma PopDone(w: World, libs: set<string>, pending: seq<(string, nat)>)
    requires Inv(w, libs, pending) && pending != []
    requires var lib := w.resolve(pending[|pending| - 1].0); lib == "" || lib in libs
    ensures Inv(w, libs, pending[..|pending| - 1])
  {
    var rest := pending[..|pending| - 1];
    forall n | Covered(w, n, libs, pending) ensures Covered(w, n, libs, rest) {
      if w.resolve(n) != "" && w.resolve(n) !in libs {
        var i :| 0 <= i < |pending| && pending[i].0 == n;
        assert rest[i].0 == n;
      }
    }
  }

  function Pending(names: seq<string>, depth: nat): (r: seq<(string, nat)>)
    ensures |r| == |names| && forall i :: 0 <= i < |names| ==> r[i] == (names[i], depth)
  {
    seq(|names|, i requires 0 <= i < |names| => (names[i], depth))
  }

  lemma QueueJustified(w: World, libs: set<string>, pending: seq<(string, nat)>, chain: seq<string>, lib: string,
                       depth: nat)
    requires AllJustified(w, libs, pending) && ChainTo(w, chain, lib) && SimpleIn(chain, libs + {lib})
    requires |chain| == depth && w.imports(lib).Some?
    ensures AllJustified(w, libs + {lib}, pending + Pending(w.imports(lib).value, depth + 1))
  {
    var more := Pending(w.imports(lib).value, depth + 1);
    forall i | 0 <= i < |more| ensures Justified(w, libs + {lib}, more[i]) {
      assert BehindChain(w, chain, more[i].0);
    }
    forall i | 0 <= i < |pending| ensures Justified(w, libs + {lib}, pending[i]) {
      StaysJustified(w, libs, lib, pending[i]);
    }
  }

  lemma StaysJustified(w: World, libs: set<string>, lib: string, item: (string, nat))
    requires Justified(w, libs, item)
    ensures Justified(w, libs + {lib}, item)
  {
    if item.1 != 1 {
      var chain :| |chain| == item.1 - 1 && SimpleIn(chain, libs) && BehindChain(w, chain, item.0);
      assert SimpleIn(chain, libs + {lib});
    }
  }

  lemma QueueCovers(w: World, libs: set<string>, pending: seq<(string, nat)>, lib: string, depth: nat)
    requires pending != [] && AllParsed(w, libs + {lib}) && AllCovered(w, libs, pending)
    requires w.resolve(pending[|pending| - 1].0) == lib
    ensures AllCovered(w, libs + {lib}, pending[..|pending| - 1] + Pending(w.imports(lib).value, depth))
  {
    var names := w.imports(lib).value;
    var libs', pending' := libs + {lib}, pending[..|pending| - 1] + Pending(names, depth);
    forall n | Covered(w, n, libs, pending) ensures Covered(w, n, libs', pending') {
      if w.resolve(n) != "" && w.resolve(n) !in libs' {
        var i :| 0 <= i < |pending| && pending[i].0 == n;
        assert pending'[i].0 == n;
      }
    }
    forall n | n in names ensures Covered(w, n, libs', pending') {
      var j :| 0 <= j < |names| && names[j] == n;
      assert pending'[|pending| - 1 + j].0 == n;
    }
  }

  /** Adding a library and queueing what it imports. */
  lemma PopNew(w: World, libs: set<string>, pending: seq<(string, nat)>, lib: string, depth: nat)
    requires Inv(w, libs, pending) && pending != [] && depth >= 1
    requires pending[|pending| - 1].1 == depth && w.resolve(pending[|pending| - 1].0) == lib != "" && lib !in libs
    requires w.imports(lib).Some?
    ensures Inv(w, libs + {lib}, pending[..|pending| - 1] + Pending(w.imports(lib).value, depth + 1))
  {
    var chain := JustifiedReaches(w, libs, pending[|pending| - 1]);
    QueueJustified(w, libs, pending[..|pending| - 1], chain, lib, depth);
    QueueCovers(w, libs, pending, lib, depth + 1);
  }

  lemma AllCollected(w: World, libs: set<string>)
    requires Inv(w, libs, [])
    ensures forall l :: l in libs <==> Reachable(w, l)
  {
    forall l | Reachable(w, l) ensures l in libs {
      var chain :| ChainTo(w, chain, l);
      ChainCollected(w, libs, chain);
    }
  }

  /** With nothing pending, everything on a chain has been collected. */
  lemma {:induction false} ChainCollected(w: World, libs: set<string>, chain: seq<string>)
    requires Inv(w, libs, []) && Chain(w, chain)
    ensures chain[|chain| - 1] in libs
    decreases |chain|
  {
    var lib := chain[|chain| - 1];
    if |chain| == 1 {
      var n :| n in w.direct && w.resolve(n) == lib;
      assert Covered(w, n, libs, []);
    } else {
      var prefix := chain[..|chain| - 1];
      assert forall i :: 0 <= i < |prefix| - 1 ==>
                         Imports(w, prefix[i], prefix[i + 1]) == Imports(w, chain[i], chain[i + 1]);
      ChainCollected(w, libs, prefix);
      var last := prefix[|prefix| - 1];
      assert Imports(w, chain[|chain| - 2], chain[|chain| - 2 + 1]);
      var n :| n in w.imports(last).value && w.resolve(n) == lib;
      assert Covered(w, n, libs, []);
    }
  }

  lemma StartInv(w: World)
    ensures Inv(w, {}, Pending(w.direct, 1))
  {
    var pending := Pending(w.direct, 1);
    forall n | n in w.direct ensures Covered(w, n, {}, pending) {
      var j :| 0 <= j < |w.direct| && w.direct[j] == n;
      assert pending[j].0 == n;
    }
  }

  // ----- the limits -----

  /** The number of names imported by the libraries of a list. */
  function Total(w: World, ls: seq<string>): nat {
    if ls == [] then 0 else Total(w, ls[..|ls| - 1]) + ImportCount(w, ls[|ls| - 1])
  }

  function ImportCount(w: World, lib: string): nat {
    if w.imports(lib).Some? then |w.imports(lib).value| else 0
  }

  /** The binary and some of its libraries import more names than the code is ready to resolve. */
  ghost predicate ManyNames(w: World, ls: seq<string>) {
    && NoRepeats(ls) && (forall l :: l in ls ==> Reachable(w, l) && w.imports(l).Some?)
    && |w.direct| + Total(w, ls) > 1000
  }

  /** A name behind a simple chain that is as long as the depth limit. */
  ghost predicate DeepName(w: World, chain: seq<string>, name: string) {
    NoRepeats(chain) && |chain| == 10 && BehindChain(w, chain, name)
  }

  /** What an error says about the files. */
  ghost predicate Witnessed(w: World, e: Error) {
    match e
    case ParseFailed(path) => Reachable(w, path) && w.imports(path).None?
    case DepthLimit => exists chain, n :: DeepName(w, chain, n)
    case LibraryLimit => exists libs: set<string> :: |libs| > 100 && AllReachable(w, libs)
    case PendingLimit => exists ls :: ManyNames(w, ls)
    case ResolvedLimit => exists ls :: ManyNames(w, ls)
    case LoadedLimit => false
    case MountFailed(_) => false
  }

  /** The reachable libraries parse, are not too many, and do not import too many names. */
  ghost predicate WithinLimits(w: World) {
    && (forall l :: Reachable(w, l) ==> w.imports(l).Some?)
    && (forall libs: set<string> :: AllReachable(w, libs) ==> |libs| <= 100)
    && (forall ls :: !ManyNames(w, ls))
  }

  ghost predicate Shallow(w: World) { forall chain, n :: !DeepName(w, chain, n) }

  /** `found` lists the collected libraries, and every name they and the binary import has been
      resolved or is pending. */
  ghost predicate Counted(w: World, libs: set<string>, found: seq<string>, resolved: nat, pending: nat) {
    && NoRepeats(found) && (forall l :: l in found <==> l in libs)
    && resolved + pending == |w.direct| + Total(w, found)
  }

  lemma CountOneMore(w: World, libs: set<string>, found: seq<string>, resolved: nat, pending: nat, lib: string)
    requires Counted(w, libs, found, resolved, pending) && lib !in libs && w.imports(lib).Some?
    ensures Counted(w, libs + {lib}, found + [lib], resolved, pending + |w.imports(lib).value|)
  {
    assert (found + [lib])[..|found|] == found;
  }

  lemma TooManyNames(w: World, libs: set<string>, found: seq<string>, resolved: nat, pending: nat)
    requires Counted(w, libs, found, resolved, pending) && resolved + pending > MAX_RESOLVED_ENTRIES
    requires AllReachable(w, libs) && AllParsed(w, libs)
    ensures Witnessed(w, PendingLimit) && Witnessed(w, ResolvedLimit)
  {
    assert ManyNames(w, found);
  }

  lemma {:induction false} TotalWithout(w: World, ls: seq<string>, i: nat)
    requires i < |ls|
    ensures Total(w, ls) == ImportCount(w, ls[i]) + Total(w, ls[..i] + ls[i + 1..])
    decreases |ls|
  {
    var n := |ls| - 1;
    var rest := ls[..i] + ls[i + 1..];
    if i == n {
      assert rest == ls[..n];
    } else {
      TotalWithout(w, ls[..n], i);
      assert rest[..|rest| - 1] == ls[..n][..i] + ls[..n][i + 1..];
    }
  }

  /** Fewer libraries import fewer names. */
  lemma {:induction false} TotalWithin(w: World, ls: seq<string>, found: seq<string>)
    requires NoRepeats(ls) && NoRepeats(found) && forall l :: l in ls ==> l in found
    ensures Total(w, ls) <= Total(w, found)
    decreases |ls|
  {
    if ls != [] {
      var n := |ls| - 1;
      assert ls[n] in ls;
      var i :| 0 <= i < |found| && found[i] == ls[n];
      var rest := found[..i] + found[i + 1..];
      TotalWithout(w, found, i);
      forall l | l in ls[..n] ensures l in rest {
        assert l in ls && l != found[i];
      }
      TotalWithin(w, ls[..n], rest);
    }
  }

  lemma SubsetSize(a: set<string>, b: set<string>)
    requires a <= b
    ensures |a| <= |b|
  {
    assert b == a + (b - a);
  }

  /** A graph that has been collected is within the limits. */
  lemma CollectedWithin(w: World, libs: set<string>, found: seq<string>, resolved: nat)
    requires Counted(w, libs, found, resolved, 0) && resolved <= MAX_RESOLVED_ENTRIES
    requires AllParsed(w, libs) && |libs| <= MAX_IMPORTED_LIBRARIES && forall l :: l in libs <==> Reachable(w, l)
    ensures WithinLimits(w)
  {
    forall ls ensures !ManyNames(w, ls) {
      if NoRepeats(ls) && forall l :: l in ls ==> Reachable(w, l) {
        TotalWithin(w, ls, found);
      }
    }
    forall some: set<string> | AllReachable(w, some) ensures |some| <= MAX_IMPORTED_LIBRARIES {
      SubsetSize(some, libs);
    }
  }

  // ----- the order of the work -----

  /** The libraries collected once a name at some depth has been dealt with, and everything behind
      it: depth first.  `None` when a name is too deep. */
  function Visit(w: World, name: string, depth: nat, libs: set<string>): Option<set<string>>
    decreases MAX_RESOLVING_DEPTH + 1 - depth, 0
  {
    if depth > MAX_RESOLVING_DEPTH then None
    else
      var lib := w.resolve(name);
      if lib == "" || lib in libs then Some(libs)
      else if w.imports(lib).None? then Some(libs + {lib})
      else VisitNames(w, w.imports(lib).value, depth + 1, libs + {lib})
  }

  /** The same for several names, the last one first. */
  function VisitNames(w: World, names: seq<string>, depth: nat, libs: set<string>): Option<set<string>>
    decreases MAX_RESOLVING_DEPTH + 1 - depth, |names| + 1
  {
    if names == [] then Some(libs)
    else
      match Visit(w, names[|names| - 1], depth, libs)
      case None => None
      case Some(more) => VisitNames(w, names[..|names| - 1], depth, more)
  }

  /** The same for a stack of names at various depths. */
  function VisitStack(w: World, stack: seq<(string, nat)>, libs: set<string>): Option<set<string>>
    decreases |stack|
  {
    if stack == [] then Some(libs)
    else
      match Visit(w, stack[|stack| - 1].0, stack[|stack| - 1].1, libs)
      case None => None
      case Some(more) => VisitStack(w, stack[..|stack| - 1], more)
  }

  lemma {:induction false} VisitAppend(w: World, a: seq<(string, nat)>, b: seq<(string, nat)>, libs: set<string>)
    ensures VisitStack(w, a + b, libs)
            == match VisitStack(w, b, libs) case None => None case Some(more) => VisitStack(w, a, more)
    decreases |b|
  {
    if b == [] {
      assert a + b == a;
    } else {
      var all, last := a + b, b[|b| - 1];
      assert all[|all| - 1] == last && all[..|all| - 1] == a + b[..|b| - 1];
      match Visit(w, last.0, last.1, libs)
      case None =>
      case Some(more) => VisitAppend(w, a, b[..|b| - 1], more);
    }
  }

  lemma {:induction false} VisitPending(w: World, names: seq<string>, depth: nat, libs: set<string>)
    ensures VisitStack(w, Pending(names, depth), libs) == VisitNames(w, names, depth, libs)
    decreases |names|
  {
    if names != [] {
      var n := |names| - 1;
      assert Pending(names, depth)[..n] == Pending(names[..n], depth);
      match Visit(w, names[n], depth, libs)
      case None =>
      case Some(more) => VisitPending(w, names[..n], depth, more);
    }
  }

  /** Replacing a name by what it imports leaves what is still to be visited the same. */
  lemma VisitNew(w: World, stack: seq<(string, nat)>, libs: set<string>, more: seq<(string, nat)>, libs': set<string>)
    requires stack != [] && Opens(w, stack[|stack| - 1], libs, more, libs')
    ensures VisitStack(w, stack, libs) == VisitStack(w, stack[..|stack| - 1] + more, libs')
  {
    var last := stack[|stack| - 1];
    VisitOpened(w, last, libs, more, libs');
    VisitAppend(w, stack[..|stack| - 1], more, libs');
  }

  /** A name stands for a new library, and its imports are to be visited with that collected. */
  ghost predicate Opens(w: World, item: (string, nat), libs: set<string>, more: seq<(string, nat)>,
                        libs': set<string>)
  {
    && item.1 <= MAX_RESOLVING_DEPTH && w.resolve(item.0) != "" && w.resolve(item.0) !in libs
    && w.imports(w.resolve(item.0)).Some? && libs' == libs + {w.resolve(item.0)}
    && more == Pending(w.imports(w.resolve(item.0)).value, item.1 + 1)
  }

  lemma VisitOpened(w: World, item: (string, nat), libs: set<string>, more: seq<(string, nat)>, libs': set<string>)
    requires Opens(w, item, libs, more, libs')
    ensures Visit(w, item.0, item.1, libs) == VisitStack(w, more, libs')
  {
    VisitPending(w, w.imports(w.resolve(item.0)).value, item.1 + 1, libs');
  }

  /** Depth first from the binary, no name is met at too great a depth. */
  predicate NotTooDeep(w: World) { VisitNames(w, w.direct, 1, {}).Some? }

  ghost predicate DepthsWithin(pending: seq<(string, nat)>) {
    forall i :: 0 <= i < |pending| ==> 1 <= pending[i].1 <= MAX_RESOLVING_DEPTH + 1
  }

  /** The part of an iteration that deals with a library seen for the first time. */
  method AddLibrary(w: World, libs: set<string>, loaded: nat, toResolve: seq<(string, nat)>, lib: string, depth: nat,
                    ghost before: seq<(string, nat)>, ghost found: seq<string>, ghost resolved: nat)
    returns (libs': set<string>, loaded': nat, toResolve': seq<(string, nat)>, error: Option<Error>)
    requires Inv(w, libs, before) && DepthsWithin(before) && |before| <= MAX_WORK_QUEUE_SIZE
    requires before != [] && toResolve == before[..|before| - 1] && before[|before| - 1].1 == depth
    requires 1 <= depth <= MAX_RESOLVING_DEPTH && w.resolve(before[|before| - 1].0) == lib != "" && lib !in libs
    requires loaded == |libs| <= MAX_IMPORTED_LIBRARIES && Counted(w, libs, found, resolved, |toResolve|)
    ensures error.Some? ==> Witnessed(w, error.value)
    ensures error.None? ==> Inv(w, libs', toResolve') && DepthsWithin(toResolve')
    ensures error.None? ==> |toResolve'| <= MAX_WORK_QUEUE_SIZE && loaded' == |libs'| <= MAX_IMPORTED_LIBRARIES
    ensures error.None? ==> Counted(w, libs', found + [lib], resolved, |toResolve'|)
    ensures error.None? ==> VisitStack(w, toResolve', libs') == VisitStack(w, before, libs)
    ensures error.Some? ==> !error.value.DepthLimit?
  {
    toResolve' := toResolve;
    NewReachable(w, libs, before);
    var names;
    libs', loaded', names, error := Load(w, libs, loaded, lib);
    if error.Some? {
      return;
    }
    QueueMore(w, libs, before, lib, depth, found, resolved);
    VisitNew(w, before, libs, Pending(names, depth + 1), libs');
    // The queue is within its limit, so the unsigned difference does not wrap.
    assert |toResolve| <= MAX_WORK_QUEUE_SIZE;
    if |names| > MAX_WORK_QUEUE_SIZE - |toResolve| {
      TooManyNames(w, libs', found + [lib], resolved, |toResolve| + |names|);
      error := Some(PendingLimit);
      return;
    }
    toResolve' := toResolve + Pending(names, depth + 1);
  }

  /** The library is counted and its imports are read. */
  method Load(w: World, libs: set<string>, loaded: nat, lib: string)
    returns (libs': set<string>, loaded': nat, names: seq<string>, error: Option<Error>)
    requires AllReachable(w, libs + {lib}) && lib !in libs && loaded == |libs| <= MAX_IMPORTED_LIBRARIES
    ensures libs' == libs + {lib}
    ensures error.Some? ==> Witnessed(w, error.value) && !error.value.DepthLimit?
    ensures error.None? ==> loaded' == |libs'| <= MAX_IMPORTED_LIBRARIES && w.imports(lib) == Some(names)
  {
    libs', loaded', names, error := libs + {lib}, loaded, [], None;
    if |libs'| > MAX_IMPORTED_LIBRARIES {
      TooMany(w, libs');
      error := Some(LibraryLimit);
      return;
    }
    loaded' := loaded' + 1;
    if loaded' > MAX_LOADED_ENTRIES {
      assert false;
    }
    var parsed := w.imports(lib);
    if parsed.None? {
      error := Some(ParseFailed(lib));
      return;
    }
    names := parsed.value;
  }

  /** What holds once the imports of a new library are queued. */
  lemma QueueMore(w: World, libs: set<string>, before: seq<(string, nat)>, lib: string, depth: nat,
                  found: seq<string>, resolved: nat)
    requires Inv(w, libs, before) && DepthsWithin(before) && before != [] && before[|before| - 1].1 == depth
    requires 1 <= depth <= MAX_RESOLVING_DEPTH && w.resolve(before[|before| - 1].0) == lib != "" && lib !in libs
    requires w.imports(lib).Some? && Counted(w, libs, found, resolved, |before| - 1)
    ensures var after := before[..|before| - 1] + Pending(w.imports(lib).value, depth + 1);
            && Inv(w, libs + {lib}, after) && DepthsWithin(after)
            && Counted(w, libs + {lib}, found + [lib], resolved, |after|)
  {
    PopNew(w, libs, before, lib, depth);
    CountOneMore(w, libs, found, resolved, |before| - 1, lib);
  }

  lemma NewReachable(w: World, libs: set<string>, pending: seq<(string, nat)>)
    requires AllReachable(w, libs) && AllJustified(w, libs, pending) && pending != []
    requires var lib := w.resolve(pending[|pending| - 1].0); lib != "" && lib !in libs
    ensures AllReachable(w, libs + {w.resolve(pending[|pending| - 1].0)})
  {
    var chain := JustifiedReaches(w, libs, pending[|pending| - 1]);
  }

  lemma TooMany(w: World, libs: set<string>)
    requires AllReachable(w, libs) && |libs| > MAX_IMPORTED_LIBRARIES
    ensures Witnessed(w, LibraryLimit)
  {
  }

  lemma TooDeep(w: World, libs: set<string>, item: (string, nat))
    requires Justified(w, libs, item) && item.1 == MAX_RESOLVING_DEPTH + 1
    ensures Witnessed(w, DepthLimit)
  {
    var chain :| |chain| == item.1 - 1 && SimpleIn(chain, libs) && BehindChain(w, chain, item.0);
    assert DeepName(w, chain, item.0);
  }

  /** Collects the libraries, for every import graph.  On success they are exactly the reachable
      ones.  It succeeds exactly when the graph is within the limits and no name is met too deep;
      without deep names that is so, and an error names what exceeds its limit. */
  method CollectLibraries(w: World) returns (r: Collection)
    ensures r.Collected? ==> forall l :: l in r.libs <==> Reachable(w, l)
    ensures r.Collected? <==> WithinLimits(w) && NotTooDeep(w)
    ensures WithinLimits(w) && Shallow(w) ==> r.Collected?
    ensures r.Err? ==> Witnessed(w, r.error)
  {
    if |w.direct| > MAX_WORK_QUEUE_SIZE {
      assert ManyNames(w, []);
      return Err(PendingLimit);
    }
    var libs: set<string> := {};
    var toResolve := Pending(w.direct, 1);
    StartInv(w);
    VisitPending(w, w.direct, 1, {});
    var resolved, loaded := 0, 0;
    ghost var found: seq<string> := [];
    while toResolve != []
      invariant Inv(w, libs, toResolve) && DepthsWithin(toResolve)
      invariant |toResolve| <= MAX_WORK_QUEUE_SIZE && resolved <= MAX_RESOLVED_ENTRIES
      invariant loaded == |libs| <= MAX_IMPORTED_LIBRARIES && Counted(w, libs, found, resolved, |toResolve|)
      invariant VisitStack(w, toResolve, libs) == VisitNames(w, w.direct, 1, {})
      decreases MAX_RESOLVED_ENTRIES - resolved
    {
      ghost var before := toResolve;
      var (lib, depth) := toResolve[|toResolve| - 1];
      toResolve := toResolve[..|toResolve| - 1];
      resolved := resolved + 1;
      if resolved > MAX_RESOLVED_ENTRIES {
        TooManyNames(w, libs, found, resolved, |toResolve|);
        return Err(ResolvedLimit);
      }
      if depth > MAX_RESOLVING_DEPTH {
        TooDeep(w, libs, before[|before| - 1]);
        return Err(DepthLimit);
      }
      var resolvedLib := w.resolve(lib);
      if resolvedLib == "" || resolvedLib in libs {
        PopDone(w, libs, before);
        continue;
      }
      var error: Option<Error>;
      libs, loaded, toResolve, error :=
        AddLibrary(w, libs, loaded, toResolve, resolvedLib, depth, before, found, resolved);
      if error.Some? {
        return Err(error.value);
      }
      found := found + [resolvedLib];
    }
    AllCollected(w, libs);
    CollectedWithin(w, libs, found, resolved);
    return Collected(libs);
  }

  // ----- mounting what was collected -----

  /** A file is mounted at the path `lib`, and it is that file. */
  ghost predicate MountedAs(stat: Stat, t: MountTree, lib: string) {
    && GoodPath(lib) && FileAt(t, CleanParts(lib))
    && !At(t, CleanParts(lib)).node.value.writable
    && IsSameFile(stat, At(t, CleanParts(lib)).node.value.outside, lib)
  }

  /** Every node set in `t` is set to the same in `t'`. */
  ghost predicate KeepsNodes(t: MountTree, t': MountTree) {
    forall q :: Has(t, q) && At(t, q).node.Some? ==> Has(t', q) && At(t', q).node == At(t, q).node
  }

  /** Every node set in `t'` and not so in `t` is a read-only file of the set, at its own path. */
  ghost predicate MountsOnly(t: MountTree, t': MountTree, files: set<string>) {
    forall q :: Has(t', q) && At(t', q).node.Some? ==>
      || (Has(t, q) && At(t, q).node == At(t', q).node)
      || exists l :: l in files && q == CleanParts(l) && At(t', q).node == Some(FileNode(l, false))
  }

  lemma MountsOneMore(stat: Stat, t0: MountTree, t: MountTree, lib: string, files: set<string>)
    requires lib in files && MountsOnly(t0, t, files)
    ensures MountsOnly(t0, InsertPath(stat, t, lib, FileNode(lib, false)).1, files)
  {
    var node, parts := FileNode(lib, false), CleanParts(lib);
    var (status, t') := InsertPath(stat, t, lib, node);
    forall q | Has(t', q) && At(t', q).node.Some?
      ensures (Has(t0, q) && At(t0, q).node == At(t', q).node)
              || exists l :: l in files && q == CleanParts(l) && At(t', q).node == Some(FileNode(l, false))
    {
      if status != Status.Ok {
        if GoodPath(lib) && GoodNode(node) { FailedInsertChangesNothing(stat, t, parts, node); }
      } else if q == parts {
        InsertedAt(stat, t, parts, node);
      } else {
        InsertSetsOnly(stat, t, parts, node, q);
      }
    }
  }

  lemma AddingFile(stat: Stat, t: MountTree, lib: string)
    requires InsertPath(stat, t, lib, FileNode(lib, false)).0 == Status.Ok
    ensures var t' := InsertPath(stat, t, lib, FileNode(lib, false)).1;
            MountedAs(stat, t', lib) && KeepsNodes(t, t')
  {
    InsertedAt(stat, t, CleanParts(lib), FileNode(lib, false));
    InsertSucceedsIff(stat, t, CleanParts(lib), FileNode(lib, false));
    var t' := InsertPath(stat, t, lib, FileNode(lib, false)).1;
    forall q | Has(t, q) && At(t, q).node.Some? ensures Has(t', q) && At(t', q).node == At(t, q).node {
      InsertKeepsNodes(stat, t, CleanParts(lib), FileNode(lib, false), q);
    }
  }

  lemma KeepsMounted(stat: Stat, t: MountTree, t': MountTree, lib: string)
    requires KeepsNodes(t, t') && MountedAs(stat, t, lib)
    ensures MountedAs(stat, t', lib)
  {
  }

  /** Mounting a file at its own path fails with this status. */
  predicate Rejects(stat: Stat, t: MountTree, lib: string, status: Status) {
    InsertPath(stat, t, lib, FileNode(lib, false)).0 == status
  }

  /** The final loop: `AddFile` for each file of a set, in any order. */
  method MountFiles(m: Mounts, stat: Stat, files: set<string>) returns (status: Status)
    requires m.Valid()
    modifies m
    ensures m.Valid() && KeepsNodes(old(m.tree), m.tree) && MountsOnly(old(m.tree), m.tree, files)
    ensures status == Status.Ok ==> forall l :: l in files ==> MountedAs(stat, m.tree, l)
    ensures status != Status.Ok ==> exists l :: l in files && Rejects(stat, m.tree, l, status)
  {
    var todo := files;
    while todo != {}
      invariant m.Valid() && KeepsNodes(old(m.tree), m.tree) && MountsOnly(old(m.tree), m.tree, files)
      invariant todo <= files
      invariant forall l :: l in files && l !in todo ==> MountedAs(stat, m.tree, l)
      decreases |todo|
    {
      var lib :| lib in todo;
      ghost var before := m.tree;
      MountsOneMore(stat, old(m.tree), before, lib, files);
      status := m.AddFileAt(stat, lib, lib, true);
      if status != Status.Ok {
        return;
      }
      AddingFile(stat, before, lib);
      forall l | MountedAs(stat, before, l) ensures MountedAs(stat, m.tree, l) {
        KeepsMounted(stat, before, m.tree, l);
      }
      todo := todo - {lib};
    }
    return Status.Ok;
  }

  /** `AddMappingsForBinary` from the point where the binary has been parsed: when it succeeds,
      the interpreter and every library reachable from the binary are mounted read-only, and
      whatever was mounted before still is, and nothing else. */
  method AddMappings(m: Mounts, stat: Stat, w: World, interpreter: string) returns (error: Option<Error>)
    requires m.Valid()
    modifies m
    ensures m.Valid() && KeepsNodes(old(m.tree), m.tree)
    ensures WithinLimits(w) && NotTooDeep(w) && error.Some? ==> error.value.MountFailed?
    ensures error.Some? && error.value.MountFailed? ==>
              && error.value.status != Status.Ok
              && exists l :: (Reachable(w, l) || l == interpreter) && Rejects(stat, m.tree, l, error.value.status)
    ensures error.Some? && !error.value.MountFailed? ==> Witnessed(w, error.value) && m.tree == old(m.tree)
    ensures error.None? ==> MountedAs(stat, m.tree, interpreter)
    ensures error.None? ==> forall l :: Reachable(w, l) ==> MountedAs(stat, m.tree, l)
    ensures error.None? ==> exists files ::
      && MountsOnly(old(m.tree), m.tree, files)
      && forall l :: l in files <==> Reachable(w, l) || l == interpreter
  {
    var collected := CollectLibraries(w);
    if collected.Err? {
      return Some(collected.error);
    }
    var files := collected.libs + {interpreter};
    var status := MountFiles(m, stat, files);
    return if status == Status.Ok then None else Some(MountFailed(status));
  }
}
