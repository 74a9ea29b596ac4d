/** The table of open file descriptors of a process, and `MoveFDs` of `forkserver.cc`. */
module Descriptors {
  /** An open file description. */
  type File = nat

  /** The address of an `int` variable that holds a descriptor. */
  type Ptr = nat

  type Table = map<int, File>

  /** Some descriptor number is free in every table. */
  lemma {:induction false} FreeNumber(used: set<int>) returns (n: int)
    ensures n >= 0 && n !in used && forall m :: m in used ==> m < n
    decreases |used|
  {
    if x :| x in used {
      var m := FreeNumber(used - {x});
      n := if x >= m then x + 1 else m;
      assert forall y :: y in used ==> y == x || y in used - {x};
    } else {
      n := 0;
    }
  }

  /** The descriptor table, as POSIX describes `dup`, `dup2` and `close`.  The number that `dup`
      picks is any free one: nothing below depends on it being the lowest. */
  class Process {
    var open: Table

    /** The descriptor variables that callers pass the addresses of. */
    var vars: map<Ptr, int>

    /** The kernel has refused to duplicate an open descriptor to a proper number. */
    ghost var refused: bool

    constructor (table: Table, variables: map<Ptr, int>)
      ensures open == table && vars == variables && !refused
    {
      open, vars, refused := table, variables, false;
    }

    method Dup(fd: int) returns (r: int)
      modifies this`open, this`refused
      ensures refused == (old(refused) || (r == -1 && fd in old(open)))
      ensures r == -1 ==> open == old(open)
      ensures r != -1 ==> fd in old(open) && r >= 0 && r !in old(open) && open == old(open)[r := old(open)[fd]]
    {
      if fd !in open {
        return -1;
      }
      if * {
        refused := true;
        return -1;
      }
      ghost var n := FreeNumber(open.Keys);
      r :| r >= 0 && r !in open;
      open := open[r := open[fd]];
    }

    method Dup2(fd: int, target: int) returns (r: int)
      modifies this`open, this`refused
      ensures refused == (old(refused) || (r == -1 && fd in old(open) && target >= 0))
      ensures r == -1 ==> open == old(open)
      ensures r != -1 ==> fd in old(open) && r == target >= 0 && open == old(open)[target := old(open)[fd]]
    {
      if fd !in open || target < 0 {
        return -1;
      }
      if * {
        refused := true;
        return -1;
      }
      open := open[target := open[fd]];
      return target;
    }

    method Close(fd: int)
      modifies this`open
      ensures open == old(open) - {fd}
    {
      open := open - {fd};
    }

    /** A descriptor arrives over a socket, at a free number. */
    method Receive(file: File) returns (fd: int)
      modifies this`open
      ensures fd >= 0 && fd !in old(open) && open == old(open)[fd := file]
    {
      ghost var n := FreeNumber(open.Keys);
      fd :| fd >= 0 && fd !in open;
      open := open[fd := file];
    }
  }

  // ----- who holds what -----

  /** `owner` is the inverse of `vals` on the tracked variables `ts`: they hold distinct numbers. */
  ghost predicate Owns(ts: set<Ptr>, vals: map<Ptr, int>, owner: map<int, Ptr>) {
    && ts <= vals.Keys
    && (forall p :: p in ts ==> vals[p] in owner && owner[vals[p]] == p)
    && (forall n :: n in owner ==> owner[n] in ts && vals[owner[n]] == n)
  }

  /** Every tracked variable refers to its file. */
  ghost predicate Refers(files: map<Ptr, File>, open: Table, owner: map<int, Ptr>) {
    forall n :: n in owner ==> n in open && owner[n] in files && open[n] == files[owner[n]]
  }

  /** The table consists of the numbers held by tracked variables, and of `rest`. */
  ghost predicate Splits(open: Table, owner: map<int, Ptr>, rest: Table) {
    && open.Keys == owner.Keys + rest.Keys
    && owner.Keys !! rest.Keys
    && forall n :: n in rest ==> open[n] == rest[n]
  }

  /** A table, variables, and a map from numbers to variables that agree. */
  ghost predicate Good(ts: set<Ptr>, files: map<Ptr, File>, open: Table, vals: map<Ptr, int>, fdMap: map<int, Ptr>,
                       owner: map<int, Ptr>, rest: Table)
  {
    && Owns(ts, vals, owner)
    && Refers(files, open, owner)
    && Splits(open, owner, rest)
    && (forall n :: n in fdMap ==> n in owner && owner[n] == fdMap[n])
  }

  /** The map once the variable at `t`, if it is mapped, has the new number `r`. */
  function Remap(fdMap: map<int, Ptr>, t: int, r: int): map<int, Ptr> {
    if t in fdMap then fdMap[r := fdMap[t]] - {t} else fdMap
  }

  /** A tracked variable at `t` is given the new number `r`; `t` is then nobody's. */
  lemma Relocate(ts: set<Ptr>, files: map<Ptr, File>, open: Table, vals: map<Ptr, int>, fdMap: map<int, Ptr>,
                 owner: map<int, Ptr>, rest: Table, t: int, r: int)
    requires Good(ts, files, open, vals, fdMap, owner, rest) && t in owner && r !in open
    ensures t in open
    ensures Good(ts, files, open[r := open[t]], vals[owner[t] := r], Remap(fdMap, t, r),
                 owner[r := owner[t]] - {t}, rest[t := open[t]])
  {
  }

  /** A tracked variable is moved to `t`, which no tracked variable holds. */
  lemma Place(ts: set<Ptr>, files: map<Ptr, File>, open: Table, vals: map<Ptr, int>, fdMap: map<int, Ptr>,
              owner: map<int, Ptr>, rest: Table, p: Ptr, t: int)
    requires Good(ts, files, open, vals, fdMap, owner, rest) && p in ts && t !in owner
    ensures vals[p] in open && vals[p] in owner
    ensures Good(ts, files, open[t := open[vals[p]]] - {vals[p]}, vals[p := t], fdMap - {vals[p]},
                 owner[t := p] - {vals[p]}, rest - {t})
  {
    var n := vals[p];
    var open', owner' := open[t := open[n]] - {n}, owner[t := p] - {n};
    assert Owns(ts, vals[p := t], owner');
    assert Refers(files, open', owner');
    assert open'.Keys == owner'.Keys + (rest - {t}).Keys;
  }

  // ----- MoveFDs -----

  datatype Move = Move(ptr: Ptr, target: int)

  /** The variables that hold a descriptor and are to be moved or kept. */
  ghost function Tracked(vals: map<Ptr, int>, moves: seq<Move>, keeps: seq<Ptr>): set<Ptr> {
    set p | p in vals && vals[p] != -1 && (p in keeps || exists m :: m in moves && m.ptr == p)
  }

  /** An active move to something that is no descriptor number. */
  ghost predicate BadTarget(ts: set<Ptr>, moves: seq<Move>) {
    exists i :: 0 <= i < |moves| && moves[i].ptr in ts && moves[i].target < 0
  }

  /** Active moves are of distinct variables to distinct targets. */
  ghost predicate Distinct(ts: set<Ptr>, moves: seq<Move>) {
    forall i, j :: 0 <= i < j < |moves| && moves[i].ptr in ts && moves[j].ptr in ts ==>
      moves[i].ptr != moves[j].ptr && moves[i].target != moves[j].target
  }

  /** What `MoveFDs` needs: the tracked descriptors are open and pairwise distinct, and the moves
      of descriptors have distinct variables and targets. */
  ghost predicate Movable(open: Table, vals: map<Ptr, int>, moves: seq<Move>, keeps: seq<Ptr>) {
    var ts := Tracked(vals, moves, keeps);
    && (forall k :: k in keeps ==> k in vals)
    && (forall m :: m in moves ==> m.ptr in vals)
    && (forall p :: p in ts ==> vals[p] in open && vals[p] >= 0)
    && (forall p, q :: p in ts && q in ts && p != q ==> vals[p] != vals[q])
    && Distinct(ts, moves)
  }

  ghost function Targets(ts: set<Ptr>, moves: seq<Move>, i: nat): set<int>
    requires i <= |moves|
  {
    set j | 0 <= j < i && moves[j].ptr in ts :: moves[j].target
  }

  /** A correct parallel move: moved variables hold their targets, all tracked variables refer to
      the files they referred to, under distinct numbers, other variables are unchanged, and so is
      the rest of the table except for the targets; nothing is leaked. */
  ghost predicate ParallelMove(open: Table, vals: map<Ptr, int>, moves: seq<Move>, keeps: seq<Ptr>,
                               open': Table, vals': map<Ptr, int>)
    requires Movable(open, vals, moves, keeps)
  {
    var ts := Tracked(vals, moves, keeps);
    && vals'.Keys == vals.Keys
    && (forall p :: p in vals && p !in ts ==> vals'[p] == vals[p])
    && (forall m :: m in moves && m.ptr in ts ==> vals'[m.ptr] == m.target)
    && (forall p :: p in ts ==> vals'[p] in open' && open'[vals'[p]] == open[vals[p]])
    && (forall p, q :: p in ts && q in ts && p != q ==> vals'[p] != vals'[q])
    && (forall n :: Bystander(open, vals, moves, ts, n) ==> n in open' && open'[n] == open[n])
    && (forall n :: n in open' ==> Bystander(open, vals, moves, ts, n) || exists p :: p in ts && vals'[p] == n)
  }

  /** An open descriptor that is neither tracked nor the target of an active move. */
  ghost predicate Bystander(open: Table, vals: map<Ptr, int>, moves: seq<Move>, ts: set<Ptr>, n: int)
    requires ts <= vals.Keys
  {
    n in open && (forall p :: p in ts ==> vals[p] != n) && n !in Targets(ts, moves, |moves|)
  }

  /** The first `i` moves have been made. */
  ghost predicate Made(ts: set<Ptr>, moves: seq<Move>, i: nat, vals: map<Ptr, int>, fdMap: map<int, Ptr>)
    requires ts <= vals.Keys && i <= |moves|
  {
    && (forall j :: 0 <= j < i && moves[j].ptr in ts ==> vals[moves[j].ptr] == moves[j].target)
    && (forall p :: p in ts && Unmoved(moves, i, p) ==> vals[p] in fdMap)
  }

  ghost predicate Unmoved(moves: seq<Move>, i: nat, p: Ptr)
    requires i <= |moves|
  {
    forall j :: 0 <= j < i ==> moves[j].ptr != p
  }

  /** A target that the map does not know is held by no tracked variable. */
  lemma TargetIsFree(ts: set<Ptr>, moves: seq<Move>, i: nat, vals: map<Ptr, int>, fdMap: map<int, Ptr>,
                     owner: map<int, Ptr>)
    requires i < |moves| && Owns(ts, vals, owner) && Made(ts, moves, i, vals, fdMap) && Distinct(ts, moves)
    requires moves[i].ptr in ts && moves[i].target !in fdMap
    ensures moves[i].target !in owner
  {
  }

  /** Relocating the variable in the way of move `i` undoes no earlier move. */
  lemma RelocateKeepsMade(ts: set<Ptr>, moves: seq<Move>, i: nat, vals: map<Ptr, int>, fdMap: map<int, Ptr>,
                          owner: map<int, Ptr>, r: int)
    requires i < |moves| && Owns(ts, vals, owner) && Made(ts, moves, i, vals, fdMap) && Distinct(ts, moves)
    requires forall n :: n in fdMap ==> n in owner && owner[n] == fdMap[n]
    requires moves[i].ptr in ts && moves[i].target in fdMap && r !in owner
    ensures var t := moves[i].target; var q := fdMap[t];
            q in ts && Made(ts, moves, i, vals[q := r], fdMap[r := q] - {t})
  {
    var t := moves[i].target;
    var q := fdMap[t];
    forall j | 0 <= j < i && moves[j].ptr in ts ensures vals[q := r][moves[j].ptr] == moves[j].target {
      assert moves[j].target != moves[i].target;
    }
  }

  /** Placing the variable of move `i` makes the move. */
  lemma PlaceMakes(ts: set<Ptr>, moves: seq<Move>, i: nat, vals: map<Ptr, int>, fdMap: map<int, Ptr>,
                   owner: map<int, Ptr>)
    requires i < |moves| && Owns(ts, vals, owner) && Made(ts, moves, i, vals, fdMap) && Distinct(ts, moves)
    requires moves[i].ptr in ts
    ensures var p := moves[i].ptr; Made(ts, moves, i + 1, vals[p := moves[i].target], fdMap - {vals[p]})
  {
    var p := moves[i].ptr;
    forall q | q in ts && Unmoved(moves, i + 1, q) ensures q != p && vals[q] in fdMap - {vals[p]} {
      assert moves[i].ptr != q;
      assert Unmoved(moves, i, q);
    }
  }

  /** The tracked variables by the number they hold. */
  ghost function OwnerOf(ts: set<Ptr>, vals: map<Ptr, int>): (owner: map<int, Ptr>)
    requires ts <= vals.Keys && forall p, q :: p in ts && q in ts && p != q ==> vals[p] != vals[q]
    ensures Owns(ts, vals, owner)
  {
    map p | p in ts :: vals[p] := p
  }

  lemma SameOwner(ts: set<Ptr>, vals: map<Ptr, int>, a: map<int, Ptr>, b: map<int, Ptr>)
    requires Owns(ts, vals, a) && Owns(ts, vals, b)
    ensures a == b
  {
    assert forall n :: n in a ==> n == vals[a[n]] && n in b;
    assert forall n :: n in b ==> n == vals[b[n]] && n in a;
  }

  /** The map of all tracked descriptors, first the kept ones, then the moved ones. */
  method BuildMap(vals: map<Ptr, int>, moves: seq<Move>, keeps: seq<Ptr>) returns (fdMap: map<int, Ptr>)
    requires forall k :: k in keeps ==> k in vals
    requires forall m :: m in moves ==> m.ptr in vals
    requires var ts := Tracked(vals, moves, keeps); forall p, q :: p in ts && q in ts && p != q ==> vals[p] != vals[q]
    ensures fdMap == OwnerOf(Tracked(vals, moves, keeps), vals)
  {
    ghost var ts := Tracked(vals, moves, keeps);
    fdMap := map[];
    for i := 0 to |keeps|
      invariant forall n :: n in fdMap ==> fdMap[n] in ts && vals[fdMap[n]] == n
      invariant forall j :: 0 <= j < i && keeps[j] in ts ==> vals[keeps[j]] in fdMap
    {
      if vals[keeps[i]] != -1 && vals[keeps[i]] !in fdMap {
        fdMap := fdMap[vals[keeps[i]] := keeps[i]];
      }
    }
    for i := 0 to |moves|
      invariant forall n :: n in fdMap ==> fdMap[n] in ts && vals[fdMap[n]] == n
      invariant forall j :: 0 <= j < |keeps| && keeps[j] in ts ==> vals[keeps[j]] in fdMap
      invariant forall j :: 0 <= j < i && moves[j].ptr in ts ==> vals[moves[j].ptr] in fdMap
    {
      var p := moves[i].ptr;
      assert moves[i] in moves;
      if vals[p] != -1 && vals[p] !in fdMap {
        fdMap := fdMap[vals[p] := p];
      }
    }
    forall p | p in ts ensures vals[p] in fdMap && fdMap[vals[p]] == p {
      if p in keeps {
        var j :| 0 <= j < |keeps| && keeps[j] == p;
      } else {
        var m :| m in moves && m.ptr == p;
        var j :| 0 <= j < |moves| && moves[j] == m;
      }
    }
    assert Owns(ts, vals, fdMap);
    SameOwner(ts, vals, fdMap, OwnerOf(ts, vals));
  }

  /** The state between two moves. */
  ghost predicate Underway(ts: set<Ptr>, files: map<Ptr, File>, open: Table, vals: map<Ptr, int>, fdMap: map<int, Ptr>,
                           owner: map<int, Ptr>, rest: Table, moves: seq<Move>, i: nat)
  {
    && Good(ts, files, open, vals, fdMap, owner, rest)
    && i <= |moves| && Made(ts, moves, i, vals, fdMap)
    && forall n :: n in owner ==> n >= 0
  }

  /** If a tracked variable holds `t`, it is moved to a new number; `t` is then in the rest. */
  method MakeRoom(proc: Process, fdMap: map<int, Ptr>, t: int, ghost ts: set<Ptr>, ghost files: map<Ptr, File>,
                  ghost owner: map<int, Ptr>, ghost rest: Table, ghost moves: seq<Move>, ghost i: nat)
    returns (ok: bool, fdMap': map<int, Ptr>, ghost owner': map<int, Ptr>, ghost rest': Table)
    requires Underway(ts, files, proc.open, proc.vars, fdMap, owner, rest, moves, i) && Distinct(ts, moves)
    requires i < |moves| && moves[i].target == t && moves[i].ptr in ts && proc.vars[moves[i].ptr] != t
    modifies proc
    ensures ok ==> Underway(ts, files, proc.open, proc.vars, fdMap', owner', rest', moves, i)
    ensures ok ==> t !in owner' && rest' - {t} == rest - {t} && proc.refused == old(proc.refused)
    ensures !ok ==> proc.refused
    ensures proc.vars.Keys == old(proc.vars.Keys)
    ensures forall q :: q in proc.vars && (q !in ts || q == moves[i].ptr) ==> proc.vars[q] == old(proc.vars[q])
  {
    if t !in fdMap {
      TargetIsFree(ts, moves, i, proc.vars, fdMap, owner);
      return true, fdMap, owner, rest;
    }
    var q := fdMap[t];
    ghost var open := proc.open;
    var fd := proc.Dup(t);
    if fd == -1 {
      return false, fdMap, owner, rest;
    }
    Relocate(ts, files, open, proc.vars, fdMap, owner, rest, t, fd);
    RelocateKeepsMade(ts, moves, i, proc.vars, fdMap, owner, fd);
    proc.vars := proc.vars[q := fd];
    fdMap' := fdMap[fd := q] - {t};
    return true, fdMap', owner[fd := q] - {t}, rest[t := open[t]];
  }

  /** One move whose variable holds a descriptor that is not in place yet. */
  method MoveOne(proc: Process, fdMap: map<int, Ptr>, p: Ptr, t: int, ghost ts: set<Ptr>, ghost files: map<Ptr, File>,
                 ghost owner: map<int, Ptr>, ghost rest: Table, ghost moves: seq<Move>, ghost i: nat)
    returns (ok: bool, fdMap': map<int, Ptr>, ghost owner': map<int, Ptr>)
    requires Underway(ts, files, proc.open, proc.vars, fdMap, owner, rest, moves, i) && Distinct(ts, moves)
    requires i < |moves| && moves[i] == Move(p, t) && p in ts && proc.vars[p] != t
    modifies proc
    ensures ok ==> Underway(ts, files, proc.open, proc.vars, fdMap', owner', rest - {t}, moves, i + 1)
    ensures ok ==> proc.refused == old(proc.refused)
    ensures !ok ==> proc.refused || t < 0
    ensures proc.vars.Keys == old(proc.vars.Keys)
    ensures forall q :: q in proc.vars && q !in ts ==> proc.vars[q] == old(proc.vars[q])
  {
    ghost var rest';
    ok, fdMap', owner', rest' := MakeRoom(proc, fdMap, t, ts, files, owner, rest, moves, i);
    if !ok {
      return false, fdMap', owner';
    }
    ghost var open := proc.open;
    var n := proc.vars[p];
    var r := proc.Dup2(n, t);
    if r == -1 {
      return false, fdMap', owner';
    }
    proc.Close(n);
    Place(ts, files, open, proc.vars, fdMap', owner', rest', p, t);
    PlaceMakes(ts, moves, i, proc.vars, fdMap', owner');
    owner' := owner'[t := p] - {n};
    fdMap' := fdMap' - {n};
    proc.vars := proc.vars[p := t];
    return true, fdMap', owner';
  }

  lemma StartUnderway(open: Table, vals: map<Ptr, int>, moves: seq<Move>, keeps: seq<Ptr>)
    requires Movable(open, vals, moves, keeps)
    ensures var ts := Tracked(vals, moves, keeps);
            var owner := OwnerOf(ts, vals);
            Underway(ts, map p | p in ts :: open[vals[p]], open, vals, owner, owner, open - owner.Keys, moves, 0)
  {
  }

  /** A move is skipped when its variable holds nothing or is in place already. */
  lemma SkipMove(ts: set<Ptr>, files: map<Ptr, File>, open: Table, vals: map<Ptr, int>, fdMap: map<int, Ptr>,
                 owner: map<int, Ptr>, rest: Table, moves: seq<Move>, i: nat)
    requires Underway(ts, files, open, vals, fdMap, owner, rest, moves, i) && i < |moves|
    requires moves[i].ptr in ts ==> vals[moves[i].ptr] == moves[i].target
    ensures Underway(ts, files, open, vals, fdMap, owner, rest, moves, i + 1)
    ensures moves[i].ptr in ts ==> moves[i].target !in rest
  {
    forall p | p in ts && Unmoved(moves, i + 1, p) ensures Unmoved(moves, i, p) { }
  }

  /** The rest of the table once the targets of the first moves are taken from it. */
  ghost function RestAfter(ts: set<Ptr>, moves: seq<Move>, i: nat, rest0: Table): Table
    requires i <= |moves|
  {
    rest0 - Targets(ts, moves, i)
  }

  lemma NextTargets(ts: set<Ptr>, moves: seq<Move>, i: nat, rest0: Table)
    requires i < |moves|
    ensures RestAfter(ts, moves, i + 1, rest0)
            == RestAfter(ts, moves, i, rest0) - if moves[i].ptr in ts then {moves[i].target} else {}
  {
    assert Targets(ts, moves, i + 1) == Targets(ts, moves, i) + if moves[i].ptr in ts then {moves[i].target} else {};
  }

  /** What is left of the table is what nobody tracks or targets. */
  lemma RestIsBystanders(open: Table, vals: map<Ptr, int>, moves: seq<Move>, ts: set<Ptr>, owner: map<int, Ptr>, n: int)
    requires Owns(ts, vals, owner)
    ensures n in open - owner.Keys - Targets(ts, moves, |moves|) <==> Bystander(open, vals, moves, ts, n)
  {
  }

  lemma TableAfter(open: Table, vals: map<Ptr, int>, moves: seq<Move>, ts: set<Ptr>, owner: map<int, Ptr>,
                   open': Table, vals': map<Ptr, int>, owner': map<int, Ptr>)
    requires Owns(ts, vals, owner) && Owns(ts, vals', owner')
    requires Splits(open', owner', open - owner.Keys - Targets(ts, moves, |moves|))
    ensures forall n :: Bystander(open, vals, moves, ts, n) ==> n in open' && open'[n] == open[n]
    ensures forall n :: n in open' ==> Bystander(open, vals, moves, ts, n) || exists p :: p in ts && vals'[p] == n
  {
    var rest := open - owner.Keys - Targets(ts, moves, |moves|);
    forall n | Bystander(open, vals, moves, ts, n) ensures n in open' && open'[n] == open[n] {
      RestIsBystanders(open, vals, moves, ts, owner, n);
      assert n in rest;
    }
    forall n | n in open' && !Bystander(open, vals, moves, ts, n) ensures exists p :: p in ts && vals'[p] == n {
      RestIsBystanders(open, vals, moves, ts, owner, n);
      assert owner'[n] in ts && vals'[owner'[n]] == n;
    }
  }

  lemma VariablesAfter(ts: set<Ptr>, files: map<Ptr, File>, open': Table, vals': map<Ptr, int>, fdMap: map<int, Ptr>,
                       owner': map<int, Ptr>, rest: Table, moves: seq<Move>)
    requires Underway(ts, files, open', vals', fdMap, owner', rest, moves, |moves|)
    ensures forall m :: m in moves && m.ptr in ts ==> vals'[m.ptr] == m.target
    ensures forall p :: p in ts ==> vals'[p] in open' && p in files && open'[vals'[p]] == files[p]
    ensures forall p, q :: p in ts && q in ts && p != q ==> vals'[p] != vals'[q]
  {
    forall p | p in ts ensures vals'[p] in open' && p in files && open'[vals'[p]] == files[p] {
      var n := vals'[p];
      assert n in owner' && owner'[n] == p;
    }
  }

  /** One iteration of the loop over the moves. */
  method MoveOrSkip(proc: Process, fdMap: map<int, Ptr>, p: Ptr, t: int, ghost ts: set<Ptr>,
                    ghost files: map<Ptr, File>, ghost owner: map<int, Ptr>, ghost rest: Table,
                    ghost moves: seq<Move>, ghost i: nat)
    returns (ok: bool, fdMap': map<int, Ptr>, ghost owner': map<int, Ptr>)
    requires Underway(ts, files, proc.open, proc.vars, fdMap, owner, rest, moves, i) && Distinct(ts, moves)
    requires i < |moves| && moves[i] == Move(p, t) && p in proc.vars && (p in ts <==> proc.vars[p] != -1)
    modifies proc
    ensures ok ==> Underway(ts, files, proc.open, proc.vars, fdMap', owner',
                            rest - (if p in ts then {t} else {}), moves, i + 1)
    ensures ok ==> proc.refused == old(proc.refused)
    ensures !ok ==> proc.refused || (p in ts && t < 0)
    ensures OnlyTracked(ts, old(proc.vars), proc.vars)
  {
    if proc.vars[p] == -1 || proc.vars[p] == t {
      SkipMove(ts, files, proc.open, proc.vars, fdMap, owner, rest, moves, i);
      assert rest - (if p in ts then {t} else {}) == rest;
      return true, fdMap, owner;
    }
    ok, fdMap', owner' := MoveOne(proc, fdMap, p, t, ts, files, owner, rest, moves, i);
  }

  /** Only tracked variables have changed. */
  ghost predicate OnlyTracked(ts: set<Ptr>, vals: map<Ptr, int>, vals': map<Ptr, int>) {
    vals'.Keys == vals.Keys && forall q :: q in vals && q !in ts ==> vals'[q] == vals[q]
  }

  lemma OnlyTrackedTrans(ts: set<Ptr>, a: map<Ptr, int>, b: map<Ptr, int>, c: map<Ptr, int>)
    requires OnlyTracked(ts, a, b) && OnlyTracked(ts, b, c)
    ensures OnlyTracked(ts, a, c)
  {
  }

  /** The moves of tracked variables are those of variables that hold a descriptor. */
  ghost predicate Active(ts: set<Ptr>, moves: seq<Move>, vals: map<Ptr, int>) {
    forall m :: m in moves ==> m.ptr in vals && (m.ptr in ts <==> vals[m.ptr] != -1)
  }

  lemma StaysActive(ts: set<Ptr>, vals: map<Ptr, int>, vals': map<Ptr, int>, owner: map<int, Ptr>, moves: seq<Move>)
    requires Active(ts, moves, vals) && OnlyTracked(ts, vals, vals')
    requires Owns(ts, vals', owner) && forall n :: n in owner ==> n >= 0
    ensures Active(ts, moves, vals')
  {
  }

  /** One iteration of the loop over the moves. */
  method MoveNext(proc: Process, fdMap: map<int, Ptr>, ghost ts: set<Ptr>, ghost files: map<Ptr, File>,
                  ghost owner: map<int, Ptr>, ghost rest0: Table, moves: seq<Move>, i: nat)
    returns (ok: bool, fdMap': map<int, Ptr>, ghost owner': map<int, Ptr>)
    requires i < |moves| && Distinct(ts, moves) && Active(ts, moves, proc.vars)
    requires Underway(ts, files, proc.open, proc.vars, fdMap, owner, RestAfter(ts, moves, i, rest0), moves, i)
    modifies proc
    ensures OnlyTracked(ts, old(proc.vars), proc.vars)
    ensures ok ==> Active(ts, moves, proc.vars) && proc.refused == old(proc.refused)
    ensures !ok ==> proc.refused || BadTarget(ts, moves)
    ensures ok ==> Underway(ts, files, proc.open, proc.vars, fdMap', owner',
                            RestAfter(ts, moves, i + 1, rest0), moves, i + 1)
  {
    assert moves[i] in moves;
    NextTargets(ts, moves, i, rest0);
    ok, fdMap', owner' := MoveOrSkip(proc, fdMap, moves[i].ptr, moves[i].target, ts, files, owner,
                                     RestAfter(ts, moves, i, rest0), moves, i);
    if ok {
      StaysActive(ts, old(proc.vars), proc.vars, owner', moves);
    }
  }

  /** The loop over the moves. */
  method MoveAll(proc: Process, moves: seq<Move>, fdMap0: map<int, Ptr>, ghost ts: set<Ptr>,
                 ghost files: map<Ptr, File>, ghost owner0: map<int, Ptr>, ghost rest0: Table)
    returns (ok: bool, ghost fdMap: map<int, Ptr>, ghost owner: map<int, Ptr>)
    requires Underway(ts, files, proc.open, proc.vars, fdMap0, owner0, rest0, moves, 0) && Distinct(ts, moves)
    requires Active(ts, moves, proc.vars)
    modifies proc
    ensures ok ==> Underway(ts, files, proc.open, proc.vars, fdMap, owner,
                            RestAfter(ts, moves, |moves|, rest0), moves, |moves|)
    ensures ok ==> proc.refused == old(proc.refused)
    ensures !ok ==> proc.refused || BadTarget(ts, moves)
    ensures OnlyTracked(ts, old(proc.vars), proc.vars)
  {
    var fds := fdMap0;
    owner := owner0;
    assert RestAfter(ts, moves, 0, rest0) == rest0;
    for i := 0 to |moves|
      invariant OnlyTracked(ts, old(proc.vars), proc.vars) && Active(ts, moves, proc.vars)
      invariant proc.refused == old(proc.refused)
      invariant Underway(ts, files, proc.open, proc.vars, fds, owner, RestAfter(ts, moves, i, rest0), moves, i)
    {
      ghost var before := proc.vars;
      ok, fds, owner := MoveNext(proc, fds, ts, files, owner, rest0, moves, i);
      OnlyTrackedTrans(ts, old(proc.vars), before, proc.vars);
      if !ok {
        return false, fds, owner;
      }
    }
    return true, fds, owner;
  }

  /** `MoveFDs`: the move is correct, unless the process is ended because the kernel refuses to
      duplicate a descriptor or a target is no descriptor number. */
  method MoveFDs(proc: Process, moves: seq<Move>, keeps: seq<Ptr>) returns (ok: bool)
    requires Movable(proc.open, proc.vars, moves, keeps)
    modifies proc
    ensures ok ==> ParallelMove(old(proc.open), old(proc.vars), moves, keeps, proc.open, proc.vars)
    ensures ok ==> proc.refused == old(proc.refused)
    ensures !ok ==> proc.refused || BadTarget(Tracked(old(proc.vars), moves, keeps), moves)
  {
    ghost var ts := Tracked(proc.vars, moves, keeps);
    var fdMap := BuildMap(proc.vars, moves, keeps);
    ghost var owner := OwnerOf(ts, proc.vars);
    ghost var files := map p | p in ts :: proc.open[proc.vars[p]];
    StartUnderway(proc.open, proc.vars, moves, keeps);
    ghost var fdMap', owner';
    ok, fdMap', owner' := MoveAll(proc, moves, fdMap, ts, files, owner, proc.open - owner.Keys);
    if ok {
      ghost var rest := old(proc.open) - owner.Keys - Targets(ts, moves, |moves|);
      TableAfter(old(proc.open), old(proc.vars), moves, ts, owner, proc.open, proc.vars, owner');
      VariablesAfter(ts, files, proc.open, proc.vars, fdMap', owner', rest, moves);
    }
  }
}
