/** Programs with labels, and `bpf_resolve_jumps`, which turns them into relative jumps. */
module Labels {
  import opened Bpf
  import opened Sequences

  /** `To` is what the macro JUMP stands for and `At` what LABEL stands for. */
  datatype Item = Plain(instr: Instr) | To(name: nat) | At(name: nat)

  const BPF_MAXINSNS: nat := 4096

  /** The position of a label, or the length of the program. */
  function Find(p: seq<Item>, l: nat): (r: nat)
    ensures r <= |p| && (r < |p| ==> p[r] == At(l))
    ensures forall i :: 0 <= i < r ==> p[i] != At(l)
  {
    if p == [] || p[0] == At(l) then 0 else 1 + Find(p[1..], l)
  }

  /** Every label is set once, and every jump has its label further on. */
  predicate Resolvable(p: seq<Item>) {
    p == [] || (Resolvable(p[1..]) && FirstResolvable(p[0], p[1..]))
  }

  ghost predicate JumpsForward(p: seq<Item>) {
    forall i :: 0 <= i < |p| && p[i].To? ==> At(p[i].name) in p[i + 1..]
  }

  ghost predicate SetOnce(p: seq<Item>) {
    forall i, j :: 0 <= i < j < |p| && p[i].At? ==> p[j] != p[i]
  }

  lemma JumpsForwardStep(p: seq<Item>)
    requires p != []
    ensures JumpsForward(p) <==> JumpsForward(p[1..]) && (p[0].To? ==> At(p[0].name) in p[1..])
  {
    var q := p[1..];
    forall i | 0 <= i < |q| ensures q[i] == p[i + 1] && q[i + 1..] == p[i + 2..] {
    }
    if JumpsForward(q) && (p[0].To? ==> At(p[0].name) in q) {
      forall i | 0 <= i < |p| && p[i].To? ensures At(p[i].name) in p[i + 1..] {
        if i > 0 {
          assert q[i - 1] == p[i] && q[i..] == p[i + 1..];
        }
      }
    }
  }

  lemma SetOnceStep(p: seq<Item>)
    requires p != []
    ensures SetOnce(p) <==> SetOnce(p[1..]) && (p[0].At? ==> p[0] !in p[1..])
  {
    var q := p[1..];
    assert p == [p[0]] + q;
    if SetOnce(p) {
      forall i, j | 0 <= i < j < |q| && q[i].At? ensures q[j] != q[i] {
        assert p[i + 1] == q[i] && p[j + 1] == q[j];
      }
    }
  }

  /** A program can be resolved exactly when every jump has its label behind it and no label is set
      twice. */
  lemma {:induction false} ResolvableIff(p: seq<Item>)
    ensures Resolvable(p) <==> JumpsForward(p) && SetOnce(p)
  {
    if p != [] {
      ResolvableIff(p[1..]);
      JumpsForwardStep(p);
      SetOnceStep(p);
    }
  }

  predicate FirstResolvable(i: Item, behind: seq<Item>) {
    match i
    case Plain(_) => true
    case To(l) => At(l) in behind
    case At(l) => At(l) !in behind
  }

  function ResolveFirst(i: Item, behind: seq<Item>): Instr {
    match i
    case Plain(instr) => instr
    case To(l) => Ja(U32(Find(behind, l)))
    case At(_) => Ja(0)
  }

  function Resolved(p: seq<Item>): (r: seq<Instr>)
    ensures |r| == |p|
  {
    if p == [] then [] else [ResolveFirst(p[0], p[1..])] + Resolved(p[1..])
  }

  function Plains(code: seq<Instr>): (r: seq<Item>)
    ensures |r| == |code| && forall i :: 0 <= i < |r| ==> r[i] == Plain(code[i])
  {
    seq(|code|, i requires 0 <= i < |code| => Plain(code[i]))
  }

  // ----- resolving keeps the meaning -----

  /** Runs a program with labels: a jump continues at the place where its label is set, wherever
      that is, and cannot be taken backwards. */
  function RunLabelled(p: seq<Item>, d: Data, pc: nat, s: Machine): Outcome
    decreases |p| - pc
  {
    if pc >= |p| then Left(pc, s)
    else
      match p[pc]
      case At(_) => RunLabelled(p, d, pc + 1, s)
      case To(l) => if Find(p, l) > pc then RunLabelled(p, d, Find(p, l), s) else Left(pc, s)
      case Plain(instr) =>
        match Execute(instr, d, s)
        case Goto(skip, next) => RunLabelled(p, d, pc + 1 + skip, next)
        case Halt(k) => Returned(k)
  }

  lemma {:induction false} ResolvedAt(p: seq<Item>, pc: nat)
    requires Resolvable(p) && pc < |p|
    ensures FirstResolvable(p[pc], p[pc + 1..]) && Resolved(p)[pc] == ResolveFirst(p[pc], p[pc + 1..])
    ensures p[pc].To? ==> Find(p, p[pc].name) == pc + 1 + Find(p[pc + 1..], p[pc].name) < |p|
  {
    var behind := p[1..];
    if pc == 0 {
      if p[0].To? {
        var i :| 0 <= i < |behind| && behind[i] == At(p[0].name);
      }
    } else {
      ResolvedAt(behind, pc - 1);
      assert behind[pc..] == p[pc + 1..];
    }
  }

  /** One step of the resolved program where the labelled one has a jump or a label. */
  lemma JumpStep(p: seq<Item>, d: Data, pc: nat, s: Machine)
    requires Resolvable(p) && |p| <= BPF_MAXINSNS && pc < |p| && !p[pc].Plain?
    ensures p[pc].To? ==> pc < Find(p, p[pc].name)
    ensures Run(Resolved(p), d, pc, s) == Run(Resolved(p), d, if p[pc].To? then Find(p, p[pc].name) else pc + 1, s)
  {
    ResolvedAt(p, pc);
    var off := if p[pc].To? then Find(p[pc + 1..], p[pc].name) else 0;
    assert Execute(Resolved(p)[pc], d, s) == Goto(off, s);
  }

  /** The resolved program does what the program with labels means, for every input. */
  lemma {:induction false} ResolvingKeepsMeaning(p: seq<Item>, d: Data, pc: nat, s: Machine)
    requires Resolvable(p) && |p| <= BPF_MAXINSNS
    ensures Run(Resolved(p), d, pc, s) == RunLabelled(p, d, pc, s)
    decreases |p| - pc
  {
    if pc < |p| {
      match p[pc]
      case At(_) =>
        JumpStep(p, d, pc, s);
        ResolvingKeepsMeaning(p, d, pc + 1, s);
      case To(l) =>
        JumpStep(p, d, pc, s);
        ResolvingKeepsMeaning(p, d, Find(p, l), s);
      case Plain(instr) =>
        ResolvedAt(p, pc);
        match Execute(instr, d, s)
        case Goto(skip, next) => ResolvingKeepsMeaning(p, d, pc + 1 + skip, next);
        case Halt(_) =>
    }
  }

  // ----- the loop of bpf_resolve_jumps -----

  /** The table knows exactly the labels set from position `n` on. */
  ghost predicate Knows(table: map<nat, nat>, p: seq<Item>, n: nat)
    requires n <= |p|
  {
    forall l :: (l in table <==> At(l) in p[n..]) && (l in table ==> table[l] == n + Find(p[n..], l))
  }

  lemma KnowsMore(table: map<nat, nat>, p: seq<Item>, n: nat)
    requires n < |p| && Knows(table, p, n + 1)
    ensures p[n].At? ==> Knows(table[p[n].name := n], p, n)
    ensures !p[n].At? ==> Knows(table, p, n)
  {
    assert p[n..][1..] == p[n + 1..];
    assert p[n..] == [p[n]] + p[n + 1..];
  }

  predicate CanResolve(item: Item, table: map<nat, nat>) {
    (item.To? ==> item.name in table) && (item.At? ==> item.name !in table)
  }

  function ResolveWith(item: Item, table: map<nat, nat>, offset: nat): Instr
    requires CanResolve(item, table) && (item.To? ==> table[item.name] > offset)
  {
    match item
    case Plain(instr) => instr
    case To(l) => Ja(U32(table[l] - (offset + 1)))
    case At(_) => Ja(0)
  }

  /** The filter is resolved from `offset` on. */
  ghost predicate ResolvedFrom(p: seq<Item>, now: seq<Item>, offset: nat) {
    && offset <= |p| == |now|
    && now[..offset] == p[..offset]
    && Resolvable(p[offset..]) && now[offset..] == Plains(Resolved(p[offset..]))
  }

  lemma ResolvesOneMore(p: seq<Item>, now: seq<Item>, n: nat, table: map<nat, nat>)
    requires n < |p| && ResolvedFrom(p, now, n + 1) && Knows(table, p, n + 1)
    ensures now[n] == p[n]
    ensures CanResolve(p[n], table) ==>
              && (p[n].To? ==> table[p[n].name] > n)
              && ResolvedFrom(p, now[n := Plain(ResolveWith(p[n], table, n))], n)
    ensures !CanResolve(p[n], table) ==> !Resolvable(p[n..])
  {
    assert now[n] == now[..n + 1][n] == p[..n + 1][n];
    TableResolves(table, p, n);
    if CanResolve(p[n], table) {
      ResolvesOne(p, now, n, ResolveWith(p[n], table, n));
    } else {
      assert p[n..][1..] == p[n + 1..];
    }
  }

  /** The table can resolve an item exactly when the labels behind it can, and alike. */
  lemma TableResolves(table: map<nat, nat>, p: seq<Item>, n: nat)
    requires n < |p| && Knows(table, p, n + 1)
    ensures CanResolve(p[n], table) <==> FirstResolvable(p[n], p[n + 1..])
    ensures CanResolve(p[n], table) ==>
              (p[n].To? ==> table[p[n].name] > n) && ResolveWith(p[n], table, n) == ResolveFirst(p[n], p[n + 1..])
  {
  }

  lemma ResolvesOne(p: seq<Item>, now: seq<Item>, n: nat, instr: Instr)
    requires n < |p| && ResolvedFrom(p, now, n + 1)
    requires instr == ResolveFirst(p[n], p[n + 1..]) && FirstResolvable(p[n], p[n + 1..])
    ensures ResolvedFrom(p, now[n := Plain(instr)], n)
  {
    UpdateSplits(now, n, Plain(instr));
    ResolvedStep(p, n);
    PlainsStep(instr, Resolved(p[n + 1..]));
    assert now[..n] == now[..n + 1][..n] == p[..n + 1][..n] == p[..n];
  }

  lemma ResolvedStep(p: seq<Item>, n: nat)
    requires n < |p|
    ensures Resolved(p[n..]) == [ResolveFirst(p[n], p[n + 1..])] + Resolved(p[n + 1..])
    ensures Resolvable(p[n..]) <==> Resolvable(p[n + 1..]) && FirstResolvable(p[n], p[n + 1..])
  {
    assert p[n..][1..] == p[n + 1..];
  }

  lemma PlainsStep(i: Instr, code: seq<Instr>)
    ensures Plains([i] + code) == [Plain(i)] + Plains(code)
  {
  }

  /** Resolves in place, backwards; succeeds exactly on the programs that can be resolved. */
  method BpfResolveJumps(filter: array<Item>) returns (code: int)
    modifies filter
    ensures code == -1 <==> filter.Length < 1 || filter.Length > BPF_MAXINSNS
    ensures code != -1 ==> code == if Resolvable(old(filter[..])) then 0 else 1
    ensures code == 0 ==> filter[..] == Plains(Resolved(old(filter[..])))
  {
    if filter.Length < 1 || filter.Length > BPF_MAXINSNS {
      return -1;
    }
    ghost var p := filter[..];
    var table: map<nat, nat> := map[];
    var offset := filter.Length;
    while offset > 0
      invariant 0 <= offset <= filter.Length
      invariant Knows(table, p, offset) && ResolvedFrom(p, filter[..], offset)
    {
      offset := offset - 1;
      ResolvesOneMore(p, filter[..], offset, table);
      KnowsMore(table, p, offset);
      var item := filter[offset];
      if !CanResolve(item, table) {
        NotResolvable(p, offset);
        return 1;
      }
      ghost var now := filter[..];
      filter[offset] := Plain(ResolveWith(item, table, offset));
      assert filter[..] == now[offset := filter[offset]];
      if item.At? {
        table := table[item.name := offset];
      }
    }
    assert p[0..] == p && filter[..][0..] == filter[..];
    return 0;
  }

  lemma {:induction false} NotResolvable(p: seq<Item>, n: nat)
    requires n <= |p| && !Resolvable(p[n..])
    ensures !Resolvable(p)
    decreases n
  {
    if n == 0 {
      assert p[0..] == p;
    } else {
      assert p[1..][n - 1..] == p[n..];
      NotResolvable(p[1..], n - 1);
    }
  }

  // ----- putting programs together -----

  /** `p` resolves to `r` on its own and sets only the given labels. */
  ghost predicate Closed(p: seq<Item>, labels: set<nat>, r: seq<Instr>) {
    Resolvable(p) && Resolved(p) == r && forall i :: 0 <= i < |p| && p[i].At? ==> p[i].name in labels
  }

  lemma {:induction false} FindAppend(a: seq<Item>, b: seq<Item>, l: nat)
    requires At(l) in a
    ensures Find(a + b, l) == Find(a, l)
  {
    assert (a + b)[0] == a[0];
    if a[0] != At(l) {
      assert (a + b)[1..] == a[1..] + b;
      FindAppend(a[1..], b, l);
    }
  }

  lemma {:induction false} ClosedAppend(a: seq<Item>, la: set<nat>, ra: seq<Instr>, b: seq<Item>, lb: set<nat>,
                                        rb: seq<Instr>)
    requires Closed(a, la, ra) && Closed(b, lb, rb) && la !! lb
    ensures Closed(a + b, la + lb, ra + rb)
  {
    if a == [] {
      assert a + b == b && ra + rb == rb;
    } else {
      assert (a + b)[1..] == a[1..] + b;
      ClosedAppend(a[1..], la, ra[1..], b, lb, rb);
      assert ra + rb == [ra[0]] + (ra[1..] + rb);
      if a[0].To? {
        FindAppend(a[1..], b, a[0].name);
      }
      if a[0].At? {
        assert a[0].name in la;
      }
    }
  }

  /** `p` ends with the one label it sets. */
  ghost predicate Ends(p: seq<Item>, l: nat, r: seq<Instr>) {
    Closed(p, {l}, r) && p != [] && Find(p, l) == |p| - 1 && |p| < 0x100
  }

  lemma EndsAtLabel(l: nat)
    ensures Ends([At(l)], l, [Ja(0)])
  {
    assert [At(l)][1..] == [];
  }

  lemma EndsBehind(i: Item, p: seq<Item>, l: nat, r: seq<Instr>)
    requires Ends(p, l, r) && (i.Plain? || i == To(l)) && |p| < 0xff
    ensures Ends([i] + p, l, [if i.Plain? then i.instr else Ja(|p| - 1)] + r)
  {
    assert ([i] + p)[1..] == p;
    assert p[|p| - 1] == At(l);
  }

  lemma BranchResolves(branch: Instr, l: nat, p: seq<Item>, r: seq<Instr>)
    requires Ends(p, l, r) && |p| < 0xf0
    ensures Ends([Plain(branch), To(l)] + p, l, [branch, Ja(|r| - 1)] + r)
  {
    EndsBehind(To(l), p, l, r);
    EndsBehind(Plain(branch), [To(l)] + p, l, [Ja(|p| - 1)] + r);
    TwoAhead(Plain(branch), To(l), p);
    TwoAhead(branch, Ja(|r| - 1), r);
  }
}
