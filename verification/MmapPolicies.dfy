/** The bodies that the policies for memory allocators put on mmap, and exactly what they allow. */
module MmapPolicies {
  import opened Bits
  import opened Bpf
  import opened Labels
  import opened Seccomp

  const PROT_NONE: Word := 0
  const PROT_READ_WRITE: Word := 3
  const MAP_PRIVATE: Word := 0x02
  const MAP_FIXED: Word := 0x10
  const MAP_ANONYMOUS: Word := 0x20

  function MapNoReserve(host: Host): Word { if host.Ppc64le? then 0x40 else 0x4000 }

  /** MAP_ANONYMOUS | MAP_PRIVATE, and the same with MAP_NORESERVE. */
  const ANONYMOUS: Word := 0x22

  function Reserveless(host: Host): Word { if host.Ppc64le? then 0x62 else 0x4022 }

  const AT_PROT_NONE := 0
  const AT_END := 1

  /** The entry of both: what is not PROT_NONE goes on unless it is other than read and write. */
  const ENTRY: seq<Item> :=
    [Plain(LoadArgLo(2)), Plain(Jump(Eq, PROT_NONE, 0, 1)), To(AT_PROT_NONE),
     Plain(Jump(Eq, PROT_READ_WRITE, 1, 0)), To(AT_END), Plain(LoadArgLo(3))]

  /** `AllowScudoMalloc`. */
  function ScudoMmap(host: Host): seq<Item> {
    ENTRY
    + [Plain(And(0xffff_ffff - MAP_FIXED - MapNoReserve(host))), Plain(Jump(Eq, ANONYMOUS, 0, 1)),
       Plain(Ret(RET_ALLOW)), To(AT_END),
       At(AT_PROT_NONE), Plain(LoadArgLo(3)), Plain(Jump(Eq, Reserveless(host), 0, 1)), Plain(Ret(RET_ALLOW)),
       At(AT_END)]
  }

  /** `AllowSystemMalloc`. */
  function SystemMmap(host: Host): seq<Item> {
    ENTRY
    + [Plain(Jump(Eq, ANONYMOUS, 0, 1)), Plain(Ret(RET_ALLOW)),
       At(AT_PROT_NONE), Plain(LoadArgLo(3)), Plain(Jump(Eq, Reserveless(host), 0, 1)), Plain(Ret(RET_ALLOW)),
       At(AT_END)]
  }

  // ----- single steps -----

  lemma Loads(p: seq<Item>, d: Data, pc: nat, s: Machine, arg: ArgIndex)
    requires pc < |p| && p[pc] == Plain(LoadArgLo(arg))
    ensures RunLabelled(p, d, pc, s) == RunLabelled(p, d, pc + 1, s.(acc := d.lo[arg]))
  {
  }

  lemma Compares(p: seq<Item>, d: Data, pc: nat, s: Machine, k: Word, jt: Offset8, jf: Offset8)
    requires pc < |p| && p[pc] == Plain(Jump(Eq, k, jt, jf))
    ensures RunLabelled(p, d, pc, s) == RunLabelled(p, d, pc + 1 + if s.acc == k then jt else jf, s)
  {
    assert Execute(p[pc].instr, d, s) == Goto(if s.acc == k then jt else jf, s);
  }

  /** The place of a label that is set once. */
  lemma Finds(p: seq<Item>, l: nat, at: nat)
    requires at < |p| && p[at] == At(l) && forall i :: 0 <= i < at ==> p[i] != At(l)
    ensures Find(p, l) == at
  {
  }

  /** The labels are set once, the one of the end last. */
  ghost predicate Labelled(p: seq<Item>, none: nat) {
    && |ENTRY| < none < |p| - 1 && ENTRY <= p && p[none] == At(AT_PROT_NONE) && p[|p| - 1] == At(AT_END)
    && forall i :: 0 <= i < |p| - 1 && i != none ==> !p[i].At?
  }

  /** From the entry: to the label of PROT_NONE, behind the entry, or to the end. */
  lemma Enters(p: seq<Item>, none: nat, d: Data, s: Machine)
    requires Labelled(p, none)
    ensures var t := s.(acc := d.lo[2]);
            RunLabelled(p, d, 0, s)
            == if d.lo[2] == PROT_NONE then RunLabelled(p, d, none + 1, t)
               else if d.lo[2] == PROT_READ_WRITE then RunLabelled(p, d, 6, s.(acc := d.lo[3]))
               else Left(|p|, t)
  {
    var t := s.(acc := d.lo[2]);
    assert forall i :: 0 <= i < 6 ==> p[i] == ENTRY[i];
    Finds(p, AT_PROT_NONE, none);
    Finds(p, AT_END, |p| - 1);
    Loads(p, d, 0, s, 2);
    Compares(p, d, 1, t, PROT_NONE, 0, 1);
    if d.lo[2] == PROT_NONE {
      assert RunLabelled(p, d, 2, t) == RunLabelled(p, d, none, t);
    } else {
      Compares(p, d, 3, t, PROT_READ_WRITE, 1, 0);
      if d.lo[2] == PROT_READ_WRITE {
        Loads(p, d, 5, t, 3);
      } else {
        Ends(p, none, d, 4, t);
      }
    }
  }

  lemma Ends(p: seq<Item>, none: nat, d: Data, pc: nat, s: Machine)
    requires Labelled(p, none) && pc < |p| - 1 && p[pc] == To(AT_END)
    ensures RunLabelled(p, d, pc, s) == Left(|p|, s)
  {
    Finds(p, AT_END, |p| - 1);
    assert RunLabelled(p, d, pc, s) == RunLabelled(p, d, |p| - 1, s) == RunLabelled(p, d, |p|, s);
  }

  /** A comparison that returns ALLOW on success. */
  lemma Allows(p: seq<Item>, d: Data, pc: nat, s: Machine, k: Word)
    requires pc + 1 < |p| && p[pc] == Plain(Jump(Eq, k, 0, 1)) && p[pc + 1] == Plain(Ret(RET_ALLOW))
    ensures RunLabelled(p, d, pc, s)
            == if s.acc == k then Returned(RET_ALLOW) else RunLabelled(p, d, pc + 2, s)
  {
    Compares(p, d, pc, s, k, 0, 1);
  }

  // ----- what is allowed -----

  /** The program resolves, and the resolved one allows exactly what is said and passes on all else. */
  ghost predicate AllowsExactly(p: seq<Item>, d: Data, s: Machine, allowed: bool) {
    && Resolvable(p) && |p| <= BPF_MAXINSNS
    && var r := Run(Resolved(p), d, 0, s);
       if allowed then r == Returned(RET_ALLOW) else r.Left? && r.pc == |p|
  }

  lemma Resolves(p: seq<Item>, none: nat, d: Data, s: Machine, allowed: bool)
    requires Labelled(p, none) && |p| <= BPF_MAXINSNS
    requires forall i :: 0 <= i < |p| && p[i].To? ==> p[i].name == AT_END || (p[i].name == AT_PROT_NONE && i < none)
    requires var r := RunLabelled(p, d, 0, s);
             if allowed then r == Returned(RET_ALLOW) else r.Left? && r.pc == |p|
    ensures AllowsExactly(p, d, s, allowed)
  {
    ResolvableIff(p);
    assert p[|p| - 1] == At(AT_END);
    forall i | 0 <= i < |p| && p[i].To? ensures At(p[i].name) in p[i + 1..] {
      var at := if p[i].name == AT_END then |p| - 1 else none;
      assert p[i + 1..][at - i - 1] == p[at];
    }
    ResolvingKeepsMeaning(p, d, 0, s);
  }

  /** Read and write is allowed with anonymous private memory, reserved or not, because what is not
      allowed as such falls through to the check for PROT_NONE; no access only without reservation. */
  lemma SystemMmapAllows(host: Host, d: Data, s: Machine)
    ensures AllowsExactly(SystemMmap(host), d, s,
              || (d.lo[2] == PROT_READ_WRITE && d.lo[3] in {ANONYMOUS, Reserveless(host)})
              || (d.lo[2] == PROT_NONE && d.lo[3] == Reserveless(host)))
  {
    var p := SystemMmap(host);
    Enters(p, 8, d, s);
    var t := s.(acc := d.lo[3]);
    Allows(p, d, 6, t, ANONYMOUS);
    assert RunLabelled(p, d, 8, t) == RunLabelled(p, d, 9, t);
    Loads(p, d, 9, t, 3);
    Loads(p, d, 9, s.(acc := d.lo[2]), 3);
    Allows(p, d, 10, t, Reserveless(host));
    assert RunLabelled(p, d, 12, t) == RunLabelled(p, d, 13, t);
    Resolves(p, 8, d, s, || (d.lo[2] == PROT_READ_WRITE && d.lo[3] in {ANONYMOUS, Reserveless(host)})
                         || (d.lo[2] == PROT_NONE && d.lo[3] == Reserveless(host)));
  }

  /** Without two bits. */
  lemma Cleared(a: nat, j: nat, k: nat, low: nat, high: nat, w: nat)
    requires low == Up(1, j) && high == Up(1, k) && BitAnd(low, high) == 0 && low + high <= Ones(w) && Low(a, w) == a
    ensures BitAnd(a, Ones(w) - (low + high)) == a - (if Bit(a, j) then low else 0) - (if Bit(a, k) then high else 0)
  {
    AndComplement(a, low + high, w);
    AndAdds(a, low, high);
    AndBit(a, j);
    AndBit(a, k);
  }

  lemma BitDivides(n: nat, k: nat, p: nat)
    requires (k, p) in {(4, 16), (6, 64), (14, 0x4000)}
    ensures Bit(n, k) <==> n / p % 2 == 1
  {
    var h, l := High(n, k), Low(n, k);
    SplitAt(n, k);
    SmallUps(h);
    SmallUps(1);
    assert n == p * h + l && l < p;
  }

  lemma SmallUps(n: nat)
    ensures Up(n, 4) == 16 * n && Up(n, 6) == 64 * n && Up(n, 14) == 0x4000 * n
  {
    Up4(n, 0);
    Up4(n, 2);
    Up4(n, 6);
    Up4(n, 10);
    assert Up(n, 2) == 2 * Up(n, 1);
  }

  lemma FullWord(a: Word) returns (w: nat)
    ensures Ones(w) == 0xffff_ffff && Low(a, w) == a
  {
    w := 32;
    Up32(1);
    UpOnes(32);
    Halves(a, 0, a);
  }

  lemma Masked(a: nat, bit: nat, low: nat, high: nat, w: nat, mask: nat)
    requires low == 16 && (bit, high) in {(6, 0x40), (14, 0x4000)} && BitAnd(low, high) == 0
    requires Ones(w) == 0xffff_ffff && Low(a, w) == a && mask == 0xffff_ffff - low - high
    ensures BitAnd(a, mask) == 0x22 <==> a in {0x22, 0x32, 0x22 + high, 0x32 + high}
  {
    SmallUps(1);
    Cleared(a, 4, bit, low, high, w);
    BitDivides(a, 4, 16);
    BitDivides(a, bit, high);
    FourFlags(a, Bit(a, 4), Bit(a, bit), high);
  }

  /** Flags that are ANONYMOUS without two bits are one of four. */
  lemma MaskedFlags(host: Host, a: Word)
    ensures BitAnd(a, 0xffff_ffff - MAP_FIXED - MapNoReserve(host)) == ANONYMOUS
            <==> a in {ANONYMOUS, ANONYMOUS + MAP_FIXED, Reserveless(host), Reserveless(host) + MAP_FIXED}
  {
    NoCommonBit(host);
    var w := FullWord(a);
    Masked(a, if host.Ppc64le? then 6 else 14, MAP_FIXED, MapNoReserve(host), w,
           0xffff_ffff - MAP_FIXED - MapNoReserve(host));
  }

  lemma NoCommonBit(host: Host)
    ensures BitAnd(MAP_FIXED, MapNoReserve(host)) == 0
  {
    var k := if host.Ppc64le? then 6 else 14;
    SmallUps(1);
    AndBit(MAP_FIXED, k);
    BitDivides(MAP_FIXED, k, MapNoReserve(host));
  }

  lemma FourFlags(a: nat, fixed: bool, reserveless: bool, high: nat)
    requires high in {0x40, 0x4000} && fixed == (a / 16 % 2 == 1) && reserveless == (a / high % 2 == 1)
    ensures a - (if fixed then 16 else 0) - (if reserveless then high else 0) == 0x22
            <==> a in {0x22, 0x32, 0x22 + high, 0x32 + high}
  {
  }

  lemma Ands(p: seq<Item>, d: Data, pc: nat, s: Machine, mask: Word)
    requires pc < |p| && p[pc] == Plain(And(mask))
    ensures RunLabelled(p, d, pc, s) == RunLabelled(p, d, pc + 1, s.(acc := BitAnd(s.acc, mask)))
  {
  }

  /** From the label of PROT_NONE on. */
  lemma ScudoNone(host: Host, d: Data, s: Machine)
    ensures var r := RunLabelled(ScudoMmap(host), d, 11, s);
            if d.lo[3] == Reserveless(host) then r == Returned(RET_ALLOW) else r.Left? && r.pc == 15
  {
    var p, t := ScudoMmap(host), s.(acc := d.lo[3]);
    Loads(p, d, 11, s, 3);
    Allows(p, d, 12, t, Reserveless(host));
    assert RunLabelled(p, d, 14, t) == RunLabelled(p, d, 15, t);
  }

  lemma MaskThenAllow(p: seq<Item>, none: nat, d: Data, s: Machine, mask: Word)
    requires Labelled(p, none) && 9 < |p| - 1 && p[6] == Plain(And(mask)) && p[7] == Plain(Jump(Eq, ANONYMOUS, 0, 1))
    requires p[8] == Plain(Ret(RET_ALLOW)) && p[9] == To(AT_END)
    ensures var acc: Word := BitAnd(s.acc, mask);
            RunLabelled(p, d, 6, s) == if acc == ANONYMOUS then Returned(RET_ALLOW) else Left(|p|, s.(acc := acc))
  {
    var t := s.(acc := BitAnd(s.acc, mask));
    Ands(p, d, 6, s, mask);
    Allows(p, d, 7, t, ANONYMOUS);
    Ends(p, none, d, 9, t);
  }

  /** From the check of the flags on. */
  lemma ScudoReadWrite(host: Host, d: Data, s: Machine)
    requires s.acc == d.lo[3]
    ensures var r := RunLabelled(ScudoMmap(host), d, 6, s);
            if d.lo[3] in {ANONYMOUS, ANONYMOUS + MAP_FIXED, Reserveless(host), Reserveless(host) + MAP_FIXED}
            then r == Returned(RET_ALLOW) else r.Left? && r.pc == 15
  {
    MaskedFlags(host, s.acc);
    MaskThenAllow(ScudoMmap(host), 10, d, s, 0xffff_ffff - MAP_FIXED - MapNoReserve(host));
  }

  /** Read and write is allowed with anonymous private memory at a fixed place or not, reserved or
      not; no access with anonymous private memory that is not reserved; and nothing else. */
  lemma ScudoMmapAllows(host: Host, d: Data, s: Machine)
    ensures AllowsExactly(ScudoMmap(host), d, s,
              || (d.lo[2] == PROT_READ_WRITE
                  && d.lo[3] in {ANONYMOUS, ANONYMOUS + MAP_FIXED, Reserveless(host), Reserveless(host) + MAP_FIXED})
              || (d.lo[2] == PROT_NONE && d.lo[3] == Reserveless(host)))
  {
    var p := ScudoMmap(host);
    var ok := d.lo[3] in {ANONYMOUS, ANONYMOUS + MAP_FIXED, Reserveless(host), Reserveless(host) + MAP_FIXED};
    Enters(p, 10, d, s);
    ScudoNone(host, d, s.(acc := d.lo[2]));
    ScudoReadWrite(host, d, s.(acc := d.lo[3]));
    Resolves(p, 10, d, s, || (d.lo[2] == PROT_READ_WRITE && ok)
                          || (d.lo[2] == PROT_NONE && d.lo[3] == Reserveless(host)));
  }
}
