/**
 The block that `PolicyBuilder::AddPolicyOnSyscalls` emits: a chain of comparisons in
 front of a policy body, built back to front so that jump distances are known.

 A match that is out of reach of a short jump goes through a helper jump.  The offset
 of helper jumps has a parameter, the skew, so that the value in the code (skew 0) can
 be compared with the value which reaches the first instruction of the body (skew 1).
 */
module Dispatch {
  import opened Bpf

  const MAX_SHORT_JUMP: nat := 255

  /** The deque `out` and `do_policy_loc` between two iterations of the emitting loop. */
  datatype Chain = Chain(out: seq<Instr>, loc: nat)

  /** Is a long jump over the policy needed behind the last comparison? */
  predicate FarSkip(c: Chain, last: bool) {
    last && |c.out| > MAX_SHORT_JUMP
  }

  /** The length of `out` once that jump is in front. */
  function Behind(c: Chain, last: bool): nat {
    |c.out| + if FarSkip(c, last) then 1 else 0
  }

  predicate NeedsHelper(c: Chain, last: bool) {
    Behind(c, last) - c.loc > MAX_SHORT_JUMP
  }

  /** The distances before they are stored in a `uint8_t`. */
  function MatchDistance(c: Chain, last: bool): nat
    requires c.loc <= |c.out|
  {
    if NeedsHelper(c, last) then 0 else Behind(c, last) - c.loc
  }

  function MissDistance(c: Chain, last: bool): nat {
    (if last && !FarSkip(c, last) then |c.out| else 0) + if NeedsHelper(c, last) then 1 else 0
  }

  /** What one iteration of the emitting loop pushes to the front. */
  function Front(c: Chain, nr: Word, last: bool, bodyLen: nat, skew: nat): (r: seq<Instr>)
    requires bodyLen + skew <= |c.out| && c.loc <= |c.out|
    ensures 1 <= |r|
  {
    [Jump(Eq, nr, U8(MatchDistance(c, last)), U8(MissDistance(c, last)))]
    + (if NeedsHelper(c, last) then [Ja(U32(Behind(c, last) - bodyLen - skew))] else [])
    + (if FarSkip(c, last) then [Ja(U32(|c.out|))] else [])
  }

  /** One iteration of the emitting loop. */
  function Prepend(c: Chain, nr: Word, last: bool, bodyLen: nat, skew: nat): (r: Chain)
    requires bodyLen + skew <= |c.out| && c.loc <= |c.out|
    ensures r.loc <= |r.out|
  {
    Chain(Front(c, nr, last, bodyLen, skew) + c.out,
          if NeedsHelper(c, last) then Behind(c, last) + 1 else c.loc)
  }

  /** All iterations, the last number of the list first. */
  function Emit(nums: seq<Word>, tail: seq<Instr>, skew: nat): (r: Chain)
    requires 1 <= |tail| && skew <= 1
    ensures r.loc <= |r.out| && |tail| <= |r.out|
  {
    if nums == [] then Chain(tail, |tail|)
    else Prepend(Emit(nums[1..], tail, skew), nums[0], |nums| == 1, |tail| - 1, skew)
  }

  /** How many numbers at the end of a list reach the policy without a helper jump. */
  function Reach(tailLen: nat): nat {
    if tailLen > MAX_SHORT_JUMP then MAX_SHORT_JUMP else MAX_SHORT_JUMP + 1
  }

  /** The numbers whose match goes through a helper jump. */
  function Far(nums: seq<Word>, tailLen: nat): seq<Word> {
    if |nums| > Reach(tailLen) then nums[..|nums| - Reach(tailLen)] else []
  }

  /** Where the run of the block enters the tail when `nr` is in the list. */
  function Entry(nums: seq<Word>, nr: Word, tailLen: nat, skew: nat): nat
    requires skew <= 1
  {
    if nr in Far(nums, tailLen) then 1 - skew else 0
  }

  lemma EntryCons(nums: seq<Word>, nr: Word, tailLen: nat, skew: nat)
    requires nums != [] && skew <= 1
    ensures Entry(nums, nr, tailLen, skew)
            == if nr != nums[0] then Entry(nums[1..], nr, tailLen, skew)
               else if |nums| > Reach(tailLen) then 1 - skew else 0
  {
    if |nums| > Reach(tailLen) {
      assert Far(nums, tailLen) == [nums[0]] + Far(nums[1..], tailLen);
    }
  }

  // ----- layout -----

  /** The layout of a chain with at least one comparison. */
  lemma {:induction false} EmitLayout(nums: seq<Word>, tail: seq<Instr>, skew: nat)
    requires 1 <= |tail| && skew <= 1 && nums != []
    ensures var c := Emit(nums, tail, skew);
            && 1 <= |c.out| - c.loc <= MAX_SHORT_JUMP + 1
            && (|nums| <= Reach(|tail|) ==>
                  c.loc == |tail| && |c.out| == |tail| + |nums| + MAX_SHORT_JUMP + 1 - Reach(|tail|))
  {
    if |nums| > 1 {
      EmitLayout(nums[1..], tail, skew);
    }
  }

  /** Every distance fits in the `uint8_t` it is stored in. */
  lemma {:induction false} ShortJumpsFit(nums: seq<Word>, tail: seq<Instr>, skew: nat)
    requires 1 <= |tail| && skew <= 1 && nums != []
    ensures var c := Emit(nums[1..], tail, skew);
            && MatchDistance(c, |nums| == 1) <= MAX_SHORT_JUMP
            && MissDistance(c, |nums| == 1) <= MAX_SHORT_JUMP
  {
  }

  /** The comparisons and jumps in front of the tail. */
  lemma {:induction false} EmitEndsWithTail(nums: seq<Word>, tail: seq<Instr>, skew: nat) returns (pre: seq<Instr>)
    requires 1 <= |tail| && skew <= 1
    ensures Emit(nums, tail, skew).out == pre + tail
  {
    if nums == [] {
      pre := [];
    } else {
      var rest := EmitEndsWithTail(nums[1..], tail, skew);
      pre := Front(Emit(nums[1..], tail, skew), nums[0], |nums| == 1, |tail| - 1, skew) + rest;
    }
  }

  // ----- meaning -----

  /** Running `p` from `pc` is running its tail from `e`. */
  ghost predicate Enters(p: seq<Instr>, d: Data, pc: nat, s: Machine, tail: seq<Instr>, e: nat)
    requires |tail| <= |p|
  {
    Run(p, d, pc, s) == Shift(Run(tail, d, e, s), |p| - |tail|)
  }

  /** Jumping to instruction `e` of the tail enters it there. */
  lemma {:induction false} EntersTail(nums: seq<Word>, tail: seq<Instr>, skew: nat, d: Data, s: Machine, e: nat)
    requires 1 <= |tail| && skew <= 1
    ensures var p := Emit(nums, tail, skew).out; Enters(p, d, |p| - |tail| + e, s, tail, e)
  {
    var pre := EmitEndsWithTail(nums, tail, skew);
    RunSuffix(pre, tail, d, e, s);
  }

  /** Instructions in front do not change what is reached behind them. */
  lemma {:induction false} EntersBehind(pre: seq<Instr>, p: seq<Instr>, d: Data, pc: nat, s: Machine,
                                        tail: seq<Instr>, e: nat)
    requires |tail| <= |p| && Enters(p, d, pc, s, tail, e)
    ensures Enters(pre + p, d, |pre| + pc, s, tail, e)
  {
    RunSuffix(pre, p, d, pc, s);
  }

  /** What one iteration adds: a comparison with exact distances. */
  lemma PrependCompares(b: Chain, nr: Word, last: bool, bodyLen: nat, skew: nat, d: Data, s: Machine)
    requires bodyLen + skew <= |b.out| && b.loc <= |b.out|
    requires MatchDistance(b, last) <= MAX_SHORT_JUMP && MissDistance(b, last) <= MAX_SHORT_JUMP
    ensures var c := Prepend(b, nr, last, bodyLen, skew);
            Run(c.out, d, 0, s)
            == Run(c.out, d, 1 + if s.acc == nr then MatchDistance(b, last) else MissDistance(b, last), s)
  {
    CompareAndJump(Prepend(b, nr, last, bodyLen, skew).out, d, s, nr, MatchDistance(b, last), MissDistance(b, last));
  }

  lemma CompareAndJump(p: seq<Instr>, d: Data, s: Machine, k: Word, jt: Offset8, jf: Offset8)
    requires p != [] && p[0] == Jump(Eq, k, jt, jf)
    ensures Run(p, d, 0, s) == Run(p, d, 1 + if s.acc == k then jt else jf, s)
  {
    assert Execute(p[0], d, s) == Goto(if s.acc == k then jt else jf, s);
  }

  /** A comparison that fails, and is not the last one, goes to the rest of the chain. */
  lemma PrependMisses(b: Chain, nr: Word, bodyLen: nat, skew: nat, d: Data, s: Machine)
    requires bodyLen + skew <= |b.out| && b.loc <= |b.out| && s.acc != nr
    requires MatchDistance(b, false) <= MAX_SHORT_JUMP
    ensures var c := Prepend(b, nr, false, bodyLen, skew);
            |b.out| <= |c.out| && Run(c.out, d, 0, s) == Shift(Run(b.out, d, 0, s), |c.out| - |b.out|)
  {
    PrependCompares(b, nr, false, bodyLen, skew, d, s);
    RunSuffix(Front(b, nr, false, bodyLen, skew), b.out, d, 0, s);
  }

  /** Behind a comparison that fails the tail is entered as before. */
  lemma PrependEnters(b: Chain, nr: Word, skew: nat, d: Data, s: Machine, tail: seq<Instr>, e: nat)
    requires 1 <= |tail| <= |b.out| && skew <= 1 && b.loc <= |b.out| && s.acc != nr
    requires MatchDistance(b, false) <= MAX_SHORT_JUMP
    requires Enters(b.out, d, 0, s, tail, e)
    ensures Enters(Prepend(b, nr, false, |tail| - 1, skew).out, d, 0, s, tail, e)
  {
    PrependMisses(b, nr, |tail| - 1, skew, d, s);
  }

  /** The instruction that `do_policy_loc` points at leads into the tail at `e`. */
  ghost predicate Lands(c: Chain, d: Data, s: Machine, tail: seq<Instr>, e: nat)
    requires c.loc <= |c.out| && |tail| <= |c.out|
  {
    Enters(c.out, d, |c.out| - c.loc, s, tail, e)
  }

  /** A comparison that succeeds goes where `do_policy_loc` points. */
  lemma PrependHits(b: Chain, nr: Word, last: bool, skew: nat, d: Data, s: Machine, tail: seq<Instr>, e: nat)
    requires 1 <= |tail| <= |b.out| && skew <= 1 && b.loc <= |b.out| && s.acc == nr
    requires MatchDistance(b, last) <= MAX_SHORT_JUMP && MissDistance(b, last) <= MAX_SHORT_JUMP
    requires Lands(Prepend(b, nr, last, |tail| - 1, skew), d, s, tail, e)
    ensures Enters(Prepend(b, nr, last, |tail| - 1, skew).out, d, 0, s, tail, e)
  {
    PrependCompares(b, nr, last, |tail| - 1, skew, d, s);
    var c := Prepend(b, nr, last, |tail| - 1, skew);
    assert |c.out| - c.loc == 1 + MatchDistance(b, last);
  }

  /** Without a new helper jump a match lands as it did behind the comparison. */
  lemma PrependLands(b: Chain, nr: Word, skew: nat, d: Data, s: Machine, tail: seq<Instr>, e: nat)
    requires 1 <= |tail| <= |b.out| && skew <= 1 && b.loc <= |b.out| && !NeedsHelper(b, false)
    requires Lands(b, d, s, tail, e)
    ensures Lands(Prepend(b, nr, false, |tail| - 1, skew), d, s, tail, e)
  {
    EntersBehind(Front(b, nr, false, |tail| - 1, skew), b.out, d, |b.out| - b.loc, s, tail, e);
  }

  /** A new helper jump lands on the tail, one instruction in when the skew is 0. */
  lemma HelperLands(b: Chain, nr: Word, skew: nat, d: Data, s: Machine, pre: seq<Instr>, tail: seq<Instr>)
    requires 1 <= |tail| && skew <= 1 && b.loc <= |b.out| && NeedsHelper(b, false)
    requires b.out == pre + tail && |pre| + 1 < 0x1_0000_0000
    ensures Lands(Prepend(b, nr, false, |tail| - 1, skew), d, s, tail, 1 - skew)
  {
    var c := Prepend(b, nr, false, |tail| - 1, skew);
    var front := Front(b, nr, false, |tail| - 1, skew);
    var off := |pre| + 1 - skew;
    assert c.out[1] == Ja(off) && |c.out| - c.loc == 1;
    assert Execute(c.out[1], d, s) == Goto(off, s);
    assert c.out == (front + pre) + tail;
    RunSuffix(front + pre, tail, d, 1 - skew, s);
    assert 1 + 1 + off == |front + pre| + (1 - skew);
  }

  /** A match lands on the first instruction within reach and behind helper jumps otherwise. */
  lemma {:induction false} MatchLands(nums: seq<Word>, tail: seq<Instr>, skew: nat, d: Data, s: Machine)
    requires 1 <= |tail| && skew <= 1
    requires |Emit(nums, tail, skew).out| - |tail| < 0xffff_ffff
    ensures Lands(Emit(nums, tail, skew), d, s, tail, if |nums| > Reach(|tail|) then 1 - skew else 0)
  {
    if nums == [] {
    } else if |nums| <= Reach(|tail|) {
      EmitLayout(nums, tail, skew);
      EntersTail(nums, tail, skew, d, s, 0);
    } else {
      var b := Emit(nums[1..], tail, skew);
      EmitLayout(nums[1..], tail, skew);
      if NeedsHelper(b, false) {
        var pre := EmitEndsWithTail(nums[1..], tail, skew);
        HelperLands(b, nums[0], skew, d, s, pre, tail);
      } else {
        MatchLands(nums[1..], tail, skew, d, s);
        PrependLands(b, nums[0], skew, d, s, tail, 1 - skew);
      }
    }
  }

  /** A number that is not in the list passes the block untouched, for lists of any length. */
  lemma {:induction false} MissPasses(nums: seq<Word>, tail: seq<Instr>, skew: nat, d: Data, s: Machine)
    requires 1 <= |tail| < 0x1_0000_0000 && skew <= 1
    requires nums != [] && s.acc !in nums
    ensures var c := Emit(nums, tail, skew); Run(c.out, d, 0, s) == Left(|c.out|, s)
  {
    var b := Emit(nums[1..], tail, skew);
    ShortJumpsFit(nums, tail, skew);
    if |nums| > 1 {
      PrependMisses(b, nums[0], |tail| - 1, skew, d, s);
      MissPasses(nums[1..], tail, skew, d, s);
    } else {
      LastMisses(nums[0], tail, skew, d, s);
    }
  }

  /** The last comparison jumps over the policy when it fails. */
  lemma LastMisses(nr: Word, tail: seq<Instr>, skew: nat, d: Data, s: Machine)
    requires 1 <= |tail| < 0x1_0000_0000 && skew <= 1 && s.acc != nr
    ensures var c := Prepend(Chain(tail, |tail|), nr, true, |tail| - 1, skew);
            Run(c.out, d, 0, s) == Left(|c.out|, s)
  {
    var b := Chain(tail, |tail|);
    PrependCompares(b, nr, true, |tail| - 1, skew, d, s);
    var c := Prepend(b, nr, true, |tail| - 1, skew);
    if |tail| > MAX_SHORT_JUMP {
      assert c.out[1] == Ja(|tail|);
      assert Execute(c.out[1], d, s) == Goto(|tail|, s);
    }
  }

  /** A number in the list enters the tail at `Entry`. */
  lemma {:induction false} MatchEnters(nums: seq<Word>, tail: seq<Instr>, skew: nat, d: Data, s: Machine)
    requires 1 <= |tail| && skew <= 1
    requires |Emit(nums, tail, skew).out| - |tail| < 0xffff_ffff
    requires s.acc in nums
    ensures Enters(Emit(nums, tail, skew).out, d, 0, s, tail, Entry(nums, s.acc, |tail|, skew))
  {
    var b := Emit(nums[1..], tail, skew);
    var e := Entry(nums, s.acc, |tail|, skew);
    ShortJumpsFit(nums, tail, skew);
    EntryCons(nums, s.acc, |tail|, skew);
    if nums[0] == s.acc {
      MatchLands(nums, tail, skew, d, s);
      PrependHits(b, nums[0], |nums| == 1, skew, d, s, tail, e);
    } else {
      MatchEnters(nums[1..], tail, skew, d, s);
      PrependEnters(b, nums[0], skew, d, s, tail, e);
    }
  }
}
