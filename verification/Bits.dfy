/** What `BitAnd` computes: the bits of a conjunction, and the masks of policies as arithmetic. */
module Bits {
  import opened Bpf

  /** `n >> k`, the last `k` bits of `n`, and `n << k`. */
  function High(n: nat, k: nat): nat { if k == 0 then n else High(n / 2, k - 1) }

  function Low(n: nat, k: nat): nat { if k == 0 then 0 else n % 2 + 2 * Low(n / 2, k - 1) }

  function Up(n: nat, k: nat): nat { if k == 0 then n else 2 * Up(n, k - 1) }

  function Ones(k: nat): nat { if k == 0 then 0 else 2 * Ones(k - 1) + 1 }

  /** Bit number `k` of `n` is set. */
  predicate Bit(n: nat, k: nat) { High(n, k) % 2 == 1 }

  /** A bit of a conjunction is set exactly when it is set in both operands. */
  lemma {:induction false} BitAndBits(a: nat, b: nat, k: nat)
    ensures Bit(BitAnd(a, b), k) <==> Bit(a, k) && Bit(b, k)
    decreases k
  {
    if a == 0 || b == 0 {
      ZeroBit(k);
    } else if k > 0 {
      assert BitAnd(a, b) / 2 == BitAnd(a / 2, b / 2);
      BitAndBits(a / 2, b / 2, k - 1);
    }
  }

  lemma {:induction false} ZeroBit(k: nat)
    ensures !Bit(0, k)
  {
    if k > 0 {
      ZeroBit(k - 1);
    }
  }

  // ----- masks -----

  /** A mask with zeros below looks at the bits above them only. */
  lemma {:induction false} AndShifted(a: nat, mask: nat, k: nat)
    ensures BitAnd(a, Up(mask, k)) == Up(BitAnd(High(a, k), mask), k)
    decreases k
  {
    if k > 0 {
      AndTwice(a, Up(mask, k - 1));
      AndShifted(a / 2, mask, k - 1);
    }
  }

  lemma AndTwice(a: nat, m: nat)
    ensures BitAnd(a, 2 * m) == 2 * BitAnd(a / 2, m)
    ensures BitAnd(a, 2 * m + 1) == a % 2 + 2 * BitAnd(a / 2, m)
  {
    AndHalves(a, 2 * m, m);
    AndHalves(a, 2 * m + 1, m);
  }

  lemma AndHalves(a: nat, b: nat, m: nat)
    requires b / 2 == m
    ensures BitAnd(a, b) == (if a % 2 == 1 && b % 2 == 1 then 1 else 0) + 2 * BitAnd(a / 2, m)
  {
    if a != 0 && b != 0 {
    } else if b == 0 {
      assert BitAnd(a / 2, 0) == 0;
    }
  }

  /** A mask of ones keeps the last bits. */
  lemma {:induction false} AndOnes(a: nat, k: nat)
    ensures BitAnd(a, Ones(k)) == Low(a, k)
    decreases k
  {
    if k > 0 {
      AndTwice(a, Ones(k - 1));
      AndOnes(a / 2, k - 1);
    }
  }

  // ----- shifts as arithmetic -----

  lemma {:induction false} SplitAt(n: nat, k: nat)
    ensures n == Up(High(n, k), k) + Low(n, k) && Low(n, k) < Up(1, k)
    decreases k
  {
    if k > 0 {
      SplitAt(n / 2, k - 1);
    }
  }

  lemma Up4(n: nat, k: nat)
    ensures Up(n, k + 4) == 16 * Up(n, k)
  {
    assert Up(n, k + 4) == 2 * Up(n, k + 3) == 4 * Up(n, k + 2) == 8 * Up(n, k + 1);
  }

  lemma {:induction false} UpOnes(k: nat)
    ensures Ones(k) + 1 == Up(1, k)
  {
    if k > 0 {
      UpOnes(k - 1);
    }
  }

  lemma UpNumbers(n: nat)
    ensures Up(n, 3) == 8 * n && Up(n, 15) == 0x8000 * n && Up(n, 16) == 0x1_0000 * n && Up(n, 23) == 0x80_0000 * n
  {
    assert Up(n, 3) == 2 * Up(n, 2) == 4 * Up(n, 1);
    Up4(n, 3);
    Up4(n, 7);
    Up4(n, 11);
    Up4(n, 15);
    Up4(n, 19);
    assert Up(n, 16) == 2 * Up(n, 15);
  }

  /** Shifting right is dividing, for the shifts of the kernel interface. */
  lemma Divides(n: nat, k: nat, p: nat)
    requires (k, p) in {(3, 8), (15, 0x8000), (16, 0x1_0000), (23, 0x80_0000)}
    ensures High(n, k) == n / p && Low(n, k) == n % p
  {
    SplitAt(n, k);
    UpNumbers(High(n, k));
    UpNumbers(1);
  }

  /** The data in what a filter returns. */
  lemma DataPart(k: nat, mask: nat)
    requires mask == 0xffff
    ensures BitAnd(k, mask) == k % 0x1_0000
  {
    UpNumbers(1);
    UpOnes(16);
    AndOnes(k, 16);
    Divides(k, 16, 0x1_0000);
  }

  /** The action in what a filter returns. */
  lemma ActionPart(k: nat, mask: nat)
    requires mask == 0x7fff_0000
    ensures BitAnd(k, mask) == 0x1_0000 * (k / 0x1_0000 % 0x8000)
  {
    var h := High(k, 16);
    OnesPart(h, 0x7fff);
    UpNumbers(0x7fff);
    AndShifted(k, 0x7fff, 16);
    Divides(k, 16, 0x1_0000);
    UpNumbers(h % 0x8000);
  }

  lemma OnesPart(k: nat, mask: nat)
    requires mask == 0x7fff
    ensures BitAnd(k, mask) == k % 0x8000
  {
    UpNumbers(1);
    UpOnes(15);
    AndOnes(k, 15);
    Divides(k, 15, 0x8000);
  }

  /** A mask of one bit. */
  lemma OneBit(a: nat, k: nat, mask: nat)
    requires mask == Up(1, k)
    ensures BitAnd(a, mask) != 0 <==> Bit(a, k)
  {
    AndShifted(a, 1, k);
    AndTwice(High(a, k), 0);
    UpZero(k);
    UpPositive(k);
  }

  lemma {:induction false} UpZero(k: nat)
    ensures Up(0, k) == 0
  {
    if k > 0 { UpZero(k - 1); }
  }

  lemma {:induction false} UpPositive(k: nat)
    ensures Up(1, k) > 0
  {
    if k > 0 { UpPositive(k - 1); }
  }

  /** Bit 23, which is CLONE_UNTRACED, and bit 3, which is SECCOMP_FILTER_FLAG_NEW_LISTENER. */
  lemma FlagBits(a: nat, untraced: nat, listener: nat)
    requires untraced == 0x80_0000 && listener == 8
    ensures BitAnd(a, untraced) != 0 <==> a / 0x80_0000 % 2 == 1
    ensures BitAnd(a, listener) != 0 <==> a / 8 % 2 == 1
  {
    UpNumbers(1);
    OneBit(a, 23, untraced);
    OneBit(a, 3, listener);
    Divides(a, 23, 0x80_0000);
    Divides(a, 3, 8);
  }

  // ----- numbers of two words -----

  lemma LowHalves(n: nat, k: nat)
    requires k > 0
    ensures Low(n, k) % 2 == n % 2 && Low(n, k) / 2 == Low(n / 2, k - 1)
  {
  }

  /** A conjunction goes by the parts above and below any bit. */
  lemma {:induction false} AndSplits(a: nat, b: nat, k: nat)
    ensures BitAnd(a, b) == Up(BitAnd(High(a, k), High(b, k)), k) + BitAnd(Low(a, k), Low(b, k))
    decreases k
  {
    if k > 0 {
      AndSplits(a / 2, b / 2, k - 1);
      LowHalves(a, k);
      LowHalves(b, k);
      AndParts(a, b, Low(a, k), Low(b, k), Up(BitAnd(High(a, k), High(b, k)), k - 1));
    }
  }

  /** One step of the above: `l` and `m` are the low parts of `a` and `b`, and `u` the upper one. */
  lemma AndParts(a: nat, b: nat, l: nat, m: nat, u: nat)
    requires l % 2 == a % 2 && m % 2 == b % 2 && BitAnd(a / 2, b / 2) == u + BitAnd(l / 2, m / 2)
    ensures BitAnd(a, b) == 2 * u + BitAnd(l, m)
  {
    AndHalves(a, b, b / 2);
    AndHalves(l, m, m / 2);
  }

  lemma Up32(n: nat)
    ensures Up(n, 32) == 0x1_0000_0000 * n
  {
    UpNumbers(n);
    Up4(n, 16);
    Up4(n, 20);
    Up4(n, 24);
    Up4(n, 28);
  }

  lemma Halves(n: nat, hi: nat, lo: nat)
    requires n == 0x1_0000_0000 * hi + lo && lo < 0x1_0000_0000
    ensures High(n, 32) == hi && Low(n, 32) == lo
  {
    SplitAt(n, 32);
    Up32(High(n, 32));
    Up32(1);
  }

  /** Two numbers of two words have a bit in common exactly when their words do. */
  lemma CommonBit(a: nat, b: nat, hi: nat, lo: nat, h: nat, l: nat)
    requires a == 0x1_0000_0000 * hi + lo && b == 0x1_0000_0000 * h + l && lo < 0x1_0000_0000 && l < 0x1_0000_0000
    ensures BitAnd(a, b) != 0 <==> BitAnd(hi, h) != 0 || BitAnd(lo, l) != 0
  {
    AndSplits(a, b, 32);
    Halves(a, hi, lo);
    Halves(b, h, l);
    Up32(BitAnd(hi, h));
  }

  // ----- complements -----

  /** A mask and its complement keep everything between them. */
  lemma {:induction false} AndComplement(a: nat, mask: nat, k: nat)
    requires mask <= Ones(k)
    ensures BitAnd(a, mask) + BitAnd(a, Ones(k) - mask) == Low(a, k)
    decreases k
  {
    if k > 0 {
      var rest := Ones(k) - mask;
      assert rest / 2 == Ones(k - 1) - mask / 2 && rest % 2 == 1 - mask % 2;
      AndComplement(a / 2, mask / 2, k - 1);
      AndHalves(a, mask, mask / 2);
      AndHalves(a, rest, rest / 2);
    } else {
      assert BitAnd(a, 0) == 0;
    }
  }

  /** Masks without a bit in common can be applied one by one. */
  lemma {:induction false} AndAdds(a: nat, m: nat, n: nat)
    requires BitAnd(m, n) == 0
    ensures BitAnd(a, m + n) == BitAnd(a, m) + BitAnd(a, n)
    decreases a
  {
    if a > 0 {
      AndHalves(m, n, n / 2);
      assert (m + n) / 2 == m / 2 + n / 2 && (m + n) % 2 == m % 2 + n % 2;
      AndAdds(a / 2, m / 2, n / 2);
      AndHalves(a, m, m / 2);
      AndHalves(a, n, n / 2);
      AndHalves(a, m + n, m / 2 + n / 2);
    }
  }

  lemma AndBit(a: nat, k: nat)
    ensures BitAnd(a, Up(1, k)) == if Bit(a, k) then Up(1, k) else 0
  {
    AndShifted(a, 1, k);
    AndTwice(High(a, k), 0);
    UpZero(k);
  }
}
