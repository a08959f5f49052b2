/** 32-bit register words, as the set of bit positions that are one.
    The C operators the drivers use on them become set operations. */
module Words {
  import opened Arithmetic

  type Word = w: set<nat> | forall b | b in w :: b < 32

  const ZERO: Word := {}

  /** `1 << k` */
  function Mask(k: nat): Word
    requires k < 32
  {
    {k}
  }

  /** The word whose low `k` bits are one, as in 0xFF for k = 8. */
  function LowBits(k: nat): (w: Word)
    requires k <= 32
    ensures forall b: nat :: b in w <==> b < k
  {
    if k == 0 then {} else LowBits(k - 1) + {k - 1}
  }

  /** `a | b` */
  function Or(a: Word, b: Word): Word {
    a + b
  }

  /** `a & b` */
  function And(a: Word, b: Word): Word {
    a * b
  }

  /** `~a` */
  function Complement(a: Word): Word {
    LowBits(32) - a
  }

  /** `!a`: one when `a` is zero, and zero otherwise. */
  function LogicalNot(a: Word): Word {
    if a == {} then {0} else {}
  }

  function Pow2(k: nat): nat {
    if k == 0 then 1 else 2 * Pow2(k - 1)
  }

  /** The number the low `k` bits of a word stand for. */
  function LowValue(w: Word, k: nat): nat {
    if k == 0 then 0 else LowValue(w, k - 1) + if k - 1 in w then Pow2(k - 1) else 0
  }

  function Value(w: Word): nat {
    LowValue(w, 32)
  }

  lemma {:induction false} LowValueOfAnd(w: Word, m: nat, k: nat)
    requires m <= 32
    ensures LowValue(And(w, LowBits(m)), k) == LowValue(w, if k <= m then k else m)
  {
    if k == 0 {
    } else {
      LowValueOfAnd(w, m, k - 1);
    }
  }

  /** Masking with 2^m - 1 keeps the low m bits' value. */
  lemma ValueOfAnd(w: Word, m: nat)
    requires m <= 32
    ensures Value(And(w, LowBits(m))) == LowValue(w, m)
  {
    LowValueOfAnd(w, m, 32);
  }

  /** The low m bits are the value modulo 2^m. */
  lemma {:induction false} LowValueMod(w: Word, m: nat, k: nat)
    requires m <= k
    ensures Pow2(m) > 0 && LowValue(w, m) < Pow2(m) && LowValue(w, k) % Pow2(m) == LowValue(w, m)
    decreases k
  {
    Pow2Positive(m);
    if k > m {
      LowValueMod(w, m, k - 1);
      Pow2Multiple(m, k - 1);
      ModAdds(LowValue(w, k - 1), if k - 1 in w then Pow2(k - 1) else 0, Pow2(m));
    } else if m > 0 {
      LowValueMod(w, m - 1, m - 1);
      SmallMod(LowValue(w, m), Pow2(m));
    }
  }

  lemma SmallMod(a: nat, d: nat)
    requires a < d
    ensures a % d == a
  {
  }

  lemma ModAdds(a: nat, b: nat, d: nat)
    requires d > 0 && b % d == 0
    ensures (a + b) % d == a % d
  {
    DivModUnique(a + b, a / d + b / d, d, a % d) by {
      assert a == a / d * d + a % d && b == b / d * d;
      assert (a / d + b / d) * d == a / d * d + b / d * d;
    }
  }

  lemma {:induction false} Pow2Multiple(m: nat, k: nat)
    requires m <= k
    ensures Pow2(m) > 0 && Pow2(k) % Pow2(m) == 0
  {
    Pow2Positive(m);
    if k > m {
      Pow2Multiple(m, k - 1);
      ModAdds(Pow2(k - 1), Pow2(k - 1), Pow2(m));
    } else {
      DivModUnique(Pow2(m), 1, Pow2(m), 0);
    }
  }

  /** A word with at most one bit set is zero exactly when that bit is. */
  lemma {:induction false} LowValueOfOneBit(w: Word, b: nat, k: nat)
    requires w <= {b} && k <= 32
    ensures LowValue(w, k) == if b in w && b < k then Pow2(b) else 0
  {
    if k == 0 {
    } else {
      LowValueOfOneBit(w, b, k - 1);
    }
  }

  lemma {:induction false} Pow2Positive(k: nat)
    ensures Pow2(k) > 0
  {
    if k == 0 {
    } else {
      Pow2Positive(k - 1);
    }
  }

  lemma ValueOfOneBit(w: Word, b: nat)
    requires w <= {b}
    ensures Value(w) != 0 <==> b in w
  {
    LowValueOfOneBit(w, b, 32);
    Pow2Positive(b);
  }
}
