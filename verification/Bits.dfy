/** What the bitwise operations do to single bits. */
module Bits {
  import opened Words

  /** Bit `k` of `x`. */
  predicate BitAt(x: nat, k: nat) {
    if k == 0 then x % 2 == 1 else BitAt(x / 2, k - 1)
  }

  lemma HalfDivides(x: nat, p: nat)
    requires p > 0
    ensures x / (2 * p) == x / 2 / p
  {
    var h, b := x / 2, x % 2;
    var q, r := h / p, h % p;
    TwiceProduct(q, p);
    assert x == q * (2 * p) + (2 * r + b);
    DivUnique(x, 2 * p, q, 2 * r + b);
  }

  /** ... which is x / 2^k % 2. */
  lemma {:induction false} BitIsDivision(x: nat, k: nat)
    ensures BitAt(x, k) <==> x / Pow2(k) % 2 == 1
  {
    if k == 0 {
    } else {
      BitIsDivision(x / 2, k - 1);
      HalfDivides(x, Pow2(k - 1));
    }
  }

  lemma {:induction false} NoBits(k: nat)
    ensures !BitAt(0, k)
  {
    if k == 0 {
    } else {
      NoBits(k - 1);
    }
  }

  lemma {:induction false} AndBits(a: nat, b: nat, k: nat)
    ensures BitAt(And(a, b), k) <==> BitAt(a, k) && BitAt(b, k)
  {
    if a == 0 || b == 0 {
      NoBits(k);
    } else if k == 0 {
    } else {
      AndBits(a / 2, b / 2, k - 1);
    }
  }

  /** The halves of a + b - And(a, b) and its relatives. */
  lemma CombinedHalves(a: nat, b: nat)
    ensures Or(a, b) / 2 == Or(a / 2, b / 2) && (Or(a, b) % 2 == 1 <==> a % 2 == 1 || b % 2 == 1)
    ensures Xor(a, b) / 2 == Xor(a / 2, b / 2) && (Xor(a, b) % 2 == 1 <==> a % 2 != b % 2)
    ensures (a - And(a, b)) / 2 == a / 2 - And(a / 2, b / 2)
    ensures (a - And(a, b)) % 2 == 1 <==> a % 2 == 1 && b % 2 == 0
  {
    AndHalves(a, b);
    var p, q := And(a / 2, b / 2), if a % 2 == 1 && b % 2 == 1 then 1 else 0;
    assert And(a, b) == q + 2 * p;
    DivUnique(Or(a, b), 2, Or(a / 2, b / 2), a % 2 + b % 2 - q);
    DivUnique(Xor(a, b), 2, Xor(a / 2, b / 2), a % 2 + b % 2 - 2 * q);
    DivUnique(a - And(a, b), 2, a / 2 - p, a % 2 - q);
  }

  lemma AndHalves(a: nat, b: nat)
    ensures And(a, b) == (if a % 2 == 1 && b % 2 == 1 then 1 else 0) + 2 * And(a / 2, b / 2)
  {
  }

  lemma {:induction false} OrBits(a: nat, b: nat, k: nat)
    ensures BitAt(Or(a, b), k) <==> BitAt(a, k) || BitAt(b, k)
  {
    hide Or;
    CombinedHalves(a, b);
    if k == 0 {
    } else {
      OrBits(a / 2, b / 2, k - 1);
    }
  }

  lemma {:induction false} XorBits(a: nat, b: nat, k: nat)
    ensures BitAt(Xor(a, b), k) <==> BitAt(a, k) != BitAt(b, k)
  {
    hide Xor;
    CombinedHalves(a, b);
    if k == 0 {
    } else {
      XorBits(a / 2, b / 2, k - 1);
    }
  }

  /** The bits of `a` that `b` does not have. */
  lemma {:induction false} ClearBits(a: nat, b: nat, k: nat)
    ensures BitAt(a - And(a, b), k) <==> BitAt(a, k) && !BitAt(b, k)
  {
    hide And;
    CombinedHalves(a, b);
    if k == 0 {
    } else {
      ClearBits(a / 2, b / 2, k - 1);
    }
  }

  /** A common bit is what makes the bitwise and nonzero. */
  lemma {:induction false} CommonBit(a: nat, b: nat) returns (k: nat)
    requires And(a, b) != 0
    ensures BitAt(a, k) && BitAt(b, k)
  {
    if a % 2 == 1 && b % 2 == 1 {
      k := 0;
    } else {
      k := CommonBit(a / 2, b / 2);
      k := k + 1;
    }
  }

  lemma {:induction false} SharedBit(a: nat, b: nat, k: nat)
    requires BitAt(a, k) && BitAt(b, k)
    ensures And(a, b) != 0
  {
    NoBits(k);
    if k == 0 {
    } else {
      SharedBit(a / 2, b / 2, k - 1);
    }
  }

  /* ---- Shifts ---- */

  /** Times 2^n moves every bit up by n. */
  lemma {:induction false} ShiftedUp(x: nat, n: nat, k: nat)
    ensures BitAt(x * Pow2(n), k) <==> k >= n && BitAt(x, k - n)
  {
    if n == 0 {
    } else {
      var y := x * Pow2(n - 1);
      TwiceProduct(x, Pow2(n - 1));
      assert x * Pow2(n) == 2 * y;
      if k == 0 {
      } else {
        ShiftedUp(x, n - 1, k - 1);
      }
    }
  }

  /** Division by 2^n moves every bit down by n. */
  lemma {:induction false} ShiftedDown(x: nat, n: nat, q: nat, r: nat, k: nat)
    requires x == q * Pow2(n) + r && r < Pow2(n)
    ensures BitAt(q, k) <==> BitAt(x, k + n)
  {
    if n == 0 {
    } else {
      TwiceProduct(q, Pow2(n - 1));
      DivUnique(x, 2, q * Pow2(n - 1) + r / 2, r % 2);
      ShiftedDown(x / 2, n - 1, q, r / 2, k);
    }
  }

  /** The residue modulo 2^n has the bits below n. */
  lemma {:induction false} LowBits(x: nat, n: nat, k: nat)
    ensures BitAt(x % Pow2(n), k) <==> k < n && BitAt(x, k)
  {
    if n == 0 {
      NoBits(k);
    } else {
      HalfMod(x, Pow2(n - 1));
      if k == 0 {
      } else {
        LowBits(x / 2, n - 1, k - 1);
      }
    }
  }

  /** 2^n - 1 - x has the bits below n that `x` lacks. */
  lemma {:induction false} OtherBits(x: nat, n: nat, k: nat)
    requires x < Pow2(n)
    ensures BitAt(Pow2(n) - 1 - x, k) <==> k < n && !BitAt(x, k)
  {
    if n == 0 {
      NoBits(k);
    } else {
      var p := Pow2(n - 1);
      DivUnique(Pow2(n) - 1 - x, 2, p - 1 - x / 2, 1 - x % 2);
      if k == 0 {
      } else {
        OtherBits(x / 2, n - 1, k - 1);
      }
    }
  }

  lemma WordBits(w: Word, k: nat)
    requires k >= 32
    ensures !BitAt(w, k)
  {
    Pow2Literals();
    LowBits(w, 32, k);
    DivUnique(w, 0x1_0000_0000, 0, w);
  }
}
