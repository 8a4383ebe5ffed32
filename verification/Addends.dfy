/** What a relocation keeps of a label expression, and when that is all of it. The object file stores the label
    and one `+ INT` or `- INT`; the terms behind are dropped. */
module Addends {
  import opened Words
  import opened Lexer
  import opened Assembler
  import opened Moving

  /** How many tokens the object file keeps. */
  function KeptTokens(ts: seq<Token>): (n: nat)
    requires ts != []
    ensures n <= |ts|
  {
    if |ts| >= 3 && (ts[1].Plus? || ts[1].Minus?) && ts[2].Int? then 3 else 1
  }

  function Cut(ts: seq<Token>): seq<Token>
    requires ts != []
  {
    ts[..KeptTokens(ts)]
  }

  function Rest(ts: seq<Token>): seq<Token>
    requires ts != []
  {
    ts[KeptTokens(ts)..]
  }

  lemma CutIsSimple(ts: seq<Token>)
    requires ts != [] && ts[0].Ident?
    ensures SimpleRef(Cut(ts)) && Cut(ts) != [] && Cut(ts)[0] == ts[0]
  {
  }

  /** The object file sees no difference. */
  lemma CutPeeks(ts: seq<Token>, syms: Symtab)
    requires ts != []
    ensures PeekSymbol(Cut(ts), syms) == PeekSymbol(ts, syms)
  {
  }

  /** The value the object file stands for: the label's, plus the one addend. */
  function KeptValue(ts: seq<Token>, syms: Symtab): int
    requires ts != [] && ts[0].Ident? && FindSymbol(syms, ts[0].name).Some?
  {
    CutIsSimple(ts);
    syms[FindSymbol(syms, ts[0].name).value].addr + Addend(Cut(ts))
  }

  /** The expression is worth what the object file keeps of it, in 32 bits. */
  predicate KeepsAll(ts: seq<Token>, syms: Symtab)
    requires ts != [] && ts[0].Ident? && FindSymbol(syms, ts[0].name).Some?
  {
    var v := Eval(ts, syms, true);
    v.Some? && Wrap(v.value.0) == Wrap(KeptValue(ts, syms))
  }

  /** Evaluation goes on from the kept value with what was dropped. */
  lemma EvalDropped(ts: seq<Token>, syms: Symtab)
    requires ts != [] && ts[0].Ident? && FindSymbol(syms, ts[0].name).Some?
    ensures Eval(ts, syms, true) == EvalTail(KeptValue(ts, syms), Rest(ts), syms, true)
    ensures Eval(Cut(ts), syms, true).Some? && Eval(Cut(ts), syms, true).value.0 == KeptValue(ts, syms)
  {
    CutIsSimple(ts);
    EvalSimpleRef(Cut(ts), syms);
    var v := syms[FindSymbol(syms, ts[0].name).value].addr;
    var us := ts[1..];
    assert Eval(ts, syms, true) == EvalTail(v, us, syms, true);
    if KeptTokens(ts) == 3 {
      assert us[0] == ts[1] && us[1] == ts[2] && us[2..] == Rest(ts);
      assert EvalTail(v, us, syms, true) == EvalTail(Apply(ts[1], v, ts[2].value), Rest(ts), syms, true);
    }
  }

  /* ---- Tails of numbers ---- */

  /** `{ (+ | - | >>) INT }`, and then anything but an operator. */
  predicate IntTail(us: seq<Token>)
    decreases |us|
  {
    us == [] || !IsOperator(us[0]) || (|us| >= 2 && us[1].Int? && IntTail(us[2..]))
  }

  function TailValue(v: int, us: seq<Token>): int
    requires IntTail(us)
    decreases |us|
  {
    if us == [] || !IsOperator(us[0]) then v else TailValue(Apply(us[0], v, us[1].value), us[2..])
  }

  /** The sum of the terms, shifts aside. */
  function Sum(us: seq<Token>): int
    requires IntTail(us)
    decreases |us|
  {
    if us == [] || !IsOperator(us[0]) then 0
    else (if us[0].Plus? then us[1].value else if us[0].Minus? then -us[1].value else 0) + Sum(us[2..])
  }

  /** Every shift is by 0. */
  predicate ShiftsByZero(us: seq<Token>)
    requires IntTail(us)
    decreases |us|
  {
    us == [] || !IsOperator(us[0]) || ((us[0].RShiftTok? ==> us[1].value == 0) && ShiftsByZero(us[2..]))
  }

  lemma {:induction false} TailEvaluates(v: int, us: seq<Token>, syms: Symtab)
    requires IntTail(us)
    ensures EvalTail(v, us, syms, true).Some? && EvalTail(v, us, syms, true).value.0 == TailValue(v, us)
    decreases |us|
  {
    if us == [] || !IsOperator(us[0]) {
    } else {
      TailEvaluates(Apply(us[0], v, us[1].value), us[2..], syms);
    }
  }

  lemma {:induction false} TailIsSum(v: int, us: seq<Token>)
    requires IntTail(us) && ShiftsByZero(us)
    ensures TailValue(v, us) == v + Sum(us)
    decreases |us|
  {
    if us == [] || !IsOperator(us[0]) {
    } else {
      assert Pow2(0) == 1;
      TailIsSum(Apply(us[0], v, us[1].value), us[2..]);
    }
  }

  lemma SumWraps(v: int, n: int)
    ensures Wrap(v + n) == Wrap(v) <==> n % 0x1_0000_0000 == 0
  {
  }

  /** For a label followed by plus and minus terms (and shifts by 0), at any address: the object file keeps
      the value exactly when the dropped terms sum to 0 modulo 2^32. */
  lemma KeptIffSumZero(ts: seq<Token>, syms: Symtab)
    requires ts != [] && ts[0].Ident? && FindSymbol(syms, ts[0].name).Some?
    requires IntTail(Rest(ts)) && ShiftsByZero(Rest(ts))
    ensures KeepsAll(ts, syms) <==> Sum(Rest(ts)) % 0x1_0000_0000 == 0
  {
    EvalDropped(ts, syms);
    TailEvaluates(KeptValue(ts, syms), Rest(ts), syms);
    TailIsSum(KeptValue(ts, syms), Rest(ts));
    SumWraps(KeptValue(ts, syms), Sum(Rest(ts)));
  }

  /* ---- With shifts ---- */

  lemma {:induction false} PowAtLeastTwo(b: nat)
    requires b >= 1
    ensures Pow2(b) >= 2
  {
  }

  /** Floor division brings two numbers at least half as near. */
  lemma Halving(v: int, w: int, p: int)
    requires v <= w && p >= 2
    ensures 0 <= w / p - v / p <= (w - v + 1) / 2
  {
    var x, y, d := w / p, v / p, w - v;
    assert w == p * x + w % p && v == p * y + v % p;
    var n := x - y;
    assert p * n == p * x - p * y == d - w % p + v % p;
    if n < 0 {
      NegativeProduct(p, n);
    } else if n >= 1 {
      assert p * n == p * (n - 1) + p;
      TwoTimes(p, n - 1);
    }
  }

  lemma NegativeProduct(p: int, n: int)
    requires p >= 2 && n < 0
    ensures p * n <= -p
  {
    var m := -n;
    MulLe(p, 1, m);
    assert p * n == -(m * p);
  }

  lemma TwoTimes(p: int, n: int)
    requires p >= 2 && n >= 0
    ensures p * n >= 2 * n
  {
  }

  /** One operator keeps the order and no distance grows; a shift that is not by 0 halves it. */
  lemma ApplySlope(op: Token, b: int, v: int, w: int)
    requires IsOperator(op) && v <= w
    ensures 0 <= Apply(op, w, b) - Apply(op, v, b) <= w - v
    ensures op.RShiftTok? && b != 0 ==> Apply(op, w, b) - Apply(op, v, b) <= (w - v + 1) / 2
  {
    if op.RShiftTok? && 0 < b < 64 {
      PowAtLeastTwo(b);
      Halving(v, w, Pow2(b));
    } else if op.RShiftTok? && b == 0 {
      assert Pow2(0) == 1;
    }
  }

  lemma {:induction false} TailSlope(us: seq<Token>, v: int, w: int)
    requires IntTail(us) && v <= w
    ensures 0 <= TailValue(w, us) - TailValue(v, us) <= w - v
    ensures !ShiftsByZero(us) ==> TailValue(w, us) - TailValue(v, us) <= (w - v + 1) / 2
    decreases |us|
  {
    if us == [] || !IsOperator(us[0]) {
    } else {
      hide Apply;
      ApplySlope(us[0], us[1].value, v, w);
      TailSlope(us[2..], Apply(us[0], v, us[1].value), Apply(us[0], w, us[1].value));
    }
  }

  /** With shifts: the dropped tail changes no kept value, wherever the label is, exactly when every shift is
      by 0 and the terms sum to 0 modulo 2^32. */
  lemma InertTail(us: seq<Token>)
    requires IntTail(us)
    ensures (forall v: Word :: Wrap(TailValue(v, us)) == v) <==> ShiftsByZero(us) && Sum(us) % 0x1_0000_0000 == 0
  {
    if ShiftsByZero(us) {
      forall v: Word ensures TailValue(v, us) == v + Sum(us) && Wrap(v) == v {
        TailIsSum(v, us);
        DivUnique(v, 0x1_0000_0000, 0, v);
      }
      SumWraps(0, Sum(us));
      if Sum(us) % 0x1_0000_0000 == 0 {
        forall v: Word ensures Wrap(TailValue(v, us)) == v {
          SumWraps(v, Sum(us));
        }
      } else {
        var zero: Word := 0;
        assert Wrap(TailValue(zero, us)) != zero;
      }
    } else {
      var zero: Word, top: Word := 0, 0xFFFF_FFFF;
      TailSlope(us, zero, top);
      FarApart(TailValue(zero, us), TailValue(top, us));
    }
  }

  lemma FarApart(x: int, y: int)
    requires 0 <= y - x <= 0x8000_0000
    ensures !(Wrap(x) == 0 && Wrap(y) == 0xFFFF_FFFF)
  {
  }

  /** A single `>> b` behind the kept part leaves a kept value below 2^32 as it is exactly when it is by 0 or
      the value is 0. */
  lemma ShiftKeeps(k: Word, b: int)
    ensures Wrap(TailValue(k, [RShiftTok, Int(b)])) == Wrap(k) <==> b == 0 || k == 0
  {
    var us := [RShiftTok, Int(b)];
    assert us[2..] == [];
    DivUnique(k, 0x1_0000_0000, 0, k);
    assert TailValue(k, us) == Apply(RShiftTok, k, b);
    if 0 < b < 64 {
      PowAtLeastTwo(b);
      Halving(0, k, Pow2(b));
      DivUnique(k / Pow2(b), 0x1_0000_0000, 0, k / Pow2(b));
    } else if b == 0 {
      assert Pow2(0) == 1;
    }
  }

  /** For `label >> n` and `label + m >> n`: the object file, which drops the shift, keeps the value exactly when
      the shift is by 0 or the value is 0. */
  lemma ShiftedKept(ts: seq<Token>, syms: Symtab, b: int)
    requires ts != [] && ts[0].Ident? && FindSymbol(syms, ts[0].name).Some?
    requires Rest(ts) == [RShiftTok, Int(b)] && 0 <= KeptValue(ts, syms) < 0x1_0000_0000
    ensures KeepsAll(ts, syms) <==> b == 0 || KeptValue(ts, syms) == 0
  {
    EvalDropped(ts, syms);
    assert Rest(ts)[2..] == [];
    TailEvaluates(KeptValue(ts, syms), Rest(ts), syms);
    ShiftKeeps(KeptValue(ts, syms), b);
  }
}
