/** Assembler expressions, from left to right: sums, differences and shifts of numbers and symbols. */
module Expressions {
  import opened Words
  import opened Lexer
  import opened Assembler
  import opened Symbols
  import Arithmetic

  /** One `+ x`, `- x` or `>> x`. */
  datatype Term = Term(op: Token, operand: Token)

  predicate IsTerm(t: Term) {
    t.op == Plus || t.op == Minus || t.op == RShiftTok
  }

  function Written(terms: seq<Term>): (ts: seq<Token>)
    ensures |ts| == 2 * |terms|
  {
    if terms == [] then [] else [terms[0].op, terms[0].operand] + Written(terms[1..])
  }

  /** A number is itself, a symbol its address; an unknown symbol has no value. */
  function Worth(t: Token, syms: Symtab): Option<int> {
    match t
    case Int(v) => Some(v)
    case Ident(y) => if SymbolOf(syms, y).Some? then Some(SymbolOf(syms, y).value.addr) else None
    case _ => None
  }

  /** `u` is `v` plus, minus, or shifted right with sign by `x`; a shift by 64 or more is undefined in C. */
  predicate Gives(op: Token, v: int, x: int, u: int) {
    && (op == Plus ==> u == v + x) && (op == Minus ==> u == v - x)
    && (op == RShiftTok && 0 <= x < 64 ==> Arithmetic.Floor(u, v, Pow2(x)))
  }

  /** From `v` the terms, one after the other, lead to `r`. */
  ghost predicate LeadsTo(v: int, terms: seq<Term>, syms: Symtab, r: int)
    decreases |terms|
  {
    if terms == [] then r == v else
    var x := Worth(terms[0].operand, syms);
    x.Some? && exists u :: Gives(terms[0].op, v, x.value, u) && LeadsTo(u, terms[1..], syms, r)
  }

  predicate AllWorth(terms: seq<Term>, syms: Symtab) {
    forall i :: 0 <= i < |terms| ==> IsTerm(terms[i]) && Worth(terms[i].operand, syms).Some?
  }

  lemma OperandIs(t: Token, syms: Symtab)
    ensures Operand(t, syms, true) == Worth(t, syms)
  {
  }

  lemma ApplyGives(op: Token, v: int, x: int)
    requires op == Plus || op == Minus || op == RShiftTok
    ensures Gives(op, v, x, Apply(op, v, x))
  {
    if op == RShiftTok && 0 <= x < 64 {
      assert v == v / Pow2(x) * Pow2(x) + v % Pow2(x);
    }
  }

  lemma {:induction false} TermsEvaluate(v: int, terms: seq<Term>, rest: seq<Token>, syms: Symtab)
    requires (forall i :: 0 <= i < |terms| ==> IsTerm(terms[i])) && (rest == [] || !IsOperator(rest[0]))
    ensures var e := EvalTail(v, Written(terms) + rest, syms, true);
      && (e.Some? <==> AllWorth(terms, syms))
      && (e.Some? ==> e.value.1 == rest && LeadsTo(v, terms, syms, e.value.0))
    decreases |terms|
  {
    hide Apply, Gives, Worth;
    var ts := Written(terms) + rest;
    if terms == [] {
      assert ts == rest;
    } else {
      assert ts[0] == terms[0].op && ts[1] == terms[0].operand && ts[2..] == Written(terms[1..]) + rest;
      OperandIs(terms[0].operand, syms);
      if Worth(terms[0].operand, syms).Some? {
        var x := Worth(terms[0].operand, syms).value;
        var u := Apply(terms[0].op, v, x);
        ApplyGives(terms[0].op, v, x);
        TermsEvaluate(u, terms[1..], rest, syms);
        assert AllWorth(terms, syms) <==> AllWorth(terms[1..], syms) by { FirstWorth(terms, syms); }
      }
    }
  }

  lemma FirstWorth(terms: seq<Term>, syms: Symtab)
    requires terms != [] && IsTerm(terms[0]) && Worth(terms[0].operand, syms).Some?
    ensures AllWorth(terms, syms) <==> AllWorth(terms[1..], syms)
  {
    hide Worth, IsTerm;
    if AllWorth(terms[1..], syms) {
      forall i | 0 <= i < |terms| ensures IsTerm(terms[i]) && Worth(terms[i].operand, syms).Some? {
        if i > 0 {
          assert IsTerm(terms[1..][i - 1]) && Worth(terms[1..][i - 1].operand, syms).Some?;
        }
      }
    }
  }

  /** Main result: an expression `first`, or `- first`, and terms behind it has a value exactly when every operand has
      one; it is then what the terms, from left to right, make of the first operand, and reading stops behind them. */
  lemma ExpressionValue(negative: bool, first: Token, terms: seq<Term>, rest: seq<Token>, syms: Symtab)
    requires (first.Int? || first.Ident?) && (forall i :: 0 <= i < |terms| ==> IsTerm(terms[i]))
    requires rest == [] || !IsOperator(rest[0])
    ensures var e := Eval((if negative then [Minus] else []) + ([first] + (Written(terms) + rest)), syms, true);
      && (e.Some? <==> Worth(first, syms).Some? && AllWorth(terms, syms))
      && (e.Some? ==>
            var v := Worth(first, syms).value;
            e.value.1 == rest && LeadsTo(if negative then -v else v, terms, syms, e.value.0))
  {
    hide EvalTail, LeadsTo, AllWorth;
    var us := [first] + (Written(terms) + rest);
    var ts := (if negative then [Minus] else []) + us;
    assert (if negative then ts[1..] else ts) == us && us[1..] == Written(terms) + rest && us[0] == first;
    OperandIs(first, syms);
    if Worth(first, syms).Some? {
      var v := Worth(first, syms).value;
      TermsEvaluate(if negative then -v else v, terms, rest, syms);
    }
  }
}
