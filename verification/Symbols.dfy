/** Pass 2 sees, at every line, the very symbol table pass 1 ended with. */
module Symbols {
  import opened Words
  import opened OpTable
  import opened Lexer
  import opened Assembler
  import opened Passes

  function SymbolOf(syms: Symtab, name: string): Option<Symbol> {
    var i := FindSymbol(syms, name);
    if i.Some? then Some(syms[i.value]) else None
  }

  /* ---- Lookups and updates ---- */

  lemma {:induction false} FindAppend(syms: Symtab, s: Symbol, name: string)
    ensures FindSymbol(syms + [s], name) ==
      (if FindSymbol(syms, name).Some? then FindSymbol(syms, name) else if s.name == name then Some(|syms|) else None)
  {
    if syms == [] {
      assert [] + [s] == [s] && [s][1..] == [];
    } else {
      assert (syms + [s])[1..] == syms[1..] + [s];
      FindAppend(syms[1..], s, name);
    }
  }

  lemma {:induction false} FindUpdate(syms: Symtab, i: nat, s: Symbol, name: string)
    requires i < |syms| && s.name == syms[i].name
    ensures FindSymbol(syms[i := s], name) == FindSymbol(syms, name)
  {
    if i == 0 {
      assert syms[i := s][1..] == syms[1..];
    } else {
      assert syms[i := s][1..] == syms[1..][i - 1 := s];
      FindUpdate(syms[1..], i - 1, s, name);
    }
  }

  lemma {:induction false} FindUnique(syms: Symtab, i: nat, name: string)
    requires FindSymbol(syms, name) == Some(i)
    ensures forall k :: 0 <= k < i ==> syms[k].name != name
  {
    if i == 0 {
    } else {
      FindUnique(syms[1..], i - 1, name);
    }
  }

  /** Updating the entry of `name` changes the lookup of `name` only. */
  lemma EnsureThenUpdate(syms: Symtab, name: string, s: Symbol, y: string)
    requires s.name == name
    ensures var (t, i) := Ensure(syms, name);
      && FindSymbol(t, name) == Some(i)
      && SymbolOf(t[i := s], y) == if y == name then Some(s) else SymbolOf(syms, y)
  {
    var (t, i) := Ensure(syms, name);
    var added := Symbol(name, 0, false, false, false, false);
    FindAppend(syms, added, name);
    FindAppend(syms, added, y);
    FindUpdate(t, i, s, y);
    FindUpdate(t, i, s, name);
    if y != name && FindSymbol(syms, y).Some? {
      assert FindSymbol(syms, y).value != i;
    }
  }

  lemma SetGlobalSymbol(syms: Symtab, name: string, y: string)
    ensures SymbolOf(SetGlobal(syms, name), y) ==
      if y != name then SymbolOf(syms, y)
      else if SymbolOf(syms, y).Some? then Some(SymbolOf(syms, y).value.(global := true))
      else Some(Symbol(name, 0, true, false, false, false))
  {
    var (t, i) := Ensure(syms, name);
    EnsureThenUpdate(syms, name, t[i].(global := true), y);
  }

  lemma SetExternSymbol(syms: Symtab, name: string, y: string)
    requires y != name
    ensures SymbolOf(SetExtern(syms, name), y) == SymbolOf(syms, y)
  {
    var (t, i) := Ensure(syms, name);
    EnsureThenUpdate(syms, name, t[i].(extern := true, defined := false), y);
  }

  lemma SetValueSymbol(syms: Symtab, name: string, v: int, y: string)
    ensures y != name ==> SymbolOf(SetValue(syms, name, v), y) == SymbolOf(syms, y)
    ensures y == name ==> var s := SymbolOf(SetValue(syms, name, v), y);
      s.Some? && s.value.addr == Wrap(v) && s.value.defined
  {
    var (t, i) := Ensure(syms, name);
    EnsureThenUpdate(syms, name, t[i].(addr := Wrap(v), defined := true), y);
  }

  lemma {:induction false} DefineLabelsSymbol(toks: Line, syms: Symtab, org: Word, y: string)
    requires DefineLabels(toks, syms, org).Some? && !IsLabelOf(toks, y)
    ensures SymbolOf(DefineLabels(toks, syms, org).value, y) == SymbolOf(syms, y)
  {
    if toks == [] || !toks[0].Label? {
    } else {
      var (t, i) := Ensure(syms, toks[0].name);
      EnsureThenUpdate(syms, toks[0].name, t[i].(addr := org, defined := true, isLabel := true), y);
      DefineLabelsSymbol(toks[1..], DefineLabel(syms, toks[0].name, org).value, org, y);
    }
  }

  /* ---- What a line can do to a symbol ---- */

  predicate IsLabelOf(toks: Line, y: string) {
    toks != [] && toks[0].Label? && (toks[0].name == y || IsLabelOf(toks[1..], y))
  }

  function LineDirective(toks: Line): (Directive, seq<Token>) {
    var ts := DropLabels(toks);
    if ts != [] && ts[0].Dot? then (DirectiveOf(ts[0].name), ts[1..]) else (Unknown, [])
  }

  predicate IsEquOf(toks: Line, y: string) {
    var (d, args) := LineDirective(toks);
    d.Equ? && EquParts(args).Some? && EquParts(args).value.0 == y
  }

  /** The line gives `y` a value, or declares it external. */
  predicate Assigns(toks: Line, y: string) {
    || IsLabelOf(toks, y)
    || IsEquOf(toks, y)
    || (LineDirective(toks).0.Extern? && LineDirective(toks).1 != [] && LineDirective(toks).1[0] == Ident(y))
  }

  /** `o` became `p` by nothing but `.global`. */
  predicate Kept(o: Option<Symbol>, p: Option<Symbol>, y: string) {
    && (o.Some? ==> p.Some? && p.value == o.value.(global := p.value.global) && (o.value.global ==> p.value.global))
    && (o.None? && p.Some? ==> p.value == Symbol(y, 0, true, false, false, false))
  }

  lemma Pass1LineKeeps(toks: Line, p: Pass1, obj: bool, y: string)
    requires Pass1Line(toks, p, obj).Some? && !Assigns(toks, y)
    ensures Kept(SymbolOf(p.syms, y), SymbolOf(Pass1Line(toks, p, obj).value.syms, y), y)
  {
    hide SymbolOf, SetGlobal, SetExtern, SetValue, Eval, DirectiveOf, DirectiveSize, InstrSize, AlignUp, IsLabelOf,
         DefineLabels;
    DefineLabelsSymbol(toks, p.syms, p.org, y);
    var syms := DefineLabels(toks, p.syms, p.org).value;
    var (d, args) := LineDirective(toks);
    if args != [] && args[0].Ident? {
      SetGlobalSymbol(syms, args[0].name, y);
      if args[0].name != y {
        SetExternSymbol(syms, args[0].name, y);
      }
    }
    if d.Equ? && EquParts(args).Some? {
      var (name, expr) := EquParts(args).value;
      if Eval(expr, syms, false).Some? {
        SetValueSymbol(syms, name, Eval(expr, syms, false).value.0, y);
      }
    }
  }

  predicate NotAssignedFrom(lines: seq<Line>, k: nat, y: string) {
    forall j :: k <= j < |lines| ==> !Assigns(lines[j], y)
  }

  /** A symbol no later line assigns keeps its pass-1 value to the end. */
  lemma {:induction false} KeptToTheEnd(lines: seq<Line>, k: nat, n: nat, obj: bool, y: string)
    requires k <= n <= |lines| && NotAssignedFrom(lines, k, y) && RunPass1(lines, n, obj).Some?
    ensures RunPass1(lines, k, obj).Some?
    ensures Kept(SymbolOf(RunPass1(lines, k, obj).value.syms, y), SymbolOf(RunPass1(lines, n, obj).value.syms, y), y)
    decreases n
  {
    hide Pass1Line, SymbolOf, Assigns;
    if k >= n {
    } else {
      KeptToTheEnd(lines, k, n - 1, obj, y);
      Pass1LineKeeps(lines[n - 1], RunPass1(lines, n - 1, obj).value, obj, y);
    }
  }

  /* ---- Expressions with settled names ---- */

  predicate Uses(ts: seq<Token>, y: string) {
    Ident(y) in ts || Label(y) in ts
  }

  function Val(syms: Symtab, y: string): Word {
    if SymbolOf(syms, y).Some? then SymbolOf(syms, y).value.addr else 0
  }

  /** Evaluation depends only on the values of the names used. */
  lemma {:induction false} EvalTailSame(v: int, ts: seq<Token>, a: Symtab, b: Symtab)
    requires forall y :: Uses(ts, y) ==> Val(a, y) == Val(b, y)
    requires EvalTail(v, ts, b, true).Some?
    ensures EvalTail(v, ts, a, false) == EvalTail(v, ts, b, true)
    decreases |ts|
  {
    if ts == [] || !IsOperator(ts[0]) || |ts| == 1 {
    } else {
      assert ts[1].Ident? ==> Uses(ts, ts[1].name);
      forall y | Uses(ts[2..], y) ensures Val(a, y) == Val(b, y) {
        assert Uses(ts, y);
      }
      var rhs := Operand(ts[1], b, true).value;
      EvalTailSame(Apply(ts[0], v, rhs), ts[2..], a, b);
    }
  }

  lemma EvalSame(ts: seq<Token>, a: Symtab, b: Symtab)
    requires forall y :: Uses(ts, y) ==> Val(a, y) == Val(b, y)
    requires Eval(ts, b, true).Some?
    ensures Eval(ts, a, false) == Eval(ts, b, true)
  {
    var negative := ts != [] && ts[0].Minus?;
    var us := if negative then ts[1..] else ts;
    assert us != [];
    forall y | Uses(us, y) ensures Val(a, y) == Val(b, y) {
      assert Uses(ts, y);
    }
    assert us[0].Ident? || us[0].Label? ==> Uses(us, us[0].name);
    forall y | Uses(us[1..], y) ensures Val(a, y) == Val(b, y) {
      assert Uses(us, y);
    }
    var v := (match us[0] case Label(name) => SymbolValue(b, name, true) case t => Operand(t, b, true)).value;
    EvalTailSame(if negative then -v else v, us[1..], a, b);
  }

  /* ---- The theorem ---- */

  /** Every `.equ` is final and refers to final values: no later line assigns its name, nor a name it uses;
      it does not use its own. */
  ghost predicate EquStable(lines: seq<Line>) {
    forall i :: 0 <= i < |lines| && LineDirective(lines[i]).0.Equ? && EquParts(LineDirective(lines[i]).1).Some? ==>
      EquFinal(lines, i)
  }

  ghost predicate EquFinal(lines: seq<Line>, i: nat)
    requires i < |lines| && EquParts(LineDirective(lines[i]).1).Some?
  {
    var (name, expr) := EquParts(LineDirective(lines[i]).1).value;
    && NotAssignedFrom(lines, i + 1, name)
    && !Uses(expr, name)
    && (forall y :: Uses(expr, y) ==> NotAssignedFrom(lines, i + 1, y))
  }

  /** A `.global` line changes nothing in pass 2: pass 1 has been there. */
  lemma GlobalAgain(lines: seq<Line>, i: nat, obj: bool)
    requires i < |lines| && RunPass1(lines, |lines|, obj).Some?
    requires var (d, args) := LineDirective(lines[i]); d.Global? && args != [] && args[0].Ident?
    ensures var final := RunPass1(lines, |lines|, obj).value.syms;
      SetGlobal(final, LineDirective(lines[i]).1[0].name) == final
  {
    hide Pass1Line, SymbolOf, SetGlobal;
    var y := LineDirective(lines[i]).1[0].name;
    RunsArePrefixClosed(lines, i + 1, |lines|, [], 0, obj);
    GlobalSetByLine(lines[i], RunPass1(lines, i, obj).value, obj);
    GlobalStays(lines, i + 1, |lines|, obj, y);
    GlobalIdempotent(RunPass1(lines, |lines|, obj).value.syms, y);
  }

  predicate IsGlobal(o: Option<Symbol>) {
    o.Some? && o.value.global
  }

  lemma GlobalSetByLine(toks: Line, p: Pass1, obj: bool)
    requires Pass1Line(toks, p, obj).Some?
    requires var (d, args) := LineDirective(toks); d.Global? && args != [] && args[0].Ident?
    ensures IsGlobal(SymbolOf(Pass1Line(toks, p, obj).value.syms, LineDirective(toks).1[0].name))
  {
    hide SymbolOf, SetGlobal, DefineLabels, DirectiveOf;
    var y := LineDirective(toks).1[0].name;
    SetGlobalSymbol(DefineLabels(toks, p.syms, p.org).value, y, y);
  }

  lemma GlobalIdempotent(syms: Symtab, y: string)
    requires IsGlobal(SymbolOf(syms, y))
    ensures SetGlobal(syms, y) == syms
  {
  }

  lemma {:induction false} DefineLabelsGlobal(toks: Line, syms: Symtab, org: Word, y: string)
    requires DefineLabels(toks, syms, org).Some? && IsGlobal(SymbolOf(syms, y))
    ensures IsGlobal(SymbolOf(DefineLabels(toks, syms, org).value, y))
  {
    if toks == [] || !toks[0].Label? {
    } else {
      var (t, i) := Ensure(syms, toks[0].name);
      EnsureThenUpdate(syms, toks[0].name, t[i].(addr := org, defined := true, isLabel := true), y);
      DefineLabelsGlobal(toks[1..], DefineLabel(syms, toks[0].name, org).value, org, y);
    }
  }

  /** No line takes a `.global` back. */
  lemma LineKeepsGlobal(toks: Line, p: Pass1, obj: bool, y: string)
    requires Pass1Line(toks, p, obj).Some? && IsGlobal(SymbolOf(p.syms, y))
    ensures IsGlobal(SymbolOf(Pass1Line(toks, p, obj).value.syms, y))
  {
    hide SymbolOf, Ensure, Eval, DirectiveOf, DirectiveSize, InstrSize, AlignUp, DefineLabels;
    DefineLabelsGlobal(toks, p.syms, p.org, y);
    var syms := DefineLabels(toks, p.syms, p.org).value;
    forall name: string, s: Symbol | s.name == name
      ensures y != name ==> SymbolOf(Ensure(syms, name).0[Ensure(syms, name).1 := s], y) == SymbolOf(syms, y)
      ensures y == name ==> SymbolOf(Ensure(syms, name).0[Ensure(syms, name).1 := s], y) == Some(s)
    {
      EnsureThenUpdate(syms, name, s, y);
    }
    EnsureOfPresent(syms, y);
  }

  lemma EnsureOfPresent(syms: Symtab, y: string)
    requires SymbolOf(syms, y).Some?
    ensures var (t, i) := Ensure(syms, y); t == syms && t[i] == SymbolOf(syms, y).value
  {
  }

  lemma {:induction false} GlobalStays(lines: seq<Line>, k: nat, n: nat, obj: bool, y: string)
    requires k <= n <= |lines| && RunPass1(lines, n, obj).Some? && RunPass1(lines, k, obj).Some?
    requires IsGlobal(SymbolOf(RunPass1(lines, k, obj).value.syms, y))
    ensures IsGlobal(SymbolOf(RunPass1(lines, n, obj).value.syms, y))
    decreases n
  {
    hide Pass1Line, SymbolOf;
    if k >= n {
    } else {
      GlobalStays(lines, k, n - 1, obj, y);
      LineKeepsGlobal(lines[n - 1], RunPass1(lines, n - 1, obj).value, obj, y);
    }
  }

  /** After `SetValue(syms, name, v)` by line `i`: other settled names, and `name` itself, at the end. */
  lemma SettledValue(lines: seq<Line>, i: nat, obj: bool, syms: Symtab, name: string, v: int, y: string)
    requires i < |lines| && RunPass1(lines, |lines|, obj).Some? && RunPass1(lines, i + 1, obj).Some?
    requires RunPass1(lines, i + 1, obj).value.syms == SetValue(syms, name, v) && NotAssignedFrom(lines, i + 1, y)
    ensures var final := RunPass1(lines, |lines|, obj).value.syms;
      if y != name then Val(syms, y) == Val(final, y)
      else SymbolOf(final, y).Some? && SymbolOf(final, y).value.addr == Wrap(v) && SymbolOf(final, y).value.defined
  {
    hide RunPass1, SymbolOf, SetValue, NotAssignedFrom;
    KeptToTheEnd(lines, i + 1, |lines|, obj, y);
    SetValueSymbol(syms, name, v, y);
  }

  /** A stable `.equ` writes in pass 2 the value already there. */
  lemma EquAgain(lines: seq<Line>, i: nat, obj: bool)
    requires i < |lines| && RunPass1(lines, |lines|, obj).Some?
    requires LineDirective(lines[i]).0.Equ? && EquParts(LineDirective(lines[i]).1).Some? && EquFinal(lines, i)
    ensures var final := RunPass1(lines, |lines|, obj).value.syms;
      var (name, expr) := EquParts(LineDirective(lines[i]).1).value;
      Eval(expr, final, true).Some? ==> SetValue(final, name, Eval(expr, final, true).value.0) == final
  {
    hide Pass1Line, SetValue, NotAssignedFrom, Eval, Uses, LineDirective, EquParts, SymbolOf, Val, DefineLabels;
    RunsArePrefixClosed(lines, i + 1, |lines|, [], 0, obj);
    var p := RunPass1(lines, i, obj).value;
    EquLine(lines[i], p, obj);
    EquValueAgain(lines, i, obj, DefineLabels(lines[i], p.syms, p.org).value);
  }

  lemma EquValueAgain(lines: seq<Line>, i: nat, obj: bool, syms: Symtab)
    requires i < |lines| && RunPass1(lines, |lines|, obj).Some? && RunPass1(lines, i + 1, obj).Some?
    requires EquParts(LineDirective(lines[i]).1).Some? && EquFinal(lines, i)
    requires var (name, expr) := EquParts(LineDirective(lines[i]).1).value;
      && Eval(expr, syms, false).Some?
      && RunPass1(lines, i + 1, obj).value.syms == SetValue(syms, name, Eval(expr, syms, false).value.0)
    ensures var final := RunPass1(lines, |lines|, obj).value.syms;
      var (name, expr) := EquParts(LineDirective(lines[i]).1).value;
      Eval(expr, final, true).Some? ==> SetValue(final, name, Eval(expr, final, true).value.0) == final
  {
    hide RunPass1, SetValue, NotAssignedFrom, Eval, Uses, LineDirective, EquParts, SymbolOf, Val;
    var final := RunPass1(lines, |lines|, obj).value.syms;
    var (name, expr) := EquParts(LineDirective(lines[i]).1).value;
    var v := Eval(expr, syms, false).value.0;
    if Eval(expr, final, true).Some? {
      forall y | Uses(expr, y) ensures Val(syms, y) == Val(final, y) {
        SettledValue(lines, i, obj, syms, name, v, y);
      }
      EvalSame(expr, syms, final);
      SettledValue(lines, i, obj, syms, name, v, name);
      SetValueIdempotent(final, name, v);
    }
  }

  lemma EquLine(toks: Line, p: Pass1, obj: bool)
    requires LineDirective(toks).0.Equ? && EquParts(LineDirective(toks).1).Some? && Pass1Line(toks, p, obj).Some?
    ensures DefineLabels(toks, p.syms, p.org).Some?
    ensures var syms := DefineLabels(toks, p.syms, p.org).value;
      var (name, expr) := EquParts(LineDirective(toks).1).value;
      && Eval(expr, syms, false).Some?
      && Pass1Line(toks, p, obj).value.syms == SetValue(syms, name, Eval(expr, syms, false).value.0)
  {
    hide Eval, SetValue, DirectiveOf, DefineLabels;
  }

  lemma SetValueIdempotent(syms: Symtab, y: string, v: int)
    requires SymbolOf(syms, y).Some? && SymbolOf(syms, y).value.addr == Wrap(v) && SymbolOf(syms, y).value.defined
    ensures SetValue(syms, y, v) == syms
  {
  }

  lemma LineSymbolsStable(lines: seq<Line>, i: nat, obj: bool)
    requires i < |lines| && EquStable(lines) && RunPass1(lines, |lines|, obj).Some?
    ensures var final := RunPass1(lines, |lines|, obj).value.syms;
      LineSymbols(lines[i], final).Some? ==> LineSymbols(lines[i], final).value == final
  {
    hide SetValue, SetGlobal, Eval, EquFinal, RunPass1, DirectiveOf;
    var (d, args) := LineDirective(lines[i]);
    if d.Global? && args != [] && args[0].Ident? {
      GlobalAgain(lines, i, obj);
    }
    if d.Equ? && EquParts(args).Some? {
      EquAgain(lines, i, obj);
    }
  }

  /** Main result: throughout pass 2 the symbol table is the one pass 1 ended with. */
  lemma {:induction false} SymbolsAreStable(lines: seq<Line>, k: nat, base: Word, obj: bool)
    requires k <= |lines| && EquStable(lines) && RunPass1(lines, |lines|, obj).Some?
    requires RunPass2(lines, k, RunPass1(lines, |lines|, obj).value.syms, base, obj).Some?
    ensures RunPass2(lines, k, RunPass1(lines, |lines|, obj).value.syms, base, obj).value.syms
            == RunPass1(lines, |lines|, obj).value.syms
  {
    hide LineSymbols, LineBytes, EquStable, RunPass1;
    if k == 0 {
    } else {
      SymbolsAreStable(lines, k - 1, base, obj);
      LineSymbolsStable(lines, k - 1, obj);
    }
  }

  /* ---- Duplicate labels ---- */

  predicate IsDefined(syms: Symtab, y: string) {
    SymbolOf(syms, y).Some? && SymbolOf(syms, y).value.defined
  }

  predicate DeclaresExtern(toks: Line, y: string) {
    var (d, args) := LineDirective(toks);
    d.Extern? && args != [] && args[0] == Ident(y)
  }

  /** Labels define their names, and no label may be one that is defined already. */
  lemma {:induction false} LabelsDefine(toks: Line, syms: Symtab, org: Word, y: string)
    requires DefineLabels(toks, syms, org).Some?
    ensures IsDefined(DefineLabels(toks, syms, org).value, y) <==> IsDefined(syms, y) || IsLabelOf(toks, y)
    ensures !(IsDefined(syms, y) && IsLabelOf(toks, y))
  {
    if toks == [] || !toks[0].Label? {
    } else {
      var (t, i) := Ensure(syms, toks[0].name);
      EnsureThenUpdate(syms, toks[0].name, t[i].(addr := org, defined := true, isLabel := true), y);
      EnsuredIs(syms, toks[0].name);
      LabelsDefine(toks[1..], DefineLabel(syms, toks[0].name, org).value, org, y);
    }
  }

  lemma EnsuredIs(syms: Symtab, name: string)
    ensures var (t, i) := Ensure(syms, name); t[i].defined <==> IsDefined(syms, name)
  {
  }

  lemma LineDefines(toks: Line, p: Pass1, obj: bool, y: string)
    requires Pass1Line(toks, p, obj).Some? && !DeclaresExtern(toks, y)
    ensures IsDefined(p.syms, y) || IsLabelOf(toks, y) ==> IsDefined(Pass1Line(toks, p, obj).value.syms, y)
    ensures !(IsDefined(p.syms, y) && IsLabelOf(toks, y))
  {
    hide SymbolOf, SetGlobal, SetExtern, SetValue, Eval, DirectiveOf, DirectiveSize, InstrSize, AlignUp, IsLabelOf,
         DefineLabels;
    LabelsDefine(toks, p.syms, p.org, y);
    var syms := DefineLabels(toks, p.syms, p.org).value;
    var (d, args) := LineDirective(toks);
    if args != [] && args[0].Ident? {
      SetGlobalSymbol(syms, args[0].name, y);
      if args[0].name != y {
        SetExternSymbol(syms, args[0].name, y);
      }
    }
    if d.Equ? && EquParts(args).Some? && Eval(EquParts(args).value.1, syms, false).Some? {
      SetValueSymbol(syms, EquParts(args).value.0, Eval(EquParts(args).value.1, syms, false).value.0, y);
    }
  }

  lemma {:induction false} StaysDefined(lines: seq<Line>, i: nat, n: nat, obj: bool, y: string)
    requires i < n <= |lines| && IsLabelOf(lines[i], y) && RunPass1(lines, n, obj).Some?
    requires forall j :: i <= j < n ==> !DeclaresExtern(lines[j], y)
    ensures IsDefined(RunPass1(lines, n, obj).value.syms, y)
    decreases n
  {
    hide Pass1Line, IsDefined, IsLabelOf, DeclaresExtern;
    LineDefines(lines[n - 1], RunPass1(lines, n - 1, obj).value, obj, y);
    if i >= n - 1 {
    } else {
      StaysDefined(lines, i, n - 1, obj, y);
    }
  }

  /** After an `.extern y` line y is not defined: a label for it may follow. */
  lemma ExternUndefines(toks: Line, p: Pass1, obj: bool, y: string)
    requires Pass1Line(toks, p, obj).Some? && DeclaresExtern(toks, y)
    ensures !IsDefined(Pass1Line(toks, p, obj).value.syms, y)
  {
    hide SymbolOf, SetGlobal, SetValue, Eval, DirectiveOf, DirectiveSize, InstrSize, AlignUp, DefineLabels;
    var syms := DefineLabels(toks, p.syms, p.org).value;
    var (t, i) := Ensure(syms, y);
    EnsureThenUpdate(syms, y, t[i].(extern := true, defined := false), y);
  }

  /** Main result on labels: a name that labels two lines makes both assemblies fail, unless an `.extern` line for it
      stands between them. */
  lemma DuplicateLabelFails(lines: seq<Line>, i: nat, j: nat, y: string)
    requires i < j < |lines| && IsLabelOf(lines[i], y) && IsLabelOf(lines[j], y)
    requires forall k :: i <= k <= j ==> !DeclaresExtern(lines[k], y)
    ensures AssembleFlat(lines) == None && AssembleObject(lines) == None
  {
    DuplicateStops(lines, i, j, false, y);
    DuplicateStops(lines, i, j, true, y);
  }

  lemma DuplicateStops(lines: seq<Line>, i: nat, j: nat, obj: bool, y: string)
    requires i < j < |lines| && IsLabelOf(lines[i], y) && IsLabelOf(lines[j], y)
    requires forall k :: i <= k <= j ==> !DeclaresExtern(lines[k], y)
    ensures RunPass1(lines, |lines|, obj) == None
  {
    hide Pass1Line, IsDefined, IsLabelOf, DeclaresExtern;
    RunsArePrefixClosed(lines, j + 1, |lines|, [], 0, obj);
    if RunPass1(lines, j + 1, obj).Some? {
      StaysDefined(lines, i, j, obj, y);
      LineDefines(lines[j], RunPass1(lines, j, obj).value, obj, y);
      assert false;
    }
  }
}
