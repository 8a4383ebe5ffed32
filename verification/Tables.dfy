/** The symbol table of a source without externals: what pass 1 builds, what pass 2 leaves of it, and what
    becomes of it when the program starts `shift` bytes further on. */
module Tables {
  import opened Words
  import opened OpTable
  import opened Lexer
  import opened Assembler
  import opened Passes
  import opened Symbols
  import opened Moving

  predicate UniqueNames(syms: Symtab) {
    forall i, j :: 0 <= i < j < |syms| ==> syms[i].name != syms[j].name
  }

  ghost predicate Sound(lines: seq<Line>, syms: Symtab, shift: nat) {
    LabelsOf(lines, syms) && Fits(syms, shift) && UniqueNames(syms)
  }

  /** Entries stay where they are, labels keep their address. */
  predicate KeepsLabels(a: Symtab, b: Symtab) {
    |a| <= |b| && forall i :: 0 <= i < |a| ==>
      b[i].name == a[i].name && (a[i].isLabel ==> b[i].isLabel && b[i].addr == a[i].addr)
  }

  lemma {:induction false} FindKept(a: Symtab, b: Symtab, y: string)
    requires KeepsLabels(a, b) && FindSymbol(a, y).Some?
    ensures FindSymbol(b, y) == FindSymbol(a, y)
  {
    if a[0].name == y {
    } else {
      FindKept(a[1..], b[1..], y);
    }
  }

  lemma KnownKept(a: Symtab, b: Symtab, y: string)
    requires KeepsLabels(a, b) && KnownLabel(a, y)
    ensures KnownLabel(b, y)
  {
    FindKept(a, b, y);
  }

  /* ---- Updates ---- */

  lemma EnsureKeeps(lines: seq<Line>, syms: Symtab, shift: nat, name: string)
    requires Sound(lines, syms, shift)
    ensures Sound(lines, Ensure(syms, name).0, shift) && KeepsLabels(syms, Ensure(syms, name).0)
    ensures FindSymbol(Ensure(syms, name).0, name) == Some(Ensure(syms, name).1)
  {
    FindAppend(syms, Symbol(name, 0, false, false, false, false), name);
  }

  /** Overwriting an entry without touching what makes it a label. */
  lemma UpdateKeeps(lines: seq<Line>, syms: Symtab, shift: nat, name: string, s: Symbol)
    requires Sound(lines, syms, shift) && s.name == name && !s.extern
    requires var (t, i) := Ensure(syms, name);
      s.isLabel == t[i].isLabel && (s.isLabel ==> s.defined && s.addr == t[i].addr)
    ensures var (t, i) := Ensure(syms, name);
      Sound(lines, t[i := s], shift) && KeepsLabels(syms, t[i := s])
  {
    EnsureKeeps(lines, syms, shift, name);
  }

  lemma DefineKeeps(lines: seq<Line>, syms: Symtab, shift: nat, name: string, org: Word)
    requires Sound(lines, syms, shift) && DefineLabel(syms, name, org).Some?
    requires IsLabelName(lines, name) && org + shift < 0x1_0000_0000
    ensures var t := DefineLabel(syms, name, org).value;
      Sound(lines, t, shift) && KeepsLabels(syms, t) && KnownLabel(t, name)
  {
    EnsureKeeps(lines, syms, shift, name);
    var (t, i) := Ensure(syms, name);
    FindUpdate(t, i, t[i].(addr := org, defined := true, isLabel := true), name);
  }

  /** The labels of this line are labels of the source. */
  ghost predicate LineOf(lines: seq<Line>, toks: Line) {
    forall y :: IsLabelOf(toks, y) ==> IsLabelName(lines, y)
  }

  lemma {:induction false} DefineLabelsKeeps(lines: seq<Line>, toks: Line, syms: Symtab, shift: nat, org: Word)
    requires Sound(lines, syms, shift) && DefineLabels(toks, syms, org).Some? && LineOf(lines, toks)
    requires org + shift < 0x1_0000_0000
    ensures var t := DefineLabels(toks, syms, org).value;
      Sound(lines, t, shift) && KeepsLabels(syms, t) && forall y :: IsLabelOf(toks, y) ==> KnownLabel(t, y)
    decreases |toks|
  {
    hide Sound, KnownLabel, DefineLabel, IsLabelName;
    if toks == [] || !toks[0].Label? {
    } else {
      assert IsLabelOf(toks, toks[0].name);
      DefineKeeps(lines, syms, shift, toks[0].name, org);
      var t := DefineLabel(syms, toks[0].name, org).value;
      forall y | IsLabelOf(toks[1..], y) ensures IsLabelName(lines, y) {
        assert IsLabelOf(toks, y);
      }
      DefineLabelsKeeps(lines, toks[1..], t, shift, org);
      KnownKept(t, DefineLabels(toks[1..], t, org).value, toks[0].name);
    }
  }

  lemma GlobalKeeps(lines: seq<Line>, syms: Symtab, shift: nat, name: string)
    requires Sound(lines, syms, shift)
    ensures Sound(lines, SetGlobal(syms, name), shift) && KeepsLabels(syms, SetGlobal(syms, name))
  {
    EnsureKeeps(lines, syms, shift, name);
    var (t, i) := Ensure(syms, name);
    UpdateKeeps(lines, syms, shift, name, t[i].(global := true));
  }

  lemma ValueKeeps(lines: seq<Line>, syms: Symtab, shift: nat, name: string, v: int)
    requires Sound(lines, syms, shift) && !IsLabelName(lines, name)
    ensures Sound(lines, SetValue(syms, name, v), shift) && KeepsLabels(syms, SetValue(syms, name, v))
  {
    EnsureKeeps(lines, syms, shift, name);
    var (t, i) := Ensure(syms, name);
    UpdateKeeps(lines, syms, shift, name, t[i].(addr := Wrap(v), defined := true));
  }

  /* ---- Pass 1 ---- */

  lemma Pass1LineSound(lines: seq<Line>, toks: Line, p: Pass1, obj: bool, shift: nat)
    requires Sound(lines, p.syms, shift) && Linkable(lines, toks) && LineOf(lines, toks)
    requires p.org + shift < 0x1_0000_0000 && Pass1Line(toks, p, obj).Some?
    ensures var t := Pass1Line(toks, p, obj).value.syms;
      Sound(lines, t, shift) && KeepsLabels(p.syms, t) && forall y :: IsLabelOf(toks, y) ==> KnownLabel(t, y)
  {
    hide Sound, SetGlobal, SetExtern, SetValue, Eval, DirectiveOf, DirectiveSize, InstrSize, AlignUp, IsLabelOf,
         DefineLabels, KnownLabel, WideOperand, LabelRef, SimpleRef, IsLabelName, FindSymbol;
    DefineLabelsKeeps(lines, toks, p.syms, shift, p.org);
    var syms := DefineLabels(toks, p.syms, p.org).value;
    var (d, args) := LineDirective(toks);
    if args != [] && args[0].Ident? {
      GlobalKeeps(lines, syms, shift, args[0].name);
    }
    if d.Equ? && EquParts(args).Some? {
      var (name, expr) := EquParts(args).value;
      assert IsEquOf(toks, name);
      if Eval(expr, syms, false).Some? {
        ValueKeeps(lines, syms, shift, name, Eval(expr, syms, false).value.0);
      }
    }
    forall y | IsLabelOf(toks, y) ensures KnownLabel(Pass1Line(toks, p, obj).value.syms, y) {
      KnownKept(syms, Pass1Line(toks, p, obj).value.syms, y);
    }
  }

  ghost predicate AllLinkable(lines: seq<Line>) {
    forall i :: 0 <= i < |lines| ==> Linkable(lines, lines[i])
  }

  /** No address of pass 1 exceeds 32 bits when moved by `shift`. */
  ghost predicate AddressesFit(lines: seq<Line>, shift: nat, obj: bool) {
    forall k :: 0 <= k <= |lines| && RunPass1(lines, k, obj).Some? ==>
        RunPass1(lines, k, obj).value.org + shift < 0x1_0000_0000
  }

  lemma LineIsOf(lines: seq<Line>, i: nat)
    requires i < |lines|
    ensures LineOf(lines, lines[i])
  {
  }

  lemma {:induction false} Pass1Sound(lines: seq<Line>, k: nat, obj: bool, shift: nat)
    requires k <= |lines| && AllLinkable(lines) && AddressesFit(lines, shift, obj) && RunPass1(lines, k, obj).Some?
    ensures Sound(lines, RunPass1(lines, k, obj).value.syms, shift)
    ensures forall i, y :: 0 <= i < k && IsLabelOf(lines[i], y) ==> KnownLabel(RunPass1(lines, k, obj).value.syms, y)
  {
    hide Pass1Line, Linkable, LineOf, IsLabelOf, KnownLabel;
    if k == 0 {
    } else {
      Pass1Sound(lines, k - 1, obj, shift);
      hide Sound;
      LineIsOf(lines, k - 1);
      var p := RunPass1(lines, k - 1, obj).value;
      Pass1LineSound(lines, lines[k - 1], p, obj, shift);
      forall i, y | 0 <= i < k && IsLabelOf(lines[i], y) ensures KnownLabel(RunPass1(lines, k, obj).value.syms, y) {
        if i < k - 1 {
          KnownKept(p.syms, RunPass1(lines, k, obj).value.syms, y);
        }
      }
    }
  }

  /** The table pass 1 ends with is a table of the source. */
  lemma FinalTable(lines: seq<Line>, obj: bool, shift: nat)
    requires AllLinkable(lines) && AddressesFit(lines, shift, obj) && RunPass1(lines, |lines|, obj).Some?
    ensures var syms := RunPass1(lines, |lines|, obj).value.syms;
      TableOf(lines, syms, shift) && UniqueNames(syms)
  {
    hide RunPass1, IsLabelOf, KnownLabel;
    Pass1Sound(lines, |lines|, obj, shift);
  }

  /* ---- Pass 2 ---- */

  lemma LineSymbolsKeep(lines: seq<Line>, toks: Line, syms: Symtab, shift: nat)
    requires TableOf(lines, syms, shift) && UniqueNames(syms) && Linkable(lines, toks) && LineSymbols(toks, syms).Some?
    ensures var t := LineSymbols(toks, syms).value;
      TableOf(lines, t, shift) && UniqueNames(t) && KeepsLabels(syms, t)
  {
    hide SetGlobal, SetValue, Eval, DirectiveOf, IsLabelOf, KnownLabel, WideOperand, LabelRef, SimpleRef,
         IsLabelName;
    var (d, args) := LineDirective(toks);
    if args != [] && args[0].Ident? {
      GlobalKeeps(lines, syms, shift, args[0].name);
    }
    if d.Equ? && EquParts(args).Some? {
      var (name, expr) := EquParts(args).value;
      assert IsEquOf(toks, name);
      if Eval(expr, syms, true).Some? {
        ValueKeeps(lines, syms, shift, name, Eval(expr, syms, true).value.0);
      }
    }
    forall y | IsLabelName(lines, y) ensures KnownLabel(LineSymbols(toks, syms).value, y) {
      KnownKept(syms, LineSymbols(toks, syms).value, y);
    }
  }

  /* ---- The moved table ---- */

  lemma EnsureMoved(syms: Symtab, shift: nat, name: string)
    ensures Ensure(Move(syms, shift), name) == (Move(Ensure(syms, name).0, shift), Ensure(syms, name).1)
  {
    FindMoved(syms, shift, name);
    var s := Symbol(name, 0, false, false, false, false);
    assert Move(syms + [s], shift) == Move(syms, shift) + [s];
  }

  lemma UpdateMoved(t: Symtab, i: nat, s: Symbol, shift: nat)
    requires i < |t|
    ensures Move(t[i := s], shift) == Move(t, shift)[i := MoveSymbol(s, shift)]
  {
  }

  lemma GlobalMoved(syms: Symtab, shift: nat, name: string)
    ensures SetGlobal(Move(syms, shift), name) == Move(SetGlobal(syms, name), shift)
  {
    hide Move;
    EnsureMoved(syms, shift, name);
    var (t, i) := Ensure(syms, name);
    UpdateMoved(t, i, t[i].(global := true), shift);
    MoveAt(t, shift, i);
  }

  lemma MoveAt(t: Symtab, shift: nat, i: nat)
    requires i < |t|
    ensures Move(t, shift)[i] == MoveSymbol(t[i], shift)
  {
  }

  lemma ValueMoved(lines: seq<Line>, syms: Symtab, shift: nat, name: string, v: int)
    requires Sound(lines, syms, 0) && !IsLabelName(lines, name)
    ensures SetValue(Move(syms, shift), name, v) == Move(SetValue(syms, name, v), shift)
  {
    hide Move;
    EnsureMoved(syms, shift, name);
    EnsureKeeps(lines, syms, 0, name);
    var (t, i) := Ensure(syms, name);
    UpdateMoved(t, i, t[i].(addr := Wrap(v), defined := true), shift);
    MoveAt(t, shift, i);
  }

  lemma DefineMoved(syms: Symtab, shift: nat, name: string, org: Word)
    ensures var a := DefineLabel(syms, name, org);
      var b := DefineLabel(Move(syms, shift), name, Wrap(org + shift));
      (a.Some? <==> b.Some?) && (a.Some? ==> b.value == Move(a.value, shift))
  {
    hide Move;
    EnsureMoved(syms, shift, name);
    var (t, i) := Ensure(syms, name);
    UpdateMoved(t, i, t[i].(addr := org, defined := true, isLabel := true), shift);
    MoveAt(t, shift, i);
  }

  lemma {:induction false} DefineLabelsMoved(toks: Line, syms: Symtab, shift: nat, org: Word)
    ensures var a := DefineLabels(toks, syms, org);
      var b := DefineLabels(toks, Move(syms, shift), Wrap(org + shift));
      (a.Some? <==> b.Some?) && (a.Some? ==> b.value == Move(a.value, shift))
    decreases |toks|
  {
    hide DefineLabel, Move, Wrap;
    if toks == [] || !toks[0].Label? {
    } else {
      DefineMoved(syms, shift, toks[0].name, org);
      if DefineLabel(syms, toks[0].name, org).Some? {
        DefineLabelsMoved(toks[1..], DefineLabel(syms, toks[0].name, org).value, shift, org);
      }
    }
  }

  /** Pass 2 turns the moved table into the moved table. */
  lemma LineSymbolsMoved(lines: seq<Line>, toks: Line, syms: Symtab, shift: nat)
    requires Sound(lines, syms, 0) && Linkable(lines, toks) && (shift == 0 || Movable(lines, toks, shift))
    ensures var a, b := LineSymbols(toks, syms), LineSymbols(toks, Move(syms, shift));
      (a.Some? <==> b.Some?) && (a.Some? ==> b.value == Move(a.value, shift))
  {
    hide SetGlobal, SetValue, Eval, DirectiveOf, IsLabelOf, WideOperand, TargetOperand, LabelRef, SimpleRef,
         IsLabelName, Move, FindOpcode;
    var (d, args) := LineDirective(toks);
    if args != [] && args[0].Ident? {
      GlobalMoved(syms, shift, args[0].name);
    }
    if d.Equ? && EquParts(args).Some? {
      EquExpressionMoved(lines, toks, syms, shift, true);
      var (name, expr) := EquParts(args).value;
      if Eval(expr, syms, true).Some? {
        ValueMoved(lines, syms, shift, name, Eval(expr, syms, true).value.0);
      }
    }
  }

  lemma EquExpressionMoved(lines: seq<Line>, toks: Line, syms: Symtab, shift: nat, strict: bool)
    requires Sound(lines, syms, 0) && Linkable(lines, toks) && (shift == 0 || Movable(lines, toks, shift))
    requires LineDirective(toks).0.Equ? && EquParts(LineDirective(toks).1).Some?
    ensures var (name, expr) := EquParts(LineDirective(toks).1).value;
      !IsLabelName(lines, name) && Eval(expr, Move(syms, shift), strict) == Eval(expr, syms, strict)
  {
    hide Eval, DirectiveOf, LabelRef, SimpleRef, IsLabelName, Move, FindOpcode, LabelsOf, Fits, UniqueNames;
    var (d, args) := LineDirective(toks);
    var (name, expr) := EquParts(args).value;
    assert IsEquOf(toks, name);
    if shift == 0 {
      MoveByZero(syms);
    } else {
      assert LabelFree(lines, args);
      forall y | Uses(expr, y) ensures !IsLabelName(lines, y) {
        assert Uses(args, y);
      }
      EvalUnmoved(lines, expr, syms, shift, strict);
    }
  }

  /* ---- Pass 1, moved ---- */

  predicate MovedPass1(a: Option<Pass1>, b: Option<Pass1>, shift: nat) {
    && (a.Some? <==> b.Some?)
    && (a.Some? ==> b.value.org == Wrap(a.value.org + shift) && b.value.syms == Move(a.value.syms, shift))
  }

  lemma WrapTwice(x: int, a: int, b: int)
    ensures Wrap(Wrap(x + a) + b) == Wrap(Wrap(x + b) + a)
  {
    WrapShift(Wrap(x + a) + b, (x + a) / 0x1_0000_0000);
    WrapShift(Wrap(x + b) + a, (x + b) / 0x1_0000_0000);
  }

  lemma AlignMoves(org: Word, shift: nat, a: Word)
    requires a == 0 || shift == 0 || (PowerOfTwo(a) && shift % a == 0)
    ensures AlignUp(Wrap(org + shift), a) == Wrap(AlignUp(org, a) + shift)
  {
    hide PowerOfTwo, AlignUp, Wrap;
    if shift == 0 {
      WrapSmall(org);
      WrapSmall(AlignUp(org, a));
    } else if a == 0 {
      NoAlign(org);
      NoAlign(Wrap(org + shift));
    } else {
      var gap := (0 - org) % a;
      GapKept(org, shift, a);
      AlignGap(org, a);
      AlignGap(Wrap(org + shift), a);
      AlignIsGap(org, a, gap);
      AlignIsGap(Wrap(org + shift), a, gap);
      WrapTwice(org, shift, gap);
    }
  }

  lemma GapKept(org: Word, shift: nat, a: Word)
    requires a > 0 && PowerOfTwo(a) && shift % a == 0
    ensures (0 - Wrap(org + shift)) % a == (0 - org) % a
  {
    hide PowerOfTwo, Wrap;
    WrapMod(org + shift, a);
    NegMod(org, shift, a);
    NegMod(Wrap(org + shift), org + shift - Wrap(org + shift), a);
  }

  lemma WrapMod(x: nat, a: Word)
    requires PowerOfTwo(a)
    ensures x >= Wrap(x) && (x - Wrap(x)) % a == 0
  {
    Pow2Literals();
    var k := PowerDivides(a, 32);
    var c := x / 0x1_0000_0000;
    assert x - Wrap(x) == c * (k * a) == c * k * a;
    MultipleMod(c * k, a);
  }

  lemma AlignIsGap(org: Word, a: Word, gap: nat)
    requires Wrap(AlignUp(org, a) - org) == gap
    ensures AlignUp(org, a) == Wrap(org + gap)
  {
    hide AlignUp;
  }

  lemma Pass1DirectiveMoves(lines: seq<Line>, toks: Line, p: Pass1, q: Pass1, shift: nat)
    requires Sound(lines, p.syms, 0) && Linkable(lines, toks) && (shift == 0 || Movable(lines, toks, shift))
    requires q.org == Wrap(p.org + shift) && q.syms == Move(p.syms, shift)
    requires DropLabels(toks) != [] && DropLabels(toks)[0].Dot?
    ensures var (d, args) := LineDirective(toks);
      MovedPass1(Pass1Directive(d, args, toks, p, true), Pass1Directive(d, args, toks, q, false), shift)
  {
    hide SetGlobal, SetValue, Eval, DirectiveOf, IsLabelOf, LabelRef, SimpleRef, IsLabelName, Move, FindOpcode,
         DirectiveSize, AlignUp, PowerOfTwo, LabelFree, Sound, Wrap;
    var (d, args) := LineDirective(toks);
    WrapTwice(p.org, shift, DirectiveSize(toks));
    if d.Org? && args != [] && args[0].Int? {
      WrapSmall(Wrap(args[0].value));
    }
    if args != [] && args[0].Ident? {
      GlobalMoved(p.syms, shift, args[0].name);
    }
    if d.Equ? && EquParts(args).Some? {
      EquExpressionMoved(lines, toks, p.syms, shift, false);
      var (name, expr) := EquParts(args).value;
      if Eval(expr, p.syms, false).Some? {
        ValueMoved(lines, p.syms, shift, name, Eval(expr, p.syms, false).value.0);
      }
    }
    if d.Align? && args != [] && args[0].Int? {
      AlignMoves(p.org, shift, Wrap(args[0].value));
    }
  }

  lemma StepMoved(p: Pass1, q: Pass1, size: Word, shift: nat)
    requires q.org == Wrap(p.org + shift) && q.syms == Move(p.syms, shift)
    ensures MovedPass1(Some(p), Some(q), shift)
    ensures MovedPass1(Some(p.(org := Wrap(p.org + size))), Some(q.(org := Wrap(q.org + size))), shift)
  {
    hide Wrap, Move;
    WrapTwice(p.org, shift, size);
  }

  lemma NoneMoved(shift: nat)
    ensures MovedPass1(None, None, shift)
  {
  }

  lemma Pass1LineMoves(lines: seq<Line>, toks: Line, p: Pass1, q: Pass1, shift: nat)
    requires Sound(lines, p.syms, 0) && Linkable(lines, toks) && LineOf(lines, toks)
        && (shift == 0 || Movable(lines, toks, shift))
    requires q.org == Wrap(p.org + shift) && q.syms == Move(p.syms, shift)
    ensures MovedPass1(Pass1Line(toks, p, true), Pass1Line(toks, q, false), shift)
  {
    hide DirectiveOf, Pass1Directive, DefineLabels, Sound, Linkable, Movable, LineOf, InstrSize, Move, Wrap,
         MovedPass1;
    DefineLabelsMoved(toks, p.syms, shift, p.org);
    if DefineLabels(toks, p.syms, p.org).Some? {
      DefineLabelsKeeps(lines, toks, p.syms, 0, p.org);
      var p' := p.(syms := DefineLabels(toks, p.syms, p.org).value);
      var q' := q.(syms := DefineLabels(toks, q.syms, q.org).value);
      var ts := DropLabels(toks);
      if ts != [] && ts[0].Dot? {
        Pass1DirectiveMoves(lines, toks, p', q', shift);
      } else {
        var size := if ts != [] && ts[0].Ident? then InstrSize(ts[0].name) else 0;
        StepMoved(p', q', size, shift);
      }
    } else {
      NoneMoved(shift);
    }
  }

  ghost predicate AllMovable(lines: seq<Line>, shift: nat) {
    shift == 0 || forall i :: 0 <= i < |lines| ==> Movable(lines, lines[i], shift)
  }

  /** Pass 1 for the object file and pass 1 of the flat program, whose lines follow `pre`. */
  lemma {:induction false} Pass1Moves(lines: seq<Line>, pre: seq<Line>, k: nat, shift: nat)
    requires k <= |lines| && AllLinkable(lines) && AllMovable(lines, shift)
    requires MovedPass1(Some(Pass1(0, [], 0)), RunPass1(pre + lines, |pre|, false), shift)
    ensures MovedPass1(RunPass1(lines, k, true), RunPass1(pre + lines, |pre| + k, false), shift)
  {
    hide Pass1Line, Linkable, Movable, Sound, LineOf;
    if k == 0 {
    } else {
      Pass1Moves(lines, pre, k - 1, shift);
      if RunPass1(lines, k - 1, true).Some? {
        Pass1Sound(lines, k - 1, true, 0);
        LineIsOf(lines, k - 1);
        Pass1LineMoves(lines, lines[k - 1], RunPass1(lines, k - 1, true).value,
                       RunPass1(pre + lines, |pre| + k - 1, false).value, shift);
      }
    }
  }
}
