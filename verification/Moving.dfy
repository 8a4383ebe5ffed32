/** A line assembled for the linker and the same line assembled flat, `shift` bytes further on: equal bytes
    but for the relocated words, which relocation makes equal. */
module Moving {
  import opened Words
  import opened Memory
  import opened OpTable
  import opened Lexer
  import opened Assembler
  import opened Symbols
  import opened Linker

  /* ---- What the source has to look like ---- */

  ghost predicate IsLabelName(lines: seq<Line>, y: string) {
    exists i :: 0 <= i < |lines| && IsLabelOf(lines[i], y)
  }

  /** The tokens name no label. */
  ghost predicate LabelFree(lines: seq<Line>, ts: seq<Token>) {
    forall y :: Uses(ts, y) ==> !IsLabelName(lines, y)
  }

  /** An expression that starts with a label. (A label spelled like a register is not looked up.) */
  ghost predicate LabelRef(lines: seq<Line>, ts: seq<Token>) {
    ts != [] && ts[0].Ident? && ParseRegister(ts[0].name).None? && IsLabelName(lines, ts[0].name)
  }

  /** `sym`, `sym + INT` or `sym - INT`, and no more. */
  predicate SimpleRef(ts: seq<Token>) {
    && ts != [] && ts[0].Ident?
    && (|ts| == 1 || !IsOperator(ts[1])
        || (|ts| >= 3 && !ts[1].RShiftTok? && ts[2].Int? && (|ts| == 3 || !IsOperator(ts[3]))))
  }

  /** The operand that gets a 32-bit relocation when it is a label: of `.word` and of MOVI32. */
  function WideOperand(toks: Line): Option<seq<Token>> {
    var ts := DropLabels(toks);
    if ts == [] then None
    else if ts[0].Dot? && DirectiveOf(ts[0].name).WordDir? then Some(ts[1..])
    else if ts[0].Ident? && FindOpcode(ts[0].name).Some? && FindOpcode(ts[0].name).value.fmt.Movi32? then
      var (_, t1) :- RegisterComma(ts[1..]);
      Some(t1)
    else None
  }

  /** The target operand of a branch, jump or call. */
  function TargetOperand(toks: Line): Option<seq<Token>> {
    var ts := DropLabels(toks);
    if ts == [] || !ts[0].Ident? then None else
    var e :- FindOpcode(ts[0].name);
    if e.fmt.Branch? || e.fmt.Call? then Some(ts[1..])
    else if e.fmt.Jump? then
      var (_, t1) :- RegisterComma(ts[1..]);
      Some(t1)
    else None
  }

  /** Nothing external, no label redefined by `.equ`. */
  ghost predicate LocalNames(lines: seq<Line>, toks: Line) {
    && !LineDirective(toks).0.Extern?
    && (forall y :: IsEquOf(toks, y) ==> !IsLabelName(lines, y))
  }

  /** ... and relocated references keep to the form the object file can express. */
  ghost predicate Linkable(lines: seq<Line>, toks: Line) {
    && LocalNames(lines, toks)
    && (WideOperand(toks).Some? && LabelRef(lines, WideOperand(toks).value) ==> SimpleRef(WideOperand(toks).value))
  }

  predicate PowerOfTwo(a: nat) {
    a > 0 && (a == 1 || (a % 2 == 0 && PowerOfTwo(a / 2)))
  }

  /** The line means the same `shift` bytes further on: no .org, alignments divide the shift, targets are
      labels, and labels occur nowhere else but in relocated operands. */
  ghost predicate Movable(lines: seq<Line>, toks: Line, shift: nat) {
    var ts := DropLabels(toks);
    if TargetOperand(toks).Some? then
      LabelRef(lines, TargetOperand(toks).value) && SimpleRef(TargetOperand(toks).value)
    else if WideOperand(toks).Some? then
      LabelRef(lines, WideOperand(toks).value) || LabelFree(lines, WideOperand(toks).value)
    else
      var (d, args) := LineDirective(toks);
      && !d.Org? && (ts == [] || d.Global? || LabelFree(lines, ts[1..]))
      && (d.Align? && args != [] && args[0].Int? ==>
            Wrap(args[0].value) == 0 || (PowerOfTwo(Wrap(args[0].value)) && shift % Wrap(args[0].value) == 0))
  }

  /* ---- Shifted symbol tables ---- */

  function MoveSymbol(s: Symbol, shift: nat): Symbol {
    if s.isLabel then s.(addr := Wrap(s.addr + shift)) else s
  }

  function Move(syms: Symtab, shift: nat): (r: Symtab)
    ensures |r| == |syms|
  {
    seq(|syms|, i requires 0 <= i < |syms| => MoveSymbol(syms[i], shift))
  }

  lemma {:induction false} FindMoved(syms: Symtab, shift: nat, name: string)
    ensures FindSymbol(Move(syms, shift), name) == FindSymbol(syms, name)
  {
    if syms == [] {
    } else {
      assert Move(syms, shift)[1..] == Move(syms[1..], shift);
      FindMoved(syms[1..], shift, name);
    }
  }

  /** Only the source's labels are labels; nothing is external. */
  ghost predicate LabelsOf(lines: seq<Line>, syms: Symtab) {
    forall i :: 0 <= i < |syms| ==>
        !syms[i].extern && (syms[i].isLabel ==> syms[i].defined && IsLabelName(lines, syms[i].name))
  }

  /** The shifted addresses fit. */
  predicate Fits(syms: Symtab, shift: nat) {
    forall i :: 0 <= i < |syms| && syms[i].isLabel ==> syms[i].addr + shift < 0x1_0000_0000
  }

  /** `y` is in the table, as a label. */
  predicate KnownLabel(syms: Symtab, y: string) {
    FindSymbol(syms, y).Some? && syms[FindSymbol(syms, y).value].isLabel
  }

  /** The table after pass 1: exactly the source's labels are labels. */
  ghost predicate TableOf(lines: seq<Line>, syms: Symtab, shift: nat) {
    LabelsOf(lines, syms) && Fits(syms, shift) && forall y :: IsLabelName(lines, y) ==> KnownLabel(syms, y)
  }

  /* ---- Expressions ---- */

  predicate SameEval(ts: seq<Token>, a: Symtab, b: Symtab) {
    forall k :: 0 <= k <= |ts| ==> Eval(ts[k..], a, true) == Eval(ts[k..], b, true)
  }

  lemma SameEvalSuffix(ts: seq<Token>, k: nat, a: Symtab, b: Symtab)
    requires k <= |ts| && SameEval(ts, a, b)
    ensures SameEval(ts[k..], a, b)
  {
    hide Eval;
    forall j | 0 <= j <= |ts[k..]| ensures Eval(ts[k..][j..], a, true) == Eval(ts[k..][j..], b, true) {
      assert ts[k..][j..] == ts[k + j..];
    }
  }

  lemma ValueUnmoved(lines: seq<Line>, syms: Symtab, shift: nat, strict: bool, y: string)
    requires LabelsOf(lines, syms) && !IsLabelName(lines, y)
    ensures SymbolValue(Move(syms, shift), y, strict) == SymbolValue(syms, y, strict)
  {
    FindMoved(syms, shift, y);
  }

  lemma {:induction false} TailUnmoved(lines: seq<Line>, v: int, ts: seq<Token>, syms: Symtab, shift: nat, strict: bool)
    requires LabelsOf(lines, syms) && LabelFree(lines, ts)
    ensures EvalTail(v, ts, Move(syms, shift), strict) == EvalTail(v, ts, syms, strict)
    decreases |ts|
  {
    if ts == [] || !IsOperator(ts[0]) || |ts| == 1 {
    } else {
      if ts[1].Ident? {
        assert Uses(ts, ts[1].name);
        ValueUnmoved(lines, syms, shift, strict, ts[1].name);
      }
      forall y | Uses(ts[2..], y) ensures !IsLabelName(lines, y) {
        assert Uses(ts, y);
      }
      if Operand(ts[1], syms, strict).Some? {
        TailUnmoved(lines, Apply(ts[0], v, Operand(ts[1], syms, strict).value), ts[2..], syms, shift, strict);
      }
    }
  }

  /** Without labels an expression means the same everywhere. */
  lemma EvalUnmoved(lines: seq<Line>, ts: seq<Token>, syms: Symtab, shift: nat, strict: bool)
    requires LabelsOf(lines, syms) && LabelFree(lines, ts)
    ensures Eval(ts, Move(syms, shift), strict) == Eval(ts, syms, strict)
  {
    var negative := ts != [] && ts[0].Minus?;
    var us := if negative then ts[1..] else ts;
    if us != [] {
      forall y | Uses(us, y) ensures !IsLabelName(lines, y) {
        assert Uses(ts, y);
      }
      if us[0].Ident? || us[0].Label? {
        assert Uses(us, us[0].name);
        ValueUnmoved(lines, syms, shift, strict, us[0].name);
      }
      forall y | Uses(us[1..], y) ensures !IsLabelName(lines, y) {
        assert Uses(us, y);
      }
      var v := match us[0] case Label(name) => SymbolValue(syms, name, strict) case t => Operand(t, syms, strict);
      if v.Some? {
        TailUnmoved(lines, if negative then -v.value else v.value, us[1..], syms, shift, strict);
      }
    }
  }

  lemma AllUnmoved(lines: seq<Line>, ts: seq<Token>, syms: Symtab, shift: nat)
    requires LabelsOf(lines, syms) && LabelFree(lines, ts)
    ensures SameEval(ts, syms, Move(syms, shift))
  {
    hide Eval, LabelsOf;
    forall k | 0 <= k <= |ts| ensures Eval(ts[k..], syms, true) == Eval(ts[k..], Move(syms, shift), true) {
      forall y | Uses(ts[k..], y) ensures !IsLabelName(lines, y) {
        assert Uses(ts, y);
      }
      EvalUnmoved(lines, ts[k..], syms, shift, true);
    }
  }

  lemma MoveByZero(syms: Symtab)
    ensures Move(syms, 0) == syms
  {
    forall i | 0 <= i < |syms| ensures Move(syms, 0)[i] == syms[i] {
      DivUnique(syms[i].addr, 0x1_0000_0000, 0, syms[i].addr);
    }
  }

  /** The addend of a simple reference. */
  function Addend(ts: seq<Token>): int
    requires SimpleRef(ts)
  {
    if |ts| >= 3 && ts[1].Plus? && ts[2].Int? then ts[2].value
    else if |ts| >= 3 && ts[1].Minus? && ts[2].Int? then -ts[2].value
    else 0
  }

  lemma EvalSimpleRef(ts: seq<Token>, syms: Symtab)
    requires SimpleRef(ts) && FindSymbol(syms, ts[0].name).Some?
    ensures Eval(ts, syms, true).Some?
    ensures Eval(ts, syms, true).value.0 == syms[FindSymbol(syms, ts[0].name).value].addr + Addend(ts)
  {
    var v := syms[FindSymbol(syms, ts[0].name).value].addr;
    var us := ts[1..];
    assert Eval(ts, syms, true) == EvalTail(v, us, syms, true);
    if |ts| > 1 && IsOperator(ts[1]) {
      assert us[0] == ts[1] && us[1] == ts[2] && us[2..] == ts[3..];
      assert EvalTail(v, us, syms, true) == EvalTail(Apply(ts[1], v, ts[2].value), ts[3..], syms, true);
    }
  }

  /** A simple label reference: what the peek sees is what the evaluation computes. */
  lemma SimpleRefValue(lines: seq<Line>, ts: seq<Token>, syms: Symtab, shift: nat)
    requires TableOf(lines, syms, shift) && LabelRef(lines, ts) && SimpleRef(ts)
    ensures var p := PeekSymbol(ts, syms);
      && p.Some? && p.value.0 < |syms| && syms[p.value.0].isLabel
      && Eval(ts, syms, true).Some? && Eval(ts, Move(syms, shift), true).Some?
      && Eval(ts, syms, true).value.0 == syms[p.value.0].addr + p.value.1
      && Eval(ts, Move(syms, shift), true).value.0 == syms[p.value.0].addr + shift + p.value.1
  {
    hide Eval;
    var y := ts[0].name;
    FindMoved(syms, shift, y);
    EvalSimpleRef(ts, syms);
    EvalSimpleRef(ts, Move(syms, shift));
    var i := FindSymbol(syms, y).value;
    DivUnique(syms[i].addr + shift, 0x1_0000_0000, 0, syms[i].addr + shift);
  }

  lemma PeekIsLabelRef(lines: seq<Line>, ts: seq<Token>, syms: Symtab, shift: nat)
    requires TableOf(lines, syms, shift)
    ensures PeekSymbol(ts, syms).Some? <==> LabelRef(lines, ts)
    ensures PeekSymbol(ts, syms).Some? ==> !syms[PeekSymbol(ts, syms).value.0].extern
  {
  }

  /* ---- Instructions without relocation ---- */

  lemma RegisterSuffix(ts: seq<Token>)
    ensures Register(ts).Some? ==> ts != [] && Register(ts).value.1 == ts[1..]
    ensures RegisterComma(ts).Some? ==> |ts| >= 2 && RegisterComma(ts).value.1 == ts[2..]
  {
  }

  predicate HasRelocation(f: Format) {
    f.Branch? || f.Jump? || f.Call? || f.Movi32?
  }

  lemma MemOperandSame(ts: seq<Token>, a: Symtab, b: Symtab)
    requires SameEval(ts, a, b)
    ensures MemOperand(ts, a) == MemOperand(ts, b)
  {
    hide Eval, ParseRegister;
    RegisterSuffix(ts);
    if ts != [] {
      RegisterSuffix(ts[1..]);
      if |ts| >= 2 {
        assert ts[1..][1..] == ts[2..];
      }
      if |ts| >= 3 {
        assert ts[2..][1..] == ts[3..];
      }
    }
  }

  lemma RegRegImmSame(ts: seq<Token>, a: Symtab, b: Symtab, lo: int, hi: int)
    requires SameEval(ts, a, b)
    ensures RegRegImm(ts, a, lo, hi) == RegRegImm(ts, b, lo, hi)
  {
    hide Eval, Register, RegisterComma;
    RegisterSuffix(ts);
    if RegisterComma(ts).Some? {
      RegisterSuffix(ts[2..]);
      if RegisterComma(ts[2..]).Some? {
        assert ts[2..][2..] == ts[4..];
      }
    }
  }

  lemma EncodeSame(e: OpEntry, ts: seq<Token>, a: Symtab, b: Symtab, addr: Word, addr': Word)
    requires SameEval(ts, a, b) && !HasRelocation(e.fmt)
    ensures Encode(e, ts, a, addr, true) == Encode(e, ts, b, addr', false)
  {
    hide Eval, Register, RegisterComma, Instr, WordLe, MemOperand, IndexOperands, RegRegImm;
    RegisterSuffix(ts);
    RegRegImmSame(ts, a, b, 0, 31);
    RegRegImmSame(ts, a, b, 0, 65535);
    RegRegImmSame(ts, a, b, -32768, 32767);
    if RegisterComma(ts).Some? {
      SameEvalSuffix(ts, 2, a, b);
      MemOperandSame(ts[2..], a, b);
      assert ts[2..][0..] == ts[2..];
    }
  }

  /* ---- Relocated words ---- */

  /** What relocation `r` will ask for once its section stands `shift` bytes further on. */
  function Wanted(r: Reloc, syms: Symtab, shift: nat): Site
    requires r.sym < |syms|
  {
    Site(0, r.offset, r.kind, Wrap(syms[r.sym].addr + shift + r.addend), 0)
  }

  predicate WideKind(kind: Byte) {
    kind == ABS32 || kind == MOVI32_LO || kind == MOVI32_HI
  }

  predicate InWord(r: Reloc, k: int) {
    r.offset <= k < r.offset + 4
  }

  predicate Touched(rs: seq<Reloc>, k: int) {
    exists i :: 0 <= i < |rs| && InWord(rs[i], k)
  }

  /** `f` is what relocation makes of the emission `g`. */
  predicate Relocates(g: Emission, f: seq<Byte>, syms: Symtab, shift: nat) {
    && |g.bytes| == |f|
    && (forall i :: 0 <= i < |g.relocs| ==> RelocDone(g.relocs[i], g.bytes, f, syms, shift))
    && (forall i, j :: 0 <= i < j < |g.relocs| ==> g.relocs[i].offset + 4 <= g.relocs[j].offset)
    && (forall k :: 0 <= k < |f| && !Touched(g.relocs, k) ==> f[k] == g.bytes[k])
  }

  predicate RelocDone(r: Reloc, g: seq<Byte>, f: seq<Byte>, syms: Symtab, shift: nat) {
    && r.sym < |syms| && syms[r.sym].isLabel && WideKind(r.kind) && r.offset + 4 <= |g| && r.offset + 4 <= |f|
    && r.addend == Int32(r.addend)
    && Read32(f, r.offset) == PatchWord(Wanted(r, syms, shift), Read32(g, r.offset))
  }

  lemma ReadWordLe(a: seq<Byte>, w: Word, b: seq<Byte>)
    ensures Read32(a + WordLe(w) + b, |a|) == w
  {
    var m := a + WordLe(w) + b;
    assert m[|a|] == WordLe(w)[0] && m[|a| + 1] == WordLe(w)[1] && m[|a| + 2] == WordLe(w)[2]
        && m[|a| + 3] == WordLe(w)[3];
    WordBytes(w);
  }

  lemma WrapInt32(a: int, v: int)
    ensures Wrap(a + Int32(v)) == Wrap(a + v)
    ensures Int32(Int32(v)) == Int32(v)
  {
    var q := v / 0x1_0000_0000;
    assert v == q * 0x1_0000_0000 + Wrap(v);
    if Wrap(v) >= 0x8000_0000 {
      WrapShift(a + Int32(v), q + 1);
      WrapShift(Int32(v), 1);
    } else {
      WrapShift(a + Int32(v), q);
    }
  }

  lemma WrapShift(x: int, k: int)
    ensures Wrap(x + k * 0x1_0000_0000) == Wrap(x)
  {
  }

  lemma CoveredWords(g: Emission, f: seq<Byte>, syms: Symtab, shift: nat)
    requires |g.bytes| == |f| == 4 * |g.relocs|
    requires forall i :: 0 <= i < |g.relocs| ==>
        g.relocs[i].offset == 4 * i && RelocDone(g.relocs[i], g.bytes, f, syms, shift)
    ensures Relocates(g, f, syms, shift)
  {
    hide RelocDone;
    forall k | 0 <= k < |f| ensures Touched(g.relocs, k) {
      assert InWord(g.relocs[k / 4], k);
    }
  }

  lemma WordRelocates(lines: seq<Line>, args: seq<Token>, syms: Symtab, shift: nat, org: Word, org': Word)
    requires TableOf(lines, syms, shift) && LabelRef(lines, args) && SimpleRef(args)
    ensures var g := DirectiveBytes(WordDir, args, syms, org, true);
      var f := DirectiveBytes(WordDir, args, Move(syms, shift), org', false);
      g.Some? && f.Some? && f.value.relocs == [] && Relocates(g.value, f.value.bytes, syms, shift)
  {
    hide Eval, PeekSymbol, WordLe, Read32, Wrap, Int32, Relocates, TableOf;
    SimpleRefValue(lines, args, syms, shift);
    var (i, addend) := PeekSymbol(args, syms).value;
    var v := syms[i].addr + shift + addend;
    ReadWordLe([], Wrap(v), []);
    assert [] + WordLe(Wrap(v)) + [] == WordLe(Wrap(v));
    WrapInt32(syms[i].addr + shift, addend);
    var r := Reloc(0, i, ABS32, Int32(addend));
    assert RelocDone(r, WordLe(0), WordLe(Wrap(v)), syms, shift);
    CoveredWords(Emission(WordLe(0), [r]), WordLe(Wrap(v)), syms, shift);
  }

  lemma ReadTwoWords(v: Word, w: Word)
    ensures Read32(WordLe(v) + WordLe(w), 0) == v && Read32(WordLe(v) + WordLe(w), 4) == w
  {
    hide WordLe, Read32;
    ReadWordLe([], v, WordLe(w));
    ReadWordLe(WordLe(v), w, []);
    assert [] + WordLe(v) + WordLe(w) == WordLe(v) + WordLe(w) == WordLe(v) + WordLe(w) + [];
  }

  lemma InstrFits(op: Byte, rd: Byte, low: Word)
    requires op < 0x20 && low < 0x1_0000
    ensures Instr(op, rd, 0, low) == op * 0x100_0000 + rd * 0x10_0000 + low
    ensures Instr(op, rd, 0, low) / 0x1_0000 == op * 0x100 + rd * 0x10
  {
    var w := op * 0x100_0000 + rd * 0x10_0000 + low;
    DivUnique(w, 0x1_0000_0000, 0, w);
    DivUnique(w, 0x1_0000, op * 0x100 + rd * 0x10, low);
  }

  /** Patching a half of a 32-bit value into the empty low field of an instruction. */
  lemma HalfPatched(op: Byte, rd: Byte, offset: Word, kind: Byte, t: Word)
    requires op < 0x20 && (kind == MOVI32_LO || kind == MOVI32_HI)
    ensures PatchWord(Site(0, offset, kind, t, 0), Instr(op, rd, 0, 0))
            == Instr(op, rd, 0, if kind == MOVI32_LO then t % 0x1_0000 else t / 0x1_0000)
  {
    hide Instr;
    InstrFits(op, rd, 0);
    InstrFits(op, rd, if kind == MOVI32_LO then t % 0x1_0000 else t / 0x1_0000);
  }

  lemma Halves(v: int)
    ensures Wrap(v) % 0x1_0000 == v % 0x1_0000 && Wrap(v) / 0x1_0000 == v / 0x1_0000 % 0x1_0000
  {
    var q := v / 0x1_0000_0000;
    var h, l := Wrap(v) / 0x1_0000, Wrap(v) % 0x1_0000;
    assert v == (q * 0x1_0000 + h) * 0x1_0000 + l;
    assert v / 0x1_0000 == q * 0x1_0000 + h && v % 0x1_0000 == l;
  }

  lemma LoadAddressRelocates(lines: seq<Line>, ts: seq<Token>, syms: Symtab, shift: nat)
    requires TableOf(lines, syms, shift) && RegisterComma(ts).Some?
    requires LabelRef(lines, RegisterComma(ts).value.1) && SimpleRef(RegisterComma(ts).value.1)
    ensures var g := LoadAddress(ts, syms, true);
      var f := LoadAddress(ts, Move(syms, shift), false);
      g.Some? && f.Some? && f.value.relocs == [] && Relocates(g.value, f.value.bytes, syms, shift)
  {
    hide Eval, PeekSymbol, WordLe, Read32, Wrap, Int32, Relocates, TableOf, RegisterComma, Instr, PatchWord,
         LabelRef, SimpleRef;
    var (rd, t1) := RegisterComma(ts).value;
    SimpleRefValue(lines, t1, syms, shift);
    var (i, addend) := PeekSymbol(t1, syms).value;
    var v := syms[i].addr + shift + addend;
    WrapInt32(syms[i].addr + shift, addend);
    HalfPatched(0x0F, rd, 0, MOVI32_LO, Wrap(v));
    HalfPatched(0x13, rd, 4, MOVI32_HI, Wrap(v));
    Halves(v);
    var lo, hi := Reloc(0, i, MOVI32_LO, Int32(addend)), Reloc(4, i, MOVI32_HI, Int32(addend));
    var g := WordLe(Instr(0x0F, rd, 0, 0)) + WordLe(Instr(0x13, rd, 0, 0));
    var f := WordLe(Instr(0x0F, rd, 0, v % 0x1_0000)) + WordLe(Instr(0x13, rd, 0, v / 0x1_0000 % 0x1_0000));
    ReadTwoWords(Instr(0x0F, rd, 0, 0), Instr(0x13, rd, 0, 0));
    ReadTwoWords(Instr(0x0F, rd, 0, v % 0x1_0000), Instr(0x13, rd, 0, v / 0x1_0000 % 0x1_0000));
    assert RelocDone(lo, g, f, syms, shift) && RelocDone(hi, g, f, syms, shift);
    CoveredWords(Emission(g, [lo, hi]), f, syms, shift);
  }

  /* ---- PC-relative targets ---- */

  lemma RelativeSame(lines: seq<Line>, op: Byte, rd: Byte, kind: Byte, ts: seq<Token>, syms: Symtab, shift: nat,
      addr: Word)
    requires TableOf(lines, syms, shift) && addr + shift < 0x1_0000_0000
    requires shift == 0 || (LabelRef(lines, ts) && SimpleRef(ts))
    ensures Relative(op, rd, kind, ts, syms, addr, true)
        == Relative(op, rd, kind, ts, Move(syms, shift), addr + shift, false)
  {
    hide Eval, PeekSymbol, Instr, WordLe, TableOf, LabelRef, SimpleRef;
    PeekIsLabelRef(lines, ts, syms, shift);
    if shift == 0 {
      MoveByZero(syms);
    } else {
      SimpleRefValue(lines, ts, syms, shift);
    }
  }

  /* ---- Alignment ---- */

  lemma AndStep(x: nat, b: nat)
    requires b > 0
    ensures And(x, 2 * b - 1) == x % 2 + 2 * And(x / 2, b - 1)
  {
    assert (2 * b - 1) % 2 == 1 && (2 * b - 1) / 2 == b - 1;
  }

  lemma {:induction false} AndMask(x: nat, a: nat)
    requires PowerOfTwo(a)
    ensures And(x, a - 1) == x % a
  {
    if a == 1 {
    } else {
      var b := a / 2;
      hide And;
      AndMask(x / 2, b);
      AndStep(x, b);
      HalfMod(x, b);
      assert a == 2 * b;
    }
  }

  lemma {:induction false} PowerDivides(a: nat, n: nat) returns (k: nat)
    requires PowerOfTwo(a) && a <= Pow2(n)
    ensures Pow2(n) == k * a
  {
    if a == 1 {
      k := Pow2(n);
    } else {
      k := PowerDivides(a / 2, n - 1);
    }
  }

  lemma GapArithmetic(org: int, a: int, k: int, c: int, q: int, m: int)
    requires org + a - 1 - c * (k * a) == q * a + m
    ensures 0 - org == (-q - c * k) * a + (a - 1 - m)
  {
    assert c * (k * a) == c * k * a;
    assert (-q - c * k) * a == -(q * a) - c * k * a;
  }

  /** The padding an alignment inserts is what is missing to the next multiple. */
  lemma AlignGap(org: Word, a: Word)
    requires PowerOfTwo(a)
    ensures Wrap(AlignUp(org, a) - org) == (0 - org) % a
  {
    if a == 1 {
      EuclideanUnique(0 - org, 1, 0 - org, 0);
    } else {
      AlignGapWide(org, a);
    }
  }

  lemma AlignGapWide(org: Word, a: Word)
    requires PowerOfTwo(a) && a > 1
    ensures Wrap(AlignUp(org, a) - org) == (0 - org) % a
  {
    hide PowerOfTwo, And;
    Pow2Literals();
    var k := PowerDivides(a, 32);
    var x, c := Wrap(org + a - 1), (org + a - 1) / 0x1_0000_0000;
    var m, q := x % a, x / a;
    AndMask(x, a);
    GapArithmetic(org, a, k, c, q, m);
    EuclideanUnique(0 - org, a, -q - c * k, a - 1 - m);
    EuclideanUnique(x - m - org, 0x1_0000_0000, -c, a - 1 - m);
  }

  lemma AtLeastOne(d: int, p: nat)
    requires d >= 1
    ensures d * p >= p
  {
    assert d * p == p + (d - 1) * p;
  }

  lemma EuclideanUnique(x: int, p: nat, q: int, r: nat)
    requires p > 0 && x == q * p + r && r < p
    ensures x / p == q && x % p == r
  {
    var q', r' := x / p, x % p;
    assert x == q' * p + r' && 0 <= r' < p;
    assert (q - q') * p == r' - r && (q' - q) * p == r - r';
    if q > q' {
      AtLeastOne(q - q', p);
    } else if q < q' {
      AtLeastOne(q' - q, p);
    }
  }

  lemma NegMod(org: nat, shift: nat, a: nat)
    requires a > 0 && shift % a == 0
    ensures (0 - (org + shift)) % a == (0 - org) % a
  {
    var r, q, s := (0 - org) % a, (0 - org) / a, shift / a;
    assert 0 - org == q * a + r && shift == s * a;
    assert (q - s) * a == q * a - s * a;
    EuclideanUnique(0 - (org + shift), a, q - s, r);
  }

  lemma GapMoves(org: Word, shift: nat, a: Word)
    requires org + shift < 0x1_0000_0000
    requires a == 0 || shift == 0 || (PowerOfTwo(a) && shift % a == 0)
    ensures Wrap(AlignUp(org + shift, a) - (org + shift)) == Wrap(AlignUp(org, a) - org)
  {
    hide PowerOfTwo, AlignUp;
    if a != 0 && shift != 0 {
      AlignGap(org, a);
      AlignGap(org + shift, a);
      NegMod(org, shift, a);
    } else if a == 0 {
      NoAlign(org);
      NoAlign(org + shift);
    }
  }

  lemma NoAlign(org: Word)
    ensures AlignUp(org, 0) == org
  {
  }

  /* ---- Whole lines ---- */

  lemma PlainRelocates(f: Emission, syms: Symtab, shift: nat)
    requires f.relocs == []
    ensures Relocates(f, f.bytes, syms, shift)
  {
  }

  /** Both versions of the line assemble or neither does, and relocation turns the one into the other. */
  predicate Agree(g: Option<Emission>, f: Option<Emission>, syms: Symtab, shift: nat) {
    && (g.Some? <==> f.Some?)
    && (g.Some? ==> f.value.relocs == [] && Relocates(g.value, f.value.bytes, syms, shift))
  }

  lemma EqualAgree(g: Option<Emission>, syms: Symtab, shift: nat)
    requires g.Some? ==> g.value.relocs == []
    ensures Agree(g, g, syms, shift)
  {
    if g.Some? {
      PlainRelocates(g.value, syms, shift);
    }
  }

  lemma DirectiveMoves(lines: seq<Line>, d: Directive, args: seq<Token>, syms: Symtab, shift: nat, org: Word)
    requires TableOf(lines, syms, shift) && org + shift < 0x1_0000_0000
    requires d.WordDir? && LabelRef(lines, args) ==> SimpleRef(args)
    requires shift != 0 ==> !d.Org? && (d.Global? || LabelFree(lines, args) || (d.WordDir? && LabelRef(lines, args)))
    requires shift != 0 && d.Align? && args != [] && args[0].Int? ==>
      Wrap(args[0].value) == 0 || (PowerOfTwo(Wrap(args[0].value)) && shift % Wrap(args[0].value) == 0)
    ensures Agree(DirectiveBytes(d, args, syms, org, true),
        DirectiveBytes(d, args, Move(syms, shift), org + shift, false), syms, shift)
  {
    hide Eval, PeekSymbol, WordLe, CText, TextBytes, AlignUp, PowerOfTwo, Relocates, TableOf, LabelRef, SimpleRef,
         LabelFree, Move, Wrap;
    PeekIsLabelRef(lines, args, syms, shift);
    if d.WordDir? && LabelRef(lines, args) {
      WordRelocates(lines, args, syms, shift, org, org + shift);
    } else {
      if shift == 0 {
        MoveByZero(syms);
      } else {
        if LabelFree(lines, args) {
          TableLabels(lines, syms, shift);
          EvalUnmoved(lines, args, syms, shift, true);
        }
        if d.Align? && args != [] && args[0].Int? {
          GapMoves(org, shift, Wrap(args[0].value));
        }
      }
      EqualAgree(DirectiveBytes(d, args, syms, org, true), syms, shift);
    }
  }

  lemma TableLabels(lines: seq<Line>, syms: Symtab, shift: nat)
    requires TableOf(lines, syms, shift)
    ensures LabelsOf(lines, syms)
  {
  }

  lemma PlainInstruction(e: OpEntry, ts: seq<Token>, syms: Symtab, addr: Word)
    ensures Encode(e, ts, syms, addr, false).Some? ==> Encode(e, ts, syms, addr, false).value.relocs == []
  {
    hide RegisterComma, Register, Eval, RegRegImm, MemOperand, IndexOperands, PeekSymbol, Instr, WordLe;
  }

  lemma InstructionMoves(lines: seq<Line>, e: OpEntry, ts: seq<Token>, syms: Symtab, shift: nat, org: Word)
    requires TableOf(lines, syms, shift) && org + shift < 0x1_0000_0000
    requires e.fmt.Movi32? && RegisterComma(ts).Some? && LabelRef(lines, RegisterComma(ts).value.1) ==>
      SimpleRef(RegisterComma(ts).value.1)
    requires shift != 0 ==>
      if e.fmt.Branch? || e.fmt.Call? then LabelRef(lines, ts) && SimpleRef(ts)
      else if e.fmt.Jump? && RegisterComma(ts).Some? then
        LabelRef(lines, RegisterComma(ts).value.1) && SimpleRef(RegisterComma(ts).value.1)
      else if e.fmt.Movi32? && RegisterComma(ts).Some? then
        LabelRef(lines, RegisterComma(ts).value.1) || LabelFree(lines, RegisterComma(ts).value.1)
      else LabelFree(lines, ts)
    ensures Agree(Encode(e, ts, syms, org, true), Encode(e, ts, Move(syms, shift), org + shift, false), syms, shift)
  {
    hide Eval, PeekSymbol, WordLe, Relocates, TableOf, LabelRef, SimpleRef, LabelFree, Move, RegisterComma, Register,
         Instr, SameEval, MemOperand, IndexOperands, RegRegImm, Relative, LoadAddress;
    TableLabels(lines, syms, shift);
    PlainInstruction(e, ts, Move(syms, shift), org + shift);
    var f := Encode(e, ts, Move(syms, shift), org + shift, false);
    if e.fmt.Branch? || e.fmt.Call? {
      RelativeSame(lines, e.opcode, e.cond, BRANCH20, ts, syms, shift, org);
      RelativeSame(lines, e.opcode, 14, JUMP20, ts, syms, shift, org);
      EqualAgree(f, syms, shift);
    } else if e.fmt.Jump? {
      if RegisterComma(ts).Some? {
        var (rd, t1) := RegisterComma(ts).value;
        RelativeSame(lines, e.opcode, rd, JUMP20, t1, syms, shift, org);
      }
      EqualAgree(f, syms, shift);
    } else if e.fmt.Movi32? {
      LongLoadMoves(lines, ts, syms, shift);
    } else {
      if shift == 0 {
        MoveByZero(syms);
        SameEvalSelf(ts, syms);
      } else {
        AllUnmoved(lines, ts, syms, shift);
      }
      EncodeSame(e, ts, syms, Move(syms, shift), org, org + shift);
      EqualAgree(f, syms, shift);
    }
  }

  lemma SameEvalSelf(ts: seq<Token>, syms: Symtab)
    ensures SameEval(ts, syms, syms)
  {
  }

  lemma LongLoadMoves(lines: seq<Line>, ts: seq<Token>, syms: Symtab, shift: nat)
    requires TableOf(lines, syms, shift)
    requires RegisterComma(ts).Some? ==>
      var t1 := RegisterComma(ts).value.1;
      (LabelRef(lines, t1) ==> SimpleRef(t1)) && (shift != 0 ==> LabelRef(lines, t1) || LabelFree(lines, t1))
    ensures Agree(LoadAddress(ts, syms, true), LoadAddress(ts, Move(syms, shift), false), syms, shift)
  {
    hide Eval, PeekSymbol, WordLe, Relocates, TableOf, LabelRef, SimpleRef, LabelFree, Move, RegisterComma, Instr;
    if RegisterComma(ts).Some? {
      var (rd, t1) := RegisterComma(ts).value;
      PeekIsLabelRef(lines, t1, syms, shift);
      if LabelRef(lines, t1) {
        LoadAddressRelocates(lines, ts, syms, shift);
      } else {
        if shift == 0 {
          MoveByZero(syms);
        } else {
          TableLabels(lines, syms, shift);
          EvalUnmoved(lines, t1, syms, shift, true);
        }
        EqualAgree(LoadAddress(ts, syms, true), syms, shift);
      }
    }
  }

  /** Main result for one line: in the object file and flat, `shift` bytes further on, it assembles or not
      alike, and relocating the one gives the other. */
  lemma LineMoves(lines: seq<Line>, toks: Line, syms: Symtab, shift: nat, org: Word)
    requires TableOf(lines, syms, shift) && org + shift < 0x1_0000_0000
    requires Linkable(lines, toks) && (shift == 0 || Movable(lines, toks, shift))
    ensures Agree(LineBytes(toks, syms, org, true), LineBytes(toks, Move(syms, shift), org + shift, false), syms, shift)
  {
    hide Encode, DirectiveBytes, FindOpcode, DirectiveOf, TableOf, LabelRef, SimpleRef, LabelFree, Move, Relocates,
         RegisterComma, PowerOfTwo, IsEquOf, Wrap;
    var ts := DropLabels(toks);
    if ts == [] {
      PlainRelocates(NOTHING, syms, shift);
    } else if ts[0].Dot? {
      DirectiveMoves(lines, DirectiveOf(ts[0].name), ts[1..], syms, shift, org);
    } else if ts[0].Ident? && FindOpcode(ts[0].name).Some? {
      InstructionMoves(lines, FindOpcode(ts[0].name).value, ts[1..], syms, shift, org);
    }
  }
}
