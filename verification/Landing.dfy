/** Emitted control transfers land where they were written: from the source text, through encoding or field
    patching and 20-bit sign extension, to the program counter of the executing machine. */
module Landing {
  import opened Words
  import opened Memory
  import opened OpTable
  import opened Lexer
  import opened Assembler
  import opened Passes
  import opened Symbols
  import opened Dobj
  import opened Linker
  import opened Moving
  import Cpu
  import Mmu
  import Privilege
  import Disasm

  /* ---- Decoding what was encoded ---- */

  /** A 20-bit field holding a distance reads back as that distance. */
  lemma OffsetField(w: Word, d: int)
    requires -524288 <= d <= 524287 && w % 0x10_0000 == d % 0x10_0000
    ensures Cpu.Soff(w) == d
  {
    if d >= 0 {
      DivUnique(d, 0x10_0000, 0, d);
    } else {
      DivUnique(d + 0x10_0000, 0x10_0000, 0, d + 0x10_0000);
    }
  }

  lemma TransferFields(op: Byte, rd: Byte, d: int)
    requires rd < 0x10 && -524288 <= d <= 524287
    ensures var w := Instr(op, rd, 0, d % 0x10_0000);
      Cpu.Opcode(w) == op && Cpu.Rd(w) == rd && Cpu.Soff(w) == d
  {
    var low := d % 0x10_0000;
    Disasm.InstrFields(op, rd, low / 0x1_0000, low % 0x1_0000);
    var w := Instr(op, rd, 0, low);
    DivUnique(w, 0x10_0000, op * 0x10 + rd, low);
    OffsetField(w, d);
  }

  /** Executing `w` at `pc` goes to `target`: a branch when its condition holds, a jump or call always, with
      the return address in the link register. */
  ghost predicate TransfersTo(w: Word, pc: Word, target: Word) {
    forall c: Cpu.Core ::
      if Cpu.Opcode(w) == 0x0D then
        Cpu.Rd(w) <= 10 && Cpu.Decode(c, pc, w) == if Cpu.Taken(Cpu.Rd(w), c.flags) then Cpu.Goto(target) else Cpu.Fall
      else Cpu.Opcode(w) == 0x0E && Cpu.Decode(c, pc, w) == Cpu.Link(Cpu.Rd(w), target)
  }

  lemma TransferDecodes(w: Word, pc: Word, target: Word)
    requires (Cpu.Opcode(w) == 0x0D && Cpu.Rd(w) <= 10) || Cpu.Opcode(w) == 0x0E
    requires Wrap(pc + Cpu.Soff(w)) == target
    ensures TransfersTo(w, pc, target)
  {
    hide Cpu.Opcode, Cpu.Rd, Cpu.Soff, Cpu.Taken;
  }

  /** ... and so the machine that fetches it continues at the target. */
  lemma MachineLands(mode: Cpu.Mode, s: Cpu.State, w: Word, target: Word)
    requires Cpu.Fetched(mode, s).1 == Some(w) && TransfersTo(w, s.core.r[15], target)
    ensures var d := Privilege.AfterInstruction(mode, s).core;
      && d.r[15] == (if Cpu.Opcode(w) == 0x0E || Cpu.Taken(Cpu.Rd(w), s.core.flags) then target
                     else Wrap(s.core.r[15] + 4))
      && (Cpu.Opcode(w) == 0x0E && Cpu.Rd(w) != 15 ==> d.r[Cpu.Rd(w)] == Wrap(s.core.r[15] + 4))
      && d.flags == s.core.flags && d.status == s.core.status
  {
    hide Cpu.Fetched, Cpu.Decode, Cpu.Opcode, Cpu.Rd, Cpu.Taken;
    Privilege.FetchOutcome(mode, s);
  }

  /* ---- Flat assemblies ---- */

  lemma RelativeTransfers(op: Byte, rd: Byte, kind: Byte, ts: seq<Token>, syms: Symtab, addr: Word)
    requires rd < 0x10 && ((op == 0x0D && rd <= 10) || op == 0x0E)
    requires Relative(op, rd, kind, ts, syms, addr, false).Some?
    ensures Eval(ts, syms, true).Some?
    ensures exists w :: Relative(op, rd, kind, ts, syms, addr, false).value.bytes == WordLe(w)
                        && TransfersTo(w, addr, Wrap(Eval(ts, syms, true).value.0))
  {
    hide Eval, Instr, WordLe, TransfersTo, PeekSymbol, Cpu.Opcode, Cpu.Rd, Cpu.Soff;
    var v := Eval(ts, syms, true).value.0;
    TransferFields(op, rd, v - addr);
    var w := Instr(op, rd, 0, (v - addr) % 0x10_0000);
    assert addr + (v - addr) == v;
    TransferDecodes(w, addr, Wrap(v));
    assert Relative(op, rd, kind, ts, syms, addr, false).value.bytes == WordLe(w);
  }

  lemma TransferRows(m: string)
    requires Row(m).Some?
    ensures var e := Row(m).value;
      && (e.fmt.Branch? ==> e.opcode == 0x0D && e.cond <= 10)
      && (e.fmt.Jump? || e.fmt.Call? ==> e.opcode == 0x0E)
  {
  }

  lemma OpcodeRow(m: string)
    ensures FindOpcode(m) == Row(UpperCase(m))
  {
  }

  lemma TransferLine(toks: Line, syms: Symtab, org: Word)
    requires TargetOperand(toks).Some? && LineBytes(toks, syms, org, false).Some?
    ensures var ts := TargetOperand(toks).value;
      && Eval(ts, syms, true).Some?
      && exists w :: LineBytes(toks, syms, org, false).value.bytes == WordLe(w)
          && TransfersTo(w, org, Wrap(Eval(ts, syms, true).value.0))
  {
    hide Eval, Relative, FindOpcode, WordLe, TransfersTo, RegisterComma, Row;
    var ts := DropLabels(toks);
    var e := FindOpcode(ts[0].name).value;
    OpcodeRow(ts[0].name);
    TransferRows(UpperCase(ts[0].name));
    if e.fmt.Branch? {
      RelativeTransfers(0x0D, e.cond, BRANCH20, ts[1..], syms, org);
    } else if e.fmt.Call? {
      RelativeTransfers(0x0E, 14, JUMP20, ts[1..], syms, org);
    } else {
      Disasm.RegisterBound(ts[1..]);
      var (rd, t1) := RegisterComma(ts[1..]).value;
      RelativeTransfers(0x0E, rd, JUMP20, t1, syms, org);
    }
  }

  /** The state of pass 2 of a flat assembly before line `k`. */
  function Before(lines: seq<Line>, k: nat): Pass2
    requires k <= |lines| && AssembleFlat(lines).Some?
  {
    RunsArePrefixClosed(lines, k, |lines|, RunPass1(lines, |lines|, false).value.syms, 0, false);
    RunPass2(lines, k, RunPass1(lines, |lines|, false).value.syms, 0, false).value
  }

  /** Where line `k` starts in the flat image. */
  function AddressOf(lines: seq<Line>, k: nat): nat
    requires k <= |lines| && AssembleFlat(lines).Some?
  {
    |Before(lines, k).out|
  }

  lemma ImageWord(out: seq<Byte>, at: nat, w: Word)
    requires at + 4 <= |out| && out[at..at + 4] == WordLe(w)
    ensures Read32(out, at) == w
  {
    WordBytes(w);
    var b := WordLe(w);
    assert out[at..at + 4][0] == out[at] && out[at..at + 4][1] == out[at + 1]
        && out[at..at + 4][2] == out[at + 2] && out[at..at + 4][3] == out[at + 3];
  }

  lemma {:induction false} AddressBound(lines: seq<Line>, k: nat)
    requires k <= |lines| && AssembleFlat(lines).Some?
    ensures AddressOf(lines, k) <= MAX_OUTPUT
  {
    hide LineBytes, LineSymbols, RunPass1;
    if k > 0 {
      RunsArePrefixClosed(lines, k, |lines|, RunPass1(lines, |lines|, false).value.syms, 0, false);
    }
  }

  /** Every branch, jump and call of an error-free flat assembly transfers to the value of its operand. */
  lemma EveryTransferLands(lines: seq<Line>, k: nat)
    requires k < |lines| && AssembleFlat(lines).Some? && TargetOperand(lines[k]).Some?
    ensures var out, at := AssembleFlat(lines).value, AddressOf(lines, k);
      var v := Eval(TargetOperand(lines[k]).value, Before(lines, k).syms, true);
      at + 4 <= |out| && v.Some? && TransfersTo(Read32(out, at), at, Wrap(v.value.0))
  {
    hide LineBytes, LineSymbols, RunPass1, RunPass2, Eval, WordLe, TransfersTo, Read32, TargetOperand;
    var syms := RunPass1(lines, |lines|, false).value.syms;
    var p, at := Before(lines, k), AddressOf(lines, k);
    LineBytesInImage(lines, k, |lines|, syms, 0, false);
    AddressBound(lines, k);
    WrapSmall(at);
    TransferLine(lines[k], p.syms, at);
    var v := Eval(TargetOperand(lines[k]).value, p.syms, true).value.0;
    var w :| LineBytes(lines[k], p.syms, at, false).value.bytes == WordLe(w) && TransfersTo(w, at, Wrap(v));
    ImageWord(AssembleFlat(lines).value, at, w);
  }

  /* ---- ... which for a label is where the label stands ---- */

  /** Line `i` is the only one that assigns `y`, and it is a label there. */
  predicate LabelAt(lines: seq<Line>, i: nat, y: string) {
    && i < |lines| && IsLabelOf(lines[i], y) && !IsEquOf(lines[i], y)
    && (LineDirective(lines[i]).0.Extern? ==>
        LineDirective(lines[i]).1 == [] || LineDirective(lines[i]).1[0] != Ident(y))
    && forall j :: 0 <= j < |lines| && j != i ==> !Assigns(lines[j], y)
  }

  lemma {:induction false} LabelGetsOrigin(toks: Line, syms: Symtab, org: Word, y: string)
    requires IsLabelOf(toks, y) && DefineLabels(toks, syms, org).Some?
    ensures Val(DefineLabels(toks, syms, org).value, y) == org
    ensures SymbolOf(DefineLabels(toks, syms, org).value, y).Some?
  {
    var (t, i) := Ensure(syms, toks[0].name);
    var next := DefineLabel(syms, toks[0].name, org).value;
    EnsureThenUpdate(syms, toks[0].name, t[i].(addr := org, defined := true, isLabel := true), y);
    if IsLabelOf(toks[1..], y) {
      LabelGetsOrigin(toks[1..], next, org, y);
    } else {
      DefineLabelsSymbol(toks[1..], next, org, y);
    }
  }

  lemma LabelLine(toks: Line, p: Pass1, obj: bool, y: string)
    requires IsLabelOf(toks, y) && !IsEquOf(toks, y) && Pass1Line(toks, p, obj).Some?
    requires LineDirective(toks).0.Extern? ==> LineDirective(toks).1 == [] || LineDirective(toks).1[0] != Ident(y)
    ensures Val(Pass1Line(toks, p, obj).value.syms, y) == p.org && SymbolOf(Pass1Line(toks, p, obj).value.syms, y).Some?
  {
    hide SymbolOf, SetGlobal, SetExtern, SetValue, Eval, DirectiveOf, DirectiveSize, InstrSize, AlignUp, IsLabelOf,
         DefineLabels;
    LabelGetsOrigin(toks, p.syms, p.org, y);
    var syms := DefineLabels(toks, p.syms, p.org).value;
    var (d, args) := LineDirective(toks);
    if args != [] && args[0].Ident? {
      SetGlobalSymbol(syms, args[0].name, y);
      if args[0].name != y {
        SetExternSymbol(syms, args[0].name, y);
      }
    }
    if d.Equ? && EquParts(args).Some? {
      var (name, expr) := EquParts(args).value;
      if Eval(expr, syms, false).Some? {
        SetValueSymbol(syms, name, Eval(expr, syms, false).value.0, y);
      }
    }
  }

  /** After pass 1 a label has the address of its line. */
  lemma FinalLabel(lines: seq<Line>, i: nat, y: string, obj: bool)
    requires LabelAt(lines, i, y) && RunPass1(lines, |lines|, obj).Some?
    ensures RunPass1(lines, i, obj).Some?
    ensures var syms := RunPass1(lines, |lines|, obj).value.syms;
      SymbolOf(syms, y).Some? && Val(syms, y) == RunPass1(lines, i, obj).value.org
  {
    hide Pass1Line, SymbolOf, Assigns, IsLabelOf, IsEquOf, LineDirective;
    RunsArePrefixClosed(lines, i + 1, |lines|, [], 0, obj);
    LabelLine(lines[i], RunPass1(lines, i, obj).value, obj, y);
    KeptToTheEnd(lines, i + 1, |lines|, obj, y);
  }

  lemma PassTwoKeeps(toks: Line, syms: Symtab, y: string)
    requires LineSymbols(toks, syms).Some? && !IsEquOf(toks, y) && SymbolOf(syms, y).Some?
    ensures SymbolOf(LineSymbols(toks, syms).value, y).Some? && Val(LineSymbols(toks, syms).value, y) == Val(syms, y)
  {
    hide SymbolOf, SetGlobal, SetValue, Eval, DirectiveOf;
    var (d, args) := LineDirective(toks);
    if args != [] && args[0].Ident? {
      SetGlobalSymbol(syms, args[0].name, y);
    }
    if d.Equ? && EquParts(args).Some? {
      var (name, expr) := EquParts(args).value;
      if Eval(expr, syms, true).Some? {
        SetValueSymbol(syms, name, Eval(expr, syms, true).value.0, y);
      }
    }
  }

  lemma {:induction false} LabelInPassTwo(lines: seq<Line>, k: nat, syms: Symtab, base: Word, obj: bool, y: string)
    requires k <= |lines| && RunPass2(lines, k, syms, base, obj).Some? && SymbolOf(syms, y).Some?
    requires forall j :: 0 <= j < |lines| ==> !IsEquOf(lines[j], y)
    ensures var t := RunPass2(lines, k, syms, base, obj).value.syms;
      SymbolOf(t, y).Some? && Val(t, y) == Val(syms, y)
  {
    hide LineBytes, LineSymbols, SymbolOf, IsEquOf;
    if k == 0 {
    } else {
      LabelInPassTwo(lines, k - 1, syms, base, obj, y);
      PassTwoKeeps(lines[k - 1], RunPass2(lines, k - 1, syms, base, obj).value.syms, y);
    }
  }

  /** `sym`, `sym + n` or `sym - n` is the symbol's value plus the addend. */
  lemma SimpleRefEval(ts: seq<Token>, syms: Symtab)
    requires SimpleRef(ts) && SymbolOf(syms, ts[0].name).Some?
    ensures Eval(ts, syms, true).Some? && Eval(ts, syms, true).value.0 == Val(syms, ts[0].name) + Addend(ts)
  {
    EvalSimpleRef(ts, syms);
  }

  /** Main result, end to end: in an error-free flat assembly whose sizes pass 1 sees, a branch, jump or call
      to `y`, `y + n` or `y - n` transfers to the address line `i` starts at, plus n, when `y` labels line i. */
  lemma TransferReachesLabel(lines: seq<Line>, k: nat, i: nat, y: string)
    requires k < |lines| && AssembleFlat(lines).Some? && LabelAt(lines, i, y)
    requires forall j :: 0 <= j < |lines| ==> SizeSeen(lines[j])
    requires TargetOperand(lines[k]).Some? && SimpleRef(TargetOperand(lines[k]).value)
             && TargetOperand(lines[k]).value[0] == Ident(y)
    ensures var out, at := AssembleFlat(lines).value, AddressOf(lines, k);
      at + 4 <= |out|
      && TransfersTo(Read32(out, at), at, Wrap(AddressOf(lines, i) + Addend(TargetOperand(lines[k]).value)))
  {
    hide TransfersTo, Read32, TargetOperand, Eval, SymbolOf, Assigns, IsLabelOf, SizeSeen, RunPass1, RunPass2, Val,
         IsEquOf, SimpleRef;
    EveryTransferLands(lines, k);
    var syms := RunPass1(lines, |lines|, false).value.syms;
    FinalLabel(lines, i, y, false);
    LabelNotEqu(lines, i, y);
    RunsArePrefixClosed(lines, k, |lines|, syms, 0, false);
    LabelInPassTwo(lines, k, syms, 0, false, y);
    SimpleRefEval(TargetOperand(lines[k]).value, Before(lines, k).syms);
    AddressesMeet(lines, i, syms, 0, false);
  }

  lemma LabelNotEqu(lines: seq<Line>, i: nat, y: string)
    requires LabelAt(lines, i, y)
    ensures forall j :: 0 <= j < |lines| ==> !IsEquOf(lines[j], y)
  {
    hide IsLabelOf, IsEquOf, LineDirective;
  }

  /* ---- MOVI32 ---- */

  /** Executing the words `lo` and `hi` one after the other leaves `v` in `rd`, whatever was there. */
  ghost predicate PairLoads(lo: Word, hi: Word, rd: Cpu.Reg, v: Word) {
    && (forall c: Cpu.Core, pc: Word :: Cpu.Decode(c, pc, lo) == Cpu.Put(rd, v % 0x1_0000, c.flags))
    && (forall c: Cpu.Core, pc: Word ::
          c.r[rd] == v % 0x1_0000 ==> Cpu.Decode(c, pc, hi) == Cpu.Put(rd, v, c.flags))
  }

  lemma PairDecodes(lo: Word, hi: Word, rd: Cpu.Reg, v: Word)
    requires Cpu.Opcode(lo) == 0x0F && Cpu.Rd(lo) == rd && Cpu.Imm16(lo) == v % 0x1_0000
    requires Cpu.Opcode(hi) == 0x13 && Cpu.Rd(hi) == rd && Cpu.Imm16(hi) == v / 0x1_0000
    ensures PairLoads(lo, hi, rd, v)
  {
    hide Cpu.Opcode, Cpu.Rd, Cpu.Imm16;
    DivUnique(v % 0x1_0000, 0x1_0000, 0, v % 0x1_0000);
  }

  /** The state after `s` put `v` into `rd`: PC has moved on; nothing else has changed but the TLB, which the fetch
      may have filled. */
  predicate HasPut(s: Cpu.State, d: Cpu.State, rd: Cpu.Reg, v: Word) {
    var pc: int := s.core.r[15];
    d.core == Cpu.SetReg(Cpu.SetReg(s.core.(faultingPc := s.core.r[15]), 15, Wrap(pc + 4)), rd, v) && d.mem == s.mem
  }

  /** On the machine: fetch and execute the first word, and, from any state with the registers that leaves
      (interrupts may come in between), the second. Each changes its register and PC only. */
  lemma MachineLoads(mode: Cpu.Mode, s: Cpu.State, t: Cpu.State, lo: Word, hi: Word, rd: Cpu.Reg, v: Word)
    requires PairLoads(lo, hi, rd, v) && rd != 15
    requires Cpu.Fetched(mode, s).1 == Some(lo) && Cpu.Fetched(mode, t).1 == Some(hi)
    requires t.core.r == Privilege.AfterInstruction(mode, s).core.r
    ensures Privilege.AfterInstruction(mode, t).core.r == s.core.r[rd := v][15 := Wrap(Wrap(s.core.r[15] + 4) + 4)]
    ensures HasPut(s, Privilege.AfterInstruction(mode, s), rd, v % 0x1_0000)
    ensures HasPut(t, Privilege.AfterInstruction(mode, t), rd, v)
  {
    hide Cpu.Fetched, Cpu.Decode;
    Privilege.FetchOutcome(mode, s);
    Privilege.FetchOutcome(mode, t);
    var s1, t1 := Cpu.Fetched(mode, s).0, Cpu.Fetched(mode, t).0;
    assert Cpu.Decode(s1.core, s.core.r[15], lo) == Cpu.Put(rd, v % 0x1_0000, s1.core.flags);
    assert t1.core.r[rd] == v % 0x1_0000;
    assert Cpu.Decode(t1.core, t.core.r[15], hi) == Cpu.Put(rd, v, t1.core.flags);
  }

  lemma LoadAddressLoads(ts: seq<Token>, syms: Symtab)
    requires LoadAddress(ts, syms, false).Some?
    ensures RegisterComma(ts).Some? && RegisterComma(ts).value.0 < 0x10
        && Eval(RegisterComma(ts).value.1, syms, true).Some?
    ensures exists lo, hi ::
      LoadAddress(ts, syms, false).value.bytes == WordLe(lo) + WordLe(hi)
      && PairLoads(lo, hi, RegisterComma(ts).value.0, Wrap(Eval(RegisterComma(ts).value.1, syms, true).value.0))
  {
    hide Eval, Instr, WordLe, PairLoads, PeekSymbol, RegisterComma, Cpu.Opcode, Cpu.Rd, Cpu.Imm16;
    Disasm.RegisterBound(ts);
    var (rd, t1) := RegisterComma(ts).value;
    var v := Eval(t1, syms, true).value.0;
    Halves(v);
    Disasm.InstrFields(0x0F, rd, 0, v % 0x1_0000);
    Disasm.InstrFields(0x13, rd, 0, v / 0x1_0000 % 0x1_0000);
    var lo, hi := Instr(0x0F, rd, 0, v % 0x1_0000), Instr(0x13, rd, 0, v / 0x1_0000 % 0x1_0000);
    PairDecodes(lo, hi, rd, Wrap(v));
    assert LoadAddress(ts, syms, false).value.bytes == WordLe(lo) + WordLe(hi);
  }

  /** Register and operand of a MOVI32 line. */
  function LongLoad(toks: Line): Option<(Byte, seq<Token>)> {
    var ts := DropLabels(toks);
    if ts == [] || !ts[0].Ident? then None else
    var e :- FindOpcode(ts[0].name);
    if e.fmt.Movi32? then RegisterComma(ts[1..]) else None
  }

  lemma LongLoadLine(toks: Line, syms: Symtab, org: Word)
    requires LongLoad(toks).Some? && LineBytes(toks, syms, org, false).Some?
    ensures var (rd, ts) := LongLoad(toks).value;
      && rd < 0x10 && Eval(ts, syms, true).Some?
      && exists lo, hi :: LineBytes(toks, syms, org, false).value.bytes == WordLe(lo) + WordLe(hi)
                          && PairLoads(lo, hi, rd, Wrap(Eval(ts, syms, true).value.0))
  {
    hide Eval, LoadAddress, FindOpcode, WordLe, PairLoads, RegisterComma;
    LoadAddressLoads(DropLabels(toks)[1..], syms);
  }

  lemma ImageWords(out: seq<Byte>, at: nat, lo: Word, hi: Word)
    requires at + 8 <= |out| && out[at..at + 8] == WordLe(lo) + WordLe(hi)
    ensures Read32(out, at) == lo && Read32(out, at + 4) == hi
  {
    hide WordLe, Read32;
    assert out[at..at + 4] == out[at..at + 8][..4] && out[at + 4..at + 4 + 4] == out[at..at + 8][4..];
    ImageWord(out, at, lo);
    ImageWord(out, at + 4, hi);
  }

  /** Every MOVI32 of an error-free flat assembly leaves the 32-bit value of its operand in its register. */
  lemma EveryLongLoadLoads(lines: seq<Line>, k: nat)
    requires k < |lines| && AssembleFlat(lines).Some? && LongLoad(lines[k]).Some?
    ensures var out, at := AssembleFlat(lines).value, AddressOf(lines, k);
      var (rd, ts) := LongLoad(lines[k]).value;
      var v := Eval(ts, Before(lines, k).syms, true);
      at + 8 <= |out| && rd < 0x10 && v.Some? && PairLoads(Read32(out, at), Read32(out, at + 4), rd, Wrap(v.value.0))
  {
    hide LineBytes, LineSymbols, RunPass1, RunPass2, Eval, WordLe, PairLoads, Read32, LongLoad;
    var syms := RunPass1(lines, |lines|, false).value.syms;
    var p, at := Before(lines, k), AddressOf(lines, k);
    LineBytesInImage(lines, k, |lines|, syms, 0, false);
    AddressBound(lines, k);
    WrapSmall(at);
    LongLoadLine(lines[k], p.syms, at);
    var (rd, ts) := LongLoad(lines[k]).value;
    var v := Eval(ts, p.syms, true).value.0;
    var lo, hi :| LineBytes(lines[k], p.syms, at, false).value.bytes == WordLe(lo) + WordLe(hi)
        && PairLoads(lo, hi, rd, Wrap(v));
    ImageWords(AssembleFlat(lines).value, at, lo, hi);
  }

  /** ... which for a label reference is the address its line starts at, plus the addend. */
  lemma LongLoadGetsLabel(lines: seq<Line>, k: nat, i: nat, y: string)
    requires k < |lines| && AssembleFlat(lines).Some? && LabelAt(lines, i, y)
    requires forall j :: 0 <= j < |lines| ==> SizeSeen(lines[j])
    requires LongLoad(lines[k]).Some? && SimpleRef(LongLoad(lines[k]).value.1)
        && LongLoad(lines[k]).value.1[0] == Ident(y)
    ensures var out, at := AssembleFlat(lines).value, AddressOf(lines, k);
      var (rd, ts) := LongLoad(lines[k]).value;
      at + 8 <= |out| && rd < 0x10
      && PairLoads(Read32(out, at), Read32(out, at + 4), rd, Wrap(AddressOf(lines, i) + Addend(ts)))
  {
    hide PairLoads, Read32, LongLoad, Eval, SymbolOf, Assigns, IsLabelOf, SizeSeen, RunPass1, RunPass2, Val, IsEquOf,
         SimpleRef;
    EveryLongLoadLoads(lines, k);
    var syms := RunPass1(lines, |lines|, false).value.syms;
    FinalLabel(lines, i, y, false);
    LabelNotEqu(lines, i, y);
    RunsArePrefixClosed(lines, k, |lines|, syms, 0, false);
    LabelInPassTwo(lines, k, syms, 0, false, y);
    SimpleRefEval(LongLoad(lines[k]).value.1, Before(lines, k).syms);
    AddressesMeet(lines, i, syms, 0, false);
  }

  /* ---- Linked images ---- */

  predicate IsTransfer(kind: Byte, w: Word) {
    (kind == BRANCH20 && Cpu.Opcode(w) == 0x0D && Cpu.Rd(w) <= 10) || (kind == JUMP20 && Cpu.Opcode(w) == 0x0E)
  }

  lemma HighKept(w: Word, low: nat, p: nat)
    requires (p == 0x1_0000 || p == 0x10_0000) && low < p
    ensures var x := w / p * p + low;
      && x < 0x1_0000_0000 && Cpu.Opcode(x) == Cpu.Opcode(w) && Cpu.Rd(x) == Cpu.Rd(w)
      && x % p == low && (p == 0x1_0000 ==> Cpu.Rs1(x) == Cpu.Rs1(w))
  {
    var q := w / p;
    var x := q * p + low;
    DivUnique(x, p, q, low);
    if p == 0x10_0000 {
      HighParts(w);
      HighParts(x);
    } else {
      HighParts(w);
      HighParts(x);
      assert x / 0x1_0000 == w / 0x1_0000;
      HighParts16(w);
      HighParts16(x);
    }
  }

  lemma HighParts(w: Word)
    ensures Cpu.Opcode(w) == w / 0x10_0000 / 0x10
  {
    DivUnique(w, 0x100_0000, w / 0x10_0000 / 0x10, w / 0x10_0000 % 0x10 * 0x10_0000 + w % 0x10_0000);
  }

  lemma HighParts16(w: Word)
    ensures w / 0x10_0000 == w / 0x1_0000 / 0x10
  {
    DivUnique(w, 0x10_0000, w / 0x1_0000 / 0x10, w / 0x1_0000 % 0x10 * 0x1_0000 + w % 0x1_0000);
  }

  /** A branch, jump or call word patched by its relocation transfers to the relocation's target. */
  lemma PatchedTransferLands(s: Site, w: Word)
    requires IsTransfer(s.kind, w) && DeltaFits(s)
    ensures IsTransfer(s.kind, PatchWord(s, w)) && TransfersTo(PatchWord(s, w), s.addr, s.target)
  {
    hide Cpu.Opcode, Cpu.Rd, Cpu.Soff, TransfersTo;
    var d := s.target - s.addr;
    HighKept(w, d % 0x10_0000, 0x10_0000);
    OffsetField(PatchWord(s, w), d);
    DivUnique(s.target, 0x1_0000_0000, 0, s.target);
    assert s.addr + d == s.target;
    TransferDecodes(PatchWord(s, w), s.addr, s.target);
  }

  /** A MOVI32 pair patched by its two relocations loads their common target. */
  lemma PatchedPairLoads(s: Site, t: Site, lo: Word, hi: Word)
    requires s.kind == MOVI32_LO && t.kind == MOVI32_HI && s.target == t.target
    requires Cpu.Opcode(lo) == 0x0F && Cpu.Opcode(hi) == 0x13 && Cpu.Rd(lo) == Cpu.Rd(hi)
    ensures PairLoads(PatchWord(s, lo), PatchWord(t, hi), Cpu.Rd(lo), s.target)
  {
    hide Cpu.Opcode, Cpu.Rd, PairLoads;
    HighKept(lo, s.target % 0x1_0000, 0x1_0000);
    HighKept(hi, t.target / 0x1_0000, 0x1_0000);
    PairDecodes(PatchWord(s, lo), PatchWord(t, hi), Cpu.Rd(lo), s.target);
  }

  /** The pieces a successful link is made of. */
  predicate Linked(objs: Objs, textBase: Word, bases: seq<Word>, sites: seq<Site>, data: Data) {
    && AllValid(objs)
    && bases == AssignAddresses(Sections(objs, |objs|), textBase)
    && Globals(objs, bases, |objs|).Some?
    && Sites(objs, bases, Globals(objs, bases, |objs|).value, |objs|) == Some(sites)
    && ApplySites(sites, SectionData(objs)) == Some(data)
  }

  lemma LinkPieces(objs: Objs, textBase: Word)
    requires AllValid(objs) && Link(objs, textBase).Some?
    ensures exists bases, sites, data :: Linked(objs, textBase, bases, sites, data)
  {
    hide AssignAddresses, Globals, Sites, ApplySites, Image;
    var bases := AssignAddresses(Sections(objs, |objs|), textBase);
    var gs := Globals(objs, bases, |objs|).value;
    var sites := Sites(objs, bases, gs, |objs|).value;
    assert Linked(objs, textBase, bases, sites, ApplySites(sites, SectionData(objs)).value);
  }

  lemma SameWord(x: seq<Byte>, a: nat, y: seq<Byte>, o: nat)
    requires a + 4 <= |x| && o + 4 <= |y| && forall k :: a <= k < a + 4 ==> x[k] == y[k - a + o]
    ensures Read32(x, a) == Read32(y, o)
  {
  }

  /** A word of a section is found in the image at the section's base plus its offset. */
  lemma WordInImage(bases: seq<Word>, data: Data, sec: nat, offset: nat)
    requires |bases| == |data| && DisjointSections(bases, data) && sec < |data| && offset + 4 <= |data[sec]|
    ensures bases[sec] + offset + 4 <= |Image(bases, data, |data|)|
    ensures Read32(Image(bases, data, |data|), bases[sec] + offset) == Read32(data[sec], offset)
  {
    hide DisjointSections, Image, Read32;
    var image, at := Image(bases, data, |data|), bases[sec] + offset;
    EndBounds(bases, data, sec, |data|);
    forall a | at <= a < at + 4 ensures image[a] == data[sec][a - at + offset] {
      ImageHoldsSections(bases, data, |data|, a);
      assert Within(bases, data, sec, a);
    }
    SameWord(image, at, data[sec], offset);
  }

  /** A patched word is found in the image at its address. */
  lemma PatchedInImage(objs: Objs, textBase: Word, bases: seq<Word>, sites: seq<Site>, data: Data, s: Site)
    requires Linked(objs, textBase, bases, sites, data) && s in sites && AllApart(sites)
    requires |bases| == |data| && DisjointSections(bases, data) && s.sec < |bases| && s.addr == bases[s.sec] + s.offset
    ensures SiteOk(s, SectionData(objs))
    ensures var image := Link(objs, textBase);
      image.Some? && s.addr + 4 <= |image.value|
      && Read32(image.value, s.addr) == PatchWord(s, Read32(SectionData(objs)[s.sec], s.offset))
  {
    hide AssignAddresses, Globals, Sites, PatchWord, DisjointSections, ApplySites, AllApart, Image, Read32;
    var d := SectionData(objs);
    RelocationSucceedsIff(sites, d);
    ApplySitesPatches(sites, d);
    assert SiteDone(s, d, data);
    WordInImage(bases, data, s.sec, s.offset);
  }

  /** Main result for linked images: with relocation sites apart and sections disjoint, every word with a
      BRANCH20 or JUMP20 relocation transfers to what the relocation asks for. */
  lemma LinkedTransferLands(objs: Objs, textBase: Word, bases: seq<Word>, sites: seq<Site>, data: Data, s: Site)
    requires Linked(objs, textBase, bases, sites, data) && s in sites && AllApart(sites)
    requires |bases| == |data| && DisjointSections(bases, data) && s.sec < |bases| && s.addr == bases[s.sec] + s.offset
    requires IsTransfer(s.kind, Read32(SectionData(objs)[s.sec], s.offset))
    ensures var image := Link(objs, textBase);
      image.Some? && s.addr + 4 <= |image.value| && TransfersTo(Read32(image.value, s.addr), s.addr, s.target)
  {
    hide Linked, TransfersTo, PatchWord, Read32, IsTransfer, DisjointSections;
    PatchedInImage(objs, textBase, bases, sites, data, s);
    PatchedTransferLands(s, Read32(SectionData(objs)[s.sec], s.offset));
  }

  lemma {:induction false} ObjSitesHold(o: ObjFile, bases: seq<Word>, start: nat, gs: seq<GlobalSym>, k: nat, j: nat)
    requires j < k <= |o.rels| && ValidIndices(o) && start + |o.secs| <= |bases|
        && ObjSites(o, bases, start, gs, k).Some?
    ensures SiteOf(o, bases, start, gs, o.rels[j]).Some?
    ensures SiteOf(o, bases, start, gs, o.rels[j]).value in ObjSites(o, bases, start, gs, k).value
  {
    hide SiteOf;
    if j >= k - 1 {
    } else {
      ObjSitesHold(o, bases, start, gs, k - 1, j);
    }
  }

  /** The relocation's own site is among the sites of the link. */
  lemma {:induction false} SitesHold(objs: Objs, bases: seq<Word>, gs: seq<GlobalSym>, n: nat, m: nat, j: nat)
    requires m < n <= |objs| && AllValid(objs) && |Sections(objs, n)| <= |bases|
    requires Sites(objs, bases, gs, n).Some? && j < |objs[m].rels|
    ensures |Sections(objs, m)| + |objs[m].secs| <= |Sections(objs, n)|
    ensures var s := SiteOf(objs[m], bases, |Sections(objs, m)|, gs, objs[m].rels[j]);
      s.Some? && s.value in Sites(objs, bases, gs, n).value
  {
    hide SiteOf, ObjSites, ValidIndices;
    SectionsGrow(objs, m + 1, n);
    if m < n - 1 {
      SitesHold(objs, bases, gs, n - 1, m, j);
    } else {
      ObjSitesHold(objs[m], bases, |Sections(objs, m)|, gs, |objs[m].rels|, j);
    }
  }

  /** Relocation `j` of object `m` refers to symbol `i` of object `d`: its own symbol, or an external one that
      `d` exports under that name. */
  predicate RefersTo(objs: Objs, m: nat, j: nat, d: nat, i: nat) {
    && m < |objs| && d < |objs| && AllValid(objs) && j < |objs[m].rels| && i < |objs[d].syms|
    && objs[d].syms[i].secIdx != SEC_UNDEF
    && (|| (m == d && objs[m].rels[j].symIdx == i)
        || (&& objs[m].syms[objs[m].rels[j].symIdx].secIdx == SEC_UNDEF
            && objs[m].syms[objs[m].rels[j].symIdx].name == objs[d].syms[i].name && Exports(objs[d], i)))
  }

  /** What a relocation asks for: the final address of its symbol plus the addend. */
  lemma SiteTarget(objs: Objs, bases: seq<Word>, m: nat, j: nat, d: nat, i: nat)
    requires RefersTo(objs, m, j, d, i) && |Sections(objs, |objs|)| <= |bases| && Globals(objs, bases, |objs|).Some?
    requires |Sections(objs, m)| + |objs[m].secs| <= |bases| && |Sections(objs, d)| + |objs[d].secs| <= |bases|
    requires SiteOf(objs[m], bases, |Sections(objs, m)|, Globals(objs, bases, |objs|).value, objs[m].rels[j]).Some?
    ensures var r, sym := objs[m].rels[j], objs[d].syms[i];
      var s := SiteOf(objs[m], bases, |Sections(objs, m)|, Globals(objs, bases, |objs|).value, r).value;
      s.target == Wrap(Wrap(bases[|Sections(objs, d)| + sym.secIdx] + sym.value) + r.addend)
  {
    hide Globals, FindGlobal, Sections;
    if objs[m].syms[objs[m].rels[j].symIdx].secIdx == SEC_UNDEF {
      GlobalsFound(objs, bases, |objs|, d, i);
    }
  }

  /** The site of a relocation: where it is, and the final address of its symbol plus the addend. */
  lemma SiteMeans(objs: Objs, textBase: Word, bases: seq<Word>, sites: seq<Site>, data: Data, m: nat, j: nat, d: nat,
      i: nat)
    returns (s: Site)
    requires Linked(objs, textBase, bases, sites, data) && RefersTo(objs, m, j, d, i)
    ensures s in sites && |Sections(objs, m)| + objs[m].rels[j].secIdx < |bases|
    ensures |Sections(objs, d)| + objs[d].syms[i].secIdx < |bases|
    ensures var r, sym := objs[m].rels[j], objs[d].syms[i];
      && s.sec == |Sections(objs, m)| + r.secIdx && s.offset == r.offset && s.kind == r.kind
      && s.addr == Wrap(bases[s.sec] + r.offset)
      && s.target == Wrap(Wrap(bases[|Sections(objs, d)| + sym.secIdx] + sym.value) + r.addend)
  {
    hide AssignAddresses, ApplySites, Globals, Sites, FindGlobal, Sections;
    var gs := Globals(objs, bases, |objs|).value;
    SitesHold(objs, bases, gs, |objs|, m, j);
    SectionsGrow(objs, d + 1, |objs|);
    SectionsUpTo(objs, d);
    SiteTarget(objs, bases, m, j, d, i);
    s := SiteOf(objs[m], bases, |Sections(objs, m)|, gs, objs[m].rels[j]).value;
  }

  /** The base of section `sec` of object `m`, and the final address of its symbol `i`. */
  function BaseOf(objs: Objs, bases: seq<Word>, m: nat, sec: nat): Word
    requires m < |objs| && |Sections(objs, m)| + sec < |bases|
  {
    bases[|Sections(objs, m)| + sec]
  }

  function FinalAddress(objs: Objs, bases: seq<Word>, d: nat, i: nat): Word
    requires d < |objs| && i < |objs[d].syms| && |Sections(objs, d)| + objs[d].syms[i].secIdx < |bases|
  {
    Wrap(BaseOf(objs, bases, d, objs[d].syms[i].secIdx) + objs[d].syms[i].value)
  }

  /** The section and the word a relocation is about. */
  predicate HasPlace(objs: Objs, bases: seq<Word>, m: nat, r: Rel) {
    && m < |objs| && |Sections(objs, m)| + r.secIdx < |bases| && |Sections(objs, m)| + r.secIdx < |SectionData(objs)|
    && BaseOf(objs, bases, m, r.secIdx) + r.offset < 0x1_0000_0000
  }

  function PlaceOf(objs: Objs, bases: seq<Word>, m: nat, r: Rel): Word
    requires HasPlace(objs, bases, m, r)
  {
    BaseOf(objs, bases, m, r.secIdx) + r.offset
  }

  function WordAt(objs: Objs, bases: seq<Word>, m: nat, r: Rel): Word
    requires HasPlace(objs, bases, m, r)
  {
    Read32(SectionData(objs)[|Sections(objs, m)| + r.secIdx], r.offset)
  }

  /** Main result, across object files: in the linked image a branch, jump or call relocated against a symbol
      of any of the objects transfers to the final address of that symbol plus the addend. */
  lemma LinkedTransferReachesSymbol(objs: Objs, textBase: Word, bases: seq<Word>, sites: seq<Site>, data: Data,
                                    m: nat, j: nat, d: nat, i: nat)
    requires Linked(objs, textBase, bases, sites, data) && RefersTo(objs, m, j, d, i) && AllApart(sites)
    requires |bases| == |data| && DisjointSections(bases, data)
    requires HasPlace(objs, bases, m, objs[m].rels[j])
             && IsTransfer(objs[m].rels[j].kind, WordAt(objs, bases, m, objs[m].rels[j]))
    ensures |Sections(objs, d)| + objs[d].syms[i].secIdx < |bases|
    ensures var at := PlaceOf(objs, bases, m, objs[m].rels[j]);
      var target := Wrap(FinalAddress(objs, bases, d, i) + objs[m].rels[j].addend);
      var image := Link(objs, textBase);
      image.Some? && at + 4 <= |image.value| && TransfersTo(Read32(image.value, at), at, target)
  {
    hide Linked, RefersTo, TransfersTo, Read32, IsTransfer, DisjointSections, AssignAddresses, AllApart, Sections;
    var s := SiteMeans(objs, textBase, bases, sites, data, m, j, d, i);
    WrapSmall(bases[s.sec] + s.offset);
    LinkedTransferLands(objs, textBase, bases, sites, data, s);
  }

  /** The same for a MOVI32 pair and its two relocations: executed from the image, it loads their target. */
  lemma LinkedPairLoads(objs: Objs, textBase: Word, bases: seq<Word>, sites: seq<Site>, data: Data, s: Site, t: Site)
    requires Linked(objs, textBase, bases, sites, data) && s in sites && t in sites && AllApart(sites)
    requires |bases| == |data| && DisjointSections(bases, data)
    requires s.sec == t.sec < |bases| && s.addr == bases[s.sec] + s.offset && t.addr == bases[t.sec] + t.offset
    requires s.kind == MOVI32_LO && t.kind == MOVI32_HI && s.target == t.target
    requires var lo, hi := Read32(SectionData(objs)[s.sec], s.offset), Read32(SectionData(objs)[t.sec], t.offset);
      Cpu.Opcode(lo) == 0x0F && Cpu.Opcode(hi) == 0x13 && Cpu.Rd(lo) == Cpu.Rd(hi)
    ensures var image := Link(objs, textBase);
      image.Some? && s.addr + 4 <= |image.value| && t.addr + 4 <= |image.value|
      && PairLoads(Read32(image.value, s.addr), Read32(image.value, t.addr),
                   Cpu.Rd(Read32(SectionData(objs)[s.sec], s.offset)), s.target)
  {
    hide Linked, PairLoads, PatchWord, Read32, DisjointSections;
    PatchedInImage(objs, textBase, bases, sites, data, s);
    PatchedInImage(objs, textBase, bases, sites, data, t);
    PatchedPairLoads(s, t, Read32(SectionData(objs)[s.sec], s.offset), Read32(SectionData(objs)[t.sec], t.offset));
  }

  /** ... and across object files: a MOVI32 pair whose two relocations refer to a symbol of any of the objects, with
      one addend, loads the final address of that symbol plus the addend. */
  lemma LinkedPairLoadsSymbol(objs: Objs, textBase: Word, bases: seq<Word>, sites: seq<Site>, data: Data,
                              m: nat, j: nat, j': nat, d: nat, i: nat)
    requires Linked(objs, textBase, bases, sites, data) && AllApart(sites)
    requires RefersTo(objs, m, j, d, i) && RefersTo(objs, m, j', d, i)
    requires |bases| == |data| && DisjointSections(bases, data)
    requires var r, r' := objs[m].rels[j], objs[m].rels[j'];
      && r.kind == MOVI32_LO && r'.kind == MOVI32_HI && r'.secIdx == r.secIdx && r'.addend == r.addend
      && HasPlace(objs, bases, m, r) && HasPlace(objs, bases, m, r')
      && Cpu.Opcode(WordAt(objs, bases, m, r)) == 0x0F && Cpu.Opcode(WordAt(objs, bases, m, r')) == 0x13
      && Cpu.Rd(WordAt(objs, bases, m, r)) == Cpu.Rd(WordAt(objs, bases, m, r'))
    ensures |Sections(objs, d)| + objs[d].syms[i].secIdx < |bases|
    ensures var r, r' := objs[m].rels[j], objs[m].rels[j'];
      var at, at' := PlaceOf(objs, bases, m, r), PlaceOf(objs, bases, m, r');
      var target := Wrap(FinalAddress(objs, bases, d, i) + r.addend);
      var image := Link(objs, textBase);
      image.Some? && at + 4 <= |image.value| && at' + 4 <= |image.value|
      && PairLoads(Read32(image.value, at), Read32(image.value, at'), Cpu.Rd(WordAt(objs, bases, m, r)), target)
  {
    hide Linked, RefersTo, PairLoads, Read32, DisjointSections, AssignAddresses, AllApart, Sections, Cpu.Opcode, Cpu.Rd;
    var s := SiteMeans(objs, textBase, bases, sites, data, m, j, d, i);
    var t := SiteMeans(objs, textBase, bases, sites, data, m, j', d, i);
    WrapSmall(bases[s.sec] + s.offset);
    WrapSmall(bases[t.sec] + t.offset);
    LinkedPairLoads(objs, textBase, bases, sites, data, s, t);
  }
}
