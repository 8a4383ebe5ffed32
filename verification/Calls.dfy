/** Branches, jumps, calls and returns by their mnemonics: where the machine goes, under which condition, and which
    register keeps the return address; and the stack instructions PUSH and POP. */
module Calls {
  import opened Words
  import opened Memory
  import opened Mmu
  import opened OpTable
  import opened Lexer
  import opened Assembler
  import opened Passes
  import opened Cpu
  import opened Arithmetic
  import opened Privilege
  import opened Instructions
  import opened Accesses
  import Disasm
  import Landing
  import Moving

  /* ---- Conditions ---- */

  /** The condition of a branch on the flags word: N is bit 31, Z bit 30, C bit 29, V bit 28. */
  function Condition(m: string, f: Word): Option<bool> {
    var n, z := f / 0x8000_0000 == 1, f / 0x4000_0000 % 2 == 1;
    var c, v := f / 0x2000_0000 % 2 == 1, f / 0x1000_0000 % 2 == 1;
    match m
    case "BA" => Some(true)
    case "BEQ" => Some(z)
    case "BNE" => Some(!z)
    case "BLT" => Some(n != v)
    case "BGE" => Some(n == v)
    case "BGT" => Some(!z && n == v)
    case "BLE" => Some(z || n != v)
    case "BLTU" => Some(c)
    case "BGEU" => Some(!c)
    case "BGTU" => Some(!c && !z)
    case "BLEU" => Some(c || z)
    case _ => None
  }

  predicate IsBranch(m: string) {
    Condition(m, 0).Some?
  }

  /** What a branch is named after: the relation of the two operands of the comparison before it. */
  predicate Relation(m: string, a: Word, b: Word) {
    match m
    case "BA" => true
    case "BEQ" => a == b
    case "BNE" => a != b
    case "BLT" => Signed(a) < Signed(b)
    case "BGE" => Signed(a) >= Signed(b)
    case "BGT" => Signed(a) > Signed(b)
    case "BLE" => Signed(a) <= Signed(b)
    case "BLTU" => a < b
    case "BGEU" => a >= b
    case "BGTU" => a > b
    case _ => a <= b
  }

  /** The flags of `a - b`. */
  lemma ComparedFlags(a: Word, b: Word, f: Word, v: Word, g: Word)
    requires Computes(Sub, a, b, f, v, g)
    ensures g / 0x4000_0000 % 2 == 1 <==> a == b
    ensures g / 0x2000_0000 % 2 == 1 <==> a < b
    ensures (g / 0x8000_0000 == 1) != (g / 0x1000_0000 % 2 == 1) <==> Signed(a) < Signed(b)
  {
    var d := a - b;
    if d >= 0 {
      DivUnique(d, 0x1_0000_0000, 0, d);
    } else {
      assert d % 0x1_0000_0000 == d + 0x1_0000_0000;
    }
  }

  /** After CMP or CMPI of `a` with `b` (see `CompareInstruction`) every branch decides the relation in its name. */
  lemma ConditionDecides(m: string, a: Word, b: Word, f: Word, v: Word, g: Word)
    requires Computes(Sub, a, b, f, v, g) && IsBranch(m)
    ensures Condition(m, g) == Some(Relation(m, a, b))
  {
    hide Computes, Signed;
    ComparedFlags(a, b, f, v, g);
    SignedOrder(a, b);
  }

  lemma SignedOrder(a: Word, b: Word)
    ensures Signed(a) == Signed(b) <==> a == b
  {
  }

  /* ---- Where the machine goes ---- */

  /** Only PC has changed, to `target`. */
  predicate Goes(s: State, u: State, target: Word) {
    u.mem == s.mem && u.core == s.core.(faultingPc := s.core.r[15], r := s.core.r[15 := target])
  }

  /** PC has changed to `target`, and `rd` to the address of the next instruction; nothing else has. */
  predicate Links(s: State, u: State, rd: Reg, target: Word) {
    u.mem == s.mem
    && u.core == s.core.(faultingPc := s.core.r[15], r := s.core.r[rd := Next(s)][15 := target])
  }

  /** Executed at `at`, the word `w` does what the mnemonic `m` says, with target `target` and link register `rd`. */
  ghost predicate Transfers(m: string, rd: Reg, w: Word, at: Word, target: Word) {
    forall mode: Mode, s: State :: Fetched(mode, s).1 == Some(w) && s.core.r[15] == at ==>
      if IsBranch(m) then
        Goes(s, AfterInstruction(mode, s), if Condition(m, s.core.flags) == Some(true) then target else Next(s))
      else Links(s, AfterInstruction(mode, s), rd, target)
  }

  /** The condition codes of the branches. */
  function ConditionCode(m: string): Byte {
    match m
    case "BEQ" => 0 case "BNE" => 1 case "BLT" => 2 case "BGE" => 3 case "BLTU" => 4 case "BGEU" => 5
    case "BA" => 6 case "BGT" => 7 case "BLE" => 8 case "BGTU" => 9 case _ => 10
  }

  lemma BranchRow(m: string)
    requires IsBranch(m)
    ensures Row(m) == Some(OpEntry(0x0D, Branch, ConditionCode(m)))
  {
  }

  lemma BranchTaken(m: string, f: Word)
    requires IsBranch(m)
    ensures ConditionCode(m) <= 10 && Condition(m, f) == Some(Taken(ConditionCode(m), f))
  {
  }

  lemma TransferRows()
    ensures Row("JMP") == Some(OpEntry(0x0E, Jump, 0)) && Row("CALL") == Some(OpEntry(0x0E, Call, 0))
    ensures !IsBranch("JMP") && !IsBranch("CALL")
  {
  }

  /** The fields that make a word the transfer `m`. */
  predicate TransferWord(m: string, rd: Reg, w: Word) {
    if IsBranch(m) then Opcode(w) == 0x0D && Rd(w) == ConditionCode(m) else Opcode(w) == 0x0E && Rd(w) == rd
  }

  lemma WordTransfers(m: string, rd: Reg, w: Word, at: Word, target: Word)
    requires TransferWord(m, rd, w) && Wrap(at + Soff(w)) == target
    ensures Transfers(m, rd, w, at, target)
  {
    hide Fetched, Soff, Opcode, Rd, Condition, ConditionCode, Executed, AfterInstruction, Taken;
    forall mode: Mode, s: State | Fetched(mode, s).1 == Some(w) && s.core.r[15] == at
      ensures
        if IsBranch(m) then
          Goes(s, AfterInstruction(mode, s), if Condition(m, s.core.flags) == Some(true) then target else Next(s))
        else Links(s, AfterInstruction(mode, s), rd, target)
    {
      FetchedReads(mode, s, w);
      TransferDecodes(Executed(mode, s).0.core, at, w);
      if IsBranch(m) {
        BranchTaken(m, s.core.flags);
      }
    }
  }

  lemma TransferDecodes(c: Core, pc: Word, w: Word)
    ensures Opcode(w) == 0x0D && Rd(w) <= 10 ==>
      Decode(c, pc, w) == if Taken(Rd(w), c.flags) then Goto(Wrap(pc + Soff(w))) else Fall
    ensures Opcode(w) == 0x0E ==> Decode(c, pc, w) == Link(Rd(w), Wrap(pc + Soff(w)))
  {
    hide Rd, Rs1, Rs2, Soff, Taken;
  }

  /* ---- Branches, JMP and CALL ---- */

  /** The line transfers to the expression `ts`: `Bcc ts`, `JMP rd, ts`, or `CALL ts`, whose register is lr. */
  predicate TransferTo(toks: Line, m: string, rd: Reg, ts: seq<Token>) {
    var us := DropLabels(toks);
    if IsBranch(UpperCase(m)) || (UpperCase(m) == "CALL" && rd == 14) then us == [Ident(m)] + ts
    else UpperCase(m) == "JMP" && |us| == |ts| + 3 && us == [Ident(m), us[1], Comma] + ts && Names(us[1], rd)
  }

  /** The operand needs the linker: an external symbol in object mode. */
  predicate External(ts: seq<Token>, syms: Symtab, obj: bool) {
    obj && PeekSymbol(ts, syms).Some? && syms[PeekSymbol(ts, syms).value.0].extern
  }

  function TransferCode(m: string, rd: Reg): (Byte, Byte, Byte) {
    if IsBranch(m) then (0x0D, ConditionCode(m), BRANCH20) else (0x0E, rd, JUMP20)
  }

  lemma TransferEncodes(toks: Line, syms: Symtab, at: Word, obj: bool, m: string, rd: Reg, ts: seq<Token>)
    requires TransferTo(toks, m, rd, ts)
    ensures var (op, r, kind) := TransferCode(UpperCase(m), rd);
      LineBytes(toks, syms, at, obj) == Relative(op, r, kind, ts, syms, at, obj)
  {
    hide Relative, Row, UpperCase, Condition, ConditionCode, Names, RegisterComma, LineBytes, LoadAddress;
    TransferRows();
    var name, us := UpperCase(m), DropLabels(toks);
    assert us[0] == Ident(m);
    if IsBranch(name) {
      BranchRow(name);
      MnemonicLine(toks, syms, at, obj, m, OpEntry(0x0D, Branch, ConditionCode(name)));
      assert us[1..] == ts;
    } else if name == "CALL" {
      MnemonicLine(toks, syms, at, obj, m, OpEntry(0x0E, Call, 0));
      assert us[1..] == ts;
    } else {
      MnemonicLine(toks, syms, at, obj, m, OpEntry(0x0E, Jump, 0));
      Takes(us[1..], rd);
      assert us[1..][2..] == ts;
    }
  }

  lemma TransferCodes(m: string, rd: Reg)
    ensures TransferCode(m, rd).1 < 0x10
    ensures forall w :: Opcode(w) == TransferCode(m, rd).0 && Rd(w) == TransferCode(m, rd).1 ==> TransferWord(m, rd, w)
  {
    hide Opcode, Rd, Condition;
  }

  /** Main result for branches, JMP and CALL to a value `v`: the line assembles exactly when `v` is at most 512 KB
      away, and its word, executed where it was assembled for, goes there as the mnemonic says; CALL links through
      r14. */
  lemma TransferInstruction(toks: Line, syms: Symtab, at: Word, obj: bool, m: string, rd: Reg, ts: seq<Token>, w: Word)
    requires TransferTo(toks, m, rd, ts) && Eval(ts, syms, true).Some? && !External(ts, syms, obj)
    ensures var v := Eval(ts, syms, true).value.0;
      if -524288 <= v - at <= 524287 then Assembles(toks, syms, at, obj) else LineBytes(toks, syms, at, obj) == None
    ensures Emits(toks, syms, at, obj, w) ==>
      Transfers(UpperCase(m), rd, w, at, Wrap(Eval(ts, syms, true).value.0))
  {
    hide TransferTo, TransferCode, LineBytes, Eval, Instr, WordLe, UpperCase, Transfers, TransferWord, PeekSymbol,
         Opcode, Rd, Soff;
    TransferEncodes(toks, syms, at, obj, m, rd, ts);
    var (op, r, kind) := TransferCode(UpperCase(m), rd);
    var v := Eval(ts, syms, true).value.0;
    TransferCodes(UpperCase(m), rd);
    if -524288 <= v - at <= 524287 {
      var x := Instr(op, r, 0, (v - at) % 0x10_0000);
      assert Emits(toks, syms, at, obj, x);
      Landing.TransferFields(op, r, v - at);
      assert at + (v - at) == v;
      WordTransfers(UpperCase(m), rd, x, at, Wrap(v));
      if Emits(toks, syms, at, obj, w) {
        EmitsOne(toks, syms, at, obj, x, w);
      }
    }
  }

  /* ---- CALLR, BR and RET ---- */

  /** CALLR rd, rs1 goes to rs1 and links through rd. */
  lemma CallRegister(toks: Line, syms: Symtab, at: Word, obj: bool, m: string, x: Token, y: Token, rd: Reg, rs1: Reg,
                     mode: Mode, s: State, w: Word)
    requires UpperCase(m) == "CALLR" && Starts(toks, [Ident(m), x, Comma, y]) && Names(x, rd) && Names(y, rs1)
    ensures Assembles(toks, syms, at, obj)
    ensures Emits(toks, syms, at, obj, w) && Fetched(mode, s).1 == Some(w) ==>
      Links(s, AfterInstruction(mode, s), rd, Reads(s, rs1))
  {
    hide UpperCase, Instr, LineBytes, Fetched, Opcode, Rd, Rs1, Rs2, Executed, AfterInstruction, WordLe, Names, Row,
         Decode, Reads;
    CopyRows();
    TwoRegisterWord(toks, syms, at, obj, m, x, y, rd, rs1, 0x2A);
    if Emits(toks, syms, at, obj, w) && Fetched(mode, s).1 == Some(w) {
      EmitsOne(toks, syms, at, obj, Instr(0x2A, rd, rs1, 0), w);
      FieldsOf(0x2A, rd, rs1, 0);
      FetchedReads(mode, s, w);
      CopyDecodes(Executed(mode, s).0.core, s.core.r[15], w);
    }
  }

  lemma ReturnRows()
    ensures Row("RET") == Some(OpEntry(0x27, Ret, 0)) && Row("BR") == Some(OpEntry(0x27, Br, 0))
    ensures Row("PUSH") == Some(OpEntry(0x00, Push, 0)) && Row("POP") == Some(OpEntry(0x00, Pop, 0))
  {
  }

  lemma MoveToPc(mode: Mode, s: State, r: Reg)
    requires Fetched(mode, s).1 == Some(Instr(0x27, 15, r, 0))
    ensures Goes(s, AfterInstruction(mode, s), Reads(s, r))
  {
    hide Instr, Fetched, Opcode, Rd, Rs1, Executed, Decode, Reads, AfterInstruction;
    var w := Instr(0x27, 15, r, 0);
    FieldsOf(0x27, 15, r, 0);
    FetchedReads(mode, s, w);
    CopyDecodes(Executed(mode, s).0.core, s.core.r[15], w);
    PutsIt(mode, s, w, 15, Reads(s, r), s.core.flags);
  }

  /** BR r goes to r. */
  lemma BranchRegister(toks: Line, syms: Symtab, at: Word, obj: bool, m: string, x: Token, r: Reg, mode: Mode, s: State,
                       w: Word)
    requires UpperCase(m) == "BR" && Starts(toks, [Ident(m), x]) && Names(x, r)
    ensures Assembles(toks, syms, at, obj)
    ensures Emits(toks, syms, at, obj, w) && Fetched(mode, s).1 == Some(w) ==>
      Goes(s, AfterInstruction(mode, s), Reads(s, r))
  {
    hide UpperCase, Instr, LineBytes, Fetched, AfterInstruction, WordLe, Names, Row, Reads, Goes, Register;
    ReturnRows();
    MnemonicLine(toks, syms, at, obj, m, OpEntry(0x27, Br, 0));
    Takes(DropLabels(toks)[1..], r);
    assert Emits(toks, syms, at, obj, Instr(0x27, 15, r, 0));
    if Emits(toks, syms, at, obj, w) && Fetched(mode, s).1 == Some(w) {
      EmitsOne(toks, syms, at, obj, Instr(0x27, 15, r, 0), w);
      MoveToPc(mode, s, r);
    }
  }

  /** RET goes to r14. */
  lemma Returns(toks: Line, syms: Symtab, at: Word, obj: bool, m: string, mode: Mode, s: State, w: Word)
    requires UpperCase(m) == "RET" && Starts(toks, [Ident(m)])
    ensures Assembles(toks, syms, at, obj)
    ensures Emits(toks, syms, at, obj, w) && Fetched(mode, s).1 == Some(w) ==>
      Goes(s, AfterInstruction(mode, s), s.core.r[14])
  {
    hide UpperCase, Instr, LineBytes, Fetched, AfterInstruction, WordLe, Row, Goes;
    ReturnRows();
    MnemonicLine(toks, syms, at, obj, m, OpEntry(0x27, Ret, 0));
    assert Emits(toks, syms, at, obj, Instr(0x27, 15, 14, 0));
    if Emits(toks, syms, at, obj, w) && Fetched(mode, s).1 == Some(w) {
      EmitsOne(toks, syms, at, obj, Instr(0x27, 15, 14, 0), w);
      MoveToPc(mode, s, 14);
    }
  }

  /* ---- Call and return on the machine ---- */

  /** A whole step without an interrupt ends as its instruction did, in registers, flags and memory. */
  predicate Quiet(mode: Mode, s: State, rx: Option<Byte>) {
    !StepInterrupted(mode, s, rx)
  }

  lemma QuietStep(mode: Mode, s: State, rx: Option<Byte>)
    requires Quiet(mode, s, rx)
    ensures var u, q := AfterInstruction(mode, s), Step(mode, s, rx);
      q.core.r == u.core.r && q.core.flags == u.core.flags && q.mem == u.mem && q.core.status == u.core.status
  {
    hide StepInterrupted, AfterInstruction, Step;
    InterruptStep(mode, s, rx);
  }

  /** Main result on calls: a step on the word of a `CALL` line goes to its target with the address behind it in r14
      and all else unchanged; when the callee, whatever it did, executes the word of a `RET` line with r14 as it found
      it, the machine is behind the CALL, with everything else as the callee left it. */
  lemma CallReturns(call: Line, ret: Line, syms: Symtab, at: Word, m: string, ts: seq<Token>, m': string, at': Word,
                    syms': Symtab, mode: Mode, s: State, t: State, w: Word, w': Word, rx: Option<Byte>,
                    rx': Option<Byte>)
    requires TransferTo(call, m, 14, ts) && UpperCase(m) == "CALL" && Emits(call, syms, at, false, w)
    requires UpperCase(m') == "RET" && Starts(ret, [Ident(m')]) && Emits(ret, syms', at', false, w')
    requires Fetched(mode, s).1 == Some(w) && s.core.r[15] == at && Quiet(mode, s, rx)
    requires Fetched(mode, t).1 == Some(w') && Quiet(mode, t, rx') && t.core.r[14] == Step(mode, s, rx).core.r[14]
    ensures Eval(ts, syms, true).Some?
    ensures var q := Step(mode, s, rx);
      q.core.r == s.core.r[14 := Next(s)][15 := Wrap(Eval(ts, syms, true).value.0)]
      && q.core.flags == s.core.flags && q.mem == s.mem
    ensures var q := Step(mode, t, rx');
      q.core.r == t.core.r[15 := Next(s)] && q.core.flags == t.core.flags && q.mem == t.mem
  {
    hide TransferTo, Fetched, UpperCase, Starts, Emits, Eval, AfterInstruction, Step, Quiet, Next, LineBytes;
    EmittedValue(call, syms, at, m, ts, w);
    TransferInstruction(call, syms, at, false, m, 14, ts, w);
    TransferRows();
    Returns(ret, syms', at', false, m', mode, t, w');
    QuietStep(mode, s, rx);
    QuietStep(mode, t, rx');
  }

  lemma EmittedValue(toks: Line, syms: Symtab, at: Word, m: string, ts: seq<Token>, w: Word)
    requires TransferTo(toks, m, 14, ts) && Emits(toks, syms, at, false, w)
    ensures Eval(ts, syms, true).Some?
  {
    hide TransferTo, LineBytes, Eval, Instr, WordLe, PeekSymbol, TransferCode;
    TransferEncodes(toks, syms, at, false, m, 14, ts);
  }

  /* ---- PUSH and POP ---- */

  /** The two words of a line. */
  predicate EmitsTwo(toks: Line, syms: Symtab, at: Word, obj: bool, v: Word, w: Word) {
    LineBytes(toks, syms, at, obj) == Some(Words2(v, w))
  }

  lemma StackWords(toks: Line, syms: Symtab, at: Word, obj: bool, m: string, x: Token, r: Reg)
    requires (UpperCase(m) == "PUSH" || UpperCase(m) == "POP") && Starts(toks, [Ident(m), x]) && Names(x, r)
    ensures if UpperCase(m) == "PUSH" then
              EmitsTwo(toks, syms, at, obj, Instr(0x14, 13, 13, 0xFFFC), Instr(0x0C, r, 13, 0))
            else EmitsTwo(toks, syms, at, obj, Instr(0x0B, r, 13, 0), Instr(0x14, 13, 13, 4))
  {
    hide UpperCase, Instr, LineBytes, WordLe, Names, Row, Register;
    ReturnRows();
    MnemonicLine(toks, syms, at, obj, m, OpEntry(0x00, if UpperCase(m) == "PUSH" then Push else Pop, 0));
    Takes(DropLabels(toks)[1..], r);
  }

  lemma SameTwo(toks: Line, syms: Symtab, at: Word, obj: bool, v: Word, w: Word, v': Word, w': Word)
    requires EmitsTwo(toks, syms, at, obj, v, w) && EmitsTwo(toks, syms, at, obj, v', w')
    ensures v == v' && w == w'
  {
    hide LineBytes, WordLe;
    assert (WordLe(v) + WordLe(w))[..4] == WordLe(v) && (WordLe(v) + WordLe(w))[4..] == WordLe(w);
    assert (WordLe(v') + WordLe(w'))[..4] == WordLe(v') && (WordLe(v') + WordLe(w'))[4..] == WordLe(w');
    Disasm.WordLeInjective(v, v');
    Disasm.WordLeInjective(w, w');
  }

  /** ADDI sp, sp, n: the machine moves the stack pointer; the flags are those of the addition. */
  lemma StackMoves(mode: Mode, s: State, n: int)
    requires n == 4 || n == -4
    requires Fetched(mode, s).1 == Some(Instr(0x14, 13, 13, n % 0x1_0000))
    ensures exists v, g :: Computes(Add, s.core.r[13], Wrap(n), s.core.flags, v, g)
                           && Puts(s, AfterInstruction(mode, s), 13, v, g)
    ensures Puts(s, AfterInstruction(mode, s), 13, Address(s.core.r[13], n), AfterInstruction(mode, s).core.flags)
  {
    hide Instr, Fetched, AfterInstruction, Decode, Executed, Computes, Opcode, Rd, Rs1, Imm16, Simm, Performed;
    var w := Instr(0x14, 13, 13, n % 0x1_0000);
    FieldsOf(0x14, 13, 13, n % 0x1_0000);
    FetchedReads(mode, s, w);
    ImmediateFieldRead(0x14, ISigned, 13, 13, n);
    ShapeDecodes(Executed(mode, s).0.core, s.core.r[15], w, ISigned, n);
    var r := Performed(Add, s.core.r[13], Wrap(n), s.core.flags);
    PerformedComputes(Add, s.core.r[13], Wrap(n), s.core.flags);
    PutsIt(mode, s, w, 13, r.value, r.flags);
    AddedWord(s.core.r[13], n, s.core.flags);
  }

  lemma AddedWord(a: Word, n: int, f: Word)
    requires n == 4 || n == -4
    ensures Performed(Add, a, Wrap(n), f).value == Address(a, n)
  {
  }

  lemma StackAccess(mode: Mode, s: State, op: Byte, r: Reg)
    requires (op == 0x0B || op == 0x0C) && Fetched(mode, s).1 == Some(Instr(op, r, 13, 0))
    ensures Accessed(mode, s, Kind(4, false, op == 0x0C), r, s.core.r[13])
  {
    hide Instr, Fetched, AfterInstruction, Decode, Executed, Opcode, Rd, Rs1, Imm16, Simm, Accessed, Displaced, CodeOf;
    var w := Instr(op, r, 13, 0);
    FieldsOf(op, r, 13, 0);
    FetchedReads(mode, s, w);
    DisplacementRead(w, 0);
    var m := if op == 0x0B then "LW" else "SW";
    WordAccess();
    DisplacedDecodes(m, Executed(mode, s).0.core, s.core.r[15], w);
    AccessPerformed(mode, s, w, Kind(4, false, op == 0x0C), r, Address(s.core.r[13], Simm(w)));
    SameAddress(s.core.r[13]);
  }

  lemma PopFirst(mode: Mode, s: State, r: Reg, p: Word)
    requires Fetched(mode, s).1 == Some(Instr(0x0B, r, 13, 0)) && p < 0x03F0_0000 && p % 4 == 0
    requires Xlated(mode, Executed(mode, s).0, s.core.r[13], Load).pa == Some(p)
    ensures Puts(s, AfterInstruction(mode, s), r, Read32(s.mem, p), s.core.flags) && p + 4 <= 0x0400_0000
  {
    hide Instr, Fetched, AfterInstruction, Executed, Xlated, Puts;
    StackAccess(mode, s, 0x0B, r);
  }

  lemma PushSecond(mode: Mode, u: State, r: Reg)
    requires Fetched(mode, u).1 == Some(Instr(0x0C, r, 13, 0))
    requires Ram(Xlated(mode, Executed(mode, u).0, u.core.r[13], Access.Store).pa, 4)
    ensures var d, x := AfterInstruction(mode, u), Xlated(mode, Executed(mode, u).0, u.core.r[13], Access.Store);
      && d.core.r == u.core.r[15 := Next(u)] && d.core.flags == u.core.flags
      && Stored(x.mem, d.mem, x.pa.value, 4, Reads(u, r))
  {
    hide Instr, Fetched, AfterInstruction, Executed, Xlated, Stored, Reads;
    StackAccess(mode, u, 0x0C, r);
  }

  lemma NextIs(s: State)
    ensures Next(s) == Address(s.core.r[15], 4)
  {
  }

  lemma TwoNext(a: Word)
    ensures Address(Address(a, 4), 4) == Address(a, 8)
  {
  }

  lemma WordAccess()
    ensures Displaced("LW") == Some(Kind(4, false, false)) && Displaced("SW") == Some(Kind(4, false, true))
    ensures CodeOf("LW") == 0x0B && CodeOf("SW") == 0x0C
  {
  }

  lemma SameAddress(a: Word)
    ensures Address(a, 0) == a
  {
  }

  /** A PUSH: two instructions, the second at `u` with the registers the first left (interrupts may come between). */
  predicate Pushes(mode: Mode, s: State, u: State, v: Word, w: Word) {
    && Fetched(mode, s).1 == Some(v) && Fetched(mode, u).1 == Some(w)
    && u.core.r == AfterInstruction(mode, s).core.r
    && Ram(Xlated(mode, Executed(mode, u).0, u.core.r[13], Access.Store).pa, 4)
  }

  /** A POP that reads the word at physical address `p`. */
  predicate Pops(mode: Mode, s: State, u: State, v: Word, w: Word, p: Word) {
    && Fetched(mode, s).1 == Some(v) && Fetched(mode, u).1 == Some(w)
    && u.core.r == AfterInstruction(mode, s).core.r
    && Xlated(mode, Executed(mode, s).0, s.core.r[13], Load).pa == Some(p) && p < 0x03F0_0000 && p % 4 == 0
  }

  /** What a PUSH of `r` does: sp is 4 lower, the register's value is in the four bytes there, and no other register
      and no other byte (but D bits of the tables, in `x`) has changed. PUSH sp stores the new stack pointer. */
  lemma PushStores(toks: Line, syms: Symtab, at: Word, obj: bool, m: string, x: Token, r: Reg, mode: Mode, s: State,
                   u: State, v: Word, w: Word)
    requires UpperCase(m) == "PUSH" && Starts(toks, [Ident(m), x]) && Names(x, r) && EmitsTwo(toks, syms, at, obj, v, w)
    requires Pushes(mode, s, u, v, w)
    ensures var d := AfterInstruction(mode, u);
      && d.core.r == s.core.r[13 := Address(s.core.r[13], -4)][15 := Address(s.core.r[15], 8)]
      && d.core.flags == u.core.flags
      && Stored(Xlated(mode, Executed(mode, u).0, u.core.r[13], Access.Store).mem, d.mem,
                Xlated(mode, Executed(mode, u).0, u.core.r[13], Access.Store).pa.value, 4, Reads(u, r))
      && (r != 13 && r != 15 ==> Reads(u, r) == s.core.r[r]) && (r == 13 ==> Reads(u, r) == Address(s.core.r[13], -4))
  {
    hide UpperCase, Instr, EmitsTwo, Starts, Fetched, AfterInstruction, Executed, Names, Xlated, Computes, Stored,
         Address;
    StackWords(toks, syms, at, obj, m, x, r);
    SameTwo(toks, syms, at, obj, v, w, Instr(0x14, 13, 13, 0xFFFC), Instr(0x0C, r, 13, 0));
    StackMoves(mode, s, -4);
    PushSecond(mode, u, r);
    NextIs(s);
    NextIs(u);
    TwoNext(s.core.r[15]);
  }

  /** What a POP into `r` does: the word at sp is in the register and sp is 4 higher; memory is as it was. POP sp
      leaves the word plus 4 in sp. A POP into pc jumps before the second word can correct sp. */
  lemma PopLoads(toks: Line, syms: Symtab, at: Word, obj: bool, m: string, x: Token, r: Reg, mode: Mode, s: State,
                 u: State, v: Word, w: Word, p: Word)
    requires UpperCase(m) == "POP" && Starts(toks, [Ident(m), x]) && Names(x, r) && EmitsTwo(toks, syms, at, obj, v, w)
    requires Pops(mode, s, u, v, w, p)
    ensures var a, d := AfterInstruction(mode, s), AfterInstruction(mode, u);
      && a.mem == s.mem && d.mem == u.mem && p + 4 <= 0x0400_0000
      && a.core.r[r] == Read32(s.mem, p)
      && (r == 15 ==> a.core.r[13] == s.core.r[13])
      && (r == 13 ==> d.core.r[13] == Address(Read32(s.mem, p), 4))
      && (r != 13 && r != 15 ==>
            d.core.r == s.core.r[r := Read32(s.mem, p)][13 := Address(s.core.r[13], 4)][15 := Address(s.core.r[15], 8)])
  {
    hide UpperCase, Instr, EmitsTwo, Starts, Fetched, AfterInstruction, Executed, Names, Xlated, Computes, Address,
         Read32;
    StackWords(toks, syms, at, obj, m, x, r);
    SameTwo(toks, syms, at, obj, v, w, Instr(0x0B, r, 13, 0), Instr(0x14, 13, 13, 4));
    PopFirst(mode, s, r, p);
    StackMoves(mode, u, 4);
    NextIs(s);
    NextIs(u);
    TwoNext(s.core.r[15]);
  }

  /** Main result on the stack: PUSH r, anything that leaves sp and the pushed word as they are, then POP r': the
      value of r is in r', sp is what it was before the PUSH, and of memory exactly that one word was written. */
  lemma PushPop(push: Line, pop: Line, syms: Symtab, at: Word, at': Word, obj: bool, m: string, m': string, x: Token,
                y: Token, r: Reg, r': Reg, mode: Mode, s: State, s': State, t: State, t': State, v: Word, w: Word,
                v': Word, w': Word, p: Word)
    requires UpperCase(m) == "PUSH" && Starts(push, [Ident(m), x]) && Names(x, r) && r != 13 && r != 15
    requires UpperCase(m') == "POP" && Starts(pop, [Ident(m'), y]) && Names(y, r') && r' != 13 && r' != 15
    requires EmitsTwo(push, syms, at, obj, v, w) && EmitsTwo(pop, syms, at', obj, v', w')
    requires Pushes(mode, s, s', v, w) && Pops(mode, t, t', v', w', p)
    requires Xlated(mode, Executed(mode, s').0, s'.core.r[13], Access.Store).pa == Some(p)
    requires var d := AfterInstruction(mode, s');
      t.core.r[13] == d.core.r[13] && forall a :: p <= a < p + 4 ==> t.mem[a] == d.mem[a]
    ensures var d, e := AfterInstruction(mode, s'), AfterInstruction(mode, t');
      && e.core.r[r'] == s.core.r[r] && e.core.r[13] == s.core.r[13]
      && (forall k: Reg :: k != 13 && k != 15 ==> d.core.r[k] == s.core.r[k])
      && (forall k: Reg :: k != 13 && k != 15 && k != r' ==> e.core.r[k] == t.core.r[k])
      && forall a :: 0 <= a < 0x0400_0000 && !(p <= a < p + 4) ==>
           d.mem[a] == Xlated(mode, Executed(mode, s').0, s'.core.r[13], Access.Store).mem[a]
  {
    hide UpperCase, EmitsTwo, Fetched, AfterInstruction, Executed, Names, Xlated, Starts;
    PushStores(push, syms, at, obj, m, x, r, mode, s, s', v, w);
    PopLoads(pop, syms, at', obj, m', y, r', mode, t, t', v', w', p);
    var d := AfterInstruction(mode, s');
    StoredReads(d.mem, t.mem, p, s.core.r[r]);
    AddressBack(s.core.r[13]);
  }

  lemma StoredReads(mem: Mem, mem': Mem, p: nat, v: Word)
    requires p + 4 <= 0x0400_0000 && mem[p] == v % 0x100 && mem[p + 1] == v / 0x100 % 0x100
    requires mem[p + 2] == v / 0x1_0000 % 0x100 && mem[p + 3] == v / 0x100_0000
    requires forall a :: p <= a < p + 4 ==> mem'[a] == mem[a]
    ensures Read32(mem', p) == v
  {
    WordBytes(v);
  }

  lemma AddressBack(a: Word)
    ensures Address(Address(a, -4), 4) == a
  {
  }

  /* ---- In a program ---- */

  /** The word of a line that becomes one word is in the flat image at the line's address, and the next line follows. */
  lemma LineWord(lines: seq<Line>, k: nat)
    requires k < |lines| && AssembleFlat(lines).Some?
    requires Assembles(lines[k], Landing.Before(lines, k).syms, Landing.AddressOf(lines, k) % 0x1_0000_0000, false)
    ensures var out, at := AssembleFlat(lines).value, Landing.AddressOf(lines, k);
      && at + 4 <= |out| && at < 0x1_0000_0000 && Landing.AddressOf(lines, k + 1) == at + 4
      && Emits(lines[k], Landing.Before(lines, k).syms, at, false, Read32(out, at))
  {
    hide LineBytes, LineSymbols, RunPass1, RunPass2, WordLe, Read32;
    var syms := RunPass1(lines, |lines|, false).value.syms;
    var p, at := Landing.Before(lines, k), Landing.AddressOf(lines, k);
    LineBytesInImage(lines, k, |lines|, syms, 0, false);
    Landing.AddressBound(lines, k);
    WrapSmall(at);
    var w :| Emits(lines[k], p.syms, Wrap(at), false, w);
    Landing.ImageWord(AssembleFlat(lines).value, at, w);
    RunsArePrefixClosed(lines, k + 1, |lines|, syms, 0, false);
    LastLine(lines, k + 1, syms, 0, false);
  }

  /** Main result for `CALL y`, `CALL y + n` or `CALL y - n` in a program: the machine that fetches it goes to where
      the line labelled y starts, plus n; r14 has the address of the line after the CALL, and nothing else has
      changed. */
  lemma CallReachesLine(lines: seq<Line>, k: nat, i: nat, y: string, m: string, ts: seq<Token>, mode: Mode, s: State)
    requires k < |lines| && AssembleFlat(lines).Some? && Landing.LabelAt(lines, i, y)
    requires forall j :: 0 <= j < |lines| ==> SizeSeen(lines[j])
    requires TransferTo(lines[k], m, 14, ts) && UpperCase(m) == "CALL" && Moving.SimpleRef(ts) && ts[0] == Ident(y)
    requires s.core.r[15] == Landing.AddressOf(lines, k)
    requires Fetched(mode, s).1 == Some(Read32(AssembleFlat(lines).value, Landing.AddressOf(lines, k)))
    ensures var u, target := AfterInstruction(mode, s), Landing.AddressOf(lines, i) + Moving.Addend(ts);
      u.mem == s.mem && u.core.flags == s.core.flags
      && u.core.r == s.core.r[14 := Landing.AddressOf(lines, k + 1) % 0x1_0000_0000][15 := target % 0x1_0000_0000]
  {
    hide TransferTo, Fetched, UpperCase, Emits, Eval, AfterInstruction, LineBytes, Read32, Landing.LabelAt, SizeSeen,
         Landing.Before, Moving.SimpleRef, Moving.Addend, Landing.AddressOf, Assembles, AssembleFlat;
    var at, p := Landing.AddressOf(lines, k), Landing.Before(lines, k);
    LabelValue(lines, k, i, y, ts);
    LineIsAssembled(lines, k);
    TransferInstruction(lines[k], p.syms, Wrap(at), false, m, 14, ts, 0);
    LineWord(lines, k);
    TransferInstruction(lines[k], p.syms, at, false, m, 14, ts, Read32(AssembleFlat(lines).value, at));
    TransferRows();
  }

  lemma LineIsAssembled(lines: seq<Line>, k: nat)
    requires k < |lines| && AssembleFlat(lines).Some?
    ensures LineBytes(lines[k], Landing.Before(lines, k).syms, Wrap(Landing.AddressOf(lines, k)), false).Some?
  {
    hide LineBytes, LineSymbols, RunPass1, RunPass2;
    LineBytesInImage(lines, k, |lines|, RunPass1(lines, |lines|, false).value.syms, 0, false);
  }

  /** The value of a reference to the label of line `i`. */
  lemma LabelValue(lines: seq<Line>, k: nat, i: nat, y: string, ts: seq<Token>)
    requires k <= |lines| && AssembleFlat(lines).Some? && Landing.LabelAt(lines, i, y)
    requires forall j :: 0 <= j < |lines| ==> SizeSeen(lines[j])
    requires Moving.SimpleRef(ts) && ts[0] == Ident(y)
    ensures var v := Eval(ts, Landing.Before(lines, k).syms, true);
      v.Some? && Wrap(v.value.0) == Wrap(Landing.AddressOf(lines, i) + Moving.Addend(ts))
  {
    hide Eval, SizeSeen, RunPass1, RunPass2, Moving.SimpleRef;
    var syms := RunPass1(lines, |lines|, false).value.syms;
    Landing.FinalLabel(lines, i, y, false);
    Landing.LabelNotEqu(lines, i, y);
    RunsArePrefixClosed(lines, k, |lines|, syms, 0, false);
    Landing.LabelInPassTwo(lines, k, syms, 0, false, y);
    Landing.SimpleRefEval(ts, Landing.Before(lines, k).syms);
    AddressesMeet(lines, i, syms, 0, false);
  }
}
