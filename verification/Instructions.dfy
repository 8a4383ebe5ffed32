/** Every instruction line does what its mnemonic says: from the tokens of the line, through the assembled word, to
    the state of the machine that has executed it. Mnemonics are in upper case here; a source may write them in any
    case. */
module Instructions {
  import opened Words
  import opened Memory
  import opened OpTable
  import opened Lexer
  import opened Assembler
  import opened Cpu
  import opened Arithmetic
  import opened Privilege
  import Causes
  import Disasm

  /* ---- Lines and what they emit ---- */

  /** Behind its labels the line starts with `ts`. */
  predicate Starts(toks: Line, ts: seq<Token>) {
    ts <= DropLabels(toks)
  }

  /** The line becomes the one word `w`, without a relocation. */
  predicate Emits(toks: Line, syms: Symtab, at: Word, obj: bool, w: Word) {
    LineBytes(toks, syms, at, obj) == Some(Words1(w))
  }

  predicate Assembles(toks: Line, syms: Symtab, at: Word, obj: bool) {
    exists w :: Emits(toks, syms, at, obj, w)
  }

  /** The register names: r0 to r15, and sp, lr and pc for the last three, in any case. */
  lemma RegisterNames()
    ensures ParseRegister("r0") == Some(0) && ParseRegister("R1") == Some(1) && ParseRegister("r9") == Some(9)
    ensures ParseRegister("r10") == Some(10) && ParseRegister("R15") == Some(15) && ParseRegister("r16") == None
    ensures ParseRegister("sp") == ParseRegister("SP") == Some(13)
    ensures ParseRegister("lr") == ParseRegister("LR") == Some(14)
    ensures ParseRegister("pc") == ParseRegister("PC") == Some(15)
  {
    hide ParseRegister;
    SmallRegister("r0");
    SmallRegister("R1");
    SmallRegister("r9");
    LargeRegister("r10");
    LargeRegister("R15");
    LargeRegister("r16");
    Aliases();
  }

  lemma Aliases()
    ensures ParseRegister("sp") == ParseRegister("SP") == Some(13)
    ensures ParseRegister("lr") == ParseRegister("LR") == Some(14)
    ensures ParseRegister("pc") == ParseRegister("PC") == Some(15)
  {
    assert UpperCase("sp") == UpperCase("SP") == "SP";
    assert UpperCase("lr") == UpperCase("LR") == "LR";
    assert UpperCase("pc") == UpperCase("PC") == "PC";
    assert "sp"[0] == 's' && "SP"[0] == 'S' && "lr"[0] == 'l' && "LR"[0] == 'L' && "pc"[0] == 'p' && "PC"[0] == 'P';
  }

  /** An r and one digit. */
  lemma SmallRegister(s: string)
    requires |s| == 2 && (s[0] == 'r' || s[0] == 'R') && IsDigit(s[1])
    ensures ParseRegister(s) == Some(s[1] as int - '0' as int)
  {
    hide DigitsValue, UpperCase;
    OneDigit(s);
  }

  /** An r and two digits. */
  lemma LargeRegister(s: string)
    requires |s| == 3 && (s[0] == 'r' || s[0] == 'R') && IsDigit(s[1]) && IsDigit(s[2])
    ensures var n := 10 * (s[1] as int - '0' as int) + (s[2] as int - '0' as int);
      ParseRegister(s) == if n < 16 then Some(n) else None
  {
    hide DigitsValue;
    TwoDigits(s);
  }

  lemma OneDigit(s: string)
    requires |s| == 2 && IsDigit(s[1])
    ensures DigitsValue(s[1..], 10) == s[1] as int - '0' as int
  {
    assert s[1..] == [s[1]] && [s[1]][..0] == "" && DigitsValue("", 10) == 0;
  }

  lemma TwoDigits(s: string)
    requires |s| == 3 && IsDigit(s[1]) && IsDigit(s[2])
    ensures DigitsValue(s[1..], 10) == 10 * (s[1] as int - '0' as int) + (s[2] as int - '0' as int)
  {
    assert s[1..][..1] == s[..2][1..];
    OneDigit(s[..2]);
  }

  /** A token that names register `r`. */
  predicate Names(t: Token, r: Reg) {
    t.Ident? && ParseRegister(t.name) == Some(r)
  }

  lemma Takes(ts: seq<Token>, r: Reg)
    requires ts != [] && Names(ts[0], r)
    ensures Register(ts) == Some((r, ts[1..]))
    ensures RegisterComma(ts) == if |ts| >= 2 && ts[1] == Comma then Some((r, ts[2..])) else None
  {
    hide ParseRegister;
  }

  /** A line whose mnemonic is in the table is encoded as its row says. */
  lemma MnemonicLine(toks: Line, syms: Symtab, at: Word, obj: bool, m: string, e: OpEntry)
    requires Starts(toks, [Ident(m)]) && Row(UpperCase(m)) == Some(e)
    ensures LineBytes(toks, syms, at, obj) == Encode(e, DropLabels(toks)[1..], syms, at, obj)
  {
    hide Row, Encode;
    assert DropLabels(toks)[0] == Ident(m);
  }

  /** An unknown mnemonic is an error. */
  lemma UnknownMnemonic(toks: Line, syms: Symtab, at: Word, obj: bool, m: string)
    requires Starts(toks, [Ident(m)]) && Row(UpperCase(m)) == None
    ensures LineBytes(toks, syms, at, obj) == None
  {
    hide Row, Encode;
    assert DropLabels(toks)[0] == Ident(m);
  }

  predicate IsRegister(t: Token) {
    t.Ident? && ParseRegister(t.name).Some?
  }

  /** Three operands must be three registers. */
  lemma RegistersRequired(toks: Line, syms: Symtab, at: Word, obj: bool, m: string, x: Token, y: Token, z: Token)
    requires ThreeRegister(UpperCase(m)).Some? && Starts(toks, [Ident(m), x, Comma, y, Comma, z])
    ensures LineBytes(toks, syms, at, obj).Some? <==> IsRegister(x) && IsRegister(y) && IsRegister(z)
  {
    hide ThreeRegister, Row, UpperCase, Instr, LineBytes, WordLe, ParseRegister, DropLabels, Code;
    ThreeRegisterRow(UpperCase(m));
    MnemonicLine(toks, syms, at, obj, m, OpEntry(Code(ThreeRegister(UpperCase(m)).value), R3, 0));
    var ts := DropLabels(toks)[1..];
    assert [x, Comma, y, Comma, z] <= ts;
  }

  lemma EmitsOne(toks: Line, syms: Symtab, at: Word, obj: bool, v: Word, w: Word)
    requires Emits(toks, syms, at, obj, v) && Emits(toks, syms, at, obj, w)
    ensures v == w
  {
    hide LineBytes, WordLe;
    Disasm.WordIs(v, w);
  }

  lemma FieldsOf(op: Byte, rd: Byte, rs1: Byte, low: nat)
    requires rd < 0x10 && rs1 < 0x10 && low < 0x1_0000
    ensures var w := Instr(op, rd, rs1, low);
      && Opcode(w) == op && Rd(w) == rd && Rs1(w) == rs1 && Imm16(w) == low
      && Rs2(w) == low / 0x1000 && Shift(w) == low % 0x1000 / 0x80
      && w / 0x100_0000 == op && w / 0x1000 % 16 == low / 0x1000
  {
    hide Instr;
    Disasm.InstrFields(op, rd, rs1, low);
    var w := Instr(op, rd, rs1, low);
    Disasm.LowParts(w);
    Disasm.LowFields(w);
    DivUnique(w % 0x1000, 0x80, w / 0x80 % 0x20, w % 0x80);
  }

  /* ---- The machine around one instruction ---- */

  function Next(s: State): Word {
    var pc: int := s.core.r[15];
    (pc + 4) % 0x1_0000_0000
  }

  /** What an instruction at PC reads from register `r`: PC itself reads as the address of the next one. */
  function Reads(s: State, r: Reg): Word {
    if r == 15 then Next(s) else s.core.r[r]
  }

  /** From `s` to `u`: register `rd` and the flags are set, PC has moved on (unless it is `rd`), nothing else is
      changed but the TLB, which the fetch may have filled. */
  predicate Puts(s: State, u: State, rd: Reg, v: Word, g: Word) {
    && u.mem == s.mem
    && u.core == s.core.(faultingPc := s.core.r[15], r := s.core.r[15 := Next(s)][rd := v], flags := g)
  }

  lemma FetchedReads(mode: Mode, s: State, w: Word)
    requires Fetched(mode, s).1 == Some(w)
    ensures var t := Executed(mode, s).0;
      && t.mem == s.mem && t.core == SetReg(s.core.(faultingPc := s.core.r[15]), 15, Wrap(s.core.r[15] + 4))
      && AfterInstruction(mode, s) == Execute(mode, t, Executed(mode, s).1)
      && Executed(mode, s).1 == Decode(t.core, s.core.r[15], w)
    ensures forall r: Reg :: Executed(mode, s).0.core.r[r] == Reads(s, r)
  {
    hide Fetched, Decode, Execute;
    FetchOutcome(mode, s);
  }

  lemma PutsIt(mode: Mode, s: State, w: Word, rd: Reg, v: Word, g: Word)
    requires Fetched(mode, s).1 == Some(w) && Executed(mode, s).1 == Put(rd, v, g)
    ensures Puts(s, AfterInstruction(mode, s), rd, v, g)
  {
    hide Fetched, Decode, Executed;
    FetchedReads(mode, s, w);
  }

  /* ---- Arithmetic and logic ---- */

  function ThreeRegister(m: string): Option<Operation> {
    match m
    case "ADD" => Some(Add)
    case "ADDC" => Some(AddCarry)
    case "SUB" => Some(Sub)
    case "SUBC" => Some(SubBorrow)
    case "AND" => Some(BitAnd)
    case "OR" => Some(BitOr)
    case "XOR" => Some(BitXor)
    case "LSLR" => Some(ShiftLeft)
    case "LSRR" => Some(ShiftRight)
    case "ASRR" => Some(ShiftSigned)
    case "ROLR" => Some(RotateLeft)
    case "RORR" => Some(RotateRight)
    case "MUL" => Some(Multiply)
    case "MULH" => Some(HighSigned)
    case "MULHU" => Some(HighUnsigned)
    case "DIV" => Some(DivideSigned)
    case "DIVU" => Some(DivideUnsigned)
    case "MOD" => Some(RemainderSigned)
    case "MODU" => Some(RemainderUnsigned)
    case _ => None
  }

  /** An operation with an immediate operand, and the range the immediate must be in. */
  datatype Immediate = Immediate(op: Operation, low: int, high: int)

  function WithImmediate(m: string): Option<Immediate> {
    match m
    case "ADDI" => Some(Immediate(Add, -32768, 32767))
    case "SUBI" => Some(Immediate(Sub, -32768, 32767))
    case "ANDI" => Some(Immediate(BitAnd, 0, 65535))
    case "ORI" => Some(Immediate(BitOr, 0, 65535))
    case "XORI" => Some(Immediate(BitXor, 0, 65535))
    case "LSL" => Some(Immediate(ShiftLeft, 0, 31))
    case "LSR" => Some(Immediate(ShiftRight, 0, 31))
    case "ASR" => Some(Immediate(ShiftSigned, 0, 31))
    case "LSLI" => Some(Immediate(ShiftLeft, 0, 31))
    case "LSRI" => Some(Immediate(ShiftRight, 0, 31))
    case "ASRI" => Some(Immediate(ShiftSigned, 0, 31))
    case "ROLI" => Some(Immediate(RotateLeft, 0, 31))
    case "RORI" => Some(Immediate(RotateRight, 0, 31))
    case _ => None
  }

  /** The processor's operation behind each. */
  function Performed(o: Operation, a: Word, b: Word, f: Word): Result {
    match o
    case Add => AddOp(a, b, false, f)
    case AddCarry => AddOp(a, b, FlagC(f), f)
    case Sub => SubOp(a, b, false, f)
    case SubBorrow => SubOp(a, b, FlagC(f), f)
    case BitAnd => Logical(And(a, b), f)
    case BitOr => Logical(OrW(a, b), f)
    case BitXor => Logical(XorW(a, b), f)
    case ShiftLeft => Logical(Lsl(a, b % 32), f)
    case ShiftRight => Logical(Lsr(a, b % 32), f)
    case ShiftSigned => Logical(Asr(a, b % 32), f)
    case RotateLeft => Logical(Rol(a, b % 32), f)
    case RotateRight => Logical(Ror(a, b % 32), f)
    case Multiply => Scaled(Wrap(a * b), f)
    case HighSigned => Scaled(Wrap(Signed(a) * Signed(b) / 0x1_0000_0000), f)
    case HighUnsigned => Scaled(Wrap(a * b / 0x1_0000_0000), f)
    case DivideSigned => Scaled(if b == 0 then 0 else Wrap(TruncDiv(Signed(a), Signed(b))), f)
    case DivideUnsigned => Scaled(if b == 0 then 0 else Wrap(a / b), f)
    case RemainderSigned => Scaled(if b == 0 then 0 else Wrap(TruncMod(Signed(a), Signed(b))), f)
    case RemainderUnsigned => Scaled(if b == 0 then 0 else Wrap(a % b), f)
  }

  lemma PerformedComputes(o: Operation, a: Word, b: Word, f: Word)
    requires o.Divides() ==> b != 0
    ensures var r := Performed(o, a, b, f); Computes(o, a, b, f, r.value, r.flags)
  {
    hide FlagsTell, OnlyNZ, Truncates, Floor, Bits.BitAt, Pow2, And, Flags, FlagsNZ, Rol, Ror, Asr, Lsl, Lsr, AddOp,
         SubOp, Signed, TruncDiv, TruncMod;
    var r := Performed(o, a, b, f);
    FlagBits(f, r.value, false, false);
    NZBits(f, r.value);
    match o
    case Add => Sums(a, b, false, f);
    case AddCarry => Sums(a, b, FlagC(f), f);
    case Sub => Differences(a, b, false, f);
    case SubBorrow => Differences(a, b, FlagC(f), f);
    case Multiply =>
    case HighSigned => HighFloors(a, b);
    case HighUnsigned => HighUnsignedFloors(a, b);
    case DivideSigned => Quotients(a, b);
    case DivideUnsigned => Quotients(a, b);
    case RemainderSigned => Quotients(a, b);
    case RemainderUnsigned => Quotients(a, b);
    case _ => BitwiseComputes(o, a, b, f);
  }

  lemma Quotients(a: Word, b: Word)
    requires b != 0
    ensures Signed(b) != 0
    ensures Truncates(Signed(a), Signed(b), TruncDiv(Signed(a), Signed(b)), TruncMod(Signed(a), Signed(b)))
    ensures Signed(Wrap(TruncMod(Signed(a), Signed(b)))) == TruncMod(Signed(a), Signed(b))
    ensures Truncates(a, b, Wrap(a / b), a % b) && Wrap(a % b) == a % b
    ensures Truncates(a, b, a / b, Wrap(a % b))
  {
    hide Truncates, TruncDiv, TruncMod;
    TruncDivides(Signed(a), Signed(b));
    SignedRemainder(a, b);
    UnsignedDivides(a, b);
  }

  lemma BitwiseComputes(o: Operation, a: Word, b: Word, f: Word)
    requires o.BitAnd? || o.BitOr? || o.BitXor? || o.ShiftLeft? || o.ShiftRight? || o.ShiftSigned? || o.RotateLeft?
             || o.RotateRight?
    ensures var r := Performed(o, a, b, f); Computes(o, a, b, f, r.value, r.flags)
  {
    hide FlagsTell, OnlyNZ, Bits.BitAt, Pow2, And, Or, Xor, Flags, Rol, Ror, Asr, Lsl, Lsr, Floor, Signed;
    var r, n := Performed(o, a, b, f).value, b % 32;
    FlagBits(f, r, false, false);
    match o
    case BitAnd =>
      forall k: nat ensures Bits.BitAt(r, k) <==> Bits.BitAt(a, k) && Bits.BitAt(b, k) {
        Bits.AndBits(a, b, k);
      }
    case BitOr =>
      OrIs(a, b);
      forall k: nat ensures Bits.BitAt(r, k) <==> Bits.BitAt(a, k) || Bits.BitAt(b, k) {
        Bits.OrBits(a, b, k);
      }
    case BitXor =>
      XorIs(a, b);
      forall k: nat ensures Bits.BitAt(r, k) <==> Bits.BitAt(a, k) != Bits.BitAt(b, k) {
        Bits.XorBits(a, b, k);
      }
    case ShiftLeft =>
      forall k: nat ensures Bits.BitAt(r, k) <==> n <= k < 32 && Bits.BitAt(a, k - n) {
        LeftBits(a, n, k);
      }
    case ShiftRight =>
      forall k: nat ensures Bits.BitAt(r, k) <==> Bits.BitAt(a, k + n) {
        RightBits(a, n, k);
      }
    case ShiftSigned => AsrFloors(a, n);
    case RotateLeft =>
      forall k: nat | k < 32 ensures Bits.BitAt(r, (k + n) % 32) <==> Bits.BitAt(a, k) {
        RolBits(a, n, k);
      }
    case RotateRight =>
      forall k: nat | k < 32 ensures Bits.BitAt(r, k) <==> Bits.BitAt(a, (k + n) % 32) {
        RorBits(a, n, k);
      }
  }

  /** The opcode of the register form. */
  function Code(o: Operation): Byte {
    match o
    case Add => 0x00
    case AddCarry => 0x2B
    case Sub => 0x01
    case SubBorrow => 0x2C
    case BitAnd => 0x02
    case BitOr => 0x03
    case BitXor => 0x04
    case ShiftLeft => 0x2D
    case ShiftRight => 0x2E
    case ShiftSigned => 0x2F
    case RotateLeft => 0x39
    case RotateRight => 0x3A
    case Multiply => 0x09
    case HighSigned => 0x22
    case HighUnsigned => 0x23
    case DivideSigned => 0x0A
    case DivideUnsigned => 0x24
    case RemainderSigned => 0x25
    case RemainderUnsigned => 0x26
  }

  lemma ThreeRegisterRow(m: string)
    requires ThreeRegister(m).Some?
    ensures Row(m) == Some(OpEntry(Code(ThreeRegister(m).value), R3, 0))
  {
  }

  lemma CodeDecodes(o: Operation, c: Core, pc: Word, w: Word)
    requires Opcode(w) == Code(o)
    ensures var a, b := c.r[Rs1(w)], c.r[Rs2(w)];
      Decode(c, pc, w) == if o.Divides() && b == 0 then Op.Fault(4) else PutResult(Rd(w), Performed(o, a, b, c.flags))
  {
    hide AddOp, SubOp, Logical, Scaled, Lsl, Lsr, Asr, Rol, Ror, And, OrW, XorW, TruncDiv, TruncMod, SignExtend, Wrap,
         Signed, Rd, Rs1, Rs2, FlagC;
  }

  /** Main result for three registers, `op rd, rs1, rs2`: the line assembles, and the machine that fetches its word
      computes the operation named by the mnemonic; a division by zero traps. */
  lemma RegisterInstruction(toks: Line, syms: Symtab, at: Word, obj: bool, m: string, x: Token, y: Token, z: Token,
                            rd: Reg, rs1: Reg, rs2: Reg, mode: Mode, s: State, w: Word)
    requires ThreeRegister(UpperCase(m)).Some? && Starts(toks, [Ident(m), x, Comma, y, Comma, z])
    requires Names(x, rd) && Names(y, rs1) && Names(z, rs2)
    ensures Assembles(toks, syms, at, obj)
    ensures Emits(toks, syms, at, obj, w) && Fetched(mode, s).1 == Some(w) ==>
      var o, u := ThreeRegister(UpperCase(m)).value, AfterInstruction(mode, s);
      if o.Divides() && Reads(s, rs2) == 0 then Causes.Why(mode, s) == Some(Causes.ZeroDivisor)
      else exists v, g :: Computes(o, Reads(s, rs1), Reads(s, rs2), s.core.flags, v, g) && Puts(s, u, rd, v, g)
  {
    hide ThreeRegister, Row, UpperCase, Encode, Instr, LineBytes, Fetched, Decode, Performed, Computes, Code, Opcode,
         Rd, Rs1, Rs2, Shift, Imm16, Reads, Puts, Executed, AfterInstruction, Causes.Why, WordLe;
    var o := ThreeRegister(UpperCase(m)).value;
    ThreeRegisterRow(UpperCase(m));
    var v := Instr(Code(o), rd, rs1, rs2 * 0x1000);
    ThreeRegisterWord(toks, syms, at, obj, m, x, y, z, rd, rs1, rs2, Code(o));
    if Emits(toks, syms, at, obj, w) && Fetched(mode, s).1 == Some(w) {
      EmitsOne(toks, syms, at, obj, v, w);
      FieldsOf(Code(o), rd, rs1, rs2 * 0x1000);
      FetchedReads(mode, s, w);
      CodeDecodes(o, Executed(mode, s).0.core, s.core.r[15], w);
      if o.Divides() && Reads(s, rs2) == 0 {
        ZeroDivisorTraps(mode, s, o, w);
      } else {
        var r := Performed(o, Reads(s, rs1), Reads(s, rs2), s.core.flags);
        PerformedComputes(o, Reads(s, rs1), Reads(s, rs2), s.core.flags);
        PutsIt(mode, s, w, rd, r.value, r.flags);
      }
    }
  }

  lemma ThreeRegisterWord(toks: Line, syms: Symtab, at: Word, obj: bool, m: string, x: Token, y: Token, z: Token,
                          rd: Reg, rs1: Reg, rs2: Reg, op: Byte)
    requires Row(UpperCase(m)) == Some(OpEntry(op, R3, 0)) && Starts(toks, [Ident(m), x, Comma, y, Comma, z])
    requires Names(x, rd) && Names(y, rs1) && Names(z, rs2)
    ensures Emits(toks, syms, at, obj, Instr(op, rd, rs1, rs2 * 0x1000))
  {
    hide Row, UpperCase, Instr, LineBytes, WordLe, Register, RegisterComma, Names, DropLabels;
    MnemonicLine(toks, syms, at, obj, m, OpEntry(op, R3, 0));
    var ts := DropLabels(toks)[1..];
    assert [x, Comma, y, Comma, z] <= ts;
    Takes(ts, rd);
    Takes(ts[2..], rs1);
    Takes(ts[2..][2..], rs2);
  }

  lemma ZeroDivisorTraps(mode: Mode, s: State, o: Operation, w: Word)
    requires Fetched(mode, s).1 == Some(w) && o.Divides() && Opcode(w) == Code(o) && Reads(s, Rs2(w)) == 0
    ensures Causes.Why(mode, s) == Some(Causes.ZeroDivisor)
  {
    hide Fetched, Decode, Execute, Executed;
    FetchedReads(mode, s, w);
  }

  /* ---- Immediates ---- */

  /** The table rows of the immediate forms. */
  function ImmediateEntry(m: string): OpEntry {
    match m
    case "ADDI" => OpEntry(0x14, ISigned, 0)
    case "SUBI" => OpEntry(0x15, ISigned, 0)
    case "ANDI" => OpEntry(0x16, IUnsigned, 0)
    case "ORI" => OpEntry(0x17, IUnsigned, 0)
    case "XORI" => OpEntry(0x18, IUnsigned, 0)
    case "LSL" => OpEntry(0x06, RShift, 0)
    case "LSR" => OpEntry(0x07, RShift, 0)
    case "ASR" => OpEntry(0x08, RShift, 0)
    case "LSLI" => OpEntry(0x19, IShift, 0)
    case "LSRI" => OpEntry(0x1A, IShift, 0)
    case "ASRI" => OpEntry(0x1B, IShift, 0)
    case "ROLI" => OpEntry(0x3B, RShift, 0)
    case _ => OpEntry(0x3C, RShift, 0)
  }

  /** The immediate `n` is in the word's field for it. */
  predicate HoldsImmediate(fmt: Format, w: Word, n: int) {
    match fmt
    case ISigned => Simm(w) == n
    case RShift => Shift(w) == n
    case _ => Imm16(w) == n
  }

  lemma ImmediateRow(m: string)
    requires WithImmediate(m).Some?
    ensures Row(m) == Some(ImmediateEntry(m))
  {
  }

  /** The operation of the opcodes with an immediate. */
  function ImmediateOperation(op: Byte): Operation {
    match op
    case 0x14 => Add
    case 0x15 => Sub
    case 0x16 => BitAnd
    case 0x17 => BitOr
    case 0x18 => BitXor
    case 0x06 => ShiftLeft
    case 0x07 => ShiftRight
    case 0x08 => ShiftSigned
    case 0x19 => ShiftLeft
    case 0x1A => ShiftRight
    case 0x1B => ShiftSigned
    case 0x3B => RotateLeft
    case _ => RotateRight
  }

  predicate ImmediateShape(op: Byte, fmt: Format) {
    match fmt
    case ISigned => 0x14 <= op <= 0x15
    case IUnsigned => 0x16 <= op <= 0x18
    case IShift => 0x19 <= op <= 0x1B
    case RShift => 0x06 <= op <= 0x08 || 0x3B <= op <= 0x3C
    case _ => false
  }

  lemma ImmediateOperations(m: string)
    requires WithImmediate(m).Some?
    ensures var e := ImmediateEntry(m);
      WithImmediate(m).value.op == ImmediateOperation(e.opcode) && ImmediateShape(e.opcode, e.fmt)
  {
  }

  lemma ShapeDecodes(c: Core, pc: Word, w: Word, fmt: Format, n: int)
    requires ImmediateShape(Opcode(w), fmt) && ImmediateRange(fmt, n) && HoldsImmediate(fmt, w, n)
    ensures Opcode(w) < 0x100 && !ImmediateOperation(Opcode(w)).Divides()
    ensures Decode(c, pc, w) ==
      PutResult(Rd(w), Performed(ImmediateOperation(Opcode(w)), c.r[Rs1(w)], Wrap(n), c.flags))
  {
    hide AddOp, SubOp, Logical, Lsl, Lsr, Asr, Rol, Ror, And, OrW, XorW, Rd, Rs1, Rs2, FlagC, Simm, Imm16, Shift;
    if n >= 0 {
      DivUnique(n, 0x1_0000_0000, 0, n);
    }
  }

  lemma ImmediateDecodes(m: string, c: Core, pc: Word, w: Word, n: int)
    requires WithImmediate(m).Some? && Opcode(w) == ImmediateEntry(m).opcode
    requires var i := WithImmediate(m).value; i.low <= n <= i.high && HoldsImmediate(ImmediateEntry(m).fmt, w, n)
    ensures Decode(c, pc, w) == PutResult(Rd(w), Performed(WithImmediate(m).value.op, c.r[Rs1(w)], Wrap(n), c.flags))
    ensures !WithImmediate(m).value.op.Divides()
  {
    hide Performed, Rd, Rs1, Opcode, Decode, ImmediateShape, ImmediateRange, ImmediateOperation, ImmediateEntry,
         WithImmediate, HoldsImmediate;
    ImmediateOperations(m);
    ImmediateRanges(m, n);
    ShapeDecodes(c, pc, w, ImmediateEntry(m).fmt, n);
  }

  /** Main result for an immediate, `op rd, rs1, expression`: the line assembles exactly when the value is in range,
      and then computes the operation on the register and the value. */
  lemma ImmediateInstruction(toks: Line, syms: Symtab, at: Word, obj: bool, m: string, x: Token, y: Token,
                             ts: seq<Token>, rd: Reg, rs1: Reg, mode: Mode, s: State, w: Word)
    requires WithImmediate(UpperCase(m)).Some? && DropLabels(toks) == [Ident(m), x, Comma, y, Comma] + ts
    requires Names(x, rd) && Names(y, rs1) && Eval(ts, syms, true).Some?
    ensures var i, n := WithImmediate(UpperCase(m)).value, Eval(ts, syms, true).value.0;
      if i.low <= n <= i.high then Assembles(toks, syms, at, obj) else LineBytes(toks, syms, at, obj) == None
    ensures Emits(toks, syms, at, obj, w) && Fetched(mode, s).1 == Some(w) ==>
      var i, n := WithImmediate(UpperCase(m)).value, Eval(ts, syms, true).value.0;
      exists v, g :: Computes(i.op, Reads(s, rs1), Wrap(n), s.core.flags, v, g)
                     && Puts(s, AfterInstruction(mode, s), rd, v, g)
  {
    hide WithImmediate, ImmediateEntry, Row, UpperCase, Encode, Instr, LineBytes, Fetched, Decode, Performed,
         Computes, Opcode, Rd, Rs1, Rs2, Shift, Imm16, Simm, Reads, Puts, Executed, AfterInstruction, WordLe, Eval,
         Names, Wrap;
    var i, n, e := WithImmediate(UpperCase(m)).value, Eval(ts, syms, true).value.0, ImmediateEntry(UpperCase(m));
    ImmediateRow(UpperCase(m));
    ImmediateWord(toks, syms, at, obj, m, x, y, ts, rd, rs1);
    if Emits(toks, syms, at, obj, w) && Fetched(mode, s).1 == Some(w) {
      FetchedReads(mode, s, w);
      ImmediateDecodes(UpperCase(m), Executed(mode, s).0.core, s.core.r[15], w, n);
      var r := Performed(i.op, Reads(s, rs1), Wrap(n), s.core.flags);
      PerformedComputes(i.op, Reads(s, rs1), Wrap(n), s.core.flags);
      PutsIt(mode, s, w, rd, r.value, r.flags);
    }
  }

  lemma ImmediateWord(toks: Line, syms: Symtab, at: Word, obj: bool, m: string, x: Token, y: Token, ts: seq<Token>,
                      rd: Reg, rs1: Reg)
    requires WithImmediate(UpperCase(m)).Some? && Row(UpperCase(m)) == Some(ImmediateEntry(UpperCase(m)))
    requires DropLabels(toks) == [Ident(m), x, Comma, y, Comma] + ts
    requires Names(x, rd) && Names(y, rs1) && Eval(ts, syms, true).Some?
    ensures var i, n := WithImmediate(UpperCase(m)).value, Eval(ts, syms, true).value.0;
      if i.low <= n <= i.high then Assembles(toks, syms, at, obj) else LineBytes(toks, syms, at, obj) == None
    ensures var e, n := ImmediateEntry(UpperCase(m)), Eval(ts, syms, true).value.0;
      forall w :: Emits(toks, syms, at, obj, w) ==>
        && Opcode(w) == e.opcode && Rd(w) == rd && Rs1(w) == rs1 && HoldsImmediate(e.fmt, w, n)
        && WithImmediate(UpperCase(m)).value.low <= n <= WithImmediate(UpperCase(m)).value.high
  {
    hide Row, UpperCase, Encode, Instr, LineBytes, WordLe, Eval, Names, Opcode, Rd, Rs1, HoldsImmediate, DropLabels,
         WithImmediate, ImmediateEntry;
    var i, n, e := WithImmediate(UpperCase(m)).value, Eval(ts, syms, true).value.0, ImmediateEntry(UpperCase(m));
    MnemonicLine(toks, syms, at, obj, m, e);
    var us := DropLabels(toks)[1..];
    assert us == [x, Comma, y, Comma] + ts;
    ImmediateEncodes(e, us, syms, at, obj, rd, rs1, ts, UpperCase(m));
    if i.low <= n <= i.high {
      var v := Instr(e.opcode, rd, rs1, ImmediateField(e.fmt, n));
      assert Emits(toks, syms, at, obj, v);
      ImmediateFieldRead(e.opcode, e.fmt, rd, rs1, n);
      forall w | Emits(toks, syms, at, obj, w) ensures w == v {
        EmitsOne(toks, syms, at, obj, v, w);
      }
    }
  }

  function ImmediateField(fmt: Format, n: int): nat {
    if fmt.RShift? then (n % 32) * 0x80 else n % 0x1_0000
  }

  predicate ImmediateRange(fmt: Format, n: int) {
    match fmt
    case ISigned => -32768 <= n <= 32767
    case IUnsigned => 0 <= n <= 65535
    case _ => 0 <= n <= 31
  }

  lemma ImmediateRanges(m: string, n: int)
    requires WithImmediate(m).Some?
    ensures var e, i := ImmediateEntry(m), WithImmediate(m).value;
      (e.fmt == ISigned || e.fmt == IUnsigned || e.fmt == RShift || e.fmt == IShift)
      && (ImmediateRange(e.fmt, n) <==> i.low <= n <= i.high)
  {
  }

  lemma ImmediateFieldRead(op: Byte, fmt: Format, rd: Reg, rs1: Reg, n: int)
    requires fmt == ISigned || fmt == IUnsigned || fmt == RShift || fmt == IShift
    requires ImmediateRange(fmt, n)
    ensures var w := Instr(op, rd, rs1, ImmediateField(fmt, n));
      Opcode(w) == op && Rd(w) == rd && Rs1(w) == rs1 && HoldsImmediate(fmt, w, n)
  {
    hide Instr, Opcode, Rd, Rs1, Shift;
    FieldsOf(op, rd, rs1, ImmediateField(fmt, n));
  }

  lemma ImmediateEncodes(e: OpEntry, us: seq<Token>, syms: Symtab, at: Word, obj: bool, rd: Reg, rs1: Reg,
                         ts: seq<Token>, m: string)
    requires WithImmediate(m).Some? && e == ImmediateEntry(m) && Eval(ts, syms, true).Some?
    requires |us| == |ts| + 4 && Names(us[0], rd) && us[1] == Comma && Names(us[2], rs1) && us[3] == Comma
        && us[4..] == ts
    ensures var n, i := Eval(ts, syms, true).value.0, WithImmediate(m).value;
      Encode(e, us, syms, at, obj) ==
        if i.low <= n <= i.high then Some(Words1(Instr(e.opcode, rd, rs1, ImmediateField(e.fmt, n)))) else None
    ensures var n, i := Eval(ts, syms, true).value.0, WithImmediate(m).value;
      (e.fmt == ISigned || e.fmt == IUnsigned || e.fmt == RShift || e.fmt == IShift)
      && (ImmediateRange(e.fmt, n) <==> i.low <= n <= i.high)
  {
    hide WithImmediate, ImmediateEntry, Instr, WordLe, Eval, Names, Register, RegisterComma, LoadAddress, Relative;
    ImmediateRanges(m, Eval(ts, syms, true).value.0);
    Takes(us, rd);
    Takes(us[2..], rs1);
    assert us[2..][2..] == ts;
  }

  /* ---- Moves ---- */

  lemma TwoRegisterWord(toks: Line, syms: Symtab, at: Word, obj: bool, m: string, x: Token, y: Token, rd: Reg, rs1: Reg,
                        op: Byte)
    requires Row(UpperCase(m)) == Some(OpEntry(op, R2, 0)) && Starts(toks, [Ident(m), x, Comma, y])
    requires Names(x, rd) && Names(y, rs1)
    ensures Emits(toks, syms, at, obj, Instr(op, rd, rs1, 0))
  {
    hide Row, UpperCase, Instr, LineBytes, WordLe, Register, RegisterComma, Names, DropLabels;
    MnemonicLine(toks, syms, at, obj, m, OpEntry(op, R2, 0));
    var ts := DropLabels(toks)[1..];
    assert [x, Comma, y] <= ts;
    Takes(ts, rd);
    Takes(ts[2..], rs1);
  }

  /** MOV copies, NOT inverts the 32 bits and tells N and Z. */
  lemma CopyInstruction(toks: Line, syms: Symtab, at: Word, obj: bool, m: string, x: Token, y: Token, rd: Reg, rs1: Reg,
                        mode: Mode, s: State, w: Word)
    requires UpperCase(m) == "MOV" || UpperCase(m) == "NOT"
    requires Starts(toks, [Ident(m), x, Comma, y]) && Names(x, rd) && Names(y, rs1)
    ensures Assembles(toks, syms, at, obj)
    ensures Emits(toks, syms, at, obj, w) && Fetched(mode, s).1 == Some(w) ==>
      var u := AfterInstruction(mode, s);
      if UpperCase(m) == "MOV" then Puts(s, u, rd, Reads(s, rs1), s.core.flags)
      else exists v, g :: Puts(s, u, rd, v, g) && FlagsTell(s.core.flags, g, v, false, false)
                           && Inverse(v, Reads(s, rs1))
  {
    hide UpperCase, Instr, LineBytes, Fetched, Opcode, Rd, Rs1, Reads, Puts, Executed, AfterInstruction, WordLe,
         Names, FlagsTell, Flags, Inverse, Row, Decode, DropLabels;
    var op: Byte := if UpperCase(m) == "MOV" then 0x27 else 0x05;
    assert Row("MOV") == Some(OpEntry(0x27, R2, 0)) && Row("NOT") == Some(OpEntry(0x05, R2, 0)) by { CopyRows(); }
    TwoRegisterWord(toks, syms, at, obj, m, x, y, rd, rs1, op);
    if Emits(toks, syms, at, obj, w) && Fetched(mode, s).1 == Some(w) {
      EmitsOne(toks, syms, at, obj, Instr(op, rd, rs1, 0), w);
      FieldsOf(op, rd, rs1, 0);
      FetchedReads(mode, s, w);
      var a, f := Reads(s, rs1), s.core.flags;
      CopyDecodes(Executed(mode, s).0.core, s.core.r[15], w);
      if UpperCase(m) == "MOV" {
        PutsIt(mode, s, w, rd, a, f);
      } else {
        Inverts(a);
        var v := 0xFFFF_FFFF - a;
        FlagBits(f, v, false, false);
        PutsIt(mode, s, w, rd, v, Flags(f, v, false, false));
      }
    }
  }

  /** `v` has exactly those of the 32 bits that `a` lacks. */
  ghost predicate Inverse(v: Word, a: Word) {
    forall k: nat :: Bits.BitAt(v, k) <==> k < 32 && !Bits.BitAt(a, k)
  }

  lemma Inverts(a: Word)
    ensures Inverse(0xFFFF_FFFF - a, a)
  {
    hide Pow2, Bits.BitAt;
    Pow2Literals();
    forall k: nat ensures Bits.BitAt(0xFFFF_FFFF - a, k) <==> k < 32 && !Bits.BitAt(a, k) {
      Bits.OtherBits(a, 32, k);
    }
  }

  lemma CopyRows()
    ensures Row("MOV") == Some(OpEntry(0x27, R2, 0)) && Row("NOT") == Some(OpEntry(0x05, R2, 0))
    ensures Row("CALLR") == Some(OpEntry(0x2A, R2, 0))
  {
  }

  lemma CopyDecodes(c: Core, pc: Word, w: Word)
    ensures Opcode(w) == 0x27 ==> Decode(c, pc, w) == Put(Rd(w), c.r[Rs1(w)], c.flags)
    ensures Opcode(w) == 0x05 ==>
      var v := 0xFFFF_FFFF - c.r[Rs1(w)]; Decode(c, pc, w) == Put(Rd(w), v, Flags(c.flags, v, false, false))
    ensures Opcode(w) == 0x2A ==> Decode(c, pc, w) == Link(Rd(w), c.r[Rs1(w)])
  {
    hide Flags, Rd, Rs1, Rs2;
  }

  /** MOVI, LUI and MOVHI take 0 to 65535: as the value, as the high half over zeros, and as the high half over the
      low half that is there. Flags stay. */
  lemma MoveImmediate(toks: Line, syms: Symtab, at: Word, obj: bool, m: string, x: Token, ts: seq<Token>, rd: Reg,
                      mode: Mode, s: State, w: Word)
    requires UpperCase(m) in {"MOVI", "LUI", "MOVHI"} && DropLabels(toks) == [Ident(m), x, Comma] + ts
    requires Names(x, rd) && Eval(ts, syms, true).Some?
    ensures if 0 <= Eval(ts, syms, true).value.0 <= 65535 then Assembles(toks, syms, at, obj)
            else LineBytes(toks, syms, at, obj) == None
    ensures Emits(toks, syms, at, obj, w) && Fetched(mode, s).1 == Some(w) ==>
      var n, low: int := Eval(ts, syms, true).value.0, Reads(s, rd) % 65536;
      && 0 <= n <= 65535
      && Puts(s, AfterInstruction(mode, s), rd,
              if UpperCase(m) == "MOVI" then n else if UpperCase(m) == "LUI" then 65536 * n else low + 65536 * n,
              s.core.flags)
  {
    hide UpperCase, Instr, LineBytes, Fetched, Opcode, Rd, Imm16, Reads, Puts, Executed, AfterInstruction, WordLe,
         Names, Decode, Eval, DropLabels;
    var op: Byte := if UpperCase(m) == "MOVI" then 0x0F else if UpperCase(m) == "LUI" then 0x38 else 0x13;
    var n := Eval(ts, syms, true).value.0;
    MoveWord(toks, syms, at, obj, m, x, ts, rd, op);
    if Emits(toks, syms, at, obj, w) && Fetched(mode, s).1 == Some(w) {
      EmitsOne(toks, syms, at, obj, Instr(op, rd, 0, n), w);
      FieldsOf(op, rd, 0, n);
      FetchedReads(mode, s, w);
      MoveDecodes(Executed(mode, s).0.core, s.core.r[15], w);
      var low := Reads(s, rd) % 65536;
      PutsIt(mode, s, w, rd, if op == 0x0F then n else if op == 0x38 then 65536 * n else low + 65536 * n, s.core.flags);
    }
  }

  lemma MoveWord(toks: Line, syms: Symtab, at: Word, obj: bool, m: string, x: Token, ts: seq<Token>, rd: Reg, op: Byte)
    requires UpperCase(m) in {"MOVI", "LUI", "MOVHI"} && DropLabels(toks) == [Ident(m), x, Comma] + ts
    requires op == if UpperCase(m) == "MOVI" then 0x0F else if UpperCase(m) == "LUI" then 0x38 else 0x13
    requires Names(x, rd) && Eval(ts, syms, true).Some?
    ensures if 0 <= Eval(ts, syms, true).value.0 <= 65535 then
              Emits(toks, syms, at, obj, Instr(op, rd, 0, Eval(ts, syms, true).value.0))
            else LineBytes(toks, syms, at, obj) == None
  {
    hide UpperCase, Instr, LineBytes, WordLe, Names, Row, Eval, RegisterComma, DropLabels;
    MoveRows();
    MnemonicLine(toks, syms, at, obj, m, OpEntry(op, if UpperCase(m) == "MOVHI" then Movhi else Movi, 0));
    var us := DropLabels(toks)[1..];
    assert us == [x, Comma] + ts && us[2..] == ts;
    Takes(us, rd);
  }

  lemma MoveRows()
    ensures Row("MOVI") == Some(OpEntry(0x0F, Movi, 0)) && Row("LUI") == Some(OpEntry(0x38, Movi, 0))
    ensures Row("MOVHI") == Some(OpEntry(0x13, Movhi, 0))
  {
  }

  lemma MoveDecodes(c: Core, pc: Word, w: Word)
    ensures Opcode(w) == 0x0F ==> Decode(c, pc, w) == Put(Rd(w), Imm16(w), c.flags)
    ensures Opcode(w) == 0x38 ==> Decode(c, pc, w) == Put(Rd(w), 65536 * Imm16(w), c.flags)
    ensures Opcode(w) == 0x13 ==> Decode(c, pc, w) == Put(Rd(w), c.r[Rd(w)] % 65536 + 65536 * Imm16(w), c.flags)
  {
    hide Rd, Rs1, Rs2;
  }

  /* ---- Comparisons ---- */

  /** Only the flags and PC have changed. */
  predicate Flagged(s: State, u: State, g: Word) {
    u.mem == s.mem && u.core == s.core.(faultingPc := s.core.r[15], r := s.core.r[15 := Next(s)], flags := g)
  }

  /** CMP rs1, rs2 leaves the flags of the subtraction, and nothing else. */
  lemma CompareInstruction(toks: Line, syms: Symtab, at: Word, obj: bool, m: string, x: Token, y: Token, rs1: Reg,
                           rs2: Reg, mode: Mode, s: State, w: Word)
    requires UpperCase(m) == "CMP" && Starts(toks, [Ident(m), x, Comma, y]) && Names(x, rs1) && Names(y, rs2)
    ensures Assembles(toks, syms, at, obj)
    ensures Emits(toks, syms, at, obj, w) && Fetched(mode, s).1 == Some(w) ==>
      exists v, g :: Computes(Sub, Reads(s, rs1), Reads(s, rs2), s.core.flags, v, g)
                     && Flagged(s, AfterInstruction(mode, s), g)
  {
    hide UpperCase, Instr, LineBytes, Fetched, Opcode, Rd, Rs1, Rs2, Imm16, Reads, Flagged, Executed,
         AfterInstruction, WordLe, Names, Row, RegisterComma, Register, Computes, SubOp;
    CompareRows();
    MnemonicLine(toks, syms, at, obj, m, OpEntry(0x28, Cmp, 0));
    var ts := DropLabels(toks)[1..];
    assert [x, Comma, y] <= ts;
    Takes(ts, rs1);
    Takes(ts[2..], rs2);
    assert Emits(toks, syms, at, obj, Instr(0x28, 0, rs1, rs2 * 0x1000));
    if Emits(toks, syms, at, obj, w) && Fetched(mode, s).1 == Some(w) {
      EmitsOne(toks, syms, at, obj, Instr(0x28, 0, rs1, rs2 * 0x1000), w);
      FieldsOf(0x28, 0, rs1, rs2 * 0x1000);
      ComparesTo(mode, s, w, Reads(s, rs1), Reads(s, rs2));
    }
  }

  /** CMPI rs1, n with n from 0 to 65535: the same with the number. */
  lemma CompareImmediate(toks: Line, syms: Symtab, at: Word, obj: bool, m: string, x: Token, ts: seq<Token>, rs1: Reg,
                         mode: Mode, s: State, w: Word)
    requires UpperCase(m) == "CMPI" && DropLabels(toks) == [Ident(m), x, Comma] + ts
    requires Names(x, rs1) && Eval(ts, syms, true).Some?
    ensures if 0 <= Eval(ts, syms, true).value.0 <= 65535 then Assembles(toks, syms, at, obj)
            else LineBytes(toks, syms, at, obj) == None
    ensures Emits(toks, syms, at, obj, w) && Fetched(mode, s).1 == Some(w) ==>
      && 0 <= Eval(ts, syms, true).value.0 <= 65535
      && exists v, g :: Computes(Sub, Reads(s, rs1), Eval(ts, syms, true).value.0, s.core.flags, v, g)
                        && Flagged(s, AfterInstruction(mode, s), g)
  {
    hide UpperCase, Instr, LineBytes, Fetched, Opcode, Rd, Rs1, Rs2, Imm16, Reads, Flagged, Executed,
         AfterInstruction, WordLe, Names, Row, RegisterComma, Eval, Computes, SubOp;
    CompareRows();
    MnemonicLine(toks, syms, at, obj, m, OpEntry(0x29, Cmpi, 0));
    var us, n := DropLabels(toks)[1..], Eval(ts, syms, true).value.0;
    assert us == [x, Comma] + ts && us[2..] == ts;
    Takes(us, rs1);
    if 0 <= n <= 65535 {
      assert Emits(toks, syms, at, obj, Instr(0x29, 0, rs1, n));
    }
    if Emits(toks, syms, at, obj, w) && Fetched(mode, s).1 == Some(w) {
      EmitsOne(toks, syms, at, obj, Instr(0x29, 0, rs1, n), w);
      FieldsOf(0x29, 0, rs1, n);
      ComparesTo(mode, s, w, Reads(s, rs1), n);
    }
  }

  lemma CompareRows()
    ensures Row("CMP") == Some(OpEntry(0x28, Cmp, 0)) && Row("CMPI") == Some(OpEntry(0x29, Cmpi, 0))
  {
  }

  lemma ComparesTo(mode: Mode, s: State, w: Word, a: Word, b: Word)
    requires Fetched(mode, s).1 == Some(w) && a == Reads(s, Rs1(w))
    requires (Opcode(w) == 0x28 && b == Reads(s, Rs2(w))) || (Opcode(w) == 0x29 && b == Imm16(w))
    ensures exists v, g :: Computes(Sub, a, b, s.core.flags, v, g) && Flagged(s, AfterInstruction(mode, s), g)
  {
    hide Fetched, Reads, Executed, Computes, SubOp, Rs1, Rs2, Rd, Imm16, Decode, Opcode, Performed;
    FetchedReads(mode, s, w);
    PerformedComputes(Sub, a, b, s.core.flags);
    var r := Performed(Sub, a, b, s.core.flags);
    CompareDecodes(Executed(mode, s).0.core, s.core.r[15], w);
    assert Flagged(s, AfterInstruction(mode, s), r.flags);
  }

  lemma CompareDecodes(c: Core, pc: Word, w: Word)
    ensures Opcode(w) == 0x28 ==> Decode(c, pc, w) == Compare(Performed(Sub, c.r[Rs1(w)], c.r[Rs2(w)], c.flags).flags)
    ensures Opcode(w) == 0x29 ==> Decode(c, pc, w) == Compare(Performed(Sub, c.r[Rs1(w)], Imm16(w), c.flags).flags)
  {
    hide SubOp, Rs1, Rs2, Rd, Imm16;
  }

  /* ---- No operands ---- */

  /** NOP is MOVI r0, 0: it clears r0, and changes nothing else but PC. HALT stops, with everything as it was. */
  lemma PlainInstruction(toks: Line, syms: Symtab, at: Word, obj: bool, m: string, mode: Mode, s: State, w: Word)
    requires UpperCase(m) in {"NOP", "HALT", "SYSCALL", "SYSRET", "SFENCE"} && Starts(toks, [Ident(m)])
    ensures Assembles(toks, syms, at, obj)
    ensures Emits(toks, syms, at, obj, w) && Fetched(mode, s).1 == Some(w) ==>
      var u, name := AfterInstruction(mode, s), UpperCase(m);
      && (name == "NOP" ==> Puts(s, u, 0, 0, s.core.flags))
      && (name == "HALT" ==> u.mem == s.mem && u.core.halted
                             && u.core.r == s.core.r[15 := Next(s)] && u.core.flags == s.core.flags)
      && (name == "SYSCALL" ==> Executed(mode, s).1 == Syscall)
      && (name == "SYSRET" ==> Executed(mode, s).1 == Sysret)
      && (name == "SFENCE" ==> Executed(mode, s).1 == Sfence)
  {
    hide UpperCase, Instr, LineBytes, Fetched, Opcode, Rd, Imm16, Puts, Executed, AfterInstruction, WordLe, Decode,
         PlainCode;
    var op := PlainCode(UpperCase(m));
    PlainWord(toks, syms, at, obj, m);
    PlainCodes(UpperCase(m));
    if Emits(toks, syms, at, obj, w) && Fetched(mode, s).1 == Some(w) {
      EmitsOne(toks, syms, at, obj, Instr(op, 0, 0, 0), w);
      FieldsOf(op, 0, 0, 0);
      FetchedReads(mode, s, w);
      PlainDecodes(Executed(mode, s).0.core, s.core.r[15], w);
      if op == 0x0F {
        PutsIt(mode, s, w, 0, 0, s.core.flags);
      }
    }
  }

  function PlainCode(m: string): Byte {
    match m
    case "NOP" => 0x0F
    case "HALT" => 0x12
    case "SYSCALL" => 0x10
    case "SYSRET" => 0x11
    case _ => 0x3E
  }

  lemma PlainCodes(m: string)
    requires m in {"NOP", "HALT", "SYSCALL", "SYSRET", "SFENCE"}
    ensures PlainCode(m) == 0x0F <==> m == "NOP"
    ensures PlainCode(m) == 0x12 <==> m == "HALT"
    ensures PlainCode(m) == 0x10 <==> m == "SYSCALL"
    ensures PlainCode(m) == 0x11 <==> m == "SYSRET"
    ensures PlainCode(m) == 0x3E <==> m == "SFENCE"
  {
  }

  lemma PlainWord(toks: Line, syms: Symtab, at: Word, obj: bool, m: string)
    requires UpperCase(m) in {"NOP", "HALT", "SYSCALL", "SYSRET", "SFENCE"} && Starts(toks, [Ident(m)])
    ensures Emits(toks, syms, at, obj, Instr(PlainCode(UpperCase(m)), 0, 0, 0))
  {
    hide UpperCase, Instr, LineBytes, WordLe, Row;
    PlainRows();
    MnemonicLine(toks, syms, at, obj, m, OpEntry(PlainCode(UpperCase(m)), NoOperands, 0));
  }

  lemma PlainRows()
    ensures Row("NOP") == Some(OpEntry(0x0F, NoOperands, 0)) && Row("HALT") == Some(OpEntry(0x12, NoOperands, 0))
    ensures Row("SYSCALL") == Some(OpEntry(0x10, NoOperands, 0)) && Row("SYSRET") == Some(OpEntry(0x11, NoOperands, 0))
    ensures Row("SFENCE") == Some(OpEntry(0x3E, NoOperands, 0))
  {
  }

  lemma PlainDecodes(c: Core, pc: Word, w: Word)
    ensures Opcode(w) == 0x0F && Rd(w) == 0 && Imm16(w) == 0 ==> Decode(c, pc, w) == Put(0, 0, c.flags)
    ensures Opcode(w) == 0x12 ==> Decode(c, pc, w) == Halt
    ensures Opcode(w) == 0x10 ==> Decode(c, pc, w) == Syscall
    ensures Opcode(w) == 0x11 ==> Decode(c, pc, w) == Sysret
    ensures Opcode(w) == 0x3E ==> Decode(c, pc, w) == Sfence
  {
    hide Rd, Rs1, Rs2, Imm16;
  }
}
