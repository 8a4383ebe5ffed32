/** The load, store and compare-and-swap lines: what they move between registers and memory. */
module Accesses {
  import opened Words
  import opened Memory
  import opened Mmu
  import opened OpTable
  import opened Lexer
  import opened Assembler
  import opened Cpu
  import opened Privilege
  import opened Instructions
  import opened Bits
  import Disasm

  /** What a mnemonic accesses: how many bytes, whether a narrow load extends the sign, and whether it is a store. */
  datatype Kind = Kind(n: Width, signed: bool, store: bool)

  /** `op rd, [rs1 + displacement]` */
  function Displaced(m: string): Option<Kind> {
    match m
    case "LW" => Some(Kind(4, false, false))
    case "LH" => Some(Kind(2, true, false))
    case "LHU" => Some(Kind(2, false, false))
    case "LB" => Some(Kind(1, true, false))
    case "LBU" => Some(Kind(1, false, false))
    case "SW" => Some(Kind(4, false, true))
    case "SH" => Some(Kind(2, false, true))
    case "SB" => Some(Kind(1, false, true))
    case _ => None
  }

  /** `op rd, [rs1 + rs2]` */
  function Indexed(m: string): Option<Kind> {
    match m
    case "LWX" => Some(Kind(4, false, false))
    case "LHX" => Some(Kind(2, true, false))
    case "LHUX" => Some(Kind(2, false, false))
    case "LBX" => Some(Kind(1, true, false))
    case "LBUX" => Some(Kind(1, false, false))
    case "SWX" => Some(Kind(4, false, true))
    case "SHX" => Some(Kind(2, false, true))
    case "SBX" => Some(Kind(1, false, true))
    case _ => None
  }

  function Address(base: Word, distance: int): Word {
    (base + distance) % 0x1_0000_0000
  }

  /* ---- What is loaded and stored ---- */

  /** The register after a load of `n` bytes at `p`: little-endian, and below 0 if signed and the top bit is set. */
  predicate Loaded(mem: Mem, p: nat, n: Width, signed: bool, v: Word)
    requires p + 4 <= 0x0400_0000
  {
    var b0: int, b1: int, b2: int, b3: int := mem[p], mem[p + 1], mem[p + 2], mem[p + 3];
    var h := b0 + 0x100 * b1;
    match n
    case 1 => v == if signed && b0 >= 0x80 then 0x1_0000_0000 + b0 - 0x100 else b0
    case 2 => v == if signed && h >= 0x8000 then 0x1_0000_0000 + h - 0x1_0000 else h
    case _ => v == h + 0x1_0000 * b2 + 0x100_0000 * b3
  }

  /** `n` bytes of `v`, the lowest first, are at `p`; every other byte is as it was. */
  predicate Stored(mem: Mem, mem': Mem, p: nat, n: Width, v: Word) {
    && (forall a :: 0 <= a < 0x0400_0000 && !(p <= a < p + n) ==> mem'[a] == mem[a])
    && p + n <= 0x0400_0000 && mem'[p] == v % 0x100
    && (n >= 2 ==> mem'[p + 1] == v / 0x100 % 0x100)
    && (n == 4 ==> mem'[p + 2] == v / 0x1_0000 % 0x100 && mem'[p + 3] == v / 0x100_0000)
  }

  lemma ReadLoads(mem: Mem, p: nat, n: Width, signed: bool)
    requires p + 4 <= 0x0400_0000
    ensures Loaded(mem, p, n, signed, Extend(ReadN(mem, p, n), n, signed))
  {
    hide SignExtend;
    var b0: int, b1: int := mem[p], mem[p + 1];
    ExtendSmall(b0, 0x100);
    ExtendSmall(b0 + 0x100 * b1, 0x1_0000);
    WholeWord(ReadN(mem, p, n));
  }

  lemma WholeWord(v: Word)
    ensures Wrap(SignExtend(v, 0x8000_0000)) == v
  {
  }

  lemma ExtendSmall(v: int, p: int)
    requires (p == 0x100 || p == 0x1_0000) && 0 <= v < p
    ensures Wrap(SignExtend(v, p / 2)) == if v >= p / 2 then 0x1_0000_0000 + v - p else v
  {
    if p == 0x100 {
      DivUnique(v, 0x100, 0, v);
    } else {
      DivUnique(v, 0x1_0000, 0, v);
    }
  }

  lemma WriteStores(mem: Mem, p: nat, n: Width, v: Word)
    requires p + n <= 0x0400_0000
    ensures Stored(mem, WriteN(mem, p, n, v), p, n, v)
  {
    WordBytes(v);
  }

  lemma RoomFor(p: Word, n: Width)
    requires p < 0x03F0_0000 && p % n == 0
    ensures p + 4 <= 0x0400_0000 && p + n <= 0x0400_0000
  {
  }

  /** Ordinary memory, properly aligned. */
  predicate Ram(p: Option<Word>, n: Width) {
    p.Some? && p.value < 0x03F0_0000 && p.value % n == 0
  }

  /** What executing the line does at `va`, if the translation leads to ordinary memory there. (Other addresses are
      the subject of `Devices` and `Causes`.) */
  ghost predicate Accessed(mode: Mode, s: State, k: Kind, rd: Reg, va: Word) {
    var t, u := Executed(mode, s).0, AfterInstruction(mode, s);
    var x := Xlated(mode, t, va, if k.store then Access.Store else Load);
    && Executed(mode, s).1 == (if k.store then StoreOp(va, k.n, Reads(s, rd)) else LoadOp(rd, va, k.n, k.signed))
    && (Ram(x.pa, k.n) ==>
          if k.store then Puts(s, u.(mem := s.mem), 15, Next(s), s.core.flags)
                          && Stored(x.mem, u.mem, x.pa.value, k.n, Reads(s, rd))
          else x.pa.value + 4 <= 0x0400_0000
               && exists v :: Puts(s, u, rd, v, s.core.flags) && Loaded(s.mem, x.pa.value, k.n, k.signed, v))
  }

  lemma LoadAccess(mode: Mode, s: State, w: Word, k: Kind, rd: Reg, va: Word)
    requires Fetched(mode, s).1 == Some(w) && !k.store && Executed(mode, s).1 == LoadOp(rd, va, k.n, k.signed)
    ensures Accessed(mode, s, k, rd, va)
  {
    hide Fetched, Decode, Xlated, ReadN, Executed, Extend, Loaded;
    FetchedReads(mode, s, w);
    var t, u := Executed(mode, s).0, AfterInstruction(mode, s);
    var x := Xlated(mode, t, va, Load);
    if Ram(x.pa, k.n) {
      var p := x.pa.value;
      RoomFor(p, k.n);
      OnlyStoresWrite(mode, t, va, Load);
      ReadLoads(s.mem, p, k.n, k.signed);
      var v := Extend(ReadN(s.mem, p, k.n), k.n, k.signed);
      LoadEffect(mode, t, va, rd, k.n, k.signed);
      assert Puts(s, u, rd, v, s.core.flags);
    }
  }

  lemma LoadEffect(mode: Mode, t: State, va: Word, rd: Reg, n: Width, signed: bool)
    requires Ram(Xlated(mode, t, va, Load).pa, n)
    ensures var u, x := Execute(mode, t, LoadOp(rd, va, n, signed)), Xlated(mode, t, va, Load);
      u.mem == x.mem && u.core == SetReg(t.core, rd, Extend(ReadN(x.mem, x.pa.value, n), n, signed))
    ensures Xlated(mode, t, va, Load).mem == Translate(mode, t, va, Load).0.mem
  {
    hide Xlated, ReadN, Extend;
  }

  lemma StoreAccess(mode: Mode, s: State, w: Word, k: Kind, rd: Reg, va: Word)
    requires Fetched(mode, s).1 == Some(w) && k.store && Executed(mode, s).1 == StoreOp(va, k.n, Reads(s, rd))
    ensures Accessed(mode, s, k, rd, va)
  {
    hide Fetched, Decode, Xlated, WriteN, Executed, Stored;
    FetchedReads(mode, s, w);
    var t, u := Executed(mode, s).0, AfterInstruction(mode, s);
    var x := Xlated(mode, t, va, Access.Store);
    if Ram(x.pa, k.n) {
      RoomFor(x.pa.value, k.n);
      WriteStores(x.mem, x.pa.value, k.n, Reads(s, rd));
    }
  }

  function AccessOp(k: Kind, rd: Reg, va: Word, v: Word): Op {
    if k.store then StoreOp(va, k.n, v) else LoadOp(rd, va, k.n, k.signed)
  }

  lemma AccessPerformed(mode: Mode, s: State, w: Word, k: Kind, rd: Reg, va: Word)
    requires Fetched(mode, s).1 == Some(w) && Executed(mode, s).1 == AccessOp(k, rd, va, Reads(s, rd))
    ensures Accessed(mode, s, k, rd, va)
  {
    hide Fetched, Executed, Accessed;
    if k.store {
      StoreAccess(mode, s, w, k, rd, va);
    } else {
      LoadAccess(mode, s, w, k, rd, va);
    }
  }

  /* ---- The lines ---- */

  /** The opcode of a mnemonic in the assembler's table. */
  function CodeOf(m: string): Byte {
    match m
    case "LW" => 0x0B case "LH" => 0x1C case "LHU" => 0x1D case "LB" => 0x1E case "LBU" => 0x1F
    case "SW" => 0x0C case "SH" => 0x20 case "SB" => 0x21
    case "LWX" => 0x30 case "LHX" => 0x35 case "LHUX" => 0x36 case "LBX" => 0x31 case "LBUX" => 0x32
    case "SWX" => 0x33 case "SHX" => 0x37 case _ => 0x34
  }

  lemma DisplacedRow(m: string)
    requires Displaced(m).Some?
    ensures Row(m) == Some(OpEntry(CodeOf(m), OpTable.Mem, 0))
  {
  }

  lemma IndexedRow(m: string)
    requires Indexed(m).Some?
    ensures Row(m) == Some(OpEntry(CodeOf(m), MemIdx, 0))
  {
  }

  lemma DisplacedDecodes(m: string, c: Core, pc: Word, w: Word)
    requires Displaced(m).Some? && Opcode(w) == CodeOf(m)
    ensures Decode(c, pc, w) == AccessOp(Displaced(m).value, Rd(w), Address(c.r[Rs1(w)], Simm(w)), c.r[Rd(w)])
  {
    hide Rd, Rs1, Rs2, Simm;
  }

  lemma IndexedDecodes(m: string, c: Core, pc: Word, w: Word)
    requires Indexed(m).Some? && Opcode(w) == CodeOf(m)
    ensures Decode(c, pc, w) == AccessOp(Indexed(m).value, Rd(w), Address(c.r[Rs1(w)], c.r[Rs2(w)]), c.r[Rd(w)])
  {
    hide Rd, Rs1, Rs2;
  }

  /** The displacement the machine adds: the written one, if it fits in 16 bits with sign; the assembler does not
      check, and of any other only the residue modulo 2^16 is left. */
  predicate Displacement(written: int, d: int) {
    -32768 <= d <= 32767 && (written - d) % 0x1_0000 == 0
  }

  lemma DisplacementKept(written: int, d: int)
    requires Displacement(written, d)
    ensures d == written <==> -32768 <= written <= 32767
  {
  }

  /** The operand `ts` means base register `rs1` with displacement `n`. */
  predicate Operand(ts: seq<Token>, syms: Symtab, rs1: Reg, n: int) {
    // [rs1]
    || (|ts| >= 3 && ts[0] == LBracket && Names(ts[1], rs1) && ts[2] == RBracket && n == 0)
    // [rs1 + n] and [rs1 - n]
    || (|ts| >= 4 && ts[0] == LBracket && Names(ts[1], rs1) && (ts[2] == Plus || ts[2] == Minus)
        && Eval(ts[3..], syms, true).Some?
        && var (v, rest) := Eval(ts[3..], syms, true).value;
           rest != [] && rest[0] == RBracket && n == if ts[2] == Plus then v else -v)
    // rs1
    || (|ts| == 1 && Names(ts[0], rs1) && n == 0)
    // rs1, n
    || (|ts| >= 2 && Names(ts[0], rs1) && ts[1] == Comma && Eval(ts[2..], syms, true).Some?
        && n == Eval(ts[2..], syms, true).value.0)
  }

  lemma OperandTaken(ts: seq<Token>, syms: Symtab, rs1: Reg, n: int)
    requires Operand(ts, syms, rs1, n)
    ensures MemOperand(ts, syms) == Some((rs1, n))
  {
    hide Eval, Names, Register;
    BracketNames(rs1);
    if ts[0] == LBracket {
      Takes(ts[1..], rs1);
      assert ts[1..][1..] == ts[2..] && ts[2..][1..] == ts[3..];
    } else {
      Takes(ts, rs1);
      if |ts| >= 2 {
        assert ts[1..][1..] == ts[2..];
      }
    }
  }

  lemma BracketNames(r: Reg)
    ensures !Names(LBracket, r)
  {
  }

  lemma DisplacedWord(toks: Line, syms: Symtab, at: Word, obj: bool, m: string, x: Token, ts: seq<Token>, rd: Reg,
                      rs1: Reg, n: int)
    requires Displaced(UpperCase(m)).Some? && DropLabels(toks) == [Ident(m), x, Comma] + ts
    requires Names(x, rd) && Operand(ts, syms, rs1, n)
    ensures Emits(toks, syms, at, obj, Instr(CodeOf(UpperCase(m)), rd, rs1, n % 0x1_0000))
  {
    hide UpperCase, Instr, LineBytes, WordLe, Names, Row, RegisterComma, Displaced, CodeOf, MemOperand, Operand,
         DropLabels;
    var op := CodeOf(UpperCase(m));
    DisplacedRow(UpperCase(m));
    MnemonicLine(toks, syms, at, obj, m, OpEntry(op, OpTable.Mem, 0));
    var us := DropLabels(toks)[1..];
    assert us == [x, Comma] + ts && us[2..] == ts;
    Takes(us, rd);
    OperandTaken(ts, syms, rs1, n);
  }

  /** Main result for `op rd, operand`: the line assembles, and its word loads or stores at base plus displacement. */
  lemma DisplacedInstruction(toks: Line, syms: Symtab, at: Word, obj: bool, m: string, x: Token, ts: seq<Token>,
                             rd: Reg, rs1: Reg, n: int, mode: Mode, s: State, w: Word)
    requires Displaced(UpperCase(m)).Some? && DropLabels(toks) == [Ident(m), x, Comma] + ts
    requires Names(x, rd) && Operand(ts, syms, rs1, n)
    ensures Assembles(toks, syms, at, obj)
    ensures Emits(toks, syms, at, obj, w) && Fetched(mode, s).1 == Some(w) ==>
      exists d :: Displacement(n, d)
                  && Accessed(mode, s, Displaced(UpperCase(m)).value, rd, Address(Reads(s, rs1), d))
  {
    hide UpperCase, Instr, LineBytes, Fetched, Opcode, Rd, Rs1, Rs2, Imm16, Reads, Executed, AfterInstruction, WordLe,
         Names, Row, RegisterComma, Displaced, CodeOf, Decode, Accessed, MemOperand, Operand, Address, Simm;
    var k, op := Displaced(UpperCase(m)).value, CodeOf(UpperCase(m));
    var v := Instr(op, rd, rs1, n % 0x1_0000);
    DisplacedWord(toks, syms, at, obj, m, x, ts, rd, rs1, n);
    if Emits(toks, syms, at, obj, w) && Fetched(mode, s).1 == Some(w) {
      EmitsOne(toks, syms, at, obj, v, w);
      FieldsOf(op, rd, rs1, n % 0x1_0000);
      FetchedReads(mode, s, w);
      var d := Simm(w);
      DisplacementRead(w, n);
      DisplacedDecodes(UpperCase(m), Executed(mode, s).0.core, s.core.r[15], w);
      AccessPerformed(mode, s, w, k, rd, Address(Reads(s, rs1), d));
    }
  }

  lemma DisplacementRead(w: Word, n: int)
    requires Imm16(w) == n % 0x1_0000
    ensures Displacement(n, Simm(w))
  {
    var x := n % 0x1_0000;
    assert Simm(w) == if x < 0x8000 then x else x - 0x1_0000;
  }

  /** The operand `ts` is `[rs1 + rs2]`, or `[rs1]`, which stands for `[rs1 + r0]`. */
  predicate IndexOperand(ts: seq<Token>, rs1: Reg, rs2: Reg) {
    |ts| >= 3 && ts[0] == LBracket && Names(ts[1], rs1)
    && ((|ts| >= 5 && ts[2] == Plus && Names(ts[3], rs2) && ts[4] == RBracket) || (ts[2] == RBracket && rs2 == 0))
  }

  lemma IndexedWord(toks: Line, syms: Symtab, at: Word, obj: bool, m: string, x: Token, ts: seq<Token>, rd: Reg,
                    rs1: Reg, rs2: Reg)
    requires Indexed(UpperCase(m)).Some? && DropLabels(toks) == [Ident(m), x, Comma] + ts
    requires Names(x, rd) && IndexOperand(ts, rs1, rs2)
    ensures Emits(toks, syms, at, obj, Instr(CodeOf(UpperCase(m)), rd, rs1, rs2 * 0x1000))
  {
    hide UpperCase, Instr, LineBytes, WordLe, Names, Row, Indexed, CodeOf, IndexOperands, DropLabels, IndexOperand;
    var op := CodeOf(UpperCase(m));
    IndexedRow(UpperCase(m));
    MnemonicLine(toks, syms, at, obj, m, OpEntry(op, MemIdx, 0));
    var us := DropLabels(toks)[1..];
    assert us == [x, Comma] + ts && us[2..] == ts;
    IndexTaken(us, ts, rd, rs1, rs2);
  }

  /** Main result for `op rd, [rs1 + rs2]` and `op rd, [rs1]`: the address is the sum of the two registers, the second
      of which is r0 when none is written. */
  lemma IndexedInstruction(toks: Line, syms: Symtab, at: Word, obj: bool, m: string, x: Token, ts: seq<Token>,
                           rd: Reg, rs1: Reg, rs2: Reg, mode: Mode, s: State, w: Word)
    requires Indexed(UpperCase(m)).Some? && DropLabels(toks) == [Ident(m), x, Comma] + ts
    requires Names(x, rd) && IndexOperand(ts, rs1, rs2)
    ensures Assembles(toks, syms, at, obj)
    ensures Emits(toks, syms, at, obj, w) && Fetched(mode, s).1 == Some(w) ==>
      Accessed(mode, s, Indexed(UpperCase(m)).value, rd, Address(Reads(s, rs1), Reads(s, rs2)))
  {
    hide UpperCase, Instr, LineBytes, Fetched, Opcode, Rd, Rs1, Rs2, Imm16, Reads, Executed, AfterInstruction, WordLe,
         Names, Row, Indexed, CodeOf, Decode, Accessed, IndexOperands, Address, DropLabels, IndexOperand;
    var k, op := Indexed(UpperCase(m)).value, CodeOf(UpperCase(m));
    var v := Instr(op, rd, rs1, rs2 * 0x1000);
    IndexedWord(toks, syms, at, obj, m, x, ts, rd, rs1, rs2);
    if Emits(toks, syms, at, obj, w) && Fetched(mode, s).1 == Some(w) {
      EmitsOne(toks, syms, at, obj, v, w);
      FieldsOf(op, rd, rs1, rs2 * 0x1000);
      FetchedReads(mode, s, w);
      IndexedDecodes(UpperCase(m), Executed(mode, s).0.core, s.core.r[15], w);
      AccessPerformed(mode, s, w, k, rd, Address(Reads(s, rs1), Reads(s, rs2)));
    }
  }

  lemma IndexTaken(us: seq<Token>, ts: seq<Token>, rd: Reg, rs1: Reg, rs2: Reg)
    requires |us| >= 2 && Names(us[0], rd) && us[1] == Comma && us[2..] == ts && IndexOperand(ts, rs1, rs2)
    ensures IndexOperands(us) == Some((rd, rs1, rs2))
  {
    hide Names, Register, RegisterComma;
    Takes(us, rd);
    Takes(ts[1..], rs1);
    var t2 := ts[1..][1..];
    assert t2[0] == ts[2];
    if ts[2] == Plus {
      assert t2[1..] == ts[3..];
      Takes(ts[3..], rs2);
      assert ts[3..][1..][0] == ts[4];
    }
  }

  /* ---- Compare and swap ---- */

  /** CAS rd, rs1, rs2 on an aligned word of ordinary memory, without translation: if the word at rs1 is rd's value,
      it becomes rs2's value and Z is set; if not, rd becomes the word and Z is cleared. Nothing else changes. */
  predicate Swapped(s: State, u: State, rd: Reg, a: Word, value: Word)
    requires a + 4 <= 0x0400_0000
  {
    var was := Read32(s.mem, a);
    if was == Reads(s, rd) then
      && Stored(s.mem, u.mem, a, 4, value)
      && Flagged(s, u.(mem := s.mem), u.core.flags)
      && u.core.flags / 0x4000_0000 % 2 == 1 && u.core.flags / 0x8000_0000 == s.core.flags / 0x8000_0000
      && u.core.flags % 0x4000_0000 == s.core.flags % 0x4000_0000
    else
      && Puts(s, u, rd, was, u.core.flags)
      && u.core.flags / 0x4000_0000 % 2 == 0 && u.core.flags / 0x8000_0000 == s.core.flags / 0x8000_0000
      && u.core.flags % 0x4000_0000 == s.core.flags % 0x4000_0000
  }

  lemma SwapInstruction(toks: Line, syms: Symtab, at: Word, obj: bool, m: string, x: Token, y: Token, z: Token,
                        rd: Reg, rs1: Reg, rs2: Reg, mode: Mode, s: State, w: Word)
    requires UpperCase(m) == "CAS" && Starts(toks, [Ident(m), x, Comma, y, Comma, z])
    requires Names(x, rd) && Names(y, rs1) && Names(z, rs2)
    ensures Assembles(toks, syms, at, obj)
    ensures Emits(toks, syms, at, obj, w) && Fetched(mode, s).1 == Some(w)
            && Reads(s, rs1) < 0x03F0_0000 && Reads(s, rs1) % 4 == 0 ==>
      Swapped(s, AfterInstruction(mode, s), rd, Reads(s, rs1), Reads(s, rs2))
  {
    hide UpperCase, Instr, LineBytes, Fetched, Opcode, Rd, Rs1, Rs2, Imm16, Reads, Executed, AfterInstruction, WordLe,
         Names, Row, Decode, Swapped, DropLabels;
    SwapRow();
    ThreeRegisterWord(toks, syms, at, obj, m, x, y, z, rd, rs1, rs2, 0x3D);
    if Emits(toks, syms, at, obj, w) && Fetched(mode, s).1 == Some(w)
       && Reads(s, rs1) < 0x03F0_0000 && Reads(s, rs1) % 4 == 0 {
      EmitsOne(toks, syms, at, obj, Instr(0x3D, rd, rs1, rs2 * 0x1000), w);
      FieldsOf(0x3D, rd, rs1, rs2 * 0x1000);
      FetchedReads(mode, s, w);
      SwapDecodes(Executed(mode, s).0.core, s.core.r[15], w);
      SwapEffect(mode, s, w, rd, Reads(s, rs1), rs2);
    }
  }

  lemma SwapRow()
    ensures Row("CAS") == Some(OpEntry(0x3D, R3, 0))
  {
  }

  lemma SwapDecodes(c: Core, pc: Word, w: Word)
    requires Opcode(w) == 0x3D
    ensures Decode(c, pc, w) == Op.Cas(Rd(w), c.r[Rs1(w)], Rs2(w))
  {
    hide Rd, Rs1, Rs2;
  }

  lemma SwapEffect(mode: Mode, s: State, w: Word, rd: Reg, a: Word, rs2: Reg)
    requires Fetched(mode, s).1 == Some(w) && Executed(mode, s).1 == Op.Cas(rd, a, rs2) && a < 0x03F0_0000 && a % 4 == 0
    ensures Swapped(s, AfterInstruction(mode, s), rd, a, Reads(s, rs2))
  {
    hide Fetched, Decode, Executed, Read32, Write32, OrW, And, Stored, ExecuteCas, Reads;
    FetchedReads(mode, s, w);
    WriteStores(s.mem, a, 4, Reads(s, rs2));
    SwapMoves(Executed(mode, s).0, rd, a, rs2);
    ZeroSet(s.core.flags);
    ZeroCleared(s.core.flags);
  }

  lemma SwapMoves(t: State, rd: Reg, a: Word, rs2: Reg)
    requires a < 0x03F0_0000 && a % 4 == 0
    ensures var u, was := ExecuteCas(t, rd, a, rs2), Read32(t.mem, a);
      if was == t.core.r[rd] then
        u == t.(mem := WriteN(t.mem, a, 4, t.core.r[rs2]), core := t.core.(flags := OrW(t.core.flags, 0x4000_0000)))
      else
        u == t.(core := SetReg(t.core, rd, was).(flags := t.core.flags - And(t.core.flags, 0x4000_0000)))
  {
    hide Read32, Write32, OrW, And;
  }

  /** Bit 30 and the two parts around it. */
  lemma Around(f: Word, b: nat)
    requires b < 2
    ensures var q, low := f / 0x4000_0000, f % 0x4000_0000;
      var g := q / 2 * 0x8000_0000 + b * 0x4000_0000 + low;
      && g < 0x1_0000_0000 && g / 0x4000_0000 % 2 == b && g / 0x8000_0000 == q / 2 && g % 0x4000_0000 == low
  {
    var q, low := f / 0x4000_0000, f % 0x4000_0000;
    var g := q / 2 * 0x8000_0000 + b * 0x4000_0000 + low;
    DivUnique(g, 0x4000_0000, q / 2 * 2 + b, low);
    DivUnique(g, 0x8000_0000, q / 2, b * 0x4000_0000 + low);
    DivUnique(q / 2 * 2 + b, 2, q / 2, b);
  }

  lemma Thirty(f: Word)
    ensures And(f, 0x4000_0000) == f / 0x4000_0000 % 2 * 0x4000_0000
    ensures f == f / 0x4000_0000 / 2 * 0x8000_0000 + f / 0x4000_0000 % 2 * 0x4000_0000 + f % 0x4000_0000
  {
    hide And, Pow2;
    Pow2Thirty();
    AndPower(f, 30);
  }

  lemma ZeroSet(f: Word)
    ensures var g := OrW(f, 0x4000_0000);
      g / 0x4000_0000 % 2 == 1 && g / 0x8000_0000 == f / 0x8000_0000 && g % 0x4000_0000 == f % 0x4000_0000
  {
    hide And;
    Thirty(f);
    Around(f, 1);
    Around(f, f / 0x4000_0000 % 2);
    assert OrW(f, 0x4000_0000) == f + 0x4000_0000 - And(f, 0x4000_0000);
  }

  lemma ZeroCleared(f: Word)
    ensures var g := f - And(f, 0x4000_0000);
      g / 0x4000_0000 % 2 == 0 && g / 0x8000_0000 == f / 0x8000_0000 && g % 0x4000_0000 == f % 0x4000_0000
  {
    hide And;
    Thirty(f);
    Around(f, 0);
    Around(f, f / 0x4000_0000 % 2);
  }

  lemma Pow2Thirty()
    ensures Pow2(30) == 0x4000_0000
  {
    Pow2Literals();
  }

  /** And with a single bit. */
  lemma {:induction false} AndPower(x: nat, n: nat)
    ensures And(x, Pow2(n)) == x / Pow2(n) % 2 * Pow2(n)
  {
    hide And;
    AndHalves(x, Pow2(n));
    if n == 0 {
      AndZero(x / 2);
    } else {
      AndPower(x / 2, n - 1);
      HalfDivides(x, Pow2(n - 1));
      TwiceProduct(x / 2 / Pow2(n - 1) % 2, Pow2(n - 1));
      assert Pow2(n) / 2 == Pow2(n - 1) && Pow2(n) % 2 == 0;
    }
  }

  lemma AndZero(x: nat)
    ensures And(x, 0) == 0
  {
  }
}
