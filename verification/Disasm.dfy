/** The emulator's disassembler, and the theorem that assembling its output gives the instruction back. */
module Disasm {
  import opened Words
  import opened OpTable
  import opened Lexer
  import opened Assembler
  import Cpu
  import Linker

  /* ---- printf ---- */

  function DigitChar(d: nat): (c: char)
    requires d < 16
    ensures DigitValue(c) == d && IsIdentChar(c) && (d < 10 ==> IsDigit(c)) && (d != 0 ==> c != '0')
  {
    if d < 10 then ('0' as int + d) as char else ('A' as int + d - 10) as char
  }

  /** %u */
  function Dec(n: nat): (s: string)
    ensures s != ""
  {
    if n < 10 then [DigitChar(n)] else Dec(n / 10) + [DigitChar(n % 10)]
  }

  /** %d */
  function SignedDec(v: int): string {
    if v < 0 then "-" + Dec(-v) else Dec(v)
  }

  /** %0nX of a number below 16^n */
  function Hex(v: nat, n: nat): (s: string)
    ensures |s| == n
  {
    if n == 0 then "" else Hex(v / 16, n - 1) + [DigitChar(v % 16)]
  }

  /* ---- The listing of an instruction ---- */

  function RegName(r: Cpu.Reg): string {
    match r
    case 0 => "r0"
    case 1 => "r1"
    case 2 => "r2"
    case 3 => "r3"
    case 4 => "r4"
    case 5 => "r5"
    case 6 => "r6"
    case 7 => "r7"
    case 8 => "r8"
    case 9 => "r9"
    case 10 => "r10"
    case 11 => "r11"
    case 12 => "r12"
    case 13 => "sp"
    case 14 => "lr"
    case _ => "pc"
  }

  function CondName(cond: Cpu.Reg): string
    requires cond < 11
  {
    match cond
    case 0 => "BEQ"
    case 1 => "BNE"
    case 2 => "BLT"
    case 3 => "BGE"
    case 4 => "BLTU"
    case 5 => "BGEU"
    case 6 => "BA"
    case 7 => "BGT"
    case 8 => "BLE"
    case 9 => "BGTU"
    case _ => "BLEU"
  }

  /** Mnemonic and operand layout of every opcode but the branches; None for an unknown one. */
  function Listing(op: int): Option<(string, Format)> {
    match op
    case 0x00 => Some(("ADD", R3))
    case 0x01 => Some(("SUB", R3))
    case 0x02 => Some(("AND", R3))
    case 0x03 => Some(("OR", R3))
    case 0x04 => Some(("XOR", R3))
    case 0x05 => Some(("NOT", R2))
    case 0x06 => Some(("LSL", RShift))
    case 0x07 => Some(("LSR", RShift))
    case 0x08 => Some(("ASR", RShift))
    case 0x09 => Some(("MUL", R3))
    case 0x0A => Some(("DIV", R3))
    case 0x0B => Some(("LW", Mem))
    case 0x0C => Some(("SW", Mem))
    case 0x0E => Some(("JMP", Jump))
    case 0x0F => Some(("MOVI", Movi))
    case 0x10 => Some(("SYSCALL", NoOperands))
    case 0x11 => Some(("SYSRET", NoOperands))
    case 0x12 => Some(("HALT", NoOperands))
    case 0x13 => Some(("MOVHI", Movhi))
    case 0x14 => Some(("ADDI", ISigned))
    case 0x15 => Some(("SUBI", ISigned))
    case 0x16 => Some(("ANDI", IUnsigned))
    case 0x17 => Some(("ORI", IUnsigned))
    case 0x18 => Some(("XORI", IUnsigned))
    case 0x19 => Some(("LSLI", IShift))
    case 0x1A => Some(("LSRI", IShift))
    case 0x1B => Some(("ASRI", IShift))
    case 0x1C => Some(("LH", Mem))
    case 0x1D => Some(("LHU", Mem))
    case 0x1E => Some(("LB", Mem))
    case 0x1F => Some(("LBU", Mem))
    case 0x20 => Some(("SH", Mem))
    case 0x21 => Some(("SB", Mem))
    case 0x22 => Some(("MULH", R3))
    case 0x23 => Some(("MULHU", R3))
    case 0x24 => Some(("DIVU", R3))
    case 0x25 => Some(("MOD", R3))
    case 0x26 => Some(("MODU", R3))
    case 0x27 => Some(("MOV", R2))
    case 0x28 => Some(("CMP", Cmp))
    case 0x29 => Some(("CMPI", Cmpi))
    case 0x2A => Some(("CALLR", R2))
    case 0x2B => Some(("ADDC", R3))
    case 0x2C => Some(("SUBC", R3))
    case 0x2D => Some(("LSLR", R3))
    case 0x2E => Some(("LSRR", R3))
    case 0x2F => Some(("ASRR", R3))
    case 0x30 => Some(("LWX", MemIdx))
    case 0x31 => Some(("LBX", MemIdx))
    case 0x32 => Some(("LBUX", MemIdx))
    case 0x33 => Some(("SWX", MemIdx))
    case 0x34 => Some(("SBX", MemIdx))
    case 0x35 => Some(("LHX", MemIdx))
    case 0x36 => Some(("LHUX", MemIdx))
    case 0x37 => Some(("SHX", MemIdx))
    case 0x38 => Some(("LUI", Movi))
    case 0x39 => Some(("ROLR", R3))
    case 0x3A => Some(("RORR", R3))
    case 0x3B => Some(("ROLI", RShift))
    case 0x3C => Some(("RORI", RShift))
    case 0x3D => Some(("CAS", R3))
    case 0x3E => Some(("SFENCE", NoOperands))
    case 0x3F => Some(("KRET", NoOperands))
    case _ => None
  }

  /** %-4s and the space after it. */
  function Padded(name: string): string {
    name + Spaces(if |name| < 4 then 5 - |name| else 1)
  }

  function Spaces(n: nat): (s: string)
    ensures |s| == n && forall i :: 0 <= i < n ==> s[i] == ' '
  {
    seq(n, _ => ' ')
  }

  function Target(addr: Word, w: Word): Word {
    Wrap(addr + Cpu.Soff(w))
  }

  /** The operands as printed. */
  function Operands(fmt: Format, addr: Word, w: Word): string {
    var rd, rs1, rs2 := RegName(Cpu.Rd(w)), RegName(Cpu.Rs1(w)), RegName(Cpu.Rs2(w));
    match fmt
    case R3 => rd + "," + rs1 + "," + rs2
    case R2 => rd + "," + rs1
    case RShift => rd + "," + rs1 + "," + Dec(Cpu.Shift(w))
    case ISigned => rd + "," + rs1 + "," + SignedDec(Cpu.Simm(w))
    case IUnsigned => rd + "," + rs1 + ",0x" + Hex(Cpu.Imm16(w), 4)
    case IShift => rd + "," + rs1 + "," + Dec(Cpu.Imm16(w) % 0x20)
    case Mem => rd + ",[" + rs1 + "+" + SignedDec(Cpu.Simm(w)) + "]"
    case MemIdx => rd + ",[" + rs1 + "+" + rs2 + "]"
    case Jump => rd + ",0x" + Hex(Target(addr, w), 8)
    case Movi => rd + ",0x" + Hex(Cpu.Imm16(w), 4)
    case Movhi => rd + ",0x" + Hex(Cpu.Imm16(w), 4)
    case Cmp => rs1 + "," + rs2
    case Cmpi => rs1 + "," + SignedDec(Cpu.Simm(w))
    case _ => ""
  }

  function Disassemble(addr: Word, w: Word): string {
    if Cpu.Opcode(w) == 0x0D then
      if Cpu.Rd(w) < 11 then Padded(CondName(Cpu.Rd(w))) + "0x" + Hex(Target(addr, w), 8)
      else "B??" + ("  (illegal cond " + Dec(Cpu.Rd(w)) + ")")
    else
      match Listing(Cpu.Opcode(w))
      case None => "???" + (" (0x" + Hex(w, 8) + ")")
      case Some((name, fmt)) => if fmt.NoOperands? then name else Padded(name) + Operands(fmt, addr, w)
  }

  /* ---- Reading it back ---- */

  predicate Reads(s: string, ts: seq<Token>) {
    Tokenize(s) == Some(ts)
  }

  /** What may follow a word or a number: nothing, or a mark that ends it. */
  predicate Ends(s: string) {
    s == "" || s[0] == ',' || s[0] == '+' || s[0] == ']'
  }

  lemma ReadsMark(c: char, s: string, ts: seq<Token>)
    requires Reads(s, ts) && Punctuation(c).Some?
    ensures Reads([c] + s, [Punctuation(c).value] + ts)
  {
    var t := [c] + s;
    assert t[1..] == s;
    assert SkipBlanks(t) == t;
  }

  lemma {:induction false} IdentPrefix(x: string, s: string)
    requires forall i :: 0 <= i < |x| ==> IsIdentChar(x[i])
    requires s == "" || !IsIdentChar(s[0])
    ensures IdentLength(x + s) == |x|
  {
    if x == "" {
      assert x + s == s;
    } else {
      assert (x + s)[1..] == x[1..] + s;
      IdentPrefix(x[1..], s);
    }
  }

  predicate IsName(x: string) {
    x != "" && !IsDigit(x[0]) && forall i :: 0 <= i < |x| ==> IsIdentChar(x[i])
  }

  lemma {:induction false} SkipSpaces(n: nat, s: string)
    requires s == "" || !IsBlank(s[0])
    ensures SkipBlanks(Spaces(n) + s) == s
  {
    if n == 0 {
      assert Spaces(0) + s == s;
    } else {
      assert (Spaces(n) + s)[1..] == Spaces(n - 1) + s;
      SkipSpaces(n - 1, s);
    }
  }

  lemma ReadsName(x: string, n: nat, s: string, ts: seq<Token>)
    requires IsName(x) && Reads(s, ts)
    requires s == "" || (!IsBlank(s[0]) && s[0] != ':' && (n == 0 ==> !IsIdentChar(s[0])))
    ensures Reads(x + (Spaces(n) + s), [Ident(x)] + ts)
  {
    var rest := Spaces(n) + s;
    var t := x + rest;
    IdentPrefix(x, rest);
    SkipSpaces(n, s);
    assert t[0] == x[0];
    assert SkipBlanks(t) == t;
    assert t[..|x|] == x && t[|x|..] == rest;
    assert Punctuation(t[0]).None?;
  }

  lemma RegIsName(r: Cpu.Reg)
    ensures IsName(RegName(r))
  {
  }

  function Reg(r: Cpu.Reg): Token {
    Ident(RegName(r))
  }

  lemma ReadsReg(r: Cpu.Reg, s: string, ts: seq<Token>)
    requires Reads(s, ts) && Ends(s)
    ensures Reads(RegName(r) + s, [Reg(r)] + ts)
  {
    hide RegName;
    RegIsName(r);
    assert Spaces(0) + s == s;
    ReadsName(RegName(r), 0, s, ts);
  }

  /* ---- Numbers ---- */

  predicate AllDigits(d: string, base: nat) {
    forall i :: 0 <= i < |d| ==> DigitValue(d[i]) < base
  }

  lemma {:induction false} DigitsPrefix(d: string, s: string, base: nat)
    requires AllDigits(d, base) && (s == "" || DigitValue(s[0]) >= base)
    ensures DigitsLength(d + s, base) == |d|
  {
    if d == "" {
      assert d + s == s;
    } else {
      assert (d + s)[1..] == d[1..] + s;
      DigitsPrefix(d[1..], s, base);
    }
  }

  lemma {:induction false} DecFacts(n: nat)
    ensures AllDigits(Dec(n), 10) && (forall i :: 0 <= i < |Dec(n)| ==> IsDigit(Dec(n)[i]))
    ensures DigitsValue(Dec(n), 10) == n && (n > 0 ==> Dec(n)[0] != '0')
  {
    if n < 10 {
      assert DigitsValue(Dec(n)[..0], 10) == 0;
    } else {
      DecFacts(n / 10);
      assert Dec(n)[..|Dec(n)| - 1] == Dec(n / 10);
    }
  }

  lemma {:induction false} HexFacts(v: nat, n: nat)
    requires v < Pow2(4 * n)
    ensures AllDigits(Hex(v, n), 16) && DigitsValue(Hex(v, n), 16) == v
  {
    if n == 0 {
    } else {
      assert Pow2(4 * n) == 16 * Pow2(4 * (n - 1)) by {
        assert Pow2(4 * n) == 2 * Pow2(4 * n - 1) && Pow2(4 * n - 1) == 2 * Pow2(4 * n - 2);
        assert Pow2(4 * n - 2) == 2 * Pow2(4 * n - 3) && Pow2(4 * n - 3) == 2 * Pow2(4 * n - 4);
      }
      HexFacts(v / 16, n - 1);
      assert Hex(v, n)[..n - 1] == Hex(v / 16, n - 1);
    }
  }

  lemma ReadsNumber(t: string, v: int, n: nat, s: string, ts: seq<Token>)
    requires t != "" && IsDigit(t[0]) && ParseNumber(t) == (v, n) && t[n..] == s && Reads(s, ts)
    ensures Reads(t, [Int(v)] + ts)
  {
    assert SkipBlanks(t) == t;
    assert Punctuation(t[0]).None?;
  }

  lemma ReadsDec(n: nat, s: string, ts: seq<Token>)
    requires n < 0x1_0000_0000 && Reads(s, ts) && Ends(s)
    ensures Reads(Dec(n) + s, [Int(n)] + ts)
  {
    var d, t := Dec(n), Dec(n) + s;
    DecFacts(n);
    DigitsPrefix(d, s, 10);
    assert t[..|d|] == d && t[|d|..] == s && t[0] == d[0];
    if n == 0 {
      assert d == "0";
      assert |t| >= 2 ==> t[1] == s[0];
      DigitsPrefix(d, s, 8);
      assert DigitsValue(d[..0], 8) == 0;
    }
    ReadsNumber(t, n, |d|, s, ts);
  }

  lemma ReadsHex(v: nat, n: nat)
    requires n >= 1 && v < Pow2(4 * n) && v < 0x1_0000_0000
    ensures Reads("0x" + Hex(v, n), [Int(v)])
  {
    var d, t := Hex(v, n), "0x" + Hex(v, n);
    HexFacts(v, n);
    assert d + "" == d;
    DigitsPrefix(d, "", 16);
    assert t[2..] == d && t[2..2 + n] == d && t[2] == d[0];
    assert [Int(v)] + [] == [Int(v)];
    ReadsNumber(t, v, 2 + n, "", []);
  }

  function NumTokens(v: int): seq<Token> {
    if v < 0 then [Minus, Int(-v)] else [Int(v)]
  }

  lemma ReadsSigned(v: int, s: string, ts: seq<Token>)
    requires -0x1_0000_0000 < v < 0x1_0000_0000 && Reads(s, ts) && Ends(s)
    ensures Reads(SignedDec(v) + s, NumTokens(v) + ts)
  {
    hide Reads, Dec, Ends;
    if v < 0 {
      ReadsDec(-v, s, ts);
      ReadsMark('-', Dec(-v) + s, [Int(-v)] + ts);
      assert SignedDec(v) + s == ['-'] + (Dec(-v) + s);
      assert NumTokens(v) + ts == [Minus] + ([Int(-v)] + ts);
    } else {
      ReadsDec(v, s, ts);
    }
  }

  /* ---- Operands ---- */

  /** The tokens of the printed operands. */
  function OperandTokens(fmt: Format, addr: Word, w: Word): seq<Token> {
    var rd, rs1, rs2 := Reg(Cpu.Rd(w)), Reg(Cpu.Rs1(w)), Reg(Cpu.Rs2(w));
    match fmt
    case R3 => [rd, Comma, rs1, Comma, rs2]
    case R2 => [rd, Comma, rs1]
    case RShift => [rd, Comma, rs1, Comma, Int(Cpu.Shift(w))]
    case ISigned => [rd, Comma, rs1, Comma] + NumTokens(Cpu.Simm(w))
    case IUnsigned => [rd, Comma, rs1, Comma, Int(Cpu.Imm16(w))]
    case IShift => [rd, Comma, rs1, Comma, Int(Cpu.Imm16(w) % 0x20)]
    case Mem => [rd, Comma, LBracket, rs1, Plus] + NumTokens(Cpu.Simm(w)) + [RBracket]
    case MemIdx => [rd, Comma, LBracket, rs1, Plus, rs2, RBracket]
    case Jump => [rd, Comma, Int(Target(addr, w))]
    case Movi => [rd, Comma, Int(Cpu.Imm16(w))]
    case Movhi => [rd, Comma, Int(Cpu.Imm16(w))]
    case Cmp => [rs1, Comma, rs2]
    case Cmpi => [rs1, Comma] + NumTokens(Cpu.Simm(w))
    case _ => []
  }

  lemma ReadsRegComma(r: Cpu.Reg, s: string, ts: seq<Token>)
    requires Reads(s, ts)
    ensures Reads(RegName(r) + "," + s, [Reg(r), Comma] + ts)
  {
    hide RegName, Reads;
    ReadsMark(',', s, ts);
    ReadsReg(r, [','] + s, [Comma] + ts);
    assert RegName(r) + "," + s == RegName(r) + ([','] + s);
    assert [Reg(r), Comma] + ts == [Reg(r)] + ([Comma] + ts);
  }

  lemma ReadsLastReg(r: Cpu.Reg)
    ensures Reads(RegName(r), [Reg(r)])
  {
    hide RegName;
    ReadsReg(r, "", []);
    assert RegName(r) + "" == RegName(r) && [Reg(r)] + [] == [Reg(r)];
  }

  lemma ReadsLastSigned(v: int)
    requires -0x8000 <= v < 0x8000
    ensures Reads(SignedDec(v), NumTokens(v))
  {
    hide SignedDec, NumTokens;
    ReadsSigned(v, "", []);
    assert SignedDec(v) + "" == SignedDec(v) && NumTokens(v) + [] == NumTokens(v);
  }

  lemma ReadsLastDec(n: nat)
    requires n < 0x20
    ensures Reads(Dec(n), [Int(n)])
  {
    hide Dec;
    ReadsDec(n, "", []);
    assert Dec(n) + "" == Dec(n) && [Int(n)] + [] == [Int(n)];
  }

  /** `rd,rs1,` and then `s`. */
  lemma ReadsTwoRegs(a: Cpu.Reg, b: Cpu.Reg, s: string, ts: seq<Token>)
    requires Reads(s, ts)
    ensures Reads(RegName(a) + "," + RegName(b) + "," + s, [Reg(a), Comma, Reg(b), Comma] + ts)
  {
    hide RegName, Reads;
    ReadsRegComma(b, s, ts);
    ReadsRegComma(a, RegName(b) + "," + s, [Reg(b), Comma] + ts);
    assert RegName(a) + "," + RegName(b) + "," + s == RegName(a) + "," + (RegName(b) + "," + s);
    assert [Reg(a), Comma, Reg(b), Comma] + ts == [Reg(a), Comma] + ([Reg(b), Comma] + ts);
  }

  /** `[rs1+` x `]`, after `rd,` */
  lemma ReadsBracket(a: Cpu.Reg, b: Cpu.Reg, x: string, ts: seq<Token>)
    requires Reads(x + "]", ts + [RBracket])
    ensures Reads(RegName(a) + ",[" + RegName(b) + "+" + x + "]", [Reg(a), Comma, LBracket, Reg(b), Plus] + ts
        + [RBracket])
  {
    hide RegName, Reads;
    var s, us := x + "]", ts + [RBracket];
    ReadsMark('+', s, us);
    ReadsReg(b, ['+'] + s, [Plus] + us);
    ReadsMark('[', RegName(b) + (['+'] + s), [Reg(b)] + ([Plus] + us));
    ReadsRegComma(a, ['['] + (RegName(b) + (['+'] + s)), [LBracket] + ([Reg(b)] + ([Plus] + us)));
    assert RegName(a) + ",[" + RegName(b) + "+" + x + "]" == RegName(a) + "," + (['['] + (RegName(b) + (['+'] + s)));
    assert [Reg(a), Comma, LBracket, Reg(b), Plus] + ts + [RBracket]
        == [Reg(a), Comma] + ([LBracket] + ([Reg(b)] + ([Plus] + us)));
  }

  lemma ReadsClose()
    ensures Reads("]", [RBracket])
  {
    assert Reads("", []);
    ReadsMark(']', "", []);
    assert [']'] + "" == "]" && [RBracket] + [] == [RBracket];
  }

  lemma FieldBounds(w: Word)
    ensures Cpu.Imm16(w) < 0x1_0000 && -0x8000 <= Cpu.Simm(w) < 0x8000 && Cpu.Shift(w) < 0x20
  {
  }

  lemma Pow2OfHex()
    ensures Pow2(16) == 0x1_0000 && Pow2(32) == 0x1_0000_0000
  {
    Pow2Literals();
  }

  lemma ReadsRegHex(r: Cpu.Reg, v: Word)
    requires v < Pow2(16)
    ensures Reads(RegName(r) + ",0x" + Hex(v, 4), [Reg(r), Comma, Int(v)])
  {
    hide RegName, Reads, Reg, Hex;
    ReadsHex(v, 4);
    ReadsRegComma(r, "0x" + Hex(v, 4), [Int(v)]);
    assert RegName(r) + "," + ("0x" + Hex(v, 4)) == RegName(r) + ",0x" + Hex(v, 4);
    assert [Reg(r), Comma] + [Int(v)] == [Reg(r), Comma, Int(v)];
  }

  lemma ReadsRegsDec(a: Cpu.Reg, b: Cpu.Reg, n: nat)
    requires n < 0x20
    ensures Reads(RegName(a) + "," + RegName(b) + "," + Dec(n), [Reg(a), Comma, Reg(b), Comma, Int(n)])
  {
    hide RegName, Reads, Reg, Dec;
    ReadsLastDec(n);
    ReadsTwoRegs(a, b, Dec(n), [Int(n)]);
    assert [Reg(a), Comma, Reg(b), Comma] + [Int(n)] == [Reg(a), Comma, Reg(b), Comma, Int(n)];
  }

  lemma ReadsNothing()
    ensures Reads("", [])
  {
  }

  lemma ReadsOperands(fmt: Format, addr: Word, w: Word)
    ensures Reads(Operands(fmt, addr, w), OperandTokens(fmt, addr, w))
  {
    hide RegName, Reads, Dec, SignedDec, Hex, NumTokens, Reg, Cpu.Rd, Cpu.Rs1, Cpu.Rs2, Cpu.Simm, Cpu.Imm16,
         Cpu.Shift, Target, Pow2;
    var rd, rs1, rs2 := Cpu.Rd(w), Cpu.Rs1(w), Cpu.Rs2(w);
    var d, a, b := RegName(rd), RegName(rs1), RegName(rs2);
    FieldBounds(w);
    Pow2OfHex();
    match fmt
    case R3 =>
      ReadsLastReg(rs2);
      ReadsTwoRegs(rd, rs1, b, [Reg(rs2)]);
      assert OperandTokens(fmt, addr, w) == [Reg(rd), Comma, Reg(rs1), Comma] + [Reg(rs2)];
    case R2 =>
      ReadsLastReg(rs1);
      ReadsRegComma(rd, a, [Reg(rs1)]);
      assert OperandTokens(fmt, addr, w) == [Reg(rd), Comma] + [Reg(rs1)];
    case RShift => ReadsRegsDec(rd, rs1, Cpu.Shift(w));
    case ISigned =>
      ReadsLastSigned(Cpu.Simm(w));
      ReadsTwoRegs(rd, rs1, SignedDec(Cpu.Simm(w)), NumTokens(Cpu.Simm(w)));
    case IUnsigned =>
      ReadsHex(Cpu.Imm16(w), 4);
      ReadsTwoRegs(rd, rs1, "0x" + Hex(Cpu.Imm16(w), 4), [Int(Cpu.Imm16(w))]);
      assert d + "," + a + "," + ("0x" + Hex(Cpu.Imm16(w), 4)) == Operands(fmt, addr, w);
      assert OperandTokens(fmt, addr, w) == [Reg(rd), Comma, Reg(rs1), Comma] + [Int(Cpu.Imm16(w))];
    case IShift => ReadsRegsDec(rd, rs1, Cpu.Imm16(w) % 0x20);
    case Mem =>
      ReadsClose();
      ReadsSigned(Cpu.Simm(w), "]", [RBracket]);
      ReadsBracket(rd, rs1, SignedDec(Cpu.Simm(w)), NumTokens(Cpu.Simm(w)));
    case MemIdx =>
      ReadsClose();
      ReadsReg(rs2, "]", [RBracket]);
      ReadsBracket(rd, rs1, b, [Reg(rs2)]);
      assert OperandTokens(fmt, addr, w) == [Reg(rd), Comma, LBracket, Reg(rs1), Plus] + [Reg(rs2)] + [RBracket];
    case Jump =>
      ReadsHex(Target(addr, w), 8);
      ReadsRegComma(rd, "0x" + Hex(Target(addr, w), 8), [Int(Target(addr, w))]);
      assert d + "," + ("0x" + Hex(Target(addr, w), 8)) == Operands(fmt, addr, w);
      assert OperandTokens(fmt, addr, w) == [Reg(rd), Comma] + [Int(Target(addr, w))];
    case Movi => ReadsRegHex(rd, Cpu.Imm16(w));
    case Movhi => ReadsRegHex(rd, Cpu.Imm16(w));
    case Cmp =>
      ReadsLastReg(rs2);
      ReadsRegComma(rs1, b, [Reg(rs2)]);
      assert OperandTokens(fmt, addr, w) == [Reg(rs1), Comma] + [Reg(rs2)];
    case Cmpi =>
      ReadsLastSigned(Cpu.Simm(w));
      ReadsRegComma(rs1, SignedDec(Cpu.Simm(w)), NumTokens(Cpu.Simm(w)));
    case _ =>
      ReadsNothing();
  }

  /* ---- Assembling it again ---- */

  lemma RegParses(r: Cpu.Reg)
    ensures ParseRegister(RegName(r)) == Some(r)
  {
    var s := RegName(r);
    if r < 10 {
      assert s[1..] == [s[1]] && DigitsValue(s[1..][..0], 10) == 0;
    } else if r < 13 {
      assert s[1..][..1] == ['1'] && ['1'][..0] == "";
      assert DigitsValue("", 10) == 0;
      assert DigitsValue(['1'], 10) == 1;
    } else {
      assert s[0] != 'r';
      assert UpperCase("sp") == "SP" && UpperCase("lr") == "LR" && UpperCase("pc") == "PC";
    }
  }

  lemma TakesReg(ts: seq<Token>, r: Cpu.Reg)
    requires ts != [] && ts[0] == Reg(r)
    ensures Register(ts) == Some((r, ts[1..]))
    ensures |ts| >= 2 && ts[1] == Comma ==> RegisterComma(ts) == Some((r, ts[2..]))
  {
    hide RegName, ParseRegister;
    RegParses(r);
  }

  lemma TakesTwo(ts: seq<Token>, a: Cpu.Reg, b: Cpu.Reg)
    requires |ts| >= 4 && ts[0] == Reg(a) && ts[1] == Comma && ts[2] == Reg(b) && ts[3] == Comma
    ensures RegisterComma(ts) == Some((a, ts[2..])) && RegisterComma(ts[2..]) == Some((b, ts[4..]))
  {
    hide RegisterComma, Register, Reg;
    TakesReg(ts, a);
    TakesReg(ts[2..], b);
    assert ts[2..][2..] == ts[4..];
  }

  lemma EvalNum(v: int, ts: seq<Token>, syms: Symtab)
    requires ts == [] || !IsOperator(ts[0])
    ensures Eval(NumTokens(v) + ts, syms, true) == Some((v, ts))
  {
    var all := NumTokens(v) + ts;
    if v < 0 {
      assert all[1..] == [Int(-v)] + ts;
      assert all[1..][1..] == ts;
    } else {
      assert all[1..] == ts;
    }
  }

  lemma EvalInt(ts: seq<Token>, k: nat, v: nat, syms: Symtab)
    requires k < |ts| && ts[k..] == [Int(v)]
    ensures Eval(ts[k..], syms, true) == Some((v, []))
  {
    EvalNum(v, [], syms);
    assert NumTokens(v) + [] == [Int(v)];
  }

  /** What the assembler makes of the printed operands, where it accepts them. */
  function Rebuilt(op: Byte, fmt: Format, w: Word): Word {
    var rd, rs1, rs2, imm := Cpu.Rd(w), Cpu.Rs1(w), Cpu.Rs2(w), Cpu.Imm16(w);
    match fmt
    case R3 => Instr(op, rd, rs1, rs2 * 0x1000)
    case R2 => Instr(op, rd, rs1, 0)
    case RShift => Instr(op, rd, rs1, Cpu.Shift(w) * 0x80)
    case ISigned => Instr(op, rd, rs1, imm)
    case IUnsigned => Instr(op, rd, rs1, imm)
    case IShift => Instr(op, rd, rs1, imm % 0x20)
    case Mem => Instr(op, rd, rs1, imm)
    case MemIdx => Instr(op, rd, rs1, rs2 * 0x1000)
    case Jump => Instr(op, rd, 0, w % 0x10_0000)
    case Movi => Instr(op, rd, 0, imm)
    case Movhi => Instr(op, rd, 0, imm)
    case Cmp => Instr(op, 0, rs1, rs2 * 0x1000)
    case Cmpi => Instr(op, 0, rs1, imm)
    case _ => Instr(op, 0, 0, 0)
  }

  /** Layouts the listing uses. */
  predicate Listed(fmt: Format) {
    !fmt.Branch? && !fmt.Movi32? && !fmt.Ret? && !fmt.Br? && !fmt.Call? && !fmt.Push? && !fmt.Pop?
  }

  predicate TargetInRange(addr: Word, w: Word) {
    0 <= addr + Cpu.Soff(w) < 0x1_0000_0000
  }

  /** Printed operands the assembler accepts: CMPI takes no negative number, and a target that wrapped
      around the address space is out of reach. */
  predicate Accepts(fmt: Format, addr: Word, w: Word) {
    (fmt.Cmpi? ==> Cpu.Simm(w) >= 0) && (fmt.Jump? ==> TargetInRange(addr, w))
  }

  lemma SimmBits(w: Word)
    ensures Cpu.Simm(w) % 0x1_0000 == Cpu.Imm16(w)
    ensures Cpu.Simm(w) >= 0 ==> Cpu.Simm(w) == Cpu.Imm16(w)
  {
  }

  lemma SoffBits(w: Word)
    ensures Cpu.Soff(w) % 0x10_0000 == w % 0x10_0000 && -0x8_0000 <= Cpu.Soff(w) < 0x8_0000
  {
  }

  /** The distance to the printed target is the instruction's own offset, unless it wrapped. */
  lemma PrintedTarget(addr: Word, w: Word)
    ensures TargetInRange(addr, w) <==> -524288 <= Target(addr, w) - addr <= 524287
    ensures TargetInRange(addr, w) ==> Target(addr, w) - addr == Cpu.Soff(w)
  {
    hide Cpu.Soff;
    SoffBits(w);
  }

  lemma RelativeOfNumber(op: Byte, rd: Byte, kind: Byte, ts: seq<Token>, addr: Word, w: Word, syms: Symtab, obj: bool)
    requires ts == [Int(Target(addr, w))]
    ensures Relative(op, rd, kind, ts, syms, addr, obj) ==
      if TargetInRange(addr, w) then Some(Words1(Instr(op, rd, 0, w % 0x10_0000))) else None
  {
    hide Cpu.Soff, Target, Instr, WordLe;
    PrintedTarget(addr, w);
    SoffBits(w);
    EvalInt(ts, 0, Target(addr, w), syms);
    assert ts[0..] == ts;
  }

  lemma ImmediatesReassembled(op: Byte, fmt: Format, addr: Word, w: Word, syms: Symtab, obj: bool)
    requires fmt.RShift? || fmt.ISigned? || fmt.IUnsigned? || fmt.IShift? || fmt.Movi? || fmt.Movhi? || fmt.Cmpi?
    ensures Encode(OpEntry(op, fmt, 0), OperandTokens(fmt, addr, w), syms, addr, obj) ==
      if Accepts(fmt, addr, w) then Some(Words1(Rebuilt(op, fmt, w))) else None
  {
    hide RegName, Reg, Register, RegisterComma, Eval, NumTokens, Instr, WordLe, Target, Relative, TargetInRange,
         Cpu.Rd, Cpu.Rs1, Cpu.Rs2, Cpu.Simm, Cpu.Imm16, Cpu.Shift;
    var rd, rs1 := Cpu.Rd(w), Cpu.Rs1(w);
    var ts := OperandTokens(fmt, addr, w);
    FieldBounds(w);
    SimmBits(w);
    match fmt
    case RShift =>
      TakesTwo(ts, rd, rs1);
      EvalInt(ts, 4, Cpu.Shift(w), syms);
    case ISigned =>
      TakesTwo(ts, rd, rs1);
      EvalNum(Cpu.Simm(w), [], syms);
      assert ts[4..] == NumTokens(Cpu.Simm(w)) + [];
    case IUnsigned =>
      TakesTwo(ts, rd, rs1);
      EvalInt(ts, 4, Cpu.Imm16(w), syms);
    case IShift =>
      TakesTwo(ts, rd, rs1);
      EvalInt(ts, 4, Cpu.Imm16(w) % 0x20, syms);
    case Movi =>
      TakesReg(ts, rd);
      EvalInt(ts, 2, Cpu.Imm16(w), syms);
    case Movhi =>
      TakesReg(ts, rd);
      EvalInt(ts, 2, Cpu.Imm16(w), syms);
    case Cmpi =>
      TakesReg(ts, rs1);
      EvalNum(Cpu.Simm(w), [], syms);
      assert ts[2..] == NumTokens(Cpu.Simm(w)) + [];
  }

  lemma RegistersReassembled(op: Byte, fmt: Format, addr: Word, w: Word, syms: Symtab, obj: bool)
    requires fmt.R3? || fmt.R2? || fmt.Cmp?
    ensures Encode(OpEntry(op, fmt, 0), OperandTokens(fmt, addr, w), syms, addr, obj) ==
      if Accepts(fmt, addr, w) then Some(Words1(Rebuilt(op, fmt, w))) else None
  {
    hide RegName, Reg, Register, RegisterComma, Eval, NumTokens, Instr, WordLe, Target, Relative, TargetInRange,
         MemOperand, RegRegImm, Cpu.Rd, Cpu.Rs1, Cpu.Rs2, Cpu.Simm, Cpu.Imm16, Cpu.Shift;
    var rd, rs1, rs2 := Cpu.Rd(w), Cpu.Rs1(w), Cpu.Rs2(w);
    var ts := OperandTokens(fmt, addr, w);
    match fmt
    case R3 =>
      TakesTwo(ts, rd, rs1);
      TakesReg(ts[4..], rs2);
    case R2 =>
      TakesReg(ts, rd);
      TakesReg(ts[2..], rs1);
    case Cmp =>
      TakesReg(ts, rs1);
      TakesReg(ts[2..], rs2);
  }

  /** What the assembler makes of the printed operands of each layout. */
  lemma Reassembled(op: Byte, fmt: Format, addr: Word, w: Word, syms: Symtab, obj: bool)
    requires Listed(fmt)
    ensures Encode(OpEntry(op, fmt, 0), OperandTokens(fmt, addr, w), syms, addr, obj) ==
      if Accepts(fmt, addr, w) then Some(Words1(Rebuilt(op, fmt, w))) else None
  {
    hide RegName, Reg, Register, RegisterComma, Eval, NumTokens, Instr, WordLe, Target, Relative, TargetInRange,
         MemOperand, RegRegImm, Cpu.Rd, Cpu.Rs1, Cpu.Rs2, Cpu.Simm, Cpu.Imm16, Cpu.Shift;
    var rd, rs1 := Cpu.Rd(w), Cpu.Rs1(w);
    var ts := OperandTokens(fmt, addr, w);
    if fmt.R3? || fmt.R2? || fmt.Cmp? {
      RegistersReassembled(op, fmt, addr, w, syms, obj);
    } else if fmt.MemIdx? {
      TakesReg(ts, rd);
      TakesReg(ts[2..][1..], rs1);
      TakesReg(ts[2..][1..][1..][1..], Cpu.Rs2(w));
    } else if fmt.Mem? {
      TakesReg(ts, rd);
      SimmBits(w);
      DisplacementTaken(ts[2..], rs1, Cpu.Simm(w), syms);
    } else if fmt.Jump? {
      TakesReg(ts, rd);
      RelativeOfNumber(op, rd, JUMP20, ts[2..], addr, w, syms, obj);
    } else if !fmt.NoOperands? {
      ImmediatesReassembled(op, fmt, addr, w, syms, obj);
    }
  }

  lemma DisplacementTaken(ts: seq<Token>, rs1: Cpu.Reg, v: int, syms: Symtab)
    requires ts == [LBracket, Reg(rs1), Plus] + NumTokens(v) + [RBracket]
    ensures MemOperand(ts, syms) == Some((rs1, v))
  {
    hide Register, Eval, NumTokens;
    TakesReg(ts[1..], rs1);
    assert ts[1..][1..][1..] == NumTokens(v) + [RBracket];
    EvalNum(v, [RBracket], syms);
  }

  /* ---- Mnemonics ---- */

  predicate IsUpperName(s: string) {
    s != "" && forall i :: 0 <= i < |s| ==> 'A' <= s[i] <= 'Z'
  }

  lemma UpperNames(s: string)
    requires IsUpperName(s)
    ensures UpperCase(s) == s && IsName(s)
  {
  }

  /** The listed mnemonic is the assembler's mnemonic of that opcode and layout, KRET excepted. */
  predicate MnemonicMatches(op: Byte) {
    Listing(op).Some? ==>
      var (name, fmt) := Listing(op).value;
      && IsUpperName(name) && Listed(fmt)
      && Row(name) == if op == 0x3F then None else Some(OpEntry(op, fmt, 0))
  }

  // In groups of eight, small enough for the verifier.

  lemma Mnemonics0(op: Byte)
    requires 0x00 <= op < 0x08
    ensures MnemonicMatches(op)
  {
  }

  lemma Mnemonics1(op: Byte)
    requires 0x08 <= op < 0x10
    ensures MnemonicMatches(op)
  {
  }

  lemma Mnemonics2(op: Byte)
    requires 0x10 <= op < 0x18
    ensures MnemonicMatches(op)
  {
  }

  lemma Mnemonics3(op: Byte)
    requires 0x18 <= op < 0x20
    ensures MnemonicMatches(op)
  {
  }

  lemma Mnemonics4(op: Byte)
    requires 0x20 <= op < 0x28
    ensures MnemonicMatches(op)
  {
  }

  lemma Mnemonics5(op: Byte)
    requires 0x28 <= op < 0x30
    ensures MnemonicMatches(op)
  {
  }

  lemma Mnemonics6(op: Byte)
    requires 0x30 <= op < 0x38
    ensures MnemonicMatches(op)
  {
  }

  lemma Mnemonics7(op: Byte)
    requires 0x38 <= op < 0x3F
    ensures MnemonicMatches(op)
  {
  }

  /** The disassembler prints KRET, which the assembler does not know. */
  lemma KretUnlisted()
    ensures MnemonicMatches(0x3F)
  {
  }

  lemma MnemonicsMatch(op: Byte)
    ensures MnemonicMatches(op)
    ensures Listing(op).Some? ==> FindOpcode(Listing(op).value.0) == Row(Listing(op).value.0)
  {
    hide UpperCase, Row;
    match op / 8 {
    case 0 => Mnemonics0(op);
    case 1 => Mnemonics1(op);
    case 2 => Mnemonics2(op);
    case 3 => Mnemonics3(op);
    case 4 => Mnemonics4(op);
    case 5 => Mnemonics5(op);
    case 6 => Mnemonics6(op);
    case 7 =>
      if op == 0x3F {
        KretUnlisted();
      } else {
        Mnemonics7(op);
      }
    case _ =>
    }
    if Listing(op).Some? {
      UpperNames(Listing(op).value.0);
    }
  }

  lemma CondNamesMatch(cond: Cpu.Reg)
    requires cond < 11
    ensures IsUpperName(CondName(cond)) && FindOpcode(CondName(cond)) == Some(OpEntry(0x0D, Branch, cond))
  {
    hide UpperCase;
    UpperNames(CondName(cond));
  }

  /* ---- Round trip ---- */

  /** Instruction words that survive: known opcode with unused fields zero, no KRET, a CMPI immediate below
      0x8000, a legal branch condition, and a target that does not wrap around. */
  predicate Canonical(addr: Word, w: Word) {
    if Cpu.Opcode(w) == 0x0D then Cpu.Rd(w) < 11 && TargetInRange(addr, w)
    else
      match Listing(Cpu.Opcode(w))
      case None => false
      case Some((_, fmt)) =>
        match fmt
        case R3 => w % 0x1000 == 0
        case R2 => w % 0x1_0000 == 0
        case RShift => w % 0x80 == 0 && Cpu.Rs2(w) == 0
        case IShift => Cpu.Imm16(w) < 0x20
        case MemIdx => w % 0x1000 == 0
        case Jump => TargetInRange(addr, w)
        case Movi => Cpu.Rs1(w) == 0
        case Movhi => Cpu.Rs1(w) == 0
        case NoOperands => w % 0x100_0000 == 0 && Cpu.Opcode(w) != 0x3F
        case Cmp => Cpu.Rd(w) == 0 && w % 0x1000 == 0
        case Cmpi => Cpu.Rd(w) == 0 && Cpu.Imm16(w) < 0x8000
        case _ => true
  }

  lemma Fields(w: Word)
    ensures w == Cpu.Opcode(w) * 0x100_0000 + Cpu.Rd(w) * 0x10_0000 + Cpu.Rs1(w) * 0x1_0000 + Cpu.Imm16(w)
    ensures Cpu.Imm16(w) == Cpu.Rs2(w) * 0x1000 + w % 0x1000 == Cpu.Rs2(w) * 0x1000 + Cpu.Shift(w) * 0x80 + w % 0x80
    ensures w % 0x10_0000 == Cpu.Rs1(w) * 0x1_0000 + Cpu.Imm16(w)
  {
    var q := w / 0x1_0000;
    DivUnique(w, 0x10_0000, q / 0x10, q % 0x10 * 0x1_0000 + w % 0x1_0000);
    DivUnique(w, 0x100_0000, q / 0x100, q % 0x100 * 0x1_0000 + w % 0x1_0000);
    DivUnique(q, 0x100, q / 0x10 / 0x10, q / 0x10 % 0x10 * 0x10 + q % 0x10);
    LowFields(w);
  }

  lemma LowFields(w: Word)
    ensures w % 0x1_0000 == w / 0x1000 % 0x10 * 0x1000 + w % 0x1000
    ensures w % 0x1000 == w / 0x80 % 0x20 * 0x80 + w % 0x80
  {
    var q, h := w / 0x1000, w / 0x80;
    DivUnique(w, 0x1_0000, q / 0x10, q % 0x10 * 0x1000 + w % 0x1000);
    DivUnique(w, 0x1000, h / 0x20, h % 0x20 * 0x80 + w % 0x80);
  }

  lemma InstrIs(w: Word, rd: Byte, rs1: Byte, low: nat)
    requires rd < 0x10 && rs1 < 0x10 && low < 0x1_0000
    ensures Instr(Cpu.Opcode(w), rd, rs1, low) == w <==> rd == Cpu.Rd(w) && rs1 == Cpu.Rs1(w) && low == Cpu.Imm16(w)
  {
    Fields(w);
    OpcodeIsByte(w);
    hide Cpu.Opcode, Cpu.Rd, Cpu.Rs1, Cpu.Imm16;
    var x := Cpu.Opcode(w) * 0x100_0000 + rd * 0x10_0000 + rs1 * 0x1_0000 + low;
    DivUnique(x, 0x1_0000_0000, 0, x);
  }

  lemma RebuiltIs(addr: Word, w: Word)
    requires Cpu.Opcode(w) != 0x0D && Listing(Cpu.Opcode(w)).Some? && Cpu.Opcode(w) != 0x3F
    requires Listed(Listing(Cpu.Opcode(w)).value.1)
    ensures var fmt := Listing(Cpu.Opcode(w)).value.1;
      Accepts(fmt, addr, w) && Rebuilt(Cpu.Opcode(w), fmt, w) == w <==> Canonical(addr, w)
  {
    hide Cpu.Opcode, Cpu.Rd, Cpu.Rs1, Cpu.Rs2, Cpu.Imm16, Cpu.Shift, Cpu.Simm, Cpu.Soff, Listing, Instr;
    var fmt := Listing(Cpu.Opcode(w)).value.1;
    var rd, rs1, imm := Cpu.Rd(w), Cpu.Rs1(w), Cpu.Imm16(w);
    var rs2: int := Cpu.Rs2(w);
    FieldBounds(w);
    Fields(w);
    SimmSign(w);
    match fmt
    case R3 => InstrIs(w, rd, rs1, rs2 * 0x1000);
    case R2 =>
      InstrIs(w, rd, rs1, 0);
      LowZero(w);
    case RShift => InstrIs(w, rd, rs1, Cpu.Shift(w) * 0x80);
    case ISigned => InstrIs(w, rd, rs1, imm);
    case IUnsigned => InstrIs(w, rd, rs1, imm);
    case IShift => InstrIs(w, rd, rs1, imm % 0x20);
    case Mem => InstrIs(w, rd, rs1, imm);
    case MemIdx => InstrIs(w, rd, rs1, rs2 * 0x1000);
    case Jump => InstrOffset(w);
    case Movi => InstrIs(w, rd, 0, imm);
    case Movhi => InstrIs(w, rd, 0, imm);
    case NoOperands =>
      InstrIs(w, 0, 0, 0);
      LowZero(w);
    case Cmp => InstrIs(w, 0, rs1, rs2 * 0x1000);
    case Cmpi => InstrIs(w, 0, rs1, imm);
  }

  lemma LowZero(w: Word)
    ensures w % 0x1_0000 == Cpu.Imm16(w)
    ensures w % 0x100_0000 == 0 <==> Cpu.Rd(w) == 0 && Cpu.Rs1(w) == 0 && Cpu.Imm16(w) == 0
  {
    Fields(w);
    DivUnique(w, 0x100_0000, Cpu.Opcode(w), Cpu.Rd(w) * 0x10_0000 + Cpu.Rs1(w) * 0x1_0000 + Cpu.Imm16(w));
  }

  lemma SimmSign(w: Word)
    ensures Cpu.Simm(w) >= 0 <==> Cpu.Imm16(w) < 0x8000
  {
  }

  lemma InstrOffset(w: Word)
    ensures Instr(Cpu.Opcode(w), Cpu.Rd(w), 0, w % 0x10_0000) == w
  {
    Fields(w);
  }

  /* ---- The round trip ---- */

  /** `text`, as the only line of a source, assembled at `addr`. */
  function AssembleText(text: string, syms: Symtab, addr: Word, obj: bool): Option<Emission> {
    var toks :- Tokenize(text);
    LineBytes(toks, syms, addr, obj)
  }

  lemma InstructionLine(name: string, ts: seq<Token>, syms: Symtab, addr: Word, obj: bool)
    ensures LineBytes([Ident(name)] + ts, syms, addr, obj) ==
      if FindOpcode(name).None? then None else Encode(FindOpcode(name).value, ts, syms, addr, obj)
  {
    hide FindOpcode, Encode;
    var toks := [Ident(name)] + ts;
    assert DropLabels(toks) == toks && toks[1..] == ts;
  }

  lemma WordLeInjective(v: Word, w: Word)
    requires WordLe(v) == WordLe(w)
    ensures v == w
  {
    WordBytes(v);
    WordBytes(w);
    var a, b := WordLe(v), WordLe(w);
    assert a[0] == b[0] && a[1] == b[1] && a[2] == b[2] && a[3] == b[3];
  }

  /** A mnemonic with its operands reads as the tokens of both. */
  lemma ReadsLine(name: string, s: string, ts: seq<Token>)
    requires IsUpperName(name) && Reads(s, ts) && (s == "" || (!IsBlank(s[0]) && s[0] != ':'))
    ensures Reads(Padded(name) + s, [Ident(name)] + ts)
  {
    hide Reads;
    UpperNames(name);
    var n := if |name| < 4 then 5 - |name| else 1;
    ReadsName(name, n, s, ts);
    assert Padded(name) + s == name + (Spaces(n) + s);
  }

  lemma ReadsBare(name: string)
    requires IsUpperName(name)
    ensures Reads(name, [Ident(name)])
  {
    UpperNames(name);
    ReadsNothing();
    ReadsName(name, 0, "", []);
    assert name + (Spaces(0) + "") == name && [Ident(name)] + [] == [Ident(name)];
  }

  lemma OperandsStart(fmt: Format, addr: Word, w: Word)
    ensures var s := Operands(fmt, addr, w); s == "" || (!IsBlank(s[0]) && s[0] != ':')
  {
    hide Dec, SignedDec, Hex, RegName, Cpu.Rd, Cpu.Rs1, Cpu.Rs2, Cpu.Simm, Cpu.Imm16, Cpu.Shift, Target;
    RegIsName(Cpu.Rd(w));
    RegIsName(Cpu.Rs1(w));
  }

  /** The two ways out of the listing: a mark no token starts with. */
  lemma UnknownUnreadable(s: string)
    ensures Tokenize("???" + s) == None && Tokenize("B??" + s) == None
  {
    var t, u := "???" + s, "B??" + s;
    assert SkipBlanks(t) == t && NextToken(t) == Bad;
    assert u[1..] == "??" + s && IdentLength(u[1..]) == 0 && IdentLength(u) == 1;
    assert SkipBlanks(u) == u && SkipBlanks("??" + s) == "??" + s;
    assert NextToken(u) == Tok(Ident(u[..1]), "??" + s);
    assert NextToken("??" + s) == Bad;
    assert Tokenize("??" + s) == None;
  }

  /** The listing of a legal branch reads as its mnemonic and its target. */
  lemma BranchReads(addr: Word, w: Word)
    requires Cpu.Opcode(w) == 0x0D && Cpu.Rd(w) < 11
    ensures Reads(Disassemble(addr, w), [Ident(CondName(Cpu.Rd(w))), Int(Target(addr, w))])
  {
    hide Cpu.Opcode, Cpu.Rd, Hex, Target, Reads, CondName, Padded, IsUpperName, FindOpcode, Pow2;
    var name, s := CondName(Cpu.Rd(w)), "0x" + Hex(Target(addr, w), 8);
    CondNamesMatch(Cpu.Rd(w));
    Pow2OfHex();
    ReadsHex(Target(addr, w), 8);
    ReadsLine(name, s, [Int(Target(addr, w))]);
    assert Disassemble(addr, w) == Padded(name) + s;
    assert [Ident(name)] + [Int(Target(addr, w))] == [Ident(name), Int(Target(addr, w))];
  }

  lemma BranchRoundTrip(addr: Word, w: Word, syms: Symtab, obj: bool)
    requires Cpu.Opcode(w) == 0x0D
    ensures AssembleText(Disassemble(addr, w), syms, addr, obj) == Some(Words1(w)) <==> Canonical(addr, w)
  {
    hide Cpu.Opcode, Cpu.Rd, Target, Tokenize, Relative, Instr, FindOpcode, CondName, LineBytes, TargetInRange,
         Disassemble, WordLe, Encode;
    var cond := Cpu.Rd(w);
    if cond < 11 {
      BranchReads(addr, w);
      CondNamesMatch(cond);
      var ts := [Int(Target(addr, w))];
      assert [Ident(CondName(cond)), Int(Target(addr, w))] == [Ident(CondName(cond))] + ts;
      InstructionLine(CondName(cond), ts, syms, addr, obj);
      BranchEncodes(cond, ts, syms, addr, obj);
      RelativeOfNumber(0x0D, cond, BRANCH20, ts, addr, w, syms, obj);
      InstrOffset(w);
    } else {
      IllegalBranch(addr, w);
    }
  }

  lemma BranchEncodes(cond: Cpu.Reg, ts: seq<Token>, syms: Symtab, addr: Word, obj: bool)
    ensures Encode(OpEntry(0x0D, Branch, cond), ts, syms, addr, obj)
        == Relative(0x0D, cond, BRANCH20, ts, syms, addr, obj)
  {
    hide Relative;
  }

  lemma IllegalBranch(addr: Word, w: Word)
    requires Cpu.Opcode(w) == 0x0D && Cpu.Rd(w) >= 11
    ensures Tokenize(Disassemble(addr, w)) == None
  {
    hide Cpu.Opcode, Cpu.Rd, Dec, Tokenize;
    UnknownUnreadable("  (illegal cond " + Dec(Cpu.Rd(w)) + ")");
  }

  /** Main result: assembling the disassembly of `w` at its own address gives back `w`, exactly for the
      canonical instructions; whatever symbols there are, and for object files too. */
  lemma DisassemblyReassembles(addr: Word, w: Word, syms: Symtab, obj: bool)
    ensures AssembleText(Disassemble(addr, w), syms, addr, obj) == Some(Words1(w)) <==> Canonical(addr, w)
  {
    hide Cpu.Opcode, Operands, OperandTokens, Tokenize, LineBytes, Encode, FindOpcode, Row, Listing, Rebuilt,
         Accepts, Padded, Hex, WordLe, Canonical, IsUpperName, Listed;
    var op := Cpu.Opcode(w);
    if op == 0x0D {
      BranchRoundTrip(addr, w, syms, obj);
    } else if Listing(op).None? {
      UnknownUnreadable(" (0x" + Hex(w, 8) + ")");
      UnlistedNotCanonical(addr, w);
    } else {
      var (name, fmt) := Listing(op).value;
      OpcodeIsByte(w);
      MnemonicsMatch(op);
      ListingReads(addr, w, name, fmt);
      InstructionLine(name, OperandTokens(fmt, addr, w), syms, addr, obj);
      if op == 0x3F {
        KretNotCanonical(addr, w);
      } else {
        Reassembled(op, fmt, addr, w, syms, obj);
        RebuiltIs(addr, w);
        if WordLe(Rebuilt(op, fmt, w)) == WordLe(w) {
          WordLeInjective(Rebuilt(op, fmt, w), w);
        }
      }
    }
  }

  lemma ListingReads(addr: Word, w: Word, name: string, fmt: Format)
    requires Cpu.Opcode(w) != 0x0D && Listing(Cpu.Opcode(w)) == Some((name, fmt)) && IsUpperName(name)
    ensures Reads(Disassemble(addr, w), [Ident(name)] + OperandTokens(fmt, addr, w))
  {
    hide Cpu.Opcode, Listing, Padded, Reads, IsUpperName, IsBlank;
    if fmt.NoOperands? {
      ReadsBare(name);
      assert [Ident(name)] + [] == [Ident(name)];
    } else {
      hide Operands, OperandTokens;
      ReadsOperands(fmt, addr, w);
      OperandsStart(fmt, addr, w);
      ReadsLine(name, Operands(fmt, addr, w), OperandTokens(fmt, addr, w));
    }
  }

  lemma UnlistedNotCanonical(addr: Word, w: Word)
    requires Cpu.Opcode(w) != 0x0D && Listing(Cpu.Opcode(w)).None?
    ensures !Canonical(addr, w)
  {
    hide Listing, Cpu.Opcode;
  }

  lemma OpcodeIsByte(w: Word)
    ensures 0 <= Cpu.Opcode(w) < 0x100
  {
  }

  lemma KretNotCanonical(addr: Word, w: Word)
    requires Cpu.Opcode(w) == 0x3F
    ensures !Canonical(addr, w)
  {
    hide Cpu.Opcode;
  }

  /* ---- The other way round: from source text ---- */

  lemma InstrFields(op: Byte, rd: Byte, rs1: Byte, low: nat)
    requires rd < 0x10 && rs1 < 0x10 && low < 0x1_0000
    ensures var w := Instr(op, rd, rs1, low);
      && w == op * 0x100_0000 + rd * 0x10_0000 + rs1 * 0x1_0000 + low
      && Cpu.Opcode(w) == op && Cpu.Rd(w) == rd && Cpu.Rs1(w) == rs1 && Cpu.Imm16(w) == low
  {
    var x := op * 0x100_0000 + rd * 0x10_0000 + rs1 * 0x1_0000 + low;
    DivUnique(x, 0x1_0000_0000, 0, x);
    DivUnique(x, 0x100_0000, op, rd * 0x10_0000 + rs1 * 0x1_0000 + low);
    DivUnique(x, 0x10_0000, op * 0x10 + rd, rs1 * 0x1_0000 + low);
    DivUnique(x, 0x1_0000, op * 0x100 + rd * 0x10 + rs1, low);
    DivUnique(op * 0x10 + rd, 0x10, op, rd);
    DivUnique(op * 0x100 + rd * 0x10 + rs1, 0x10, op * 0x10 + rd, rs1);
  }

  lemma RegisterBound(ts: seq<Token>)
    ensures Register(ts).Some? ==> Register(ts).value.0 < 0x10
    ensures RegisterComma(ts).Some? ==> RegisterComma(ts).value.0 < 0x10
  {
  }

  lemma OperandBounds(ts: seq<Token>, syms: Symtab, lo: int, hi: int)
    ensures var r := RegRegImm(ts, syms, lo, hi);
      r.Some? ==> r.value.0 < 0x10 && r.value.1 < 0x10 && lo <= r.value.2 <= hi
    ensures var r := MemOperand(ts, syms); r.Some? ==> r.value.0 < 0x10
    ensures var r := IndexOperands(ts); r.Some? ==> r.value.0 < 0x10 && r.value.1 < 0x10 && r.value.2 < 0x10
  {
    hide Eval, Register, RegisterComma;
    forall us: seq<Token> ensures Register(us).Some? ==> Register(us).value.0 < 0x10 {
      RegisterBound(us);
    }
    forall us: seq<Token> ensures RegisterComma(us).Some? ==> RegisterComma(us).value.0 < 0x10 {
      RegisterBound(us);
    }
  }

  /** How the word of a table row is listed: as the row's own layout, or a synonym's. */
  predicate ListedAs(e: OpEntry) {
    match e.fmt
    case Branch => e.opcode == 0x0D && e.cond <= 10
    case Call => e.opcode == 0x0E
    case Ret => e.opcode == 0x27
    case Br => e.opcode == 0x27
    case Movi32 => true
    case Push => true
    case Pop => true
    case NoOperands => e.opcode in {0x0F, 0x10, 0x11, 0x12, 0x3E}
    case _ => e.opcode != 0x0D && e.opcode != 0x3F && Listing(e.opcode).Some? && Listing(e.opcode).value.1 == e.fmt
  }


  /** The opcodes of each layout. */
  predicate HasLayout(op: int, fmt: Format) {
    match fmt
    case R3 =>
      0 <= op <= 4 || op == 9 || op == 0xA || 0x22 <= op <= 0x26 || 0x2B <= op <= 0x2F || op == 0x39 || op == 0x3A
          || op == 0x3D
    case R2 => op == 5 || op == 0x27 || op == 0x2A
    case RShift => 6 <= op <= 8 || op == 0x3B || op == 0x3C
    case Mem => op == 0xB || op == 0xC || 0x1C <= op <= 0x21
    case MemIdx => 0x30 <= op <= 0x37
    case ISigned => 0x14 <= op <= 0x15
    case IUnsigned => 0x16 <= op <= 0x18
    case IShift => 0x19 <= op <= 0x1B
    case Jump => op == 0xE
    case Movi => op == 0xF || op == 0x38
    case Movhi => op == 0x13
    case Cmp => op == 0x28
    case Cmpi => op == 0x29
    case _ => false
  }

  lemma LayoutListed(op: Byte, fmt: Format)
    requires HasLayout(op, fmt)
    ensures Listing(op).Some? && Listing(op).value.1 == fmt && op != 0x0D && op != 0x3F
  {
  }

  /** Every row of the table has an opcode of its layout, or is a branch or a synonym. */
  predicate RowShape(e: OpEntry) {
    match e.fmt
    case Branch => e.opcode == 0x0D && e.cond <= 10
    case Call => e.opcode == 0x0E
    case Ret => e.opcode == 0x27
    case Br => e.opcode == 0x27
    case Movi32 => true
    case Push => true
    case Pop => true
    case NoOperands => 0x0F <= e.opcode <= 0x12 || e.opcode == 0x3E
    case _ => HasLayout(e.opcode, e.fmt)
  }
  lemma Row2Shape(m: string)
    requires Row2(m).Some?
    ensures RowShape(Row2(m).value)
  {
  }

  lemma Row3LowShape(m: string)
    requires Row3Low(m).Some?
    ensures RowShape(Row3Low(m).value)
  {
  }

  lemma Row3HighShape(m: string)
    requires Row3High(m).Some?
    ensures RowShape(Row3High(m).value)
  {
  }

  lemma Row4LowShape(m: string)
    requires Row4Low(m).Some?
    ensures RowShape(Row4Low(m).value)
  {
  }

  lemma Row4HighShape(m: string)
    requires Row4High(m).Some?
    ensures RowShape(Row4High(m).value)
  {
  }

  lemma Row5Shape(m: string)
    requires Row5(m).Some?
    ensures RowShape(Row5(m).value)
  {
  }

  lemma Row6Shape(m: string)
    requires Row6(m).Some?
    ensures RowShape(Row6(m).value)
  {
  }

  lemma Row7Shape(m: string)
    requires Row7(m).Some?
    ensures RowShape(Row7(m).value)
  {
  }

  lemma RowShapes(m: string)
    requires Row(m).Some?
    ensures RowShape(Row(m).value)
  {
    hide Row2, Row3Low, Row3High, Row4Low, Row4High, Row5, Row6, Row7, RowShape;
    match |m|
    case 2 => Row2Shape(m);
    case 3 =>
      if m[0] < 'L' {
        Row3LowShape(m);
      } else {
        Row3HighShape(m);
      }
    case 4 =>
      if m[0] < 'L' {
        Row4LowShape(m);
      } else {
        Row4HighShape(m);
      }
    case 5 => Row5Shape(m);
    case 6 => Row6Shape(m);
    case 7 => Row7Shape(m);
  }

  lemma RowsListed(m: string)
    requires Row(m).Some?
    ensures ListedAs(Row(m).value)
  {
    hide Row, Listing, HasLayout;
    RowShapes(m);
    var e := Row(m).value;
    if HasLayout(e.opcode, e.fmt) {
      LayoutListed(e.opcode, e.fmt);
    }
  }

  /** What the listing of an assembled word can lose: the sign bit of a CMPI immediate, and a target outside
      the address space. */
  predicate Printable(addr: Word, w: Word) {
    && (Cpu.Opcode(w) == 0x29 ==> Cpu.Imm16(w) < 0x8000)
    && (Cpu.Opcode(w) in {0x0D, 0x0E} ==> TargetInRange(addr, w))
  }

  lemma LowParts(w: Word)
    ensures w % 0x1000 == Cpu.Imm16(w) % 0x1000 && w % 0x80 == Cpu.Imm16(w) % 0x80
        && Cpu.Rs2(w) == Cpu.Imm16(w) / 0x1000
  {
    LowFields(w);
    var i := w % 0x1_0000;
    DivUnique(i, 0x1000, w / 0x1000 % 0x10, w % 0x1000);
    DivUnique(w % 0x1000, 0x80, w / 0x80 % 0x20, w % 0x80);
    DivUnique(i, 0x80, w / 0x1000 % 0x10 * 0x20 + w / 0x80 % 0x20, w % 0x80);
  }

  /** Whether the fields the assembler filled in are all a listing of this layout shows. */
  predicate FieldsCanonical(fmt: Format, rd: Byte, rs1: Byte, low: nat, addr: Word, w: Word) {
    match fmt
    case R3 => low % 0x1000 == 0
    case R2 => low == 0
    case RShift => low % 0x80 == 0 && low < 0x1000
    case IShift => low < 0x20
    case MemIdx => low % 0x1000 == 0
    case Jump => TargetInRange(addr, w)
    case Movi => rs1 == 0
    case Movhi => rs1 == 0
    case NoOperands => rd == 0 && rs1 == 0 && low == 0
    case Cmp => rd == 0 && low % 0x1000 == 0
    case Cmpi => rd == 0 && low < 0x8000
    case _ => true
  }

  lemma CanonicalFields(op: Byte, rd: Byte, rs1: Byte, low: nat, addr: Word)
    requires rd < 0x10 && rs1 < 0x10 && low < 0x1_0000 && op != 0x0D && op != 0x3F && Listing(op).Some?
    ensures var w := Instr(op, rd, rs1, low);
      Canonical(addr, w) == FieldsCanonical(Listing(op).value.1, rd, rs1, low, addr, w)
  {
    hide Listing, Instr, Cpu.Opcode, Cpu.Rd, Cpu.Rs1, Cpu.Imm16, Cpu.Rs2, TargetInRange;
    var w := Instr(op, rd, rs1, low);
    InstrFields(op, rd, rs1, low);
    LowParts(w);
    LowZero(w);
  }

  lemma WordIs(x: Word, w: Word)
    requires Some(Words1(x)) == Some(Words1(w))
    ensures x == w
  {
    WordLeInjective(x, w);
  }

  /** Instructions with registers only. */
  lemma ThreeRegistersCanonical(e: OpEntry, ts: seq<Token>, syms: Symtab, addr: Word, w: Word)
    requires ListedAs(e) && (e.fmt.R3? || e.fmt.MemIdx?)
    requires Encode(e, ts, syms, addr, false) == Some(Words1(w))
    ensures Canonical(addr, w) && Cpu.Opcode(w) !in {0x0D, 0x0E, 0x29}
  {
    hide Register, RegisterComma, IndexOperands, Instr, WordLe, Canonical, Cpu.Opcode;
    RegistersBound();
    OperandBounds(ts, syms, 0, 0);
    if e.fmt.R3? {
      var (rd, t1) := RegisterComma(ts).value;
      var (rs1, t2) := RegisterComma(t1).value;
      var low := Register(t2).value.0 * 0x1000;
      Canonicalized(e.opcode, rd, rs1, low, addr, w);
      MultipleMod(Register(t2).value.0, 0x1000);
    } else {
      var (rd, rs1, rs2) := IndexOperands(ts).value;
      Canonicalized(e.opcode, rd, rs1, rs2 * 0x1000, addr, w);
      MultipleMod(rs2, 0x1000);
    }
  }

  lemma RegistersCanonical(e: OpEntry, ts: seq<Token>, syms: Symtab, addr: Word, w: Word)
    requires ListedAs(e)
        && (e.fmt.R3? || e.fmt.R2? || e.fmt.MemIdx? || e.fmt.Cmp? || e.fmt.Ret? || e.fmt.Br? || e.fmt.NoOperands?)
    requires Encode(e, ts, syms, addr, false) == Some(Words1(w))
    ensures Canonical(addr, w) && Cpu.Opcode(w) !in {0x0D, 0x0E, 0x29}
  {
    hide Register, RegisterComma, IndexOperands, Instr, WordLe, Canonical, Cpu.Opcode;
    if e.fmt.R3? || e.fmt.MemIdx? {
      ThreeRegistersCanonical(e, ts, syms, addr, w);
    } else {
      RegistersBound();
      match e.fmt
      case R2 =>
        var (rd, t1) := RegisterComma(ts).value;
        Canonicalized(e.opcode, rd, Register(t1).value.0, 0, addr, w);
      case Cmp =>
        var (rs1, t1) := RegisterComma(ts).value;
        Canonicalized(e.opcode, 0, rs1, Register(t1).value.0 * 0x1000, addr, w);
        MultipleMod(Register(t1).value.0, 0x1000);
      case Ret => Canonicalized(0x27, 15, 14, 0, addr, w);
      case Br => Canonicalized(0x27, 15, Register(ts).value.0, 0, addr, w);
      case NoOperands => Canonicalized(e.opcode, 0, 0, 0, addr, w);
    }
  }

  lemma RegistersBound()
    ensures forall ts :: Register(ts).Some? ==> Register(ts).value.0 < 0x10
    ensures forall ts :: RegisterComma(ts).Some? ==> RegisterComma(ts).value.0 < 0x10
  {
  }

  /** The emitted word is this one, and its being canonical is decided by its fields. */
  lemma Canonicalized(op: Byte, rd: Byte, rs1: Byte, low: nat, addr: Word, w: Word)
    requires rd < 0x10 && rs1 < 0x10 && low < 0x1_0000 && op != 0x0D && op != 0x3F && Listing(op).Some?
    requires Words1(Instr(op, rd, rs1, low)) == Words1(w)
    ensures w == Instr(op, rd, rs1, low) && Cpu.Opcode(w) == op && Cpu.Imm16(w) == low
    ensures Canonical(addr, w) == FieldsCanonical(Listing(op).value.1, rd, rs1, low, addr, w)
  {
    hide Instr, WordLe, Canonical, Cpu.Opcode, Cpu.Imm16, FieldsCanonical, Listing;
    WordIs(Instr(op, rd, rs1, low), w);
    InstrFields(op, rd, rs1, low);
    CanonicalFields(op, rd, rs1, low, addr);
  }

  /** Instructions with an immediate or a displacement. */
  lemma ImmediatesCanonical(e: OpEntry, ts: seq<Token>, syms: Symtab, addr: Word, w: Word)
    requires ListedAs(e)
    requires e.fmt.RShift? || e.fmt.ISigned? || e.fmt.IUnsigned? || e.fmt.IShift? || e.fmt.Mem? || e.fmt.Movi?
        || e.fmt.Movhi? || e.fmt.Cmpi?
    requires Encode(e, ts, syms, addr, false) == Some(Words1(w))
    ensures Cpu.Opcode(w) == e.opcode && (Canonical(addr, w) <==> (e.fmt.Cmpi? ==> Cpu.Imm16(w) < 0x8000))
  {
    hide RegisterComma, RegRegImm, MemOperand, Eval, Instr, WordLe, Canonical, Cpu.Opcode, Cpu.Imm16, Listing;
    RegisterBound(ts);
    match e.fmt
    case RShift =>
      OperandBounds(ts, syms, 0, 31);
      var (rd, rs1, n) := RegRegImm(ts, syms, 0, 31).value;
      Canonicalized(e.opcode, rd, rs1, n * 0x80, addr, w);
      MultipleMod(n, 0x80);
    case ISigned =>
      OperandBounds(ts, syms, -32768, 32767);
      var (rd, rs1, n) := RegRegImm(ts, syms, -32768, 32767).value;
      Canonicalized(e.opcode, rd, rs1, n % 0x1_0000, addr, w);
    case IUnsigned =>
      OperandBounds(ts, syms, 0, 65535);
      var (rd, rs1, n) := RegRegImm(ts, syms, 0, 65535).value;
      Canonicalized(e.opcode, rd, rs1, n, addr, w);
    case IShift =>
      OperandBounds(ts, syms, 0, 31);
      var (rd, rs1, n) := RegRegImm(ts, syms, 0, 31).value;
      Canonicalized(e.opcode, rd, rs1, n, addr, w);
    case Mem =>
      var (rd, t1) := RegisterComma(ts).value;
      OperandBounds(t1, syms, 0, 0);
      var (rs1, n) := MemOperand(t1, syms).value;
      Canonicalized(e.opcode, rd, rs1, n % 0x1_0000, addr, w);
    case Movi =>
      var (rd, t1) := RegisterComma(ts).value;
      Canonicalized(e.opcode, rd, 0, Eval(t1, syms, true).value.0, addr, w);
    case Movhi =>
      var (rd, t1) := RegisterComma(ts).value;
      Canonicalized(e.opcode, rd, 0, Eval(t1, syms, true).value.0, addr, w);
    case Cmpi =>
      var (rs1, t1) := RegisterComma(ts).value;
      Canonicalized(e.opcode, 0, rs1, Eval(t1, syms, true).value.0, addr, w);
  }

  /** Branches, jumps and calls: only a target outside the address space is lost. */
  lemma TransferCanonical(op: Byte, rd: Byte, kind: Byte, ts: seq<Token>, syms: Symtab, addr: Word, w: Word)
    requires rd < 0x10 && ((op == 0x0D && rd < 11) || op == 0x0E)
    requires Relative(op, rd, kind, ts, syms, addr, false) == Some(Words1(w))
    ensures Cpu.Opcode(w) == op && (Canonical(addr, w) <==> TargetInRange(addr, w))
  {
    hide Eval, Instr, WordLe, Cpu.Opcode, Cpu.Rd, PeekSymbol, TargetInRange;
    var low := (Eval(ts, syms, true).value.0 - addr) % 0x10_0000;
    WordIs(Instr(op, rd, 0, low), w);
    InstrFields(op, rd, low / 0x1_0000, low % 0x1_0000);
    InstrSplit(op, rd, low);
  }

  lemma InstrSplit(op: Byte, rd: Byte, low: nat)
    requires low < 0x10_0000
    ensures Instr(op, rd, 0, low) == Instr(op, rd, low / 0x1_0000, low % 0x1_0000)
  {
  }

  lemma EncodedCanonical(e: OpEntry, ts: seq<Token>, syms: Symtab, addr: Word, w: Word)
    requires ListedAs(e) && Encode(e, ts, syms, addr, false) == Some(Words1(w))
    ensures Canonical(addr, w) <==> Printable(addr, w)
  {
    hide RegisterComma, Relative, WordLe, Canonical, Cpu.Opcode, Cpu.Imm16, TargetInRange, Instr, Listing;
    if e.fmt.Branch? {
      TransferCanonical(0x0D, e.cond, BRANCH20, ts, syms, addr, w);
    } else if e.fmt.Call? {
      TransferCanonical(0x0E, 14, JUMP20, ts, syms, addr, w);
    } else if e.fmt.Jump? {
      RegisterBound(ts);
      JumpOpcode(e);
      TransferCanonical(0x0E, RegisterComma(ts).value.0, JUMP20, RegisterComma(ts).value.1, syms, addr, w);
    } else if e.fmt.Movi32? || e.fmt.Push? || e.fmt.Pop? {
      TwoWords(e, ts, syms, addr, w);
    } else if e.fmt.RShift? || e.fmt.ISigned? || e.fmt.IUnsigned? || e.fmt.IShift? || e.fmt.Mem? || e.fmt.Movi?
        || e.fmt.Movhi? || e.fmt.Cmpi? {
      ImmediatesCanonical(e, ts, syms, addr, w);
      LayoutOpcodes(e);
    } else {
      RegistersCanonical(e, ts, syms, addr, w);
    }
  }

  lemma TwoWords(e: OpEntry, ts: seq<Token>, syms: Symtab, addr: Word, w: Word)
    requires e.fmt.Movi32? || e.fmt.Push? || e.fmt.Pop?
    ensures Encode(e, ts, syms, addr, false) != Some(Words1(w))
  {
    hide RegisterComma, Register, Eval, PeekSymbol, Instr, WordLe;
  }

  lemma LayoutOpcodes(e: OpEntry)
    requires ListedAs(e) && (e.fmt.RShift? || e.fmt.ISigned? || e.fmt.IUnsigned? || e.fmt.IShift? || e.fmt.Mem?
        || e.fmt.Movi? || e.fmt.Movhi? || e.fmt.Cmpi?)
    ensures e.opcode !in {0x0D, 0x0E} && (e.opcode == 0x29 <==> e.fmt.Cmpi?)
  {
  }

  lemma JumpOpcode(e: OpEntry)
    requires ListedAs(e) && e.fmt.Jump?
    ensures e.opcode == 0x0E
  {
  }

  /** Main result, the other way round: a word that an instruction line assembles to at its address is given
      back by disassembling and assembling again, exactly when its listing loses nothing: no CMPI immediate
      of 0x8000 or more, no target outside the address space. */
  lemma AssembledDisassembles(name: string, ts: seq<Token>, syms: Symtab, addr: Word, w: Word)
    requires LineBytes([Ident(name)] + ts, syms, addr, false) == Some(Words1(w))
    ensures AssembleText(Disassemble(addr, w), syms, addr, false) == Some(Words1(w)) <==> Printable(addr, w)
  {
    hide Row, ListedAs, Encode, LineBytes, Printable, Canonical, WordLe, AssembleText;
    InstructionLine(name, ts, syms, addr, false);
    assert FindOpcode(name) == Row(UpperCase(name));
    RowsListed(UpperCase(name));
    EncodedCanonical(FindOpcode(name).value, ts, syms, addr, w);
    DisassemblyReassembles(addr, w, syms, false);
  }
}
