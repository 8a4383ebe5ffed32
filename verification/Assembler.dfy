/** The two-pass assembler as functions on token lines. Any reported error makes the whole assembly fail
    (the program then writes no output), so the functions return None from the first error on. */
module Assembler {
  import opened Words
  import opened OpTable
  import opened Lexer

  const MAX_OUTPUT: nat := 0x80_0000

  type Line = seq<Token>

  datatype Symbol = Symbol(name: string, addr: Word, global: bool, defined: bool, extern: bool, isLabel: bool)

  type Symtab = seq<Symbol>

  /* ---- Symbol table ---- */

  function FindSymbol(syms: Symtab, name: string): (r: Option<nat>)
    ensures r.Some? ==> r.value < |syms| && syms[r.value].name == name
    ensures forall k :: 0 <= k < (if r.Some? then r.value else |syms|) ==> syms[k].name != name
  {
    if syms == [] then None
    else if syms[0].name == name then Some(0)
    else
      var r := FindSymbol(syms[1..], name);
      if r.None? then None else Some(r.value + 1)
  }

  /** The table with an entry for `name`, added at the end if it is new, and its index. */
  function Ensure(syms: Symtab, name: string): (r: (Symtab, nat))
    ensures r.1 < |r.0| && r.0[r.1].name == name
    ensures syms <= r.0 && (forall k :: 0 <= k < r.1 ==> r.0[k].name != name)
    ensures |r.0| == if r.1 < |syms| then |syms| else |syms| + 1
  {
    var i := FindSymbol(syms, name);
    if i.Some? then (syms, i.value) else (syms + [Symbol(name, 0, false, false, false, false)], |syms|)
  }

  function SetGlobal(syms: Symtab, name: string): Symtab {
    var (t, i) := Ensure(syms, name);
    t[i := t[i].(global := true)]
  }

  function SetExtern(syms: Symtab, name: string): Symtab {
    var (t, i) := Ensure(syms, name);
    t[i := t[i].(extern := true, defined := false)]
  }

  function SetValue(syms: Symtab, name: string, v: int): Symtab {
    var (t, i) := Ensure(syms, name);
    t[i := t[i].(addr := Wrap(v), defined := true)]
  }

  function DefineLabel(syms: Symtab, name: string, org: Word): Option<Symtab> {
    var (t, i) := Ensure(syms, name);
    if t[i].defined then None else Some(t[i := t[i].(addr := org, defined := true, isLabel := true)])
  }

  /* ---- Expressions ---- */

  /** An undefined symbol is an error in pass 2 (`strict`) and counts as 0 in pass 1. */
  function SymbolValue(syms: Symtab, name: string, strict: bool): Option<int> {
    var i := FindSymbol(syms, name);
    if i.Some? then Some(syms[i.value].addr) else if strict then None else Some(0)
  }

  function Operand(t: Token, syms: Symtab, strict: bool): Option<int> {
    match t
    case Int(v) => Some(v)
    case Ident(name) => SymbolValue(syms, name, strict)
    case _ => None
  }

  predicate IsOperator(t: Token) {
    t.Plus? || t.Minus? || t.RShiftTok?
  }

  /** A shift by a negative or too large amount is undefined in C. */
  function Apply(op: Token, a: int, b: int): int {
    if op.Plus? then a + b
    else if op.Minus? then a - b
    else if 0 <= b < 64 then a / Pow2(b)
    else 0
  }

  /** `[-] operand { (+ | - | >>) operand }`: the value and the tokens that follow. */
  function Eval(ts: seq<Token>, syms: Symtab, strict: bool): Option<(int, seq<Token>)> {
    var negative := ts != [] && ts[0].Minus?;
    var us := if negative then ts[1..] else ts;
    if us == [] then None else
    var v :- match us[0] case Label(name) => SymbolValue(syms, name, strict) case t => Operand(t, syms, strict);
    EvalTail(if negative then -v else v, us[1..], syms, strict)
  }

  function EvalTail(v: int, ts: seq<Token>, syms: Symtab, strict: bool): Option<(int, seq<Token>)>
    decreases |ts|
  {
    if ts == [] || !IsOperator(ts[0]) then Some((v, ts))
    else if |ts| == 1 then None
    else
      var rhs :- Operand(ts[1], syms, strict);
      EvalTail(Apply(ts[0], v, rhs), ts[2..], syms, strict)
  }

  /* ---- Object mode ---- */

  const ABS32: Byte := 1
  const MOVI32_LO: Byte := 2
  const MOVI32_HI: Byte := 3
  const BRANCH20: Byte := 4
  const JUMP20: Byte := 5

  datatype Reloc = Reloc(offset: Word, sym: nat, kind: Byte, addend: int)

  /** The symbol a relocation is needed for, and the addend: one `+ INT` or `- INT` is looked at. */
  function PeekSymbol(ts: seq<Token>, syms: Symtab): Option<(nat, int)> {
    if ts == [] || !ts[0].Ident? || ParseRegister(ts[0].name).Some? then None else
    var i :- FindSymbol(syms, ts[0].name);
    if !syms[i].extern && !syms[i].isLabel then None
    else if |ts| >= 3 && ts[1].Plus? && ts[2].Int? then Some((i, ts[2].value))
    else if |ts| >= 3 && ts[1].Minus? && ts[2].Int? then Some((i, -ts[2].value))
    else Some((i, 0))
  }

  function Int32(v: int): int {
    Signed(Wrap(v))
  }

  /* ---- Encoding ---- */

  function WordLe(w: Word): (b: seq<Byte>)
    ensures |b| == 4
  {
    [w % 0x100, w / 0x100 % 0x100, w / 0x1_0000 % 0x100, w / 0x100_0000]
  }

  /** The bytes of one line and its relocations, with offsets from the start of the line. */
  datatype Emission = Emission(bytes: seq<Byte>, relocs: seq<Reloc>)

  const NOTHING := Emission([], [])

  function Words1(w: Word): Emission { Emission(WordLe(w), []) }
  function Words2(v: Word, w: Word): Emission { Emission(WordLe(v) + WordLe(w), []) }

  function Instr(op: Byte, rd: Byte, rs1: Byte, low: int): Word {
    Wrap(op * 0x100_0000 + rd * 0x10_0000 + rs1 * 0x1_0000 + low)
  }

  function Register(ts: seq<Token>): Option<(Byte, seq<Token>)> {
    if ts == [] || !ts[0].Ident? then None else
    var r :- ParseRegister(ts[0].name);
    Some((r, ts[1..]))
  }

  function RegisterComma(ts: seq<Token>): Option<(Byte, seq<Token>)> {
    var (r, us) :- Register(ts);
    if us == [] || !us[0].Comma? then None else Some((r, us[1..]))
  }

  /** `rd, rs1, imm` with the immediate's range. */
  function RegRegImm(ts: seq<Token>, syms: Symtab, lo: int, hi: int): Option<(Byte, Byte, int)> {
    var (rd, t1) :- RegisterComma(ts);
    var (rs1, t2) :- RegisterComma(t1);
    var (imm, _) :- Eval(t2, syms, true);
    if lo <= imm <= hi then Some((rd, rs1, imm)) else None
  }

  /** `[rs1]`, `[rs1+imm]`, `[rs1-imm]`, `rs1` or `rs1, imm`. The immediate is not range-checked. */
  function MemOperand(ts: seq<Token>, syms: Symtab): Option<(Byte, int)> {
    if ts == [] then None
    else if ts[0].LBracket? then
      var (rs1, t1) :- Register(ts[1..]);
      if t1 != [] && (t1[0].Plus? || t1[0].Minus?) then
        var (v, t2) :- Eval(t1[1..], syms, true);
        if t2 == [] || !t2[0].RBracket? then None else Some((rs1, if t1[0].Plus? then v else -v))
      else if t1 == [] || !t1[0].RBracket? then None
      else Some((rs1, 0))
    else
      var (rs1, t1) :- Register(ts);
      if t1 == [] || !t1[0].Comma? then Some((rs1, 0)) else
      var (v, _) :- Eval(t1[1..], syms, true);
      Some((rs1, v))
  }

  /** `rd, [rs1]` or `rd, [rs1+rs2]`. */
  function IndexOperands(ts: seq<Token>): Option<(Byte, Byte, Byte)> {
    var (rd, t1) :- RegisterComma(ts);
    if t1 == [] || !t1[0].LBracket? then None else
    var (rs1, t2) :- Register(t1[1..]);
    if t2 == [] then None
    else if t2[0].Plus? then
      var (rs2, t3) :- Register(t2[1..]);
      if t3 == [] || !t3[0].RBracket? then None else Some((rd, rs1, rs2))
    else if t2[0].RBracket? then Some((rd, rs1, 0))
    else None
  }

  /** A 20-bit PC-relative field: a relocation for an external symbol in object mode, else the distance. */
  function Relative(op: Byte, rd: Byte, kind: Byte, ts: seq<Token>, syms: Symtab, addr: Word,
      obj: bool): Option<Emission> {
    var ref := PeekSymbol(ts, syms);
    if obj && ref.Some? && syms[ref.value.0].extern then
      Some(Emission(WordLe(Instr(op, rd, 0, 0)), [Reloc(0, ref.value.0, kind, Int32(ref.value.1))]))
    else
      var (target, _) :- Eval(ts, syms, true);
      var offset := target - addr;
      if offset < -524288 || offset > 524287 then None else Some(Words1(Instr(op, rd, 0, offset % 0x10_0000)))
  }

  /** MOVI32: MOVI for the low half, then MOVHI for the high half. */
  function LoadAddress(ts: seq<Token>, syms: Symtab, obj: bool): Option<Emission> {
    var (rd, t1) :- RegisterComma(ts);
    var ref := PeekSymbol(t1, syms);
    if obj && ref.Some? then
      var (i, addend) := ref.value;
      Some(Emission(WordLe(Instr(0x0F, rd, 0, 0)) + WordLe(Instr(0x13, rd, 0, 0)),
                    [Reloc(0, i, MOVI32_LO, Int32(addend)), Reloc(4, i, MOVI32_HI, Int32(addend))]))
    else
      var (v, _) :- Eval(t1, syms, true);
      Some(Words2(Instr(0x0F, rd, 0, v % 0x1_0000), Instr(0x13, rd, 0, v / 0x1_0000 % 0x1_0000)))
  }

  function Encode(e: OpEntry, ts: seq<Token>, syms: Symtab, addr: Word, obj: bool): Option<Emission> {
    var op := e.opcode;
    match e.fmt
    case NoOperands => Some(Words1(Instr(op, 0, 0, 0)))
    case R3 =>
      var (rd, t1) :- RegisterComma(ts);
      var (rs1, t2) :- RegisterComma(t1);
      var (rs2, _) :- Register(t2);
      Some(Words1(Instr(op, rd, rs1, rs2 * 0x1000)))
    case R2 =>
      var (rd, t1) :- RegisterComma(ts);
      var (rs1, _) :- Register(t1);
      Some(Words1(Instr(op, rd, rs1, 0)))
    case RShift =>
      var (rd, rs1, n) :- RegRegImm(ts, syms, 0, 31);
      Some(Words1(Instr(op, rd, rs1, n * 0x80)))
    case ISigned =>
      var (rd, rs1, n) :- RegRegImm(ts, syms, -32768, 32767);
      Some(Words1(Instr(op, rd, rs1, n % 0x1_0000)))
    case IUnsigned =>
      var (rd, rs1, n) :- RegRegImm(ts, syms, 0, 65535);
      Some(Words1(Instr(op, rd, rs1, n)))
    case IShift =>
      var (rd, rs1, n) :- RegRegImm(ts, syms, 0, 31);
      Some(Words1(Instr(op, rd, rs1, n)))
    case Mem =>
      var (rd, t1) :- RegisterComma(ts);
      var (rs1, n) :- MemOperand(t1, syms);
      Some(Words1(Instr(op, rd, rs1, n % 0x1_0000)))
    case MemIdx =>
      var (rd, rs1, rs2) :- IndexOperands(ts);
      Some(Words1(Instr(op, rd, rs1, rs2 * 0x1000)))
    case Branch => Relative(op, e.cond, BRANCH20, ts, syms, addr, obj)
    case Jump =>
      var (rd, t1) :- RegisterComma(ts);
      Relative(op, rd, JUMP20, t1, syms, addr, obj)
    case Call => Relative(op, 14, JUMP20, ts, syms, addr, obj)
    case Movi =>
      var (rd, t1) :- RegisterComma(ts);
      var (n, _) :- Eval(t1, syms, true);
      if 0 <= n <= 65535 then Some(Words1(Instr(op, rd, 0, n))) else None
    case Movhi =>
      var (rd, t1) :- RegisterComma(ts);
      var (n, _) :- Eval(t1, syms, true);
      if 0 <= n <= 65535 then Some(Words1(Instr(op, rd, 0, n))) else None
    case Movi32 => LoadAddress(ts, syms, obj)
    case Cmp =>
      var (rs1, t1) :- RegisterComma(ts);
      var (rs2, _) :- Register(t1);
      Some(Words1(Instr(op, 0, rs1, rs2 * 0x1000)))
    case Cmpi =>
      var (rs1, t1) :- RegisterComma(ts);
      var (n, _) :- Eval(t1, syms, true);
      if 0 <= n <= 65535 then Some(Words1(Instr(op, 0, rs1, n))) else None
    case Ret => Some(Words1(Instr(0x27, 15, 14, 0)))
    case Br =>
      var (rs1, _) :- Register(ts);
      Some(Words1(Instr(0x27, 15, rs1, 0)))
    case Push =>
      var (rd, _) :- Register(ts);
      Some(Words2(Instr(0x14, 13, 13, 0xFFFC), Instr(0x0C, rd, 13, 0)))
    case Pop =>
      var (rd, _) :- Register(ts);
      Some(Words2(Instr(0x0B, rd, 13, 0), Instr(0x14, 13, 13, 4)))
  }

  /* ---- Directives ---- */

  datatype Directive = Org | Extern | Section | Global | WordDir | ByteDir | Space | Ascii | Asciiz | Align | Equ
                     | Unknown

  function DirectiveOf(d: string): Directive {
    if SameNoCase(d, ".org") then Org
    else if SameNoCase(d, ".extern") then Extern
    else if SameNoCase(d, ".section") then Section
    else if SameNoCase(d, ".global") then Global
    else if SameNoCase(d, ".word") then WordDir
    else if SameNoCase(d, ".byte") then ByteDir
    else if SameNoCase(d, ".space") then Space
    else if SameNoCase(d, ".ascii") then Ascii
    else if SameNoCase(d, ".asciiz") then Asciiz
    else if SameNoCase(d, ".align") then Align
    else if SameNoCase(d, ".equ") then Equ
    else Unknown
  }

  function Zeros(n: nat): (z: seq<Byte>)
    ensures |z| == n
  {
    seq(n, _ => 0)
  }

  /** The text up to its first NUL, as strlen sees it. */
  function CText(s: string): string {
    if s == "" || s[0] == '\0' then "" else [s[0]] + CText(s[1..])
  }

  function TextBytes(s: string): (b: seq<Byte>)
    ensures |b| == |s|
  {
    seq(|s|, i requires 0 <= i < |s| => s[i] as int % 0x100)
  }

  /** `(org + mask) & ~mask` in 32 bits. */
  function AlignUp(org: Word, align: Word): Word {
    if align <= 1 then org else
    var x := Wrap(org + align - 1);
    x - And(x, align - 1)
  }

  /** Bytes of a directive in pass 2. */
  function DirectiveBytes(d: Directive, args: seq<Token>, syms: Symtab, org: Word, obj: bool): Option<Emission> {
    match d
    case Org =>
      if args == [] || !args[0].Int? || Wrap(args[0].value) < org then None
      else Some(Emission(Zeros(Wrap(args[0].value) - org), []))
    case Extern => Some(NOTHING)
    case Section => Some(NOTHING)
    case Global => Some(NOTHING)
    case WordDir =>
      var ref := PeekSymbol(args, syms);
      if obj && ref.Some? then
        Some(Emission(WordLe(0), [Reloc(0, ref.value.0, ABS32, Int32(ref.value.1))]))
      else
        var (v, _) :- Eval(args, syms, true);
        Some(Words1(Wrap(v)))
    case ByteDir =>
      var (v, _) :- Eval(args, syms, true);
      Some(Emission([v % 0x100], []))
    case Space =>
      if args == [] || !args[0].Int? then None else Some(Emission(Zeros(Wrap(args[0].value)), []))
    case Ascii =>
      if args == [] || !args[0].Str? then None else Some(Emission(TextBytes(CText(args[0].text)), []))
    case Asciiz =>
      if args == [] || !args[0].Str? then None else Some(Emission(TextBytes(CText(args[0].text)) + [0], []))
    case Align =>
      if args == [] || !args[0].Int? then None
      else Some(Emission(Zeros(Wrap(AlignUp(org, Wrap(args[0].value)) - org)), []))
    case Equ => Some(NOTHING)
    case Unknown => None
  }

  /** `.equ NAME, expr`: the name and the expression. */
  function EquParts(args: seq<Token>): Option<(string, seq<Token>)> {
    if |args| >= 2 && args[0].Ident? && args[1].Comma? then Some((args[0].name, args[2..])) else None
  }

  /** Symbol table after a directive in pass 2. */
  function DirectiveSymbols(d: Directive, args: seq<Token>, syms: Symtab): Option<Symtab> {
    match d
    case Global => Some(if args != [] && args[0].Ident? then SetGlobal(syms, args[0].name) else syms)
    case Equ =>
      var (name, expr) :- EquParts(args);
      var (v, _) :- Eval(expr, syms, true);
      Some(SetValue(syms, name, v))
    case _ => Some(syms)
  }

  /* ---- Lines ---- */

  function DropLabels(toks: Line): (r: Line)
    ensures |r| <= |toks|
  {
    if toks != [] && toks[0].Label? then DropLabels(toks[1..]) else toks
  }

  function LineBytes(toks: Line, syms: Symtab, org: Word, obj: bool): Option<Emission> {
    var ts := DropLabels(toks);
    if ts == [] then Some(NOTHING) else
    match ts[0]
    case Dot(d) => DirectiveBytes(DirectiveOf(d), ts[1..], syms, org, obj)
    case Ident(m) =>
      var e :- FindOpcode(m);
      Encode(e, ts[1..], syms, org, obj)
    case _ => None
  }

  function LineSymbols(toks: Line, syms: Symtab): Option<Symtab> {
    var ts := DropLabels(toks);
    if ts != [] && ts[0].Dot? then DirectiveSymbols(DirectiveOf(ts[0].name), ts[1..], syms) else Some(syms)
  }

  /* ---- Pass 1 ---- */

  /** `base` is the address of the first non-zero .org in object mode, else 0. */
  datatype Pass1 = Pass1(org: Word, syms: Symtab, base: Word)

  function DefineLabels(toks: Line, syms: Symtab, org: Word): Option<Symtab> {
    if toks == [] || !toks[0].Label? then Some(syms) else
    var t :- DefineLabel(syms, toks[0].name, org);
    DefineLabels(toks[1..], t, org)
  }

  /** Size of a data directive as pass 1 sees it: it looks behind one label only. */
  function DirectiveSize(toks: Line): Word {
    var ts := if toks != [] && toks[0].Label? then toks[1..] else toks;
    if ts == [] || !ts[0].Dot? then 0 else
    match DirectiveOf(ts[0].name)
    case WordDir => 4
    case ByteDir => 1
    case Space => if |ts| >= 2 && ts[1].Int? then Wrap(ts[1].value) else 0
    case Ascii => if |ts| >= 2 && ts[1].Str? then Wrap(|CText(ts[1].text)|) else 0
    case Asciiz => if |ts| >= 2 && ts[1].Str? then Wrap(|CText(ts[1].text)| + 1) else 0
    case _ => 0
  }

  function InstrSize(m: string): Word {
    if SameNoCase(m, "movi32") || SameNoCase(m, "push") || SameNoCase(m, "pop") then 8 else 4
  }

  function Pass1Directive(d: Directive, args: seq<Token>, toks: Line, p: Pass1, obj: bool): Option<Pass1> {
    match d
    case Org =>
      if args == [] || !args[0].Int? then Some(p) else
      var a := Wrap(args[0].value);
      Some(p.(org := a, base := if obj && p.base == 0 then a else p.base))
    case Extern => Some(if args != [] && args[0].Ident? then p.(syms := SetExtern(p.syms, args[0].name)) else p)
    case Section => Some(p)
    case Global => Some(if args != [] && args[0].Ident? then p.(syms := SetGlobal(p.syms, args[0].name)) else p)
    case Align => Some(if args != [] && args[0].Int? then p.(org := AlignUp(p.org, Wrap(args[0].value))) else p)
    case Equ =>
      if EquParts(args).None? then Some(p) else
      var (name, expr) := EquParts(args).value;
      var (v, _) :- Eval(expr, p.syms, false);
      Some(p.(syms := SetValue(p.syms, name, v)))
    case _ => Some(p.(org := Wrap(p.org + DirectiveSize(toks))))
  }

  function Pass1Line(toks: Line, p: Pass1, obj: bool): Option<Pass1> {
    var syms :- DefineLabels(toks, p.syms, p.org);
    var q := p.(syms := syms);
    var ts := DropLabels(toks);
    if ts == [] then Some(q) else
    match ts[0]
    case Dot(d) => Pass1Directive(DirectiveOf(d), ts[1..], toks, q, obj)
    case Ident(m) => Some(q.(org := Wrap(q.org + InstrSize(m))))
    case _ => Some(q)
  }

  /** Pass 1 over the first `k` lines. */
  function RunPass1(lines: seq<Line>, k: nat, obj: bool): Option<Pass1>
    requires k <= |lines|
  {
    if k == 0 then Some(Pass1(0, [], 0)) else
    var p :- RunPass1(lines, k - 1, obj);
    Pass1Line(lines[k - 1], p, obj)
  }

  /* ---- Pass 2 ---- */

  /** What has been emitted; the current address is its length. */
  datatype Pass2 = Pass2(out: seq<Byte>, syms: Symtab, relocs: seq<Reloc>)

  function Place(r: Reloc, at: int): Reloc {
    r.(offset := Wrap(at + r.offset))
  }

  function PlaceAll(rs: seq<Reloc>, at: int): seq<Reloc> {
    seq(|rs|, i requires 0 <= i < |rs| => Place(rs[i], at))
  }

  function Pass2Line(toks: Line, p: Pass2, base: Word, obj: bool): Option<Pass2> {
    var e :- LineBytes(toks, p.syms, Wrap(|p.out|), obj);
    var syms :- LineSymbols(toks, p.syms);
    if |p.out| + |e.bytes| > MAX_OUTPUT then None
    else Some(Pass2(p.out + e.bytes, syms, p.relocs + PlaceAll(e.relocs, |p.out| - base)))
  }

  /** Pass 2 over the first `k` lines, starting from the symbols of pass 1. */
  function RunPass2(lines: seq<Line>, k: nat, syms: Symtab, base: Word, obj: bool): Option<Pass2>
    requires k <= |lines|
  {
    if k == 0 then Some(Pass2([], syms, [])) else
    var p :- RunPass2(lines, k - 1, syms, base, obj);
    Pass2Line(lines[k - 1], p, base, obj)
  }

  /* ---- Whole assemblies ---- */

  function AssembleFlat(lines: seq<Line>): Option<seq<Byte>> {
    var p1 :- RunPass1(lines, |lines|, false);
    var p2 :- RunPass2(lines, |lines|, p1.syms, 0, false);
    Some(p2.out)
  }

  /** One section of bytes, where it wants to be (0: anywhere), its symbols and relocations. */
  datatype Object = Object(vmaHint: Word, data: seq<Byte>, base: Word, syms: Symtab, relocs: seq<Reloc>)

  function AssembleObject(lines: seq<Line>): Option<Object> {
    var p1 :- RunPass1(lines, |lines|, true);
    var p2 :- RunPass2(lines, |lines|, p1.syms, p1.base, true);
    Some(Object(p1.base, if |p2.out| > p1.base then p2.out[p1.base..] else [], p1.base, p2.syms, p2.relocs))
  }

  function TokenizeLines(src: seq<string>): Option<seq<Line>> {
    if src == [] then Some([]) else
    var t :- Tokenize(src[0]);
    var ts :- TokenizeLines(src[1..]);
    Some([t] + ts)
  }
}
