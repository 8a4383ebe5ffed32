/** The assembler's instruction table with its case-insensitive search. */
module OpTable {
  import opened Words

  datatype Format = R3 | R2 | RShift | ISigned | IUnsigned | IShift | Mem | MemIdx | Branch | Jump | Movi | Movhi
                  | NoOperands | Movi32 | Cmp | Cmpi | Ret | Br | Call | Push | Pop

  /** `cond` is the branch condition, 0 where it does not apply. */
  datatype OpEntry = OpEntry(opcode: Byte, fmt: Format, cond: Byte)

  function UpperChar(c: char): char {
    if 'a' <= c <= 'z' then (c as int - 32) as char else c
  }

  function UpperCase(s: string): (u: string)
    ensures |u| == |s|
  {
    seq(|s|, i requires 0 <= i < |s| => UpperChar(s[i]))
  }

  /** strcasecmp(a, b) == 0 */
  predicate SameNoCase(a: string, b: string) {
    UpperCase(a) == UpperCase(b)
  }

  /** The row of the table with this mnemonic, whatever its case. */
  function FindOpcode(m: string): Option<OpEntry> {
    Row(UpperCase(m))
  }

  /** The table, by length of the mnemonic and (three and four letters) by its first letter. */
  function Row(m: string): Option<OpEntry> {
    match |m|
    case 2 => Row2(m)
    case 3 => if m[0] < 'L' then Row3Low(m) else Row3High(m)
    case 4 => if m[0] < 'L' then Row4Low(m) else Row4High(m)
    case 5 => Row5(m)
    case 6 => Row6(m)
    case 7 => Row7(m)
    case _ => None
  }

  function Row2(m: string): Option<OpEntry> {
    match m
    case "OR" => Some(OpEntry(0x03, R3, 0))
    case "LW" => Some(OpEntry(0x0B, Mem, 0))
    case "SW" => Some(OpEntry(0x0C, Mem, 0))
    case "BA" => Some(OpEntry(0x0D, Branch, 6))
    case "LH" => Some(OpEntry(0x1C, Mem, 0))
    case "LB" => Some(OpEntry(0x1E, Mem, 0))
    case "SH" => Some(OpEntry(0x20, Mem, 0))
    case "SB" => Some(OpEntry(0x21, Mem, 0))
    case "BR" => Some(OpEntry(0x27, Br, 0))
    case _ => None
  }

  function Row3Low(m: string): Option<OpEntry> {
    match m
    case "ADD" => Some(OpEntry(0x00, R3, 0))
    case "AND" => Some(OpEntry(0x02, R3, 0))
    case "ASR" => Some(OpEntry(0x08, RShift, 0))
    case "DIV" => Some(OpEntry(0x0A, R3, 0))
    case "BEQ" => Some(OpEntry(0x0D, Branch, 0))
    case "BNE" => Some(OpEntry(0x0D, Branch, 1))
    case "BLT" => Some(OpEntry(0x0D, Branch, 2))
    case "BGE" => Some(OpEntry(0x0D, Branch, 3))
    case "BGT" => Some(OpEntry(0x0D, Branch, 7))
    case "BLE" => Some(OpEntry(0x0D, Branch, 8))
    case "JMP" => Some(OpEntry(0x0E, Jump, 0))
    case "CMP" => Some(OpEntry(0x28, Cmp, 0))
    case "CAS" => Some(OpEntry(0x3D, R3, 0))
    case _ => None
  }

  function Row3High(m: string): Option<OpEntry> {
    match m
    case "SUB" => Some(OpEntry(0x01, R3, 0))
    case "XOR" => Some(OpEntry(0x04, R3, 0))
    case "NOT" => Some(OpEntry(0x05, R2, 0))
    case "LSL" => Some(OpEntry(0x06, RShift, 0))
    case "LSR" => Some(OpEntry(0x07, RShift, 0))
    case "MUL" => Some(OpEntry(0x09, R3, 0))
    case "ORI" => Some(OpEntry(0x17, IUnsigned, 0))
    case "LHU" => Some(OpEntry(0x1D, Mem, 0))
    case "LBU" => Some(OpEntry(0x1F, Mem, 0))
    case "MOD" => Some(OpEntry(0x25, R3, 0))
    case "MOV" => Some(OpEntry(0x27, R2, 0))
    case "LWX" => Some(OpEntry(0x30, MemIdx, 0))
    case "LBX" => Some(OpEntry(0x31, MemIdx, 0))
    case "SWX" => Some(OpEntry(0x33, MemIdx, 0))
    case "SBX" => Some(OpEntry(0x34, MemIdx, 0))
    case "LHX" => Some(OpEntry(0x35, MemIdx, 0))
    case "SHX" => Some(OpEntry(0x37, MemIdx, 0))
    case "LUI" => Some(OpEntry(0x38, Movi, 0))
    case "RET" => Some(OpEntry(0x27, Ret, 0))
    case "NOP" => Some(OpEntry(0x0F, NoOperands, 0))
    case "POP" => Some(OpEntry(0x00, Pop, 0))
    case _ => None
  }

  function Row4Low(m: string): Option<OpEntry> {
    match m
    case "BLTU" => Some(OpEntry(0x0D, Branch, 4))
    case "BGEU" => Some(OpEntry(0x0D, Branch, 5))
    case "BGTU" => Some(OpEntry(0x0D, Branch, 9))
    case "BLEU" => Some(OpEntry(0x0D, Branch, 10))
    case "HALT" => Some(OpEntry(0x12, NoOperands, 0))
    case "ADDI" => Some(OpEntry(0x14, ISigned, 0))
    case "ANDI" => Some(OpEntry(0x16, IUnsigned, 0))
    case "ASRI" => Some(OpEntry(0x1B, IShift, 0))
    case "DIVU" => Some(OpEntry(0x24, R3, 0))
    case "CMPI" => Some(OpEntry(0x29, Cmpi, 0))
    case "ADDC" => Some(OpEntry(0x2B, R3, 0))
    case "ASRR" => Some(OpEntry(0x2F, R3, 0))
    case "CALL" => Some(OpEntry(0x0E, Call, 0))
    case _ => None
  }

  function Row4High(m: string): Option<OpEntry> {
    match m
    case "MOVI" => Some(OpEntry(0x0F, Movi, 0))
    case "SUBI" => Some(OpEntry(0x15, ISigned, 0))
    case "XORI" => Some(OpEntry(0x18, IUnsigned, 0))
    case "LSLI" => Some(OpEntry(0x19, IShift, 0))
    case "LSRI" => Some(OpEntry(0x1A, IShift, 0))
    case "MULH" => Some(OpEntry(0x22, R3, 0))
    case "MODU" => Some(OpEntry(0x26, R3, 0))
    case "SUBC" => Some(OpEntry(0x2C, R3, 0))
    case "LSLR" => Some(OpEntry(0x2D, R3, 0))
    case "LSRR" => Some(OpEntry(0x2E, R3, 0))
    case "LBUX" => Some(OpEntry(0x32, MemIdx, 0))
    case "LHUX" => Some(OpEntry(0x36, MemIdx, 0))
    case "ROLR" => Some(OpEntry(0x39, R3, 0))
    case "RORR" => Some(OpEntry(0x3A, R3, 0))
    case "ROLI" => Some(OpEntry(0x3B, RShift, 0))
    case "RORI" => Some(OpEntry(0x3C, RShift, 0))
    case "PUSH" => Some(OpEntry(0x00, Push, 0))
    case _ => None
  }

  function Row5(m: string): Option<OpEntry> {
    match m
    case "MOVHI" => Some(OpEntry(0x13, Movhi, 0))
    case "MULHU" => Some(OpEntry(0x23, R3, 0))
    case "CALLR" => Some(OpEntry(0x2A, R2, 0))
    case _ => None
  }

  function Row6(m: string): Option<OpEntry> {
    match m
    case "SYSRET" => Some(OpEntry(0x11, NoOperands, 0))
    case "SFENCE" => Some(OpEntry(0x3E, NoOperands, 0))
    case "MOVI32" => Some(OpEntry(0x00, Movi32, 0))
    case _ => None
  }

  function Row7(m: string): Option<OpEntry> {
    match m
    case "SYSCALL" => Some(OpEntry(0x10, NoOperands, 0))
    case _ => None
  }
}
