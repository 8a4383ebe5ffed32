/** The processor as a step function on values: registers, devices, traps, and one iteration of the
    execute loop. `Mode` selects the real machine (TLB) or the reference machine (always walks). */
module Cpu {
  import opened Words
  import opened Memory
  import opened Mmu

  const UART_BASE: Word := 0x03F0_0000
  const TIMER_BASE: Word := 0x03F0_1000
  const IC_BASE: Word := 0x03F0_2000
  const BLK_BASE: Word := 0x03F0_3000
  const SV_BASE: Word := 0x03FF_F000

  type Reg = n: int | 0 <= n < 16
  type Regs = r: seq<Word> | |r| == 16 witness [0, 0, 0, 0, 0, 0, 0, 0, 0, 0, 0, 0, 0, 0, 0, 0]

  datatype Timer = Timer(period: Word, count: Word, control: Word)

  datatype Uart = Uart(control: Word, rxReady: bool, rxByte: Byte, tx: seq<Byte>)

  /** The block device of a machine started without a disk image. */
  datatype Blk = Blk(sector: Word, buffer: Word, status: Word, control: Word)

  /** Everything but memory and the TLB. `tx` in `uart` is what has been sent to the terminal. */
  datatype Core = Core(
    r: Regs, flags: Word,
    epc: Word, eflags: Word, evec: Word, cause: Word, status: Word, estatus: Word, satp: Word, badaddr: Word,
    halted: bool, pollDivider: Word, faultingPc: Word,
    uart: Uart, timer: Timer, icPending: Word, icMask: Word, blk: Blk)
  {
    predicate User() { status % 2 == 0 }
    predicate InterruptsEnabled() { Bit(status, 2) }
  }

  datatype State = State(core: Core, mem: Mem, tlb: Tlb)

  datatype Mode = Cached | Walking

  /* ---- Traps ---- */

  /** Trap entry: save STATUS, the return address and the flags, go to supervisor mode with interrupts
      off, and load PC from the vector table. */
  function Enter(c: Core, mem: Mem, cause: Word, epc: Word): Core {
    c.(estatus := c.status, epc := epc, eflags := c.flags, cause := cause, status := 1,
       r := c.r[15 := Vector(mem, c.evec, cause)])
  }

  function Vector(mem: Mem, evec: Word, cause: Word): Word {
    var hvec := Wrap(evec + cause * 4);
    if hvec < MEM_SIZE then Read32(mem, hvec) else 0
  }

  function Raise(c: Core, mem: Mem, cause: Word): Core {
    Enter(c, mem, cause, c.faultingPc)
  }

  function RaiseIn(s: State, cause: Word): State {
    s.(core := Raise(s.core, s.mem, cause))
  }

  /* ---- Translation ---- */

  function Xlated(mode: Mode, s: State, va: Word, acc: Access): Xlate {
    if mode.Cached? then CachedTranslate(s.mem, s.tlb, s.core.satp, s.core.User(), va, acc)
    else WalkTranslate(s.mem, s.tlb, s.core.satp, s.core.User(), va, acc)
  }

  /** The physical address, or None after the page fault has been raised. */
  function Translate(mode: Mode, s: State, va: Word, acc: Access): (State, Option<Word>) {
    var x := Xlated(mode, s, va, acc);
    var core := if x.pa.None? then Raise(s.core.(badaddr := va), s.mem, acc.Cause()) else s.core;
    (State(core, x.mem, x.tlb), x.pa)
  }

  /* ---- Memory-mapped devices ---- */

  function MmioRead(c: Core, mem: Mem, a: Word): (Core, Word) {
    if SV_BASE <= a <= SV_BASE + 0x1C then
      if c.User() then (Raise(c, mem, 2), 0) else
      match a - SV_BASE
      case 0x00 => (c, c.epc)
      case 0x04 => (c, c.eflags)
      case 0x08 => (c, c.evec)
      case 0x0C => (c, c.cause)
      case 0x10 => (c, c.status)
      case 0x14 => (c, c.estatus)
      case 0x18 => (c, c.satp)
      case 0x1C => (c, c.badaddr)
      case _ => (c, 0)
    else if a == UART_BASE then (c, if c.uart.rxReady then 3 else 1)
    else if a == UART_BASE + 8 then
      if c.uart.rxReady then (c.(uart := c.uart.(rxReady := false)), c.uart.rxByte) else (c, 0)
    else if a == UART_BASE + 0xC then (c, c.uart.control)
    else if a == TIMER_BASE then (c, c.timer.count)
    else if a == TIMER_BASE + 4 then (c, c.timer.control)
    else if a == IC_BASE then (c, c.icPending)
    else if a == IC_BASE + 4 then (c, c.icMask)
    else if a == BLK_BASE then (c, c.blk.sector)
    else if a == BLK_BASE + 4 then (c, c.blk.buffer)
    else if a == BLK_BASE + 0xC then (c, c.blk.status)
    else if a == BLK_BASE + 0x10 then (c, c.blk.control)
    else (c, 0)
  }

  function MmioWrite(s: State, a: Word, v: Word): State {
    var c := s.core;
    if SV_BASE <= a <= SV_BASE + 0x20 then
      if c.User() then RaiseIn(s, 2)
      else if a == SV_BASE + 0x18 then State(c.(satp := v), s.mem, FlushNonGlobal(s.tlb))
      else s.(core := SupervisorWrite(c, a - SV_BASE, v))
    else s.(core := DeviceWrite(c, a, v))
  }

  /** CAUSE and BADADDR are read-only; the wait register only idles the host. */
  function SupervisorWrite(c: Core, offset: int, v: Word): Core {
    match offset
    case 0x00 => c.(epc := v)
    case 0x04 => c.(eflags := v)
    case 0x08 => c.(evec := v)
    case 0x10 => c.(status := v)
    case 0x14 => c.(estatus := v)
    case _ => c
  }

  function DeviceWrite(c: Core, a: Word, v: Word): Core {
    if a == UART_BASE + 4 then
      c.(uart := c.uart.(tx := c.uart.tx + [v % 0x100]),
         icPending := if Bit(c.uart.control, 2) then OrW(c.icPending, 4) else c.icPending)
    else if a == UART_BASE + 0xC then c.(uart := c.uart.(control := v))
    else if a == TIMER_BASE then c.(timer := c.timer.(period := v, count := v))
    else if a == TIMER_BASE + 4 then c.(timer := c.timer.(control := v))
    else if a == IC_BASE + 4 then c.(icMask := v)
    else if a == IC_BASE + 8 then c.(icPending := c.icPending - And(c.icPending, v))
    else if a == BLK_BASE then c.(blk := c.blk.(sector := v))
    else if a == BLK_BASE + 4 then c.(blk := c.blk.(buffer := v))
    else if a == BLK_BASE + 8 then c.(blk := c.blk.(status := 2))
    else if a == BLK_BASE + 0x10 then c.(blk := c.blk.(control := v))
    else c
  }

  /* ---- Checked memory accesses ---- */

  function Modulus(n: Width): int {
    if n == 1 then 0x100 else if n == 2 then 0x1_0000 else 0x1_0000_0000
  }

  function CpuRead(mode: Mode, s: State, va: Word, n: Width): (State, Word) {
    var (t, pa) := Translate(mode, s, va, Load);
    match pa
    case None => (t, 0)
    case Some(a) =>
      if a >= MEM_SIZE then (RaiseIn(t, 2), 0)
      else if a % n != 0 then (RaiseIn(t, 1), 0)
      else if a >= MMIO_BASE then
        var (c, v) := MmioRead(t.core, t.mem, a);
        (t.(core := c), v % Modulus(n))
      else (t, ReadN(t.mem, a, n))
  }

  function CpuWrite(mode: Mode, s: State, va: Word, n: Width, v: Word): State {
    var (t, pa) := Translate(mode, s, va, Access.Store);
    match pa
    case None => t
    case Some(a) =>
      if a >= MEM_SIZE then RaiseIn(t, 2)
      else if a % n != 0 then RaiseIn(t, 1)
      else if a >= MMIO_BASE then MmioWrite(t, a, v % Modulus(n))
      else t.(mem := WriteN(t.mem, a, n, v))
  }

  function CpuFetch(mode: Mode, s: State, pc: Word): (State, Option<Word>) {
    var (t, pa) := Translate(mode, s, pc, Fetch);
    match pa
    case None => (t, None)
    case Some(a) => if a >= MEM_SIZE then (RaiseIn(t, 2), None) else (t, Some(Read32(t.mem, a)))
  }

  /* ---- Flags: N 31, Z 30, C 29, V 28 ---- */

  predicate Neg(w: Word) { w >= 0x8000_0000 }
  predicate FlagN(f: Word) { f >= 0x8000_0000 }
  predicate FlagZ(f: Word) { f / 0x4000_0000 % 2 == 1 }
  predicate FlagC(f: Word) { f / 0x2000_0000 % 2 == 1 }
  predicate FlagV(f: Word) { f / 0x1000_0000 % 2 == 1 }

  function One(b: bool): int { if b then 1 else 0 }

  /** All four flags from a result; the low 28 bits stay. */
  function Flags(f: Word, r: Word, c: bool, v: bool): Word {
    0x8000_0000 * One(Neg(r)) + 0x4000_0000 * One(r == 0) + 0x2000_0000 * One(c) + 0x1000_0000 * One(v)
      + f % 0x1000_0000
  }

  /** N and Z only. */
  function FlagsNZ(f: Word, r: Word): Word {
    0x8000_0000 * One(Neg(r)) + 0x4000_0000 * One(r == 0) + f % 0x4000_0000
  }

  datatype Result = Result(value: Word, flags: Word)

  /** ADD, ADDI (carry = false) and ADDC. */
  function AddOp(a: Word, b: Word, carry: bool, f: Word): Result {
    var r := Wrap(a + b + One(carry));
    Result(r, Flags(f, r, a + b + One(carry) > 0xFFFF_FFFF, Neg(a) == Neg(b) && Neg(r) != Neg(a)))
  }

  /** SUB, SUBI, CMP, CMPI (borrow = false) and SUBC. */
  function SubOp(a: Word, b: Word, borrow: bool, f: Word): Result {
    var r := Wrap(a - b - One(borrow));
    Result(r, Flags(f, r, b + One(borrow) > a, Neg(a) != Neg(b) && Neg(r) != Neg(a)))
  }

  function Logical(r: Word, f: Word): Result { Result(r, Flags(f, r, false, false)) }
  function Scaled(r: Word, f: Word): Result { Result(r, FlagsNZ(f, r)) }

  function Lsl(a: Word, n: nat): Word { Wrap(a * Pow2(n)) }
  function Lsr(a: Word, n: nat): Word { DivLe(a, Pow2(n)); a / Pow2(n) }
  function Asr(a: Word, n: nat): Word { Wrap(Signed(a) / Pow2(n)) }
  function Rol(a: Word, n: nat): Word requires n < 32 {
    if n == 0 then a else OrW(Lsl(a, n), Lsr(a, 32 - n))
  }
  function Ror(a: Word, n: nat): Word requires n < 32 {
    if n == 0 then a else OrW(Lsr(a, n), Lsl(a, 32 - n))
  }

  lemma DivLe(a: nat, p: nat)
    requires p > 0
    ensures 0 <= a / p <= a
  {
    var q := a / p;
    assert a == q * p + a % p;
    MulLe(q, 1, p);
  }

  /** C division truncates toward zero. */
  function TruncDiv(a: int, b: int): int
    requires b != 0
  {
    if a >= 0 then a / b else -((-a) / b)
  }

  function TruncMod(a: int, b: int): int
    requires b != 0
  {
    if a >= 0 then a % b else -((-a) % b)
  }

  /* ---- Decoding ---- */

  /** An instruction with its operands read: what remains is to perform it. */
  datatype Op =
    | Put(rd: Reg, value: Word, flags: Word)
    | Compare(flags: Word)
    | LoadOp(rd: Reg, va: Word, n: Width, signed: bool)
    | StoreOp(va: Word, n: Width, value: Word)
    | Cas(rd: Reg, addr: Word, rs2: Reg)
    | Link(rd: Reg, target: Word)
    | Goto(target: Word)
    | Fall
    | Fault(cause: Word)
    | Sfence | Syscall | Sysret | Halt | Kret

  function Opcode(w: Word): int { w / 0x100_0000 }
  function Rd(w: Word): Reg { w / 0x10_0000 % 0x10 }
  function Rs1(w: Word): Reg { w / 0x1_0000 % 0x10 }
  function Rs2(w: Word): Reg { w / 0x1000 % 0x10 }
  function Shift(w: Word): nat { w / 0x80 % 0x20 }
  function Imm16(w: Word): Word { w % 0x1_0000 }
  function Simm(w: Word): int { SignExtend(w, 0x8000) }
  function Soff(w: Word): int { SignExtend(w, 0x8_0000) }

  predicate Taken(cond: Reg, f: Word)
    requires cond <= 10
  {
    match cond
    case 0 => FlagZ(f)
    case 1 => !FlagZ(f)
    case 2 => FlagN(f) != FlagV(f)
    case 3 => FlagN(f) == FlagV(f)
    case 4 => FlagC(f)
    case 5 => !FlagC(f)
    case 6 => true
    case 7 => !FlagZ(f) && FlagN(f) == FlagV(f)
    case 8 => FlagZ(f) || FlagN(f) != FlagV(f)
    case 9 => !FlagC(f) && !FlagZ(f)
    case _ => FlagC(f) || FlagZ(f)
  }

  function PutResult(rd: Reg, r: Result): Op { Put(rd, r.value, r.flags) }

  function DivOp(rd: Reg, b: Word, r: Word, f: Word): Op {
    if b == 0 then Fault(4) else PutResult(rd, Scaled(r, f))
  }

  /** `c.r[15]` already holds `pc + 4`. */
  function Decode(c: Core, pc: Word, w: Word): Op {
    var op, rd := Opcode(w), Rd(w);
    var a, b, f := c.r[Rs1(w)], c.r[Rs2(w)], c.flags;
    var sh, imm, simm := Shift(w), Imm16(w), Simm(w);
    var simmW := Wrap(simm);
    match op
    case 0x00 => PutResult(rd, AddOp(a, b, false, f))
    case 0x01 => PutResult(rd, SubOp(a, b, false, f))
    case 0x02 => PutResult(rd, Logical(And(a, b), f))
    case 0x03 => PutResult(rd, Logical(OrW(a, b), f))
    case 0x04 => PutResult(rd, Logical(XorW(a, b), f))
    case 0x05 => PutResult(rd, Logical(0xFFFF_FFFF - a, f))
    case 0x06 => PutResult(rd, Logical(Lsl(a, sh), f))
    case 0x07 => PutResult(rd, Logical(Lsr(a, sh), f))
    case 0x08 => PutResult(rd, Logical(Asr(a, sh), f))
    case 0x09 => PutResult(rd, Scaled(Wrap(a * b), f))
    case 0x0A => DivOp(rd, b, if b == 0 then 0 else Wrap(TruncDiv(Signed(a), Signed(b))), f)
    case 0x0B => LoadOp(rd, Wrap(a + simm), 4, false)
    case 0x0C => StoreOp(Wrap(a + simm), 4, c.r[rd])
    case 0x0D =>
      if rd > 10 then Fault(0) else if Taken(rd, f) then Goto(Wrap(pc + Soff(w))) else Fall
    case 0x0E => Link(rd, Wrap(pc + Soff(w)))
    case 0x0F => Put(rd, imm, f)
    case 0x10 => Syscall
    case 0x11 => Sysret
    case 0x12 => Halt
    case 0x13 => Put(rd, c.r[rd] % 0x1_0000 + 0x1_0000 * imm, f)
    case 0x14 => PutResult(rd, AddOp(a, simmW, false, f))
    case 0x15 => PutResult(rd, SubOp(a, simmW, false, f))
    case 0x16 => PutResult(rd, Logical(And(a, imm), f))
    case 0x17 => PutResult(rd, Logical(OrW(a, imm), f))
    case 0x18 => PutResult(rd, Logical(XorW(a, imm), f))
    case 0x19 => PutResult(rd, Logical(Lsl(a, imm % 0x20), f))
    case 0x1A => PutResult(rd, Logical(Lsr(a, imm % 0x20), f))
    case 0x1B => PutResult(rd, Logical(Asr(a, imm % 0x20), f))
    case 0x1C => LoadOp(rd, Wrap(a + simm), 2, true)
    case 0x1D => LoadOp(rd, Wrap(a + simm), 2, false)
    case 0x1E => LoadOp(rd, Wrap(a + simm), 1, true)
    case 0x1F => LoadOp(rd, Wrap(a + simm), 1, false)
    case 0x20 => StoreOp(Wrap(a + simm), 2, c.r[rd])
    case 0x21 => StoreOp(Wrap(a + simm), 1, c.r[rd])
    case 0x22 => PutResult(rd, Scaled(Wrap(Signed(a) * Signed(b) / 0x1_0000_0000), f))
    case 0x23 => PutResult(rd, Scaled(Wrap(a * b / 0x1_0000_0000), f))
    case 0x24 => DivOp(rd, b, if b == 0 then 0 else Wrap(a / b), f)
    case 0x25 => DivOp(rd, b, if b == 0 then 0 else Wrap(TruncMod(Signed(a), Signed(b))), f)
    case 0x26 => DivOp(rd, b, if b == 0 then 0 else Wrap(a % b), f)
    case 0x27 => Put(rd, a, f)
    case 0x28 => Compare(SubOp(a, b, false, f).flags)
    case 0x29 => Compare(SubOp(a, imm, false, f).flags)
    case 0x2A => Link(rd, a)
    case 0x2B => PutResult(rd, AddOp(a, b, FlagC(f), f))
    case 0x2C => PutResult(rd, SubOp(a, b, FlagC(f), f))
    case 0x2D => PutResult(rd, Logical(Lsl(a, b % 0x20), f))
    case 0x2E => PutResult(rd, Logical(Lsr(a, b % 0x20), f))
    case 0x2F => PutResult(rd, Logical(Asr(a, b % 0x20), f))
    case 0x30 => LoadOp(rd, Wrap(a + b), 4, false)
    case 0x31 => LoadOp(rd, Wrap(a + b), 1, true)
    case 0x32 => LoadOp(rd, Wrap(a + b), 1, false)
    case 0x33 => StoreOp(Wrap(a + b), 4, c.r[rd])
    case 0x34 => StoreOp(Wrap(a + b), 1, c.r[rd])
    case 0x35 => LoadOp(rd, Wrap(a + b), 2, true)
    case 0x36 => LoadOp(rd, Wrap(a + b), 2, false)
    case 0x37 => StoreOp(Wrap(a + b), 2, c.r[rd])
    case 0x38 => Put(rd, 0x1_0000 * imm, f)
    case 0x39 => PutResult(rd, Logical(Rol(a, b % 0x20), f))
    case 0x3A => PutResult(rd, Logical(Ror(a, b % 0x20), f))
    case 0x3B => PutResult(rd, Logical(Rol(a, sh), f))
    case 0x3C => PutResult(rd, Logical(Ror(a, sh), f))
    case 0x3D => Cas(rd, a, Rs2(w))
    case 0x3E => Sfence
    case 0x3F => Kret
    case _ => Fault(0)
  }

  /* ---- Execution ---- */

  function SetReg(c: Core, rd: Reg, v: Word): Core {
    c.(r := c.r[rd := v])
  }

  function Extend(v: Word, n: Width, signed: bool): Word {
    if signed then Wrap(SignExtend(v, Modulus(n) / 2)) else v
  }

  /** Compare-and-swap works on physical memory and goes on after a device read that trapped. */
  function ExecuteCas(s: State, rd: Reg, addr: Word, rs2: Reg): State {
    if addr % 4 != 0 then RaiseIn(s, 1)
    else if addr >= MEM_SIZE then RaiseIn(s, 2)
    else
      var (c, cur) := if addr >= MMIO_BASE then MmioRead(s.core, s.mem, addr) else (s.core, Read32(s.mem, addr));
      var t := s.(core := c);
      if cur == c.r[rd] then
        var u := if addr >= MMIO_BASE then MmioWrite(t, addr, c.r[rs2])
                 else t.(mem := Write32(t.mem, addr, c.r[rs2]));
        u.(core := u.core.(flags := OrW(u.core.flags, 0x4000_0000)))
      else
        t.(core := SetReg(c, rd, cur).(flags := c.flags - And(c.flags, 0x4000_0000)))
  }

  function Execute(mode: Mode, s: State, op: Op): State {
    var c := s.core;
    match op
    case Put(rd, v, f) => s.(core := SetReg(c, rd, v).(flags := f))
    case Compare(f) => s.(core := c.(flags := f))
    case LoadOp(rd, va, n, signed) =>
      var (t, v) := CpuRead(mode, s, va, n);
      t.(core := SetReg(t.core, rd, Extend(v, n, signed)))
    case StoreOp(va, n, v) => CpuWrite(mode, s, va, n, v)
    case Cas(rd, addr, rs2) => ExecuteCas(s, rd, addr, rs2)
    case Link(rd, target) => s.(core := SetReg(SetReg(c, rd, c.r[15]), 15, target))
    case Goto(target) => s.(core := SetReg(c, 15, target))
    case Fall => s
    case Fault(cause) => RaiseIn(s, cause)
    case Sfence => if c.User() then RaiseIn(s, 0) else s.(tlb := FlushNonGlobal(s.tlb))
    case Syscall => s.(core := Enter(c, s.mem, 3, c.r[15]))
    case Sysret =>
      if c.User() then RaiseIn(s, 0)
      else s.(core := SetReg(c, 15, c.epc).(flags := c.eflags, status := c.estatus - c.estatus % 2))
    case Halt => s.(core := c.(halted := true))
    case Kret =>
      if c.User() then RaiseIn(s, 0)
      else s.(core := SetReg(c, 15, c.epc).(flags := c.eflags, status := c.estatus))
  }

  /* ---- Housekeeping after every iteration ---- */

  function TimerTick(t: Timer): (Timer, bool) {
    if t.control % 2 == 0 then (t, false) else
    var count := if t.count > 0 then t.count - 1 else 0;
    if count == 0 then (t.(count := t.period), Bit(t.control, 2)) else (t.(count := count), false)
  }

  function Tick(c: Core): Core {
    var (t, expired) := TimerTick(c.timer);
    c.(timer := t, icPending := if expired then OrW(c.icPending, 1) else c.icPending)
  }

  /** Every 1000th iteration looks for terminal input; `rx` is the byte found there, if any. */
  function Poll(c: Core, rx: Option<Byte>): Core {
    var n := Wrap(c.pollDivider + 1);
    if n < 1000 then c.(pollDivider := n)
    else if c.uart.rxReady || rx.None? then c.(pollDivider := 0)
    else c.(pollDivider := 0, uart := c.uart.(rxByte := rx.value, rxReady := true),
            icPending := if Bit(c.uart.control, 1) then OrW(c.icPending, 2) else c.icPending)
  }

  predicate IrqDue(c: Core) {
    c.InterruptsEnabled() && And(c.icPending, c.icMask) != 0
  }

  function InterruptCheck(c: Core, mem: Mem): Core {
    if IrqDue(c) then Enter(c, mem, 6, c.r[15]) else c
  }

  function Housekeep(s: State, rx: Option<Byte>): State {
    var c := Poll(Tick(s.core), rx);
    s.(core := if c.halted then c else InterruptCheck(c, s.mem))
  }

  /** The state in which the fetched instruction executes, or the one after a failed fetch. */
  function Fetched(mode: Mode, s: State): (State, Option<Word>) {
    var pc := s.core.r[15];
    var (t, w) := CpuFetch(mode, s.(core := s.core.(faultingPc := pc)), pc);
    (if w.Some? then t.(core := SetReg(t.core, 15, Wrap(pc + 4))) else t, w)
  }

  /** One iteration of the execute loop. A supervisor KRET skips the interrupt check. */
  function Step(mode: Mode, s: State, rx: Option<Byte>): State {
    var (t, w) := Fetched(mode, s);
    if w.None? then Housekeep(t, rx) else
    var op := Decode(t.core, s.core.r[15], w.value);
    var u := Execute(mode, t, op);
    if op.Kret? && !t.core.User() then u.(core := Poll(Tick(u.core), rx)) else Housekeep(u, rx)
  }

  /** The loop: one step per element of `rxs`, until halted. */
  function Run(mode: Mode, s: State, rxs: seq<Option<Byte>>): State
    decreases |rxs|
  {
    if s.core.halted || rxs == [] then s else Run(mode, Step(mode, s, rxs[0]), rxs[1..])
  }
}
