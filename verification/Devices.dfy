/** Device and supervisor registers by their addresses: what a store to each of them changes, and what a load then
    reads. And what follows for interrupts: an acknowledged timer is silent until it expires again. */
module Devices {
  import opened Words
  import opened Memory
  import opened Mmu
  import opened Cpu
  import opened Bits
  import opened Privilege
  import opened Preemption
  import opened Causes

  /** SW of `v` to address `a`, and LW from there. */
  function Sw(mode: Mode, s: State, a: Word, v: Word): State {
    Execute(mode, s, StoreOp(a, 4, v))
  }

  function Lw(mode: Mode, s: State, rd: Reg, a: Word): State {
    Execute(mode, s, LoadOp(rd, a, 4, false))
  }

  lemma SwIsWrite(mode: Mode, s: State, a: Word, v: Word)
    requires MMIO_BASE <= a < MEM_SIZE && a % 4 == 0
    ensures Sw(mode, s, a, v) == MmioWrite(s, a, v)
  {
    hide HitTranslate, MissTranslate, FindLeaf, MmioWrite;
    DivUnique(v, 0x1_0000_0000, 0, v);
  }

  lemma LwIsRead(mode: Mode, s: State, rd: Reg, a: Word)
    requires MMIO_BASE <= a < MEM_SIZE && a % 4 == 0
    ensures var (c, v) := MmioRead(s.core, s.mem, a);
      Lw(mode, s, rd, a) == s.(core := SetReg(c, rd, v))
  {
    hide HitTranslate, MissTranslate, FindLeaf, MmioRead;
    var v := MmioRead(s.core, s.mem, a).1;
    DivUnique(v, 0x1_0000_0000, 0, v);
  }

  /* ---- The interrupt controller ---- */

  /** Acknowledge, at 0x03F02008: a bit is pending exactly when it was and is not acknowledged; nothing else changes. */
  lemma AckClears(mode: Mode, s: State, v: Word)
    ensures var t := Sw(mode, s, 0x03F0_2008, v);
      && t == s.(core := s.core.(icPending := t.core.icPending))
      && forall k: nat :: BitAt(t.core.icPending, k) <==> BitAt(s.core.icPending, k) && !BitAt(v, k)
  {
    hide And, Sw, BitAt;
    SwIsWrite(mode, s, 0x03F0_2008, v);
    forall k: nat
      ensures BitAt(s.core.icPending - And(s.core.icPending, v), k) <==> BitAt(s.core.icPending, k) && !BitAt(v, k)
    {
      ClearBits(s.core.icPending, v, k);
    }
  }

  /** The mask, at 0x03F02004. */
  lemma MaskSets(mode: Mode, s: State, v: Word)
    ensures Sw(mode, s, 0x03F0_2004, v) == s.(core := s.core.(icMask := v))
  {
    hide Sw;
    SwIsWrite(mode, s, 0x03F0_2004, v);
  }

  /** The pending word, at 0x03F02000, is read as it stands, and a store to it does nothing. */
  lemma PendingReads(mode: Mode, s: State, rd: Reg, v: Word)
    ensures Lw(mode, s, rd, 0x03F0_2000) == s.(core := SetReg(s.core, rd, s.core.icPending))
    ensures Sw(mode, s, 0x03F0_2000, v) == s
  {
    hide Lw, Sw;
    LwIsRead(mode, s, rd, 0x03F0_2000);
    SwIsWrite(mode, s, 0x03F0_2000, v);
  }

  /** Bit `k` is pending and not masked out. */
  predicate Unmasked(c: Core, k: nat) {
    BitAt(c.icPending, k) && BitAt(c.icMask, k)
  }

  /** An interrupt is due exactly when STATUS bit 1 is set and some pending bit is in the mask. */
  lemma DueIff(c: Core)
    ensures IrqDue(c) <==> c.status / 2 % 2 == 1 && exists k: nat :: Unmasked(c, k)
  {
    hide And, BitAt;
    if And(c.icPending, c.icMask) != 0 {
      var k := CommonBit(c.icPending, c.icMask);
      assert Unmasked(c, k);
    }
    if k: nat :| Unmasked(c, k) {
      SharedBit(c.icPending, c.icMask, k);
    }
  }

  /** The timer expires in the next tick: enabled with its interrupt, and the count runs out. */
  predicate Expires(c: Core) {
    c.timer.control % 4 == 3 && c.timer.count <= 1
  }

  /** The next poll takes an input byte and announces it. */
  predicate Announces(c: Core, rx: Option<Byte>) {
    c.pollDivider >= 999 && c.pollDivider < 0xFFFF_FFFF && !c.uart.rxReady && rx.Some? && c.uart.control % 2 == 1
  }

  lemma LowWeights(k: nat)
    ensures BitAt(1, k) <==> k == 0
    ensures BitAt(2, k) <==> k == 1
    ensures BitAt(4, k) <==> k == 2
  {
    if k >= 1 {
      NoBits(k - 1);
    }
    if k >= 2 {
      NoBits(k - 2);
      assert BitAt(2, k) == BitAt(1, k - 1) == BitAt(0, k - 2);
    }
    if k >= 3 {
      NoBits(k - 3);
      assert BitAt(4, k) == BitAt(2, k - 1) == BitAt(1, k - 2) == BitAt(0, k - 3);
    }
  }

  /** The only bits an iteration's housekeeping sets: bit 0 when the timer expires, bit 1 for an announced byte. */
  lemma HousekeepingBits(c: Core, rx: Option<Byte>, k: nat)
    ensures BitAt(Poll(Tick(c), rx).icPending, k) <==>
      BitAt(c.icPending, k) || (k == 0 && Expires(c)) || (k == 1 && Announces(c, rx))
  {
    hide Or, BitAt;
    LowWeights(k);
    OrBits(c.icPending, 1, k);
    OrBits(c.icPending, 2, k);
    OrBits(OrW(c.icPending, 1), 2, k);
  }

  /** Main result on acknowledging, over a whole step with a store to 0x03F02008: a bit is pending afterwards exactly
      when it was before and was not acknowledged, or its event happened in this very step. */
  lemma AckStep(mode: Mode, s: State, rx: Option<Byte>, v: Word)
    requires Fetched(mode, s).1.Some? && Executed(mode, s).1 == StoreOp(0x03F0_2008, 4, v)
    ensures var q := Step(mode, s, rx).core;
      forall k: nat :: BitAt(q.icPending, k) <==>
        || (BitAt(s.core.icPending, k) && !BitAt(v, k))
        || (k == 0 && Expires(s.core)) || (k == 1 && Announces(s.core, rx))
  {
    hide Fetched, Decode, Execute, Poll, Tick, BitAt, Vector, IrqDue, Step;
    var (t, op) := Executed(mode, s);
    FetchOutcome(mode, s);
    AckClears(mode, t, v);
    var u := AfterInstruction(mode, s);
    assert u == Sw(mode, t, 0x03F0_2008, v);
    assert Step(mode, s, rx).core.icPending == Poll(Tick(u.core), rx).icPending by { StepPending(mode, s, rx); }
    forall k: nat
      ensures BitAt(Step(mode, s, rx).core.icPending, k) <==>
        || (BitAt(s.core.icPending, k) && !BitAt(v, k))
        || (k == 0 && Expires(s.core)) || (k == 1 && Announces(s.core, rx))
    {
      HousekeepingBits(u.core, rx, k);
    }
  }

  lemma StepPending(mode: Mode, s: State, rx: Option<Byte>)
    ensures var d, q := Poll(Tick(AfterInstruction(mode, s).core), rx), Step(mode, s, rx).core;
      q.icPending == d.icPending && q.icMask == d.icMask && q.timer == d.timer && q.halted == d.halted
  {
    hide Fetched, Decode, Execute, Tick, Poll, Vector, IrqDue;
  }

  /* ---- The terminal ---- */

  /** A byte sent, at 0x03F00004: the low byte of the word; bit 2 becomes pending if the control register has bit 1. */
  lemma Transmits(mode: Mode, s: State, v: Word)
    ensures var t := Sw(mode, s, 0x03F0_0004, v);
      && t.core.uart == s.core.uart.(tx := s.core.uart.tx + [v % 256])
      && t == s.(core := s.core.(uart := t.core.uart, icPending := t.core.icPending))
      && forall k: nat :: BitAt(t.core.icPending, k) <==>
           BitAt(s.core.icPending, k) || (k == 2 && s.core.uart.control / 2 % 2 == 1)
  {
    hide Or, Sw, BitAt;
    SwIsWrite(mode, s, 0x03F0_0004, v);
    forall k: nat ensures BitAt(OrW(s.core.icPending, 4), k) <==> BitAt(s.core.icPending, k) || k == 2 {
      OrBits(s.core.icPending, 4, k);
      LowWeights(k);
    }
  }

  /** A byte received: every thousandth iteration takes the input byte, if there is none yet. The status word at
      0x03F00000 then has bit 1, the data word at 0x03F00008 is the byte, once; bit 0, ready to send, is always set.
      */
  lemma Receives(mode: Mode, s: State, rx: Option<Byte>, rd: Reg)
    requires s.core.pollDivider == 999 && !s.core.uart.rxReady
    ensures var t := s.(core := Poll(s.core, rx));
      && t.core.pollDivider == 0
      && Lw(mode, t, rd, 0x03F0_0000).core.r[rd] == (if rx.Some? then 3 else 1)
      && var u := Lw(mode, t, rd, 0x03F0_0008);
         && u.core.r[rd] == (if rx.Some? then rx.value else 0)
         && Lw(mode, u, rd, 0x03F0_0000).core.r[rd] == 1 && Lw(mode, u, rd, 0x03F0_0008).core.r[rd] == 0
  {
    hide Lw, OrW;
    var t := s.(core := Poll(s.core, rx));
    LwIsRead(mode, t, rd, 0x03F0_0000);
    LwIsRead(mode, t, rd, 0x03F0_0008);
    var u := Lw(mode, t, rd, 0x03F0_0008);
    LwIsRead(mode, u, rd, 0x03F0_0000);
    LwIsRead(mode, u, rd, 0x03F0_0008);
  }

  /* ---- The timer ---- */

  /** Writing the period, at 0x03F01000, starts a count of that length; the control word is at 0x03F01004. */
  lemma TimerSets(mode: Mode, s: State, v: Word)
    ensures Sw(mode, s, 0x03F0_1000, v) == s.(core := s.core.(timer := Timer(v, v, s.core.timer.control)))
    ensures Sw(mode, s, 0x03F0_1004, v)
        == s.(core := s.core.(timer := Timer(s.core.timer.period, s.core.timer.count, v)))
  {
    hide Sw;
    SwIsWrite(mode, s, 0x03F0_1000, v);
    SwIsWrite(mode, s, 0x03F0_1004, v);
  }

  /** A period P written to an enabled timer: it expires in the iterations P, 2P, 3P, ... from then on. */
  lemma PeriodExpires(mode: Mode, s: State, p: Word, n: nat)
    requires p >= 1 && n >= 1 && s.core.timer.control % 4 == 3
    ensures ExpiresAt(Sw(mode, s, 0x03F0_1000, p).core.timer, n) <==> n % p == 0
  {
    hide Sw, ExpiresAt;
    TimerSets(mode, s, p);
    ExpiryTimes(Timer(p, p, s.core.timer.control), n);
    if n >= p {
      LessOne(n, p);
    } else {
      DivUnique(n, p, 0, n);
    }
  }

  /** What is read at 0x03F01000 is the count: after the period P was written and n ticks of an enabled timer, P - n
      while that is positive. */
  lemma CountReads(mode: Mode, s: State, rd: Reg, p: Word, n: nat)
    requires n < p && s.core.timer.control % 2 == 1
    ensures var t := Sw(mode, s, 0x03F0_1000, p);
      Lw(mode, t.(core := t.core.(timer := AfterTicks(t.core.timer, n))), rd, 0x03F0_1000).core.r[rd] == p - n
  {
    hide Sw, Lw;
    TimerSets(mode, s, p);
    var t := Sw(mode, s, 0x03F0_1000, p);
    Counted(t.core.timer, n);
    LwIsRead(mode, t.(core := t.core.(timer := AfterTicks(t.core.timer, n))), rd, 0x03F0_1000);
  }

  lemma {:induction false} Counted(t: Timer, n: nat)
    requires n < t.count && t.control % 2 == 1
    ensures AfterTicks(t, n) == t.(count := t.count - n)
  {
    if n == 0 {
    } else {
      Counted(t, n - 1);
    }
  }

  lemma LessOne(n: nat, p: nat)
    requires p >= 1 && n >= p
    ensures (n - p) % p == 0 <==> n % p == 0
  {
    var q, r := (n - p) / p, (n - p) % p;
    assert n == (q + 1) * p + r by { assert (q + 1) * p == q * p + p; }
    DivUnique(n, p, q + 1, r);
  }

  /** A timer that is not enabled does nothing. */
  lemma DisabledTimer(c: Core)
    requires c.timer.control % 2 == 0
    ensures Tick(c) == c
  {
  }

  /* ---- The supervisor registers ---- */

  /** EPC, EFLAGS and ESTATUS, at 0x03FFF000, 0x03FFF004 and 0x03FFF014, are what the return instructions restore:
      KRET exactly, SYSRET with bit 0 of STATUS cleared. */
  lemma ReturnsToWritten(mode: Mode, s: State, v: Word)
    requires !s.core.User()
    ensures var t := Sw(mode, s, 0x03FF_F000, v);
      Execute(mode, t, Sysret).core.r[15] == v && Execute(mode, t, Kret).core.r[15] == v
    ensures var t := Sw(mode, s, 0x03FF_F004, v);
      Execute(mode, t, Sysret).core.flags == v && Execute(mode, t, Kret).core.flags == v
    ensures var t := Sw(mode, s, 0x03FF_F014, v);
      Execute(mode, t, Sysret).core.status == v / 2 * 2 && Execute(mode, t, Kret).core.status == v
  {
    hide Sw;
    SwIsWrite(mode, s, 0x03FF_F000, v);
    SwIsWrite(mode, s, 0x03FF_F004, v);
    SwIsWrite(mode, s, 0x03FF_F014, v);
  }

  /** EVEC, at 0x03FFF008, is where the handlers' addresses are: a system call goes to the word at v + 12. */
  lemma VectorWritten(mode: Mode, s: State, v: Word)
    requires !s.core.User()
    ensures var t := Sw(mode, s, 0x03FF_F008, v);
      t == s.(core := s.core.(evec := v)) && Execute(mode, t, Syscall).core.r[15] == HandlerWord(s.mem, v, 3)
  {
    hide Sw, Read32;
    SwIsWrite(mode, s, 0x03FF_F008, v);
    HandlerIsVector(s.mem, v, 3);
  }

  /** STATUS, at 0x03FFF010: bit 0 is supervisor mode, bit 1 the interrupt enable. */
  lemma StatusWritten(mode: Mode, s: State, v: Word)
    requires !s.core.User()
    ensures var t := Sw(mode, s, 0x03FF_F010, v);
      && t == s.(core := s.core.(status := v))
      && (t.core.User() <==> v % 2 == 0) && (IrqDue(t.core) ==> v / 2 % 2 == 1)
  {
    hide Sw, And;
    SwIsWrite(mode, s, 0x03FF_F010, v);
  }

  /** SATP, at 0x03FFF018: bit 31 turns translation on, the root table is at v % 2^20 * 4096, and of the TLB only
      global entries survive. */
  lemma RootWritten(mode: Mode, s: State, v: Word)
    requires !s.core.User()
    ensures var t := Sw(mode, s, 0x03FF_F018, v);
      && t == s.(core := s.core.(satp := v), tlb := t.tlb)
      && (forall i :: 0 <= i < 64 ==> t.tlb[i] == s.tlb[i].(valid := s.tlb[i].valid && s.tlb[i].global))
      && forall va: Word :: Bypassed(t.core.satp, va) <==> v < 0x8000_0000 || va >= 0x03F0_0000
  {
    hide Sw;
    SwIsWrite(mode, s, 0x03FF_F018, v);
  }

  /** CAUSE and BADADDR, at 0x03FFF00C and 0x03FFF01C, are what the last trap left there, whatever is stored. */
  lemma CauseReads(mode: Mode, s: State, rd: Reg, v: Word)
    requires !s.core.User()
    ensures Sw(mode, s, 0x03FF_F00C, v) == s && Sw(mode, s, 0x03FF_F01C, v) == s
    ensures Lw(mode, s, rd, 0x03FF_F00C).core.r[rd] == s.core.cause
    ensures Lw(mode, s, rd, 0x03FF_F01C).core.r[rd] == s.core.badaddr
  {
    hide Sw, Lw;
    SwIsWrite(mode, s, 0x03FF_F00C, v);
    SwIsWrite(mode, s, 0x03FF_F01C, v);
    LwIsRead(mode, s, rd, 0x03FF_F00C);
    LwIsRead(mode, s, rd, 0x03FF_F01C);
  }

  /** The registers that read back what was written. (The timer's count does, until the next tick.) */
  predicate ReadsBack(a: Word) {
    || (a % 4 == 0 && 0x03FF_F000 <= a <= 0x03FF_F008) || a == 0x03FF_F014 || a == 0x03FF_F018
    || a == 0x03F0_000C || a == 0x03F0_1000 || a == 0x03F0_1004 || a == 0x03F0_2004
    || a == 0x03F0_3000 || a == 0x03F0_3004 || a == 0x03F0_3010
  }

  lemma WrittenReadsBack(mode: Mode, s: State, rd: Reg, a: Word, v: Word)
    requires ReadsBack(a) && !s.core.User()
    ensures Lw(mode, Sw(mode, s, a, v), rd, a).core.r[rd] == v
  {
    hide Sw, Lw, FlushNonGlobal, And, OrW;
    SwIsWrite(mode, s, a, v);
    LwIsRead(mode, Sw(mode, s, a, v), rd, a);
  }

  /** Without a disk image every command fails: the status at 0x03F0300C is 2. */
  lemma NoDisk(mode: Mode, s: State, rd: Reg, v: Word)
    ensures Lw(mode, Sw(mode, s, 0x03F0_3008, v), rd, 0x03F0_300C).core.r[rd] == 2
  {
    hide Sw, Lw;
    SwIsWrite(mode, s, 0x03F0_3008, v);
    LwIsRead(mode, Sw(mode, s, 0x03F0_3008, v), rd, 0x03F0_300C);
  }

  /* ---- Silence until the timer expires ---- */

  /** Only the timer's interrupt is unmasked; it is enabled, not pending, and has `count` ticks to go. */
  predicate Silent(c: Core) {
    c.icMask == 1 && c.icPending % 2 == 0 && c.timer.control % 4 == 3 && c.timer.count >= 1
  }

  lemma EvenOr(x: Word, w: Word)
    requires w == 2 || w == 4
    ensures OrW(x, w) % 2 == x % 2
  {
    CombinedHalves(x, w);
  }

  lemma OddOr(x: Word)
    ensures OrW(x, 1) % 2 == 1
  {
    CombinedHalves(x, 1);
  }

  lemma OnlyBitZero(x: Word)
    ensures And(x, 1) == x % 2
  {
    AndHalves(x, 1);
  }

  lemma DeviceKeepsSilence(c: Core, a: Word, v: Word)
    requires !TimerOrIcRegister(a)
    ensures DeviceWrite(c, a, v).icPending % 2 == c.icPending % 2
  {
    hide OrW, And;
    EvenOr(c.icPending, 4);
  }

  lemma WriteKeepsSilence(s: State, a: Word, v: Word)
    requires !TimerOrIcRegister(a)
    ensures MmioWrite(s, a, v).core.icPending % 2 == s.core.icPending % 2
  {
    hide DeviceWrite, Vector, FlushNonGlobal;
    DeviceKeepsSilence(s.core, a, v);
  }

  lemma ReadKeepsPending(c: Core, mem: Mem, a: Word)
    ensures MmioRead(c, mem, a).0.icPending == c.icPending
  {
    hide Vector;
  }

  lemma CpuReadKeepsPending(mode: Mode, s: State, va: Word, n: Width)
    ensures CpuRead(mode, s, va, n).0.core.icPending == s.core.icPending
  {
    hide Translate, Xlated, Vector, ReadN, MmioRead;
    TranslateOutcome(mode, s, va, Load);
    var (t, pa) := Translate(mode, s, va, Load);
    if pa.Some? {
      ReadKeepsPending(t.core, t.mem, pa.value);
    }
  }

  lemma CpuWriteKeepsSilence(mode: Mode, s: State, va: Word, n: Width, v: Word)
    requires var (u, pa) := Translate(mode, s, va, Access.Store);
      pa.Some? ==> !TimerOrIcRegister(pa.value)
    ensures CpuWrite(mode, s, va, n, v).core.icPending % 2 == s.core.icPending % 2
  {
    hide Translate, Xlated, Vector, WriteN, TimerOrIcRegister, MmioWrite;
    TranslateOutcome(mode, s, va, Access.Store);
    var (t, pa) := Translate(mode, s, va, Access.Store);
    if pa.Some? {
      WriteKeepsSilence(t, pa.value, v % Modulus(n));
    }
  }

  lemma CasKeepsSilence(s: State, rd: Reg, addr: Word, rs2: Reg)
    requires !TimerOrIcRegister(addr)
    ensures ExecuteCas(s, rd, addr, rs2).core.icPending % 2 == s.core.icPending % 2
  {
    hide And, OrW, Vector, Read32, Write32, TimerOrIcRegister, MmioWrite, MmioRead;
    if MMIO_BASE <= addr < MEM_SIZE {
      ReadKeepsPending(s.core, s.mem, addr);
      var c := MmioRead(s.core, s.mem, addr).0;
      WriteKeepsSilence(s.(core := c), addr, c.r[rs2]);
    }
  }

  /** An instruction that writes no timer or controller register keeps the silence; user mode or not. */
  lemma ExecuteKeepsSilence(mode: Mode, s: State, op: Op)
    requires match op
      case StoreOp(va, n, v) =>
        var (u, pa) := Translate(mode, s, va, Access.Store);
        pa.Some? ==> !TimerOrIcRegister(pa.value)
      case Cas(rd, addr, rs2) => !TimerOrIcRegister(addr)
      case _ => true
    ensures Execute(mode, s, op).core.icPending % 2 == s.core.icPending % 2
  {
    hide Translate, CpuRead, CpuWrite, ExecuteCas, Vector, FlushNonGlobal, TimerOrIcRegister, Extend;
    match op
    case LoadOp(rd, va, n, signed) => CpuReadKeepsPending(mode, s, va, n);
    case StoreOp(va, n, v) => CpuWriteKeepsSilence(mode, s, va, n, v);
    case Cas(rd, addr, rs2) => CasKeepsSilence(s, rd, addr, rs2);
    case _ =>
  }

  lemma FetchKeepsSilence(mode: Mode, s: State)
    ensures var t := Fetched(mode, s).0.core;
      t.icPending == s.core.icPending && t.timer == s.core.timer && t.icMask == s.core.icMask
  {
    hide Translate, Xlated, Read32, Vector;
    TranslateOutcome(mode, s.(core := s.core.(faultingPc := s.core.r[15])), s.core.r[15], Fetch);
  }

  /** One tick of several: still silent, one tick less, and no interrupt is due. */
  lemma SilentTick(c: Core, rx: Option<Byte>)
    requires Silent(c) && c.timer.count > 1
    ensures var d := Poll(Tick(c), rx);
      Silent(d) && d.timer.count == c.timer.count - 1 && !IrqDue(d)
  {
    hide OrW, And;
    EvenOr(c.icPending, 2);
    OnlyBitZero(c.icPending);
    OnlyBitZero(OrW(c.icPending, 2));
  }

  lemma SilentStep(mode: Mode, s: State, rx: Option<Byte>)
    requires Silent(s.core) && s.core.timer.count > 1 && SparesTimer(mode, s)
    ensures !StepInterrupted(mode, s, rx)
    ensures Silent(Step(mode, s, rx).core) && Step(mode, s, rx).core.timer.count == s.core.timer.count - 1
  {
    hide Fetched, Decode, Execute, Poll, Tick, IrqDue, Step, Translate;
    FetchKeepsSilence(mode, s);
    var (t, op) := Executed(mode, s);
    if Fetched(mode, s).1.Some? {
      ExecuteKeepsSilence(mode, t, op);
      ExecuteSpares(mode, t, op);
    }
    SilentTick(AfterInstruction(mode, s).core, rx);
    StepPending(mode, s, rx);
  }

  predicate SparesAll(mode: Mode, s: State, rxs: seq<Option<Byte>>)
    decreases |rxs|
  {
    !s.core.halted && rxs != [] ==> SparesTimer(mode, s) && SparesAll(mode, Step(mode, s, rxs[0]), rxs[1..])
  }

  /** Main result: with only the timer unmasked and not pending, no interrupt is taken for as many steps as the count
      has left but one, in user or supervisor mode, across traps and returns, whatever else happens. */
  lemma {:induction false} SilentRun(mode: Mode, s: State, rxs: seq<Option<Byte>>, k: nat)
    requires Silent(s.core) && SparesAll(mode, s, rxs) && k < |rxs| < s.core.timer.count
    ensures var p := Run(mode, s, rxs[..k]);
      p.core.halted || !StepInterrupted(mode, p, rxs[k])
    decreases |rxs|
  {
    hide Step, SparesTimer, Silent, StepInterrupted;
    if s.core.halted {
    } else {
      SilentStep(mode, s, rxs[0]);
      if k == 0 {
        assert rxs[..0] == [];
      } else {
        assert rxs[..k][1..] == rxs[1..][..k - 1];
        SilentRun(mode, Step(mode, s, rxs[0]), rxs[1..], k - 1);
      }
    }
  }

  /** What the kernel's handler makes of a timer interrupt: the acknowledging store leaves the machine silent, if the
      timer does not expire in that very step. */
  lemma AckSilences(mode: Mode, s: State, rx: Option<Byte>, v: Word)
    requires Fetched(mode, s).1.Some? && Executed(mode, s).1 == StoreOp(0x03F0_2008, 4, v) && v % 2 == 1
    requires s.core.icMask == 1 && s.core.timer.control % 4 == 3 && s.core.timer.count > 1
    ensures Silent(Step(mode, s, rx).core) && Step(mode, s, rx).core.timer.count == s.core.timer.count - 1
  {
    hide Fetched, Decode, Execute, Poll, Tick, IrqDue, Step, And;
    FetchKeepsSilence(mode, s);
    var (t, op) := Executed(mode, s);
    AckClears(mode, t, v);
    var u := AfterInstruction(mode, s);
    assert u == Sw(mode, t, 0x03F0_2008, v);
    assert u.core.icPending % 2 == 0 by { assert !BitAt(u.core.icPending, 0); }
    SilentTick(u.core, rx);
    StepPending(mode, s, rx);
  }

  /** ... and so, from the acknowledging step on, through the rest of the handler, its SYSRET or KRET and the resumed
      task, no interrupt is taken before the timer expires again. */
  lemma AckedRun(mode: Mode, s: State, rxs: seq<Option<Byte>>, v: Word, k: nat)
    requires Fetched(mode, s).1.Some? && Executed(mode, s).1 == StoreOp(0x03F0_2008, 4, v) && v % 2 == 1
    requires s.core.icMask == 1 && s.core.timer.control % 4 == 3 && !s.core.halted
    requires 1 <= k < |rxs| < s.core.timer.count && SparesAll(mode, Step(mode, s, rxs[0]), rxs[1..])
    ensures var p := Run(mode, s, rxs[..k]);
      p.core.halted || !StepInterrupted(mode, p, rxs[k])
  {
    hide Fetched, Executed, Step, SparesTimer, Silent, StepInterrupted;
    AckSilences(mode, s, rxs[0], v);
    assert rxs[..k][1..] == rxs[1..][..k - 1];
    SilentRun(mode, Step(mode, s, rxs[0]), rxs[1..], k - 1);
  }
}
