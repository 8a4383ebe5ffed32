/** What one step, and a whole run, of user code can do to the supervisor state: nothing, or exactly one
    trap entry. */
module Privilege {
  import opened Words
  import opened Memory
  import opened Mmu
  import opened Cpu

  /** The supervisor registers of `d` are those of `c`. */
  predicate SupervisorSame(c: Core, d: Core) {
    && d.status == c.status && d.evec == c.evec && d.satp == c.satp
    && d.epc == c.epc && d.eflags == c.eflags && d.estatus == c.estatus && d.cause == c.cause
  }

  /** The register a trapped instruction goes on to overwrite with 0, if any: a load's destination, even
      when that is PC, and the one of a CAS whose device read trapped. */
  function Cleared(c: Core, op: Op): Option<Reg> {
    match op
    case LoadOp(rd, _, _, _) => Some(rd)
    case Cas(rd, addr, _) => if c.User() && addr % 4 == 0 && SV_BASE <= addr <= SV_BASE + 0x1C then Some(rd) else None
    case _ => None
  }

  /** One trap taken while instruction `op` executed in `c`: the old state is saved, the machine is in
      supervisor mode with interrupts off, PC is the handler and the other registers and the flags are
      untouched, but for a cleared register. (A CAS may go on to set Z.) */
  predicate TrappedIn(c: Core, op: Op, d: Core, mem: Mem) {
    && d.estatus == c.status && d.status == 1 && d.evec == c.evec && d.satp == c.satp
    && d.cause <= 9 && d.cause != 6 && (d.cause == 3 <==> op.Syscall?)
    && d.eflags == c.flags && d.epc == (if op.Syscall? then c.r[15] else c.faultingPc)
    && (op.Cas? || d.flags == c.flags)
    && var entry := c.r[15 := Vector(mem, c.evec, d.cause)];
       d.r == (match Cleared(c, op) case Some(rd) => entry[rd := 0] case None => entry)
  }

  /** PC after the entry is the handler unless the register cleared is PC itself: then it is 0. */
  lemma EntryPc(c: Core, op: Op, d: Core, mem: Mem)
    requires TrappedIn(c, op, d, mem)
    ensures d.r[15] == Vector(mem, c.evec, d.cause) <==> Cleared(c, op) != Some(15) || Vector(mem, c.evec, d.cause) == 0
    ensures Cleared(c, op) == Some(15) ==> d.r[15] == 0
  {
    hide Vector;
  }

  /** A timer or device interrupt taken between two instructions. */
  predicate Interrupted(u: Core, d: Core, mem: Mem) {
    && d.estatus == u.status && d.status == 1 && d.evec == u.evec && d.satp == u.satp
    && d.cause == 6 && d.eflags == u.flags && d.epc == u.r[15]
    && d.flags == u.flags && d.r == u.r[15 := Vector(mem, u.evec, 6)]
  }

  /** A CAS aimed at a supervisor register traps on its read and then goes on: with `rd` zero it writes
      the register as well. True when that write changes what the trap entry left there. */
  predicate CasOverwrites(s: State, op: Op) {
    match op
    case Cas(rd, addr, rs2) =>
      && s.core.User() && addr % 4 == 0 && SV_BASE <= addr <= SV_BASE + 0x1C
      && var d := Raise(s.core, s.mem, 2);
         && d.r[rd] == 0
         && (match addr - SV_BASE
             case 0x00 => d.r[rs2] != d.epc
             case 0x04 => d.r[rs2] != d.eflags
             case 0x08 => d.r[rs2] != d.evec
             case 0x10 => d.r[rs2] != 1
             case 0x14 => d.r[rs2] != d.estatus
             case 0x18 => d.r[rs2] != d.satp
             case _ => false)
    case _ => false
  }

  /* ---- When an instruction traps, in either mode ---- */

  /** A load or store raises a fault: no translation, outside memory, misaligned, or a supervisor register
      from user mode. */
  predicate AccessTraps(mode: Mode, s: State, va: Word, n: Width, acc: Access) {
    match Xlated(mode, s, va, acc).pa
    case None => true
    case Some(a) =>
      a >= MEM_SIZE || a % n != 0
      || (s.core.User() && SV_BASE <= a <= (if acc.Store? then SV_BASE + 0x20 else SV_BASE + 0x1C))
  }

  predicate CasTraps(c: Core, rd: Reg, addr: Word) {
    || addr % 4 != 0 || addr >= MEM_SIZE
    || (c.User() && (SV_BASE <= addr <= SV_BASE + 0x1C || (addr == SV_BASE + 0x20 && c.r[rd] == 0)))
  }

  predicate OpTraps(mode: Mode, s: State, op: Op) {
    match op
    case LoadOp(_, va, n, _) => AccessTraps(mode, s, va, n, Load)
    case StoreOp(va, n, _) => AccessTraps(mode, s, va, n, Access.Store)
    case Cas(rd, addr, _) => CasTraps(s.core, rd, addr)
    case Fault(_) => true
    case Syscall => true
    case Sfence => s.core.User()
    case Sysret => s.core.User()
    case Kret => s.core.User()
    case _ => false
  }

  /** A translation changes nothing in the core, or raises its page fault and changes nothing else. */
  lemma TranslateOutcome(mode: Mode, s: State, va: Word, acc: Access)
    ensures var (t, pa) := Translate(mode, s, va, acc);
      && pa == Xlated(mode, s, va, acc).pa
      && if pa.Some? then t.core == s.core
         else t.mem == s.mem && t.core == Raise(s.core.(badaddr := va), t.mem, acc.Cause())
  {
    hide CachedTranslate, WalkTranslate, Raise;
    FaultChangesNothing(s.mem, s.tlb, s.core.satp, s.core.User(), va, acc);
  }

  /** Only a store writes to the tables. */
  lemma OnlyStoresWrite(mode: Mode, s: State, va: Word, acc: Access)
    requires !acc.Store?
    ensures Translate(mode, s, va, acc).0.mem == s.mem
  {
    hide FindLeaf, Permits, SetDirty;
  }

  lemma DeviceRead(c: Core, mem: Mem, a: Word)
    ensures var (d, v) := MmioRead(c, mem, a);
      if c.User() && SV_BASE <= a <= SV_BASE + 0x1C then TrappedIn(c, Fall, d, mem) && v == 0
      else SupervisorSame(c, d) && d.r == c.r && d.flags == c.flags
  {
    hide Vector;
  }

  lemma ReadOutcome(mode: Mode, s: State, va: Word, n: Width)
    ensures var (t, v) := CpuRead(mode, s, va, n);
      if AccessTraps(mode, s, va, n, Load) then TrappedIn(s.core, Fall, t.core, t.mem) && v == 0
      else SupervisorSame(s.core, t.core) && t.core.r == s.core.r && t.core.flags == s.core.flags
  {
    hide Translate, ReadN, Vector, MmioRead, Xlated;
    TranslateOutcome(mode, s, va, Load);
    var (t, pa) := Translate(mode, s, va, Load);
    if pa.Some? && MMIO_BASE <= pa.value < MEM_SIZE && pa.value % n == 0 {
      DeviceRead(t.core, t.mem, pa.value);
      ZeroStaysZero(n);
    }
  }

  lemma DeviceWriteOutcome(s: State, a: Word, v: Word)
    requires s.core.User()
    ensures var t := MmioWrite(s, a, v);
      if SV_BASE <= a <= SV_BASE + 0x20 then TrappedIn(s.core, Fall, t.core, t.mem)
      else SupervisorSame(s.core, t.core)
  {
    hide Vector, And, OrW;
  }

  /** A store traps, or else changes no supervisor register from user mode. */
  lemma UserWrite(mode: Mode, s: State, va: Word, n: Width, v: Word)
    ensures var t := CpuWrite(mode, s, va, n, v);
      if AccessTraps(mode, s, va, n, Access.Store) then TrappedIn(s.core, Fall, t.core, t.mem)
      else s.core.User() ==> SupervisorSame(s.core, t.core)
  {
    hide Translate, WriteN, Vector, MmioWrite, Xlated;
    TranslateOutcome(mode, s, va, Access.Store);
    var (t, pa) := Translate(mode, s, va, Access.Store);
    if s.core.User() && pa.Some? && MMIO_BASE <= pa.value < MEM_SIZE && pa.value % n == 0 {
      DeviceWriteOutcome(t, pa.value, v % Modulus(n));
    }
  }

  lemma ZeroStaysZero(n: Width)
    ensures 0 % Modulus(n) == 0 && Extend(0, n, true) == 0
  {
  }

  /** CAS from user mode, exactly: one clean trap entry (or none), unless it overwrites what it saved. */
  lemma UserCas(mode: Mode, s: State, rd: Reg, addr: Word, rs2: Reg)
    requires s.core.User()
    ensures var op := Op.Cas(rd, addr, rs2);
      var t := Execute(mode, s, op);
      if SV_BASE <= addr <= SV_BASE + 0x1C && addr % 4 == 0 then
        TrappedIn(s.core, op, t.core, t.mem) <==> !CasOverwrites(s, op)
      else if CasTraps(s.core, rd, addr) then TrappedIn(s.core, op, t.core, t.mem)
      else SupervisorSame(s.core, t.core)
  {
    hide ExecuteCas, CasTraps, CasOverwrites, TrappedIn;
    if SV_BASE <= addr <= SV_BASE + 0x1C && addr % 4 == 0 {
      CasOnSupervisor(s, rd, addr, rs2);
    } else {
      CasElsewhere(s, rd, addr, rs2);
    }
  }

  lemma CasElsewhere(s: State, rd: Reg, addr: Word, rs2: Reg)
    requires s.core.User() && !(SV_BASE <= addr <= SV_BASE + 0x1C && addr % 4 == 0)
    ensures var t := ExecuteCas(s, rd, addr, rs2);
      if CasTraps(s.core, rd, addr) then TrappedIn(s.core, Op.Cas(rd, addr, rs2), t.core, t.mem)
      else SupervisorSame(s.core, t.core)
  {
    hide Vector, Read32, Write32, And, OrW, MmioRead, MmioWrite;
    if addr % 4 == 0 && MMIO_BASE <= addr < MEM_SIZE {
      DeviceRead(s.core, s.mem, addr);
      SupervisorReadZero(s.core, s.mem);
      DeviceWriteOutcome(s.(core := MmioRead(s.core, s.mem, addr).0), addr, s.core.r[rs2]);
    }
  }

  /** The word behind the supervisor registers reads as 0 and changes nothing. */
  lemma SupervisorReadZero(c: Core, mem: Mem)
    ensures MmioRead(c, mem, SV_BASE + 0x20) == (c, 0)
  {
    hide Vector;
  }

  /** The read has trapped and yielded 0; what follows is a write if `rd` holds 0 by now. */
  lemma CasOnSupervisor(s: State, rd: Reg, addr: Word, rs2: Reg)
    requires s.core.User() && addr % 4 == 0 && SV_BASE <= addr <= SV_BASE + 0x1C
    ensures TrappedIn(s.core, Op.Cas(rd, addr, rs2), ExecuteCas(s, rd, addr, rs2).core,
        ExecuteCas(s, rd, addr, rs2).mem)
            <==> !CasOverwrites(s, Op.Cas(rd, addr, rs2))
  {
    hide Vector, And, OrW, FlushNonGlobal;
  }

  /** A CAS that meets the condition: aimed at STATUS, it leaves user mode on, with PC at the handler. */
  lemma CasOverwritesStatus(mode: Mode, s: State, rd: Reg, rs2: Reg)
    requires s.core.User() && rd != 15 && rs2 != 15 && s.core.r[rd] == 0 && s.core.r[rs2] == 0
    ensures var op := Op.Cas(rd, SV_BASE + 0x10, rs2);
      var t := Execute(mode, s, op);
      && CasOverwrites(s, op) && !TrappedIn(s.core, op, t.core, t.mem)
      && t.core.status == 0 && t.core.estatus == s.core.status && t.core.cause == 2
      && t.core.r[15] == Vector(s.mem, s.core.evec, 2)
  {
    hide Vector, And, OrW;
  }

  /** Any instruction, in either mode: it traps exactly when `OpTraps` says so; without a trap a user-mode
      instruction leaves the supervisor registers alone. */
  lemma ExecuteOutcome(mode: Mode, s: State, op: Op)
    requires !CasOverwrites(s, op) && DecodedFault(op)
    ensures var t := Execute(mode, s, op);
      if OpTraps(mode, s, op) then TrappedIn(s.core, op, t.core, t.mem)
      else s.core.User() ==> SupervisorSame(s.core, t.core)
  {
    hide CpuRead, CpuWrite, ExecuteCas, Vector, CasOverwrites, AccessTraps, CasTraps;
    match op
    case LoadOp(rd, va, n, signed) =>
      ReadOutcome(mode, s, va, n);
      ZeroStaysZero(n);
    case StoreOp(va, n, v) => UserWrite(mode, s, va, n, v);
    case Cas(rd, addr, rs2) => CasOutcome(mode, s, rd, addr, rs2);
    case _ =>
  }

  lemma CasOutcome(mode: Mode, s: State, rd: Reg, addr: Word, rs2: Reg)
    requires !CasOverwrites(s, Op.Cas(rd, addr, rs2))
    ensures var op := Op.Cas(rd, addr, rs2);
      var t := Execute(mode, s, op);
      if CasTraps(s.core, rd, addr) then TrappedIn(s.core, op, t.core, t.mem)
      else s.core.User() ==> SupervisorSame(s.core, t.core)
  {
    hide Vector, Read32, Write32, And, OrW, MmioRead, MmioWrite, CasOverwrites;
    if s.core.User() {
      UserCas(mode, s, rd, addr, rs2);
    }
  }

  /* ---- One step ---- */

  predicate DecodedFault(op: Op) {
    op.Fault? ==> op.cause in {0, 4}
  }

  lemma DecodeFaults(c: Core, pc: Word, w: Word)
    ensures DecodedFault(Decode(c, pc, w))
  {
    hide AddOp, SubOp, Logical, Scaled, Lsl, Lsr, Asr, Rol, Ror, And, OrW, XorW, TruncDiv, TruncMod, SignExtend,
         Taken, Wrap, Signed;
  }

  /** The state after the instruction (or after its fetch failed), before timer and interrupts. */
  function AfterInstruction(mode: Mode, s: State): State {
    var (t, w) := Fetched(mode, s);
    if w.None? then t else Execute(mode, t, Decode(t.core, s.core.r[15], w.value))
  }

  /** The instruction a step executes, and the registers it starts from; `Fall` when the fetch fails. */
  function Executed(mode: Mode, s: State): (State, Op) {
    var (t, w) := Fetched(mode, s);
    if w.None? then (s.(core := s.core.(faultingPc := s.core.r[15])), Fall)
    else (t, Decode(t.core, s.core.r[15], w.value))
  }

  /** The step enters a trap: its fetch fails or its instruction traps. */
  predicate StepTraps(mode: Mode, s: State) {
    var (t, op) := Executed(mode, s);
    Fetched(mode, s).1.None? || OpTraps(mode, t, op)
  }

  /** After its instruction the step takes an interrupt. */
  predicate StepInterrupted(mode: Mode, s: State, rx: Option<Byte>) {
    var (t, op) := Executed(mode, s);
    var c := Poll(Tick(AfterInstruction(mode, s).core), rx);
    !c.halted && IrqDue(c) && !(op.Kret? && !t.core.User())
  }

  lemma FetchOutcome(mode: Mode, s: State)
    ensures var (t, w) := Fetched(mode, s);
      var c := s.core.(faultingPc := s.core.r[15]);
      && t.mem == s.mem
      && if w.Some? then t.core == SetReg(c, 15, Wrap(s.core.r[15] + 4))
         else TrappedIn(c, Fall, t.core, t.mem)
  {
    hide Translate, Read32, Vector, Xlated;
    var pc := s.core.r[15];
    var s0 := s.(core := s.core.(faultingPc := pc));
    TranslateOutcome(mode, s0, pc, Fetch);
    OnlyStoresWrite(mode, s0, pc, Fetch);
    var (t, pa) := Translate(mode, s0, pc, Fetch);
    if pa.Some? && pa.value >= MEM_SIZE {
      assert CpuFetch(mode, s0, pc) == (RaiseIn(t, 2), None);
    }
  }

  /** Timer and polling touch neither the registers nor the supervisor state. */
  lemma TickPollKeeps(c: Core, rx: Option<Byte>)
    ensures var d := Poll(Tick(c), rx);
      SupervisorSame(c, d) && d.r == c.r && d.flags == c.flags && d.halted == c.halted && d.faultingPc == c.faultingPc
  {
    hide OrW;
  }

  /** The step is not a CAS that overwrites its own trap entry. */
  predicate CleanStep(mode: Mode, s: State) {
    var (t, op) := Executed(mode, s);
    !CasOverwrites(t, op)
  }

  /** In either mode, a step whose instruction traps is one trap entry, and no interrupt follows it. */
  lemma TrapStep(mode: Mode, s: State, rx: Option<Byte>)
    requires StepTraps(mode, s) && CleanStep(mode, s)
    ensures var (t, op) := Executed(mode, s);
      TrappedIn(t.core, op, Step(mode, s, rx).core, Step(mode, s, rx).mem)
    ensures !StepInterrupted(mode, s, rx)
  {
    hide Decode, Execute, Fetched, Tick, Poll, Vector, And, CasOverwrites, OpTraps;
    FetchOutcome(mode, s);
    var (t, w) := Fetched(mode, s);
    var u := AfterInstruction(mode, s);
    TickPollKeeps(u.core, rx);
    if w.Some? {
      DecodeFaults(t.core, s.core.r[15], w.value);
      ExecuteOutcome(mode, t, Decode(t.core, s.core.r[15], w.value));
      KretTraps(mode, t);
    }
  }

  lemma KretTraps(mode: Mode, t: State)
    ensures OpTraps(mode, t, Kret) <==> t.core.User()
  {
  }

  /** In either mode, an interrupt is one entry after the instruction. */
  lemma InterruptStep(mode: Mode, s: State, rx: Option<Byte>)
    ensures var u, q := AfterInstruction(mode, s), Step(mode, s, rx);
      && q.mem == u.mem
      && if StepInterrupted(mode, s, rx) then Interrupted(u.core, q.core, q.mem)
         else SupervisorSame(u.core, q.core) && q.core.r == u.core.r && q.core.flags == u.core.flags
  {
    hide Decode, Execute, Fetched, Tick, Poll, Vector, And, IrqDue;
    TickPollKeeps(AfterInstruction(mode, s).core, rx);
  }

  /** Main result for one user step. Exactly one of: the instruction entered one trap; it left the
      supervisor state unchanged and one interrupt was then taken; the supervisor state is unchanged. */
  lemma UserStep(mode: Mode, s: State, rx: Option<Byte>)
    requires s.core.User()
    requires CleanStep(mode, s)
    ensures var (t, op) := Executed(mode, s);
      var u, s' := AfterInstruction(mode, s), Step(mode, s, rx);
      if StepTraps(mode, s) then TrappedIn(t.core, op, s'.core, s'.mem)
      else if StepInterrupted(mode, s, rx) then SupervisorSame(s.core, u.core) && Interrupted(u.core, s'.core, s'.mem)
      else SupervisorSame(s.core, s'.core) && s'.core.r == u.core.r && s'.core.flags == u.core.flags
  {
    hide Decode, Execute, Fetched, Step, Vector, CasOverwrites, OpTraps, StepInterrupted, TrappedIn;
    if StepTraps(mode, s) {
      TrapStep(mode, s, rx);
    } else {
      FetchOutcome(mode, s);
      var (t, w) := Fetched(mode, s);
      DecodeFaults(t.core, s.core.r[15], w.value);
      ExecuteOutcome(mode, t, Decode(t.core, s.core.r[15], w.value));
      InterruptStep(mode, s, rx);
    }
  }

  /* ---- Whole runs ---- */

  /** Exactly one entry leads from `p` to `q`: ESTATUS holds the user STATUS, so there was no second one. */
  predicate OneEntry(mode: Mode, p: State, q: State) {
    var (t, op) := Executed(mode, p);
    var u := AfterInstruction(mode, p);
    || TrappedIn(t.core, op, q.core, q.mem)
    || (SupervisorSame(p.core, u.core) && Interrupted(u.core, q.core, q.mem))
  }

  /** No user step of the run is a CAS that overwrites its own trap entry. */
  predicate CasClean(mode: Mode, s: State, rxs: seq<Option<Byte>>)
    decreases |rxs|
  {
    !s.core.halted && s.core.User() && rxs != [] ==>
      CleanStep(mode, s) && CasClean(mode, Step(mode, s, rxs[0]), rxs[1..])
  }

  /** Over any run that starts in user mode, the supervisor state is what it was, or some step entered
      supervisor mode by exactly one trap, with everything unchanged up to that step. */
  lemma {:induction false} UserRun(mode: Mode, s: State, rxs: seq<Option<Byte>>)
    requires s.core.User() && CasClean(mode, s, rxs)
    ensures
      || SupervisorSame(s.core, Run(mode, s, rxs).core)
      || exists k :: 0 <= k < |rxs| && EntersAt(mode, s, rxs, k)
    decreases |rxs|
  {
    hide Step, Executed, CleanStep, TrappedIn, Interrupted, AfterInstruction;
    if s.core.halted || rxs == [] {
    } else {
      UserStep(mode, s, rxs[0]);
      var t := Step(mode, s, rxs[0]);
      assert rxs[..0] == [];
      if OneEntry(mode, s, t) {
        assert EntersAt(mode, s, rxs, 0);
      } else {
        UserRun(mode, t, rxs[1..]);
        if k :| 0 <= k < |rxs[1..]| && EntersAt(mode, t, rxs[1..], k) {
          assert rxs[..k + 1][1..] == rxs[1..][..k];
          assert EntersAt(mode, s, rxs, k + 1);
        }
      }
    }
  }

  predicate EntersAt(mode: Mode, s: State, rxs: seq<Option<Byte>>, k: nat)
    requires k < |rxs|
  {
    var p := Run(mode, s, rxs[..k]);
    !p.core.halted && SupervisorSame(s.core, p.core) && OneEntry(mode, p, Step(mode, p, rxs[k]))
  }
}
