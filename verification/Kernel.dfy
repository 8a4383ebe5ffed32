/** The preemptive kernel in its own form: instructions that update registers, the task control blocks and
    the scheduler's variables in memory. One statement per instruction; compares and branches go through the
    processor's flags. Proved to do what `Scheduler` says, for any number of tasks. */
module Kernel {
  import opened Words
  import opened Memory
  import opened MultiWord
  import opened Scheduler
  import Bits
  import Cpu
  import Devices

  const KDATA_BASE: Word := 0x1020
  const TCB_BASE: Word := 0x1030
  const TCB_SIZE: Word := 80
  const KERN_SP: Word := 0x1200
  const TCB_PC := 60
  const TCB_FLAGS := 64
  const TCB_STATE := 68
  const TCB_ID := 72
  const STATE_RUNNABLE: Word := 0
  const STATE_ZOMBIE: Word := 1

  /** Index of the word at `addr` in the kernel's data, which starts at KDATA_BASE. */
  function Cell(addr: int): int {
    (addr - KDATA_BASE) / 4
  }

  /** Index of the first word of a task's control block. */
  function Tcb(i: nat): nat {
    4 + 20 * i
  }

  /** What a write system call sends: `r2` bytes from address `r1`, nothing if the length is not positive. */
  function Sent(t: Trap, user: seq<Byte>): seq<Byte>
    requires |t.ctx.regs| == 14 && BufferOk(t, user)
  {
    var buf, len := t.ctx.regs[1], Signed(t.ctx.regs[2]);
    if t.IsWrite() && len > 0 then user[buf..buf + len] else []
  }

  /** A written buffer lies in memory. */
  predicate BufferOk(t: Trap, user: seq<Byte>)
    requires |t.ctx.regs| == 14
  {
    |user| <= MMIO_BASE
    && (t.IsWrite() && Signed(t.ctx.regs[2]) > 0 ==> t.ctx.regs[1] + Signed(t.ctx.regs[2]) <= |user|)
  }

  /* ---- The kernel's data as values ---- */

  function ContextIn(m: seq<Word>, i: nat): (c: Context)
    requires |m| >= Tcb(i + 1)
    ensures |c.regs| == 14
  {
    Context(m[Tcb(i)..Tcb(i) + 14], m[Tcb(i) + 15], m[Tcb(i) + 16])
  }

  function TaskIn(m: seq<Word>, i: nat): Task
    requires |m| >= Tcb(i + 1)
  {
    Task(ContextIn(m, i), m[Tcb(i) + 17] == STATE_RUNNABLE)
  }

  function TasksIn(m: seq<Word>, n: nat): (ts: seq<Task>)
    requires |m| == Tcb(n)
    ensures |ts| == n
  {
    seq(n, i requires 0 <= i < n => TaskIn(m, i))
  }

  predicate InBlock(i: nat, k: nat) {
    Tcb(i) <= k < Tcb(i + 1)
  }

  /** Nothing but the block of task `i` (and the scratch cell) differs. */
  predicate OnlyBlock(m: seq<Word>, m': seq<Word>, i: nat) {
    |m| == |m'| && forall k :: 0 <= k < |m| && k != 2 && !InBlock(i, k) ==> m'[k] == m[k]
  }

  lemma BlockUpdate(m: seq<Word>, m': seq<Word>, n: nat, i: nat)
    requires |m| == Tcb(n) && OnlyBlock(m, m', i) && i < n
    ensures TasksIn(m', n) == TasksIn(m, n)[i := TaskIn(m', i)]
  {
    forall j | 0 <= j < n && j != i ensures TaskIn(m', j) == TaskIn(m, j) {
      forall k | Tcb(j) <= k < Tcb(j) + 20 ensures m'[k] == m[k] {
        assert !InBlock(i, k);
      }
      assert m'[Tcb(j)..Tcb(j) + 14] == m[Tcb(j)..Tcb(j) + 14];
    }
  }

  /** `m` with the first `k` registers stored from word `c` on. */
  function Stored(m: seq<Word>, c: nat, regs: seq<Word>, k: nat): (r: seq<Word>)
    requires c + k <= |m| && k <= |regs|
    ensures |r| == |m|
  {
    m[..c] + regs[..k] + m[c + k..]
  }

  lemma StoreNext(m: seq<Word>, c: nat, regs: seq<Word>, k: nat)
    requires c + k < |m| && k < |regs|
    ensures Stored(m, c, regs, k)[c + k := regs[k]] == Stored(m, c, regs, k + 1)
  {
  }

  /** Address of the block of task `i`. */
  function BlockAt(i: nat): nat {
    TCB_BASE + TCB_SIZE * i
  }

  lemma FieldCell(i: nat, f: nat)
    ensures Cell(BlockAt(i) + 4 * f) == Tcb(i) + f && (BlockAt(i) + 4 * f) % 4 == 0
  {
    DivUnique(BlockAt(i) + 4 * f - KDATA_BASE, 4, Tcb(i) + f, 0);
    DivUnique(BlockAt(i) + 4 * f, 4, 0x40C + 20 * i + f, 0);
  }

  class Machine {
    const n: nat
    const r: array<Word>
    /** current_task, num_tasks, r0_scratch, a gap, and then 20 words per task. */
    const mem: array<Word>
    var flags: Word
    var epc: Word
    var eflags: Word
    var cause: Word
    var status: Word
    var estatus: Word
    var icPending: Word
    var tx: seq<Byte>
    var halted: bool

    ghost predicate Shape() {
      n >= 1 && TCB_BASE + TCB_SIZE * n <= MMIO_BASE && r.Length == 16 && mem.Length == Tcb(n) && r != mem
    }

    /** The kernel's variables and blocks are in order. */
    ghost predicate Valid()
      reads mem
    {
      Shape() && mem[0] < n && mem[1] == n && forall i :: 0 <= i < n ==> mem[Tcb(i) + 18] == i
    }

    ghost function Abs(): (k: Sched)
      requires Valid()
      reads mem
      ensures k.Valid() && |k.tasks| == n
    {
      Sched(TasksIn(mem[..], n), mem[0])
    }

    /** What the processor is running with. */
    function Visible(): Context
      requires Shape()
      reads this, r
    {
      Context(r[..14], r[15], flags)
    }

    /** User mode with interrupts enabled. */
    predicate InUserMode()
      reads this
    {
      status == 2 && !halted
    }

    constructor (n: nat)
      requires n >= 1 && TCB_BASE + TCB_SIZE * n <= MMIO_BASE
      ensures Shape() && this.n == n && fresh(r) && fresh(mem)
      ensures status == 1 && estatus == 2 && !halted && tx == []
      ensures forall k :: 0 <= k < mem.Length ==> mem[k] == 0
    {
      this.n := n;
      r := new Word[16](_ => 0);
      mem := new Word[4 + 20 * n](_ => 0);
      flags, epc, eflags, cause, icPending := 0, 0, 0, 0, 0;
      status, estatus, halted, tx := 1, 2, false, [];
    }

    /* ---- Instructions ---- */

    predicate Mapped(addr: int) {
      KDATA_BASE <= addr && addr % 4 == 0 && Cell(addr) < mem.Length
    }

    method Lw(rd: Cpu.Reg, addr: int)
      requires Shape() && Mapped(addr)
      modifies r
      ensures r[..] == old(r[..])[rd := mem[Cell(addr)]]
    {
      r[rd] := mem[Cell(addr)];
    }

    method Sw(rs: Cpu.Reg, addr: int)
      requires Shape() && Mapped(addr)
      modifies mem
      ensures mem[..] == old(mem[..])[Cell(addr) := r[rs]]
    {
      mem[Cell(addr)] := r[rs];
    }

    /** CMP or CMPI: the flags of the difference, which decide every branch by its name. */
    method Compare(a: Word, b: Word)
      modifies this`flags
      ensures forall cond: Cpu.Reg :: cond <= 10 ==> Cpu.Taken(cond, flags) == Holds(cond, a, b)
    {
      ghost var f := flags;
      forall cond: Cpu.Reg | cond <= 10
        ensures Cpu.Taken(cond, Cpu.SubOp(a, b, false, f).flags) == Holds(cond, a, b)
      {
        TakenIsHolds(cond, a, b, f);
      }
      flags := Cpu.SubOp(a, b, false, flags).flags;
    }

    /** Address of the control block with index `r[i]`, as the kernel computes it with MUL and ADD. */
    method TcbAddress(i: Word) returns (addr: Word)
      requires Shape() && i < n
      ensures addr == BlockAt(i)
    {
      var product := Wrap(i * TCB_SIZE);
      addr := Wrap(TCB_BASE + product);
    }

    /* ---- _create_task ---- */

    method CreateTask(entry: Word, stackTop: Word, id: Word)
      requires Shape() && id < n
      modifies mem
      ensures mem[..] == old(mem[..])[Tcb(id) + 15 := entry][Tcb(id) + 13 := stackTop]
                         [Tcb(id) + 17 := STATE_RUNNABLE][Tcb(id) + 18 := id]
    {
      var r3 := TcbAddress(id);
      mem[Cell(r3 + TCB_PC)] := entry;
      mem[Cell(r3 + 52)] := stackTop;
      mem[Cell(r3 + TCB_STATE)] := STATE_RUNNABLE;
      mem[Cell(r3 + TCB_ID)] := id;
    }

    /* ---- _exception_entry ---- */

    /** SW rs, [rb + 4f] with the block of task `i` at rb. */
    method StoreField(rs: Cpu.Reg, rb: Cpu.Reg, f: nat, ghost i: nat)
      requires Shape() && i < n && r[rb] == BlockAt(i) && f < 20
      modifies mem
      ensures mem[..] == old(mem[..])[Tcb(i) + f := r[rs]]
    {
      FieldCell(i, f);
      Sw(rs, r[rb] + 4 * f);
    }

    /** LW rd, [rb + 4f] with the block of task `i` at rb. */
    method LoadField(rd: Cpu.Reg, rb: Cpu.Reg, f: nat, ghost i: nat)
      requires Shape() && i < n && r[rb] == BlockAt(i) && f < 20
      modifies r
      ensures r[..] == old(r[..])[rd := mem[Tcb(i) + f]]
    {
      FieldCell(i, f);
      Lw(rd, r[rb] + 4 * f);
    }

    /** SW rk, [r14 + 4k], the first k registers being stored already. */
    method SaveNext(k: Cpu.Reg, ghost i: nat, ghost m: seq<Word>)
      requires Shape() && i < n && r[14] == BlockAt(i) && k < 14 && |m| == mem.Length
          && mem[..] == Stored(m, Tcb(i), r[..], k)
      modifies mem
      ensures mem[..] == Stored(m, Tcb(i), r[..], k + 1)
    {
      StoreField(k, 14, k, i);
      StoreNext(m, Tcb(i), r[..], k);
    }

    method SaveRegisters(ghost i: nat)
      requires Shape() && i < n && r[14] == BlockAt(i)
      modifies mem
      ensures mem[..] == Stored(old(mem[..]), Tcb(i), r[..], 14)
    {
      hide Stored;
      ghost var m := mem[..];
      assert Stored(m, Tcb(i), r[..], 0) == m by { StoreNone(m, Tcb(i), r[..]); }
      SaveNext(0, i, m);
      SaveNext(1, i, m);
      SaveNext(2, i, m);
      SaveNext(3, i, m);
      SaveNext(4, i, m);
      SaveNext(5, i, m);
      SaveNext(6, i, m);
      SaveNext(7, i, m);
      SaveNext(8, i, m);
      SaveNext(9, i, m);
      SaveNext(10, i, m);
      SaveNext(11, i, m);
      SaveNext(12, i, m);
      SaveNext(13, i, m);
    }

    /** Save r0-r13, EPC and EFLAGS in the current task's block; r14 serves as the pointer, so the user's is
        lost. Ends with r11 at the block and the cause in r3. */
    method ExceptionEntry()
      requires Valid()
      modifies r, mem
      ensures Valid() && OnlyBlock(old(mem[..]), mem[..], mem[0])
      ensures TaskIn(mem[..], mem[0]) == Task(Context(old(r[..14]), epc, eflags), TaskIn(old(mem[..]), mem[0]).runnable)
      ensures mem[0] == old(mem[0]) && r[11] == BlockAt(mem[0]) && r[3] == cause
    {
      hide Blocked, OnlyBlock;
      ghost var user, m0, cur := r[..], mem[..], mem[0];
      PointToCurrent();
      assert r[..14] == user[..14];
      ghost var m, regs := mem[..], r[..];
      SaveState(cur);
      SavedContext(m0, m, regs, user, cur, epc, eflags);
      BlockApart(m0, mem[..], cur, n);
    }

    /** The stores of an exception entry, once r14 points to the block. */
    method SaveState(ghost i: nat)
      requires Shape() && i < n && r[14] == BlockAt(i)
      modifies r, mem
      ensures mem[..] == Blocked(old(mem[..]), i, old(r[..]), epc, eflags)
      ensures r[11] == BlockAt(i) && r[3] == cause
    {
      hide Stored;
      ghost var m, regs := mem[..], r[..];
      SaveRegisters(i);
      r[0] := 0xDEAD_BEEF;
      StoreField(0, 14, 14, i);
      r[0] := Cpu.SV_BASE;
      r[1] := epc;
      r[2] := eflags;
      r[3] := cause;
      StoreField(1, 14, TCB_PC / 4, i);
      StoreField(2, 14, TCB_FLAGS / 4, i);
      r[13] := KERN_SP;
      r[11] := r[14];
    }

    /** r14 := the current task's block, with r0 parked in the scratch cell meanwhile. */
    method PointToCurrent()
      requires Valid()
      modifies r, mem
      ensures mem[..] == old(mem[..])[2 := old(r[0])]
      ensures r[..] == old(r[..])[14 := BlockAt(mem[0])]
    {
      r[14] := KDATA_BASE + 8;
      Sw(0, r[14]);
      r[0] := KDATA_BASE;
      Lw(0, r[0]);
      r[14] := TcbAddress(r[0]);
      r[0] := KDATA_BASE + 8;
      Lw(0, r[0]);
    }

    /* ---- Handlers ---- */

    /** The kernel's messages: they clobber r0, the link register and the flags. */
    method Message()
      requires Shape()
      modifies this`flags, r
      ensures forall k :: 1 <= k < 14 ==> r[k] == old(r[k])
    {
      r[0] := *;
      r[14] := *;
      flags := *;
    }

    /** STATE_ZOMBIE into the block at r11. */
    method KillCurrent()
      requires Valid() && r[11] == BlockAt(mem[0])
      modifies r, mem
      ensures Valid() && mem[..] == old(mem[..])[Tcb(mem[0]) + 17 := STATE_ZOMBIE] && mem[0] == old(mem[0])
    {
      hide OnlyBlock;
      r[0] := STATE_ZOMBIE;
      StoreField(0, 11, 17, mem[0]);
    }

    /** _sys_exit and the unknown call: a message, and the caller is dead. */
    method Kill(ghost ctx: Context)
      requires Valid() && r[11] == BlockAt(mem[0]) && TaskIn(mem[..], mem[0]).ctx == ctx
      modifies this`flags, r, mem
      ensures Valid() && mem[0] == old(mem[0]) && OnlyBlock(old(mem[..]), mem[..], mem[0])
      ensures TaskIn(mem[..], mem[0]) == Task(ctx, false)
    {
      hide OnlyBlock, TaskIn;
      ghost var cur, m := mem[0], mem[..];
      Message();
      KillCurrent();
      StateChange(m, cur, STATE_ZOMBIE);
    }

    /** Acknowledge the timer in the interrupt controller. */
    method IrqHandler()
      requires Shape()
      modifies this`icPending, r
      ensures icPending == old(icPending) - And(old(icPending), 1) && icPending % 2 == 0
    {
      r[0] := Cpu.IC_BASE + 8;
      r[1] := 1;
      icPending := icPending - And(icPending, r[1]);
      AckClearsTimer(old(icPending));
    }

    /** Send r6 bytes from address r5 to the terminal; r7 keeps the length. */
    method SysWrite(user: seq<Byte>)
      requires Valid() && r[11] == BlockAt(mem[0]) && |user| <= MMIO_BASE
      requires Signed(mem[Tcb(mem[0]) + 2]) > 0 ==> mem[Tcb(mem[0]) + 1] + Signed(mem[Tcb(mem[0]) + 2]) <= |user|
      modifies this`flags, this`tx, r, mem
      ensures Valid() && mem[0] == old(mem[0])
      ensures mem[..] == old(mem[..])[Tcb(mem[0]) := old(mem[Tcb(mem[0]) + 2])]
      ensures var buf, len := old(mem[Tcb(mem[0]) + 1]), Signed(old(mem[Tcb(mem[0]) + 2]));
        tx == old(tx) + if len > 0 then user[buf..buf + len] else []
    {
      ghost var cur := mem[0];
      LoadField(5, 11, 1, cur);
      LoadField(6, 11, 2, cur);
      r[7] := r[6];
      r[8] := Cpu.UART_BASE;
      r[9] := Cpu.UART_BASE + 4;
      SendLoop(user);
      StoreField(7, 11, 0, cur);
    }

    /** The loop: while r6 is positive, send the byte at r5. The transmitter is always ready. */
    method SendLoop(user: seq<Byte>)
      requires Shape() && |user| <= MMIO_BASE && (Signed(r[6]) > 0 ==> r[5] + Signed(r[6]) <= |user|)
      modifies this`flags, this`tx, r
      ensures r[7] == old(r[7]) && r[11] == old(r[11])
      ensures var buf, len := old(r[5]), Signed(old(r[6]));
        tx == old(tx) + if len > 0 then user[buf..buf + len] else []
    {
      ghost var buf, len := r[5], Signed(r[6]);
      Compare(r[6], 0);
      while !Cpu.Taken(8, flags)
        invariant r[7] == old(r[7]) && r[11] == old(r[11])
        invariant Cpu.Taken(8, flags) == (Signed(r[6]) <= 0)
        invariant len > 0 ==> 0 <= Signed(r[6]) <= len && r[5] == buf + (len - Signed(r[6])) <= |user|
        invariant len > 0 ==> tx == old(tx) + user[buf..r[5]]
        invariant len <= 0 ==> Signed(r[6]) <= 0 && tx == old(tx)
        decreases Signed(r[6])
      {
        r[0] := user[r[5]];
        r[1] := 1;
        tx := tx + [r[0]];
        ghost var at: nat := r[5];
        assert user[buf..at + 1] == user[buf..at] + [user[at]];
        CountDown(r[6]);
        r[5] := Wrap(r[5] + 1);
        r[6] := Wrap(r[6] - 1);
        Compare(r[6], 0);
      }
    }

    /** _syscall_dispatch: by the number in the saved r0. */
    method SyscallDispatch(t: Trap, user: seq<Byte>)
      requires Valid() && r[11] == BlockAt(mem[0]) && |t.ctx.regs| == 14 && t.cause == SYSCALL_CAUSE
          && BufferOk(t, user)
      requires TaskIn(mem[..], mem[0]).ctx == t.ctx
      modifies this`flags, this`tx, r, mem
      ensures Valid() && mem[0] == old(mem[0]) && OnlyBlock(old(mem[..]), mem[..], mem[0])
      ensures TaskIn(mem[..], mem[0]) == Task(t.Returned(), TaskIn(old(mem[..]), mem[0]).runnable && t.Survives())
      ensures tx == old(tx) + Sent(t, user)
    {
      hide OnlyBlock, BlockAt;
      ghost var cur, m := mem[0], mem[..];
      SavedFields(m, cur, t.ctx);
      SameBlock(m, cur);
      LoadField(0, 11, 0, cur);
      Compare(r[0], 0);
      if Cpu.Taken(0, flags) {
        Kill(t.ctx);
        return;
      }
      Compare(r[0], 1);
      if Cpu.Taken(0, flags) {
        SysWrite(user);
        ResultChange(m, cur, t.ctx.regs[2]);
        return;
      }
      Compare(r[0], 2);
      if Cpu.Taken(0, flags) {
        return;
      }
      Kill(t.ctx);
    }

    /* ---- _schedule ---- */

    /** Next candidate, wrapping around at the number of tasks; one slot less to try. */
    method Advance()
      requires Shape() && r[2] == n && r[4] < n && 0 < r[3]
      modifies this`flags, r
      ensures r[4] == After(old(r[4]), n) < n && r[3] == old(r[3]) - 1 && r[2] == old(r[2])
    {
      r[4] := Wrap(r[4] + 1);
      Compare(r[4], r[2]);
      if !Cpu.Taken(2, flags) {
        r[4] := 0;
      }
      CountDown(r[3]);
      r[3] := Wrap(r[3] - 1);
    }

    /** r5 := the candidate's block, r6 := its state. */
    method LoadState()
      requires Valid() && r[4] < n
      modifies r
      ensures r[2] == old(r[2]) && r[3] == old(r[3]) && r[4] == old(r[4])
      ensures r[5] == BlockAt(r[4]) && (r[6] == STATE_RUNNABLE <==> Abs().tasks[r[4]].runnable)
    {
      r[5] := TcbAddress(r[4]);
      LoadField(6, 5, TCB_STATE / 4, r[4]);
    }

    /** The round-robin loop: r4 is the candidate, r3 counts the slots left to try, r5 points to the block. */
    method FindNext() returns (found: bool)
      requires Valid()
      modifies this`flags, r
      ensures Search(Abs().tasks, mem[0], n) == if found then Some(r[4]) else None
      ensures found ==> r[5] == BlockAt(r[4])
    {
      hide TasksIn, BlockAt, After;
      r[0] := KDATA_BASE;
      Lw(1, r[0]);
      Lw(2, r[0] + 4);
      r[3] := r[2];
      r[4] := r[1];
      ghost var tasks := Abs().tasks;
      found := false;
      Compare(r[3], 0);
      while !Cpu.Taken(0, flags)
        invariant mem[..] == old(mem[..]) && r[2] == n && r[4] < n && r[3] <= n
        invariant Cpu.Taken(0, flags) == Holds(0, r[3], 0)
        invariant Search(tasks, r[4], r[3]) == Search(tasks, mem[0], n)
        decreases r[3]
      {
        Advance();
        LoadState();
        Compare(r[6], STATE_RUNNABLE);
        if !Cpu.Taken(1, flags) {
          return true;
        }
        Compare(r[3], 0);
      }
    }

    method RestoreLow(ghost i: nat)
      requires Shape() && i < n && r[5] == BlockAt(i)
      modifies r
      ensures r[1] == mem[Tcb(i) + 1] && r[2] == mem[Tcb(i) + 2] && r[3] == mem[Tcb(i) + 3] && r[4] == mem[Tcb(i) + 4]
      ensures r[5] == BlockAt(i)
    {
      LoadField(1, 5, 1, i);
      LoadField(2, 5, 2, i);
      LoadField(3, 5, 3, i);
      LoadField(4, 5, 4, i);
    }

    method RestoreHigh(ghost i: nat)
      requires Shape() && i < n && r[5] == BlockAt(i)
      modifies r
      ensures r[6] == mem[Tcb(i) + 6] && r[7] == mem[Tcb(i) + 7] && r[8] == mem[Tcb(i) + 8] && r[9] == mem[Tcb(i) + 9]
      ensures r[10] == mem[Tcb(i) + 10] && r[11] == mem[Tcb(i) + 11] && r[12] == mem[Tcb(i) + 12]
          && r[13] == mem[Tcb(i) + 13]
      ensures forall k :: 0 <= k < 6 ==> r[k] == old(r[k])
    {
      LoadField(6, 5, 6, i);
      LoadField(7, 5, 7, i);
      LoadField(8, 5, 8, i);
      LoadField(9, 5, 9, i);
      LoadField(10, 5, 10, i);
      LoadField(11, 5, 11, i);
      LoadField(12, 5, 12, i);
      LoadField(13, 5, 13, i);
    }

    /** Everything a task sees comes back from its block; r5, the pointer, and r0 last. */
    method RestoreRegisters(ghost i: nat)
      requires Shape() && i < n && r[5] == BlockAt(i)
      modifies r
      ensures r[..14] == ContextIn(mem[..], i).regs
    {
      RestoreLow(i);
      RestoreHigh(i);
      r[0] := r[5];
      LoadField(5, 0, 5, i);
      LoadField(0, 0, 0, i);
      forall k | 0 <= k < 14 ensures r[..14][k] == ContextIn(mem[..], i).regs[k] {
        assert r[k] == mem[Tcb(i) + k];
      }
    }

    /** SYSRET: back to user mode, with the interrupt enable the trap saved. */
    method Sysret()
      requires Shape()
      modifies this`flags, this`status, r
      ensures r[15] == epc && flags == eflags && status == estatus - estatus % 2 && r[..14] == old(r[..14])
    {
      r[15] := epc;
      flags := eflags;
      status := estatus - estatus % 2;
    }

    /** Choose the next task and return to it, or halt when all are dead. */
    method Schedule()
      requires Valid() && estatus == 2 && !halted
      modifies this, r, mem
      ensures Valid() && icPending == old(icPending) && tx == old(tx)
      ensures Choose(old(Abs())) == if halted then None else Some(Abs())
      ensures !halted ==> InUserMode() && Visible() == Abs().Running()
    {
      hide ContextIn;
      var found := FindNext();
      if !found {
        Message();
        halted := true;
        return;
      }
      assert Choose(old(Abs())) == Some(old(Abs()).(current := r[4]));
      Dispatch();
    }

    /** Make the candidate in r4, whose block is at r5, the current task and return to it. */
    method Dispatch()
      requires Valid() && estatus == 2 && !halted && r[4] < n && r[5] == BlockAt(r[4])
      modifies this, r, mem
      ensures Valid() && icPending == old(icPending) && tx == old(tx)
      ensures Abs() == old(Abs()).(current := old(r[4]))
      ensures InUserMode() && Visible() == Abs().Running()
    {
      hide ContextIn, BlockAt;
      var next := r[4];
      r[0] := KDATA_BASE;
      Sw(4, r[0]);
      SchedulerWord(old(mem[..]), mem[..], n);
      LoadField(0, 5, TCB_PC / 4, next);
      LoadField(1, 5, TCB_FLAGS / 4, next);
      r[2] := Cpu.SV_BASE;
      epc := r[0];
      eflags := r[1];
      RestoreRegisters(next);
      Sysret();
      assert TaskIn(mem[..], next).ctx == Visible() by { VisibleIs(mem[..], next, Visible()); }
    }

    /* ---- _start ---- */

    /** Set up the scheduler's variables and one block per task, and run the first task. */
    method Start(entries: seq<Word>, stacks: seq<Word>)
      requires Shape() && |entries| == |stacks| == n && estatus == 2 && !halted
      requires forall k :: 0 <= k < mem.Length ==> mem[k] == 0
      modifies this, r, mem
      ensures Valid() && !halted && InUserMode()
      ensures Abs() == Sched(seq(n, i requires 0 <= i < n => NewTask(entries[i], stacks[i])), 0)
      ensures Visible() == NewTask(entries[0], stacks[0]).ctx
    {
      hide TaskIn;
      mem[Cell(KDATA_BASE)] := n - 1;
      mem[Cell(KDATA_BASE + 4)] := n;
      mem[Cell(KDATA_BASE + 8)] := 0;
      var i := 0;
      while i < n
        invariant 0 <= i <= n && mem[0] == n - 1 && mem[1] == n && estatus == 2 && !halted
        invariant forall k :: Tcb(i) <= k < mem.Length ==> mem[k] == 0
        invariant forall j :: 0 <= j < i ==>
            mem[Tcb(j) + 18] == j && TaskIn(mem[..], j) == NewTask(entries[j], stacks[j])
      {
        ghost var m := mem[..];
        CreateTask(entries[i], stacks[i], i);
        NewBlock(m, mem[..], i, entries[i], stacks[i]);
        i := i + 1;
      }
      assert Abs().tasks == seq(n, i requires 0 <= i < n => NewTask(entries[i], stacks[i]));
      FirstIsRunnable(Abs());
      Schedule();
    }

    /* ---- Traps ---- */

    /** What the hardware does when the running task, having left `t.ctx` and `lr` in its registers, traps. */
    method Enter(t: Trap, lr: Word, vector: Word, pending: Word)
      requires Shape() && |t.ctx.regs| == 14
      modifies this, r
      ensures r[..14] == t.ctx.regs && epc == t.ctx.pc && eflags == t.ctx.flags && cause == t.cause
      ensures estatus == old(status) && status == 1 && tx == old(tx) && halted == old(halted) && icPending == pending
    {
      forall k | 0 <= k < 14 {
        r[k] := t.ctx.regs[k];
      }
      r[14] := lr;
      epc := t.ctx.pc;
      eflags := t.ctx.flags;
      cause := t.cause;
      estatus := status;
      status := 1;
      r[15] := vector;
      icPending := pending;
    }

    /** Main result: from entry to return, a trap does what the scheduler's model says; the chosen task sees
        exactly its saved registers, PC and flags, in user mode with interrupts enabled, with the timer
        interrupt acknowledged; a write has sent its bytes; and the machine halts only when all tasks are dead. */
    method OnTrap(t: Trap, lr: Word, vector: Word, pending: Word, user: seq<Byte>)
      requires Valid() && InUserMode() && |t.ctx.regs| == 14 && BufferOk(t, user)
      modifies this, r, mem
      ensures Valid()
      ensures Serve(old(Abs()), t) == if halted then None else Some(Abs())
      ensures !halted ==> InUserMode() && Visible() == Abs().Running()
      ensures t.cause == IRQ_CAUSE ==> icPending % 2 == 0
      ensures tx == old(tx) + Sent(t, user)
    {
      hide OnlyBlock, TaskIn, Choose;
      ghost var m, cur := mem[..], mem[0];
      Enter(t, lr, vector, pending);
      ExceptionEntry();
      ghost var saved := mem[..];
      Compare(r[3], 3);
      if Cpu.Taken(0, flags) {
        SyscallDispatch(t, user);
      } else {
        Compare(r[3], 6);
        if Cpu.Taken(0, flags) {
          IrqHandler();
        } else {
          Message();
          KillCurrent();
          StateChange(saved, cur, STATE_ZOMBIE);
        }
        SameBlock(saved, cur);
      }
      assert TaskIn(mem[..], cur) == Task(t.Returned(), TaskIn(saved, cur).runnable && t.Survives());
      OnlyBlockTwice(m, saved, mem[..], cur);
      BlockUpdate(m, mem[..], n, cur);
      assert Abs() == Handle(old(Abs()), t);
      Schedule();
    }
  }

  /** One trap of a run: what the task leaves in its registers and in its memory, and what else is pending. */
  datatype Event = Event(trap: Trap, lr: Word, vector: Word, pending: Word, user: seq<Byte>)

  predicate EventOk(e: Event) {
    |e.trap.ctx.regs| == 14 && BufferOk(e.trap, e.user)
  }

  function TrapsOf(es: seq<Event>): (traps: seq<Trap>)
    ensures |traps| == |es|
  {
    seq(|es|, i requires 0 <= i < |es| => es[i].trap)
  }

  /** What the first `k` traps send to the terminal. */
  function SentBy(es: seq<Event>, k: nat): seq<Byte>
    requires k <= |es| && forall j :: 0 <= j < |es| ==> EventOk(es[j])
  {
    if k == 0 then [] else SentBy(es, k - 1) + Sent(es[k - 1].trap, es[k - 1].user)
  }

  /** A whole run: the tasks trap one after the other until the traps are used up or all tasks are dead. The
      state is at every point the one `Scheduler.At` speaks about, and the terminal has got what the writes sent. */
  method RunTraps(k: Machine, es: seq<Event>) returns (served: nat)
    requires k.Valid() && k.InUserMode() && forall j :: 0 <= j < |es| ==> EventOk(es[j])
    modifies k, k.r, k.mem
    ensures k.Valid() && served <= |es|
    ensures ValidTraps(TrapsOf(es)) && At(old(k.Abs()), TrapsOf(es), served) == if k.halted then None else Some(k.Abs())
    ensures !k.halted ==> served == |es| && k.InUserMode() && (es != [] ==> k.Visible() == k.Abs().Running())
    ensures k.tx == old(k.tx) + SentBy(es, served)
  {
    hide Sent, BufferOk, Serve, TasksIn, BlockAt;
    ghost var first, traps, sent := k.Abs(), TrapsOf(es), k.tx;
    served := 0;
    while served < |es| && !k.halted
      invariant 0 <= served <= |es| && k.Valid()
      invariant At(first, traps, served) == if k.halted then None else Some(k.Abs())
      invariant !k.halted ==> k.InUserMode() && (served > 0 ==> k.Visible() == k.Abs().Running())
      invariant k.tx == sent + SentBy(es, served)
    {
      var e := es[served];
      assert EventOk(e) && traps[served] == e.trap;
      k.OnTrap(e.trap, e.lr, e.vector, e.pending, e.user);
      served := served + 1;
    }
  }

  /* ---- The processor's side of a trap ---- */

  /** `Machine.Enter` is the processor's trap entry, seen from the user program in `c`: interrupt, fault or
      SYSCALL. (The processor itself leaves r14 alone.) */
  lemma EnterIsTrapEntry(c: Cpu.Core, m: Mem, cause: Word, epc: Word)
    ensures var t, d := Trap(cause, Context(c.r[..14], epc, c.flags)), Cpu.Enter(c, m, cause, epc);
      && d.r[..14] == t.ctx.regs && d.r[14] == c.r[14] && d.epc == t.ctx.pc && d.eflags == t.ctx.flags
      && d.cause == t.cause && d.estatus == c.status && d.status == 1
  {
    hide Cpu.Vector;
    assert c.r[15 := Cpu.Vector(m, c.evec, cause)][..14] == c.r[..14];
  }

  /** `Machine.Sysret` is the processor's SYSRET: with ESTATUS 2 it leads to user mode with interrupts on. */
  lemma SysretIsReturn(mode: Cpu.Mode, s: Cpu.State)
    requires !s.core.User()
    ensures var d := Cpu.Execute(mode, s, Cpu.Sysret).core;
      && d.r[..14] == s.core.r[..14] && d.r[15] == s.core.epc && d.flags == s.core.eflags
      && d.status == s.core.estatus - s.core.estatus % 2 && d.User()
      && (s.core.estatus == 2 ==> d.InterruptsEnabled())
  {
    assert s.core.r[15 := s.core.epc][..14] == s.core.r[..14];
    DivUnique(s.core.estatus - s.core.estatus % 2, 2, s.core.estatus / 2, 0);
  }

  /** `Machine.IrqHandler`'s last statement is the processor's store of 1 to the acknowledge register: of the pending
      bits exactly the timer's goes, and nothing else changes. */
  lemma AckIsStore(mode: Cpu.Mode, s: Cpu.State)
    ensures var t := Devices.Sw(mode, s, 0x03F0_2008, 1);
      && t == s.(core := s.core.(icPending := s.core.icPending - And(s.core.icPending, 1)))
      && forall k: nat :: Bits.BitAt(t.core.icPending, k) <==> Bits.BitAt(s.core.icPending, k) && k != 0
  {
    hide And, Devices.Sw, Bits.BitAt;
    Devices.SwIsWrite(mode, s, 0x03F0_2008, 1);
    Devices.AckClears(mode, s, 1);
    forall k: nat ensures Bits.BitAt(1, k) <==> k == 0 {
      Devices.LowWeights(k);
    }
  }

  /* ---- Facts about blocks ---- */

  /** A task as created: registers zero but for the stack pointer, at its entry point, runnable. */
  function NewTask(entry: Word, stackTop: Word): Task {
    Task(Context([0, 0, 0, 0, 0, 0, 0, 0, 0, 0, 0, 0, 0, stackTop], entry, 0), true)
  }

  lemma NewBlock(m: seq<Word>, m': seq<Word>, i: nat, entry: Word, stackTop: Word)
    requires |m| >= Tcb(i + 1) && forall k :: Tcb(i) <= k < Tcb(i + 1) ==> m[k] == 0
    requires m' == m[Tcb(i) + 15 := entry][Tcb(i) + 13 := stackTop][Tcb(i) + 17 := STATE_RUNNABLE][Tcb(i) + 18 := i]
    ensures TaskIn(m', i) == NewTask(entry, stackTop)
    ensures forall j :: 0 <= j < i ==> TaskIn(m', j) == TaskIn(m, j) && m'[Tcb(j) + 18] == m[Tcb(j) + 18]
  {
    forall j | 0 <= j < i ensures TaskIn(m', j) == TaskIn(m, j) {
      assert m'[Tcb(j)..Tcb(j) + 14] == m[Tcb(j)..Tcb(j) + 14];
    }
  }

  /** From the last task the search comes to the first. */
  lemma FirstIsRunnable(k: Sched)
    requires k.Valid() && k.current == |k.tasks| - 1 && k.tasks[0].runnable
    ensures Choose(k) == Some(k.(current := 0))
  {
  }

  lemma CountDown(w: Word)
    requires w > 0
    ensures Wrap(w - 1) == w - 1 && (Signed(w) > 0 ==> Signed(Wrap(w - 1)) == Signed(w) - 1)
  {
  }

  lemma AckClearsTimer(p: Word)
    ensures (p - And(p, 1)) % 2 == 0
  {
    assert And(p, 1) == p % 2;
  }

  lemma SavedFields(m: seq<Word>, i: nat, c: Context)
    requires |m| >= Tcb(i + 1) && ContextIn(m, i) == c
    ensures m[Tcb(i)] == c.regs[0] && m[Tcb(i) + 1] == c.regs[1] && m[Tcb(i) + 2] == c.regs[2]
  {
  }

  lemma StateChange(m: seq<Word>, i: nat, state: Word)
    requires |m| >= Tcb(i + 1)
    ensures var m' := m[Tcb(i) + 17 := state];
      OnlyBlock(m, m', i) && TaskIn(m', i) == Task(TaskIn(m, i).ctx, state == STATE_RUNNABLE)
  {
  }

  lemma ResultChange(m: seq<Word>, i: nat, v: Word)
    requires |m| >= Tcb(i + 1)
    ensures var m' := m[Tcb(i) := v];
      var c := ContextIn(m, i);
      OnlyBlock(m, m', i) && TaskIn(m', i) == Task(c.(regs := c.regs[0 := v]), TaskIn(m, i).runnable)
  {
  }

  lemma SameBlock(m: seq<Word>, i: nat)
    ensures OnlyBlock(m, m, i)
  {
  }

  lemma OnlyBlockTwice(a: seq<Word>, b: seq<Word>, c: seq<Word>, i: nat)
    requires OnlyBlock(a, b, i) && OnlyBlock(b, c, i)
    ensures OnlyBlock(a, c, i)
  {
  }

  /** The scheduler's own variable is in no block. */
  lemma SchedulerWord(m: seq<Word>, m': seq<Word>, n: nat)
    requires |m| == |m'| == Tcb(n) && forall k :: 1 <= k < |m| ==> m'[k] == m[k]
    ensures TasksIn(m', n) == TasksIn(m, n)
  {
    forall i | 0 <= i < n ensures TaskIn(m', i) == TaskIn(m, i) {
      assert m'[Tcb(i)..Tcb(i) + 14] == m[Tcb(i)..Tcb(i) + 14];
    }
  }

  lemma VisibleIs(m: seq<Word>, i: nat, c: Context)
    requires |m| >= Tcb(i + 1) && c.regs == ContextIn(m, i).regs && c.pc == m[Tcb(i) + 15] && c.flags == m[Tcb(i) + 16]
    ensures TaskIn(m, i).ctx == c
  {
  }

  lemma StoreNone(m: seq<Word>, c: nat, regs: seq<Word>)
    requires c <= |m|
    ensures Stored(m, c, regs, 0) == m
  {
  }

  /** `m` with registers, sentinel, PC and flags in the block of task `i`. */
  function Blocked(m: seq<Word>, i: nat, regs: seq<Word>, pc: Word, flags: Word): seq<Word>
    requires |m| >= Tcb(i + 1) && |regs| == 16
  {
    Stored(m, Tcb(i), regs, 14)[Tcb(i) + 14 := 0xDEAD_BEEF][Tcb(i) + 15 := pc][Tcb(i) + 16 := flags]
  }

  /** A write to one block leaves the kernel's variables and the other blocks alone. */
  lemma BlockApart(m: seq<Word>, m': seq<Word>, i: nat, n: nat)
    requires |m| == Tcb(n) && i < n && OnlyBlock(m, m', i)
    ensures m'[0] == m[0] && m'[1] == m[1]
    ensures forall j :: 0 <= j < n && j != i ==> m'[Tcb(j) + 18] == m[Tcb(j) + 18]
  {
    forall j | 0 <= j < n && j != i ensures m'[Tcb(j) + 18] == m[Tcb(j) + 18] {
      assert !InBlock(i, Tcb(j) + 18);
    }
  }


  lemma SavedContext(m0: seq<Word>, m: seq<Word>, regs: seq<Word>, user: seq<Word>, i: nat, pc: Word, flags: Word)
    requires |m| == |m0| >= Tcb(i + 1) && m == m0[2 := m[2]]
    requires |regs| == |user| == 16 && regs[..14] == user[..14]
    ensures var m' := Blocked(m, i, regs, pc, flags);
      OnlyBlock(m0, m', i) && m'[Tcb(i) + 17] == m0[Tcb(i) + 17] && m'[Tcb(i) + 18] == m0[Tcb(i) + 18]
          && TaskIn(m', i) == Task(Context(user[..14], pc, flags), TaskIn(m0, i).runnable)
  {
  }
}
