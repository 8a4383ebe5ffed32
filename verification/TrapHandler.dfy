/** A reentrant trap handler in machine words, and the proof that it keeps the discipline of `Unwinding`:
    the sequence that saves registers and return state on the stack, and the one that restores them. */
module TrapHandler {
  import opened Words
  import opened Memory
  import opened Mmu
  import opened Cpu
  import opened Privilege
  import opened Unwinding
  import Assembler
  import Disasm

  /* ---- The code ---- */

  /** Where EPC, EFLAGS and ESTATUS are, counted from SV_BASE. */
  function SvOffset(j: nat): int
    requires j < 3
  {
    if j == 0 then 0 else if j == 1 then 4 else 0x14
  }

  function Imm(op: Byte, rd: Byte, rs1: Byte, n: int): Word {
    Assembler.Instr(op, rd, rs1, n % 0x1_0000)
  }

  function StoreWord(rd: Byte, rs1: Byte, n: int): Word { Imm(0x0C, rd, rs1, n) }
  function LoadWord(rd: Byte, rs1: Byte, n: int): Word { Imm(0x0B, rd, rs1, n) }

  /** `LUI r0, 0x400`: 0x1000 above the supervisor registers. */
  function BaseWord(): Word { Imm(0x38, 0, 0, 0x400) }
  function PushWord(): Word { Imm(0x15, 13, 13, 72) }
  function KretWord(): Word { Imm(0x3F, 0, 0, 0) }

  /** Store r0-r14 below the stack pointer, then the three supervisor registers, then move the stack pointer. */
  function PrologueWord(i: nat): Word
    requires i < 23
  {
    if i < 15 then StoreWord(i, 13, 4 * i - 72)
    else if i == 15 then BaseWord()
    else if i == 22 then PushWord()
    else if i % 2 == 0 then LoadWord(1, 0, SvOffset((i - 16) / 2) - 0x1000)
    else StoreWord(1, 13, 4 * (15 + (i - 17) / 2) - 72)
  }

  function Prologue(): (ws: seq<Word>)
    ensures |ws| == 23
  {
    seq(23, i requires 0 <= i < 23 => PrologueWord(i))
  }

  /** The registers in the order in which they are restored: the stack pointer comes last. */
  function LoadOrder(k: nat): Byte
    requires k < 15
  {
    if k == 13 then 14 else if k == 14 then 13 else k
  }

  /** The three supervisor registers, r0-r14, KRET. */
  function EpilogueWord(i: nat): Word
    requires i < 23
  {
    if i == 0 then BaseWord()
    else if i == 22 then KretWord()
    else if i > 6 then LoadWord(LoadOrder(i - 7), 13, 4 * LoadOrder(i - 7))
    else if i % 2 == 1 then LoadWord(1, 13, 4 * (15 + (i - 1) / 2))
    else StoreWord(1, 0, SvOffset((i - 2) / 2) - 0x1000)
  }

  function Epilogue(): (ws: seq<Word>)
    ensures |ws| == 23
  {
    seq(23, i requires 0 <= i < 23 => EpilogueWord(i))
  }

  predicate CodeAt(m: Mem, a: nat, ws: seq<Word>) {
    a + 4 * |ws| <= 0x0400_0000 && forall i :: 0 <= i < |ws| ==> Read32(m, a + 4 * i) == ws[i]
  }

  /* ---- Single steps in supervisor mode, interrupts and translation off ---- */

  predicate Quiet(c: Core) {
    c.status == 1 && c.satp < 0x8000_0000 && !c.halted
  }

  /** `d` is `c` with other general registers and perhaps other flags. */
  predicate Moved(c: Core, d: Core) {
    SupervisorSame(c, d) && d.halted == c.halted
  }

  lemma BareFetch(mode: Mode, s: State)
    requires s.core.satp < 0x8000_0000 && s.core.r[15] < MEM_SIZE
    ensures var pc := s.core.r[15];
      Fetched(mode, s)
      == (s.(core := SetReg(s.core.(faultingPc := pc), 15, Wrap(pc + 4))), Some(Read32(s.mem, pc)))
  {
    hide Read32, HitTranslate, MissTranslate, FindLeaf;
  }

  lemma QuietStep(mode: Mode, s: State, rx: Option<Byte>)
    requires Quiet(s.core) && s.core.r[15] < MEM_SIZE
    ensures var pc := s.core.r[15];
      var t := s.(core := SetReg(s.core.(faultingPc := pc), 15, Wrap(pc + 4)));
      var u := Execute(mode, t, Decode(t.core, pc, Read32(s.mem, pc)));
      u.core.status == 1 ==>
        var d := Step(mode, s, rx);
        d.mem == u.mem && d.core.r == u.core.r && Moved(u.core, d.core)
  {
    hide Read32, Decode, Execute, Tick, Poll, Fetched, And;
    BareFetch(mode, s);
    InterruptStep(mode, s, rx);
    TickPollKeeps(AfterInstruction(mode, s).core, rx);
  }

  lemma ImmFields(op: Byte, rd: Reg, rs1: Reg, n: int)
    requires -0x8000 <= n < 0x8000
    ensures var w := Imm(op, rd, rs1, n);
      Opcode(w) == op && Rd(w) == rd && Rs1(w) == rs1 && Imm16(w) == n % 0x1_0000 && Simm(w) == n
  {
    Disasm.InstrFields(op, rd, rs1, n % 0x1_0000);
    if n >= 0 {
      DivUnique(n, 0x1_0000, 0, n);
    } else {
      DivUnique(n + 0x1_0000, 0x1_0000, 0, n + 0x1_0000);
    }
  }

  lemma DecodeImm(c: Core, pc: Word, op: Byte, rd: Reg, rs1: Reg, n: int)
    requires -0x8000 <= n < 0x8000
    ensures var w := Imm(op, rd, rs1, n);
      && (op == 0x0C ==> Decode(c, pc, w) == StoreOp(Wrap(c.r[rs1] + n), 4, c.r[rd]))
      && (op == 0x0B ==> Decode(c, pc, w) == LoadOp(rd, Wrap(c.r[rs1] + n), 4, false))
      && (op == 0x38 ==> Decode(c, pc, w) == Put(rd, 0x1_0000 * (n % 0x1_0000), c.flags))
      && (op == 0x15 ==> Decode(c, pc, w).Put? && Decode(c, pc, w).rd == rd
                         && Decode(c, pc, w).value == Wrap(c.r[rs1] - Wrap(n)))
      && (op == 0x3F ==> Opcode(w) == 0x3F)
  {
    hide Imm, Opcode, Rd, Rs1, Rs2, Imm16, Simm, Soff, Shift, Flags;
    ImmFields(op, rd, rs1, n);
  }

  /** Without translation an aligned RAM access is a plain one. */
  lemma StoreStep(mode: Mode, s: State, rx: Option<Byte>, rd: Reg, rs1: Reg, n: int)
    requires Quiet(s.core) && s.core.r[15] < MEM_SIZE && rd < 15 && rs1 < 15 && -0x8000 <= n < 0x8000
    requires Read32(s.mem, s.core.r[15]) == StoreWord(rd, rs1, n)
    requires 0 <= s.core.r[rs1] + n < MMIO_BASE && (s.core.r[rs1] + n) % 4 == 0
    ensures var d := Step(mode, s, rx);
      && d.mem == Write32(s.mem, s.core.r[rs1] + n, s.core.r[rd])
      && d.core.r == s.core.r[15 := Wrap(s.core.r[15] + 4)] && Moved(s.core, d.core)
  {
    hide Read32, Write32, Decode, Step, Imm, HitTranslate, MissTranslate, FindLeaf, MmioWrite;
    var pc, a := s.core.r[15], s.core.r[rs1] + n;
    var t := s.(core := SetReg(s.core.(faultingPc := pc), 15, Wrap(pc + 4)));
    QuietStep(mode, s, rx);
    DecodeImm(t.core, pc, 0x0C, rd, rs1, n);
    DivUnique(a, 0x1_0000_0000, 0, a);
  }

  lemma LoadStep(mode: Mode, s: State, rx: Option<Byte>, rd: Reg, rs1: Reg, n: int)
    requires Quiet(s.core) && s.core.r[15] < MEM_SIZE && rd < 15 && rs1 < 15 && -0x8000 <= n < 0x8000
    requires Read32(s.mem, s.core.r[15]) == LoadWord(rd, rs1, n)
    requires 0 <= s.core.r[rs1] + n < MMIO_BASE && (s.core.r[rs1] + n) % 4 == 0
    ensures var d := Step(mode, s, rx);
      && d.mem == s.mem && Moved(s.core, d.core)
      && d.core.r == s.core.r[15 := Wrap(s.core.r[15] + 4)][rd := Read32(s.mem, s.core.r[rs1] + n)]
  {
    hide Read32, Decode, Step, Imm, HitTranslate, MissTranslate, FindLeaf, MmioRead;
    var pc, a := s.core.r[15], s.core.r[rs1] + n;
    var t := s.(core := SetReg(s.core.(faultingPc := pc), 15, Wrap(pc + 4)));
    QuietStep(mode, s, rx);
    DecodeImm(t.core, pc, 0x0B, rd, rs1, n);
    DivUnique(a, 0x1_0000_0000, 0, a);
  }

  /** EPC, EFLAGS and ESTATUS. */
  function SvField(c: Core, j: nat): Word
    requires j < 3
  {
    if j == 0 then c.epc else if j == 1 then c.eflags else c.estatus
  }

  lemma SvLoadEffect(mode: Mode, t: State, j: nat)
    requires !t.core.User() && t.core.satp < 0x8000_0000 && j < 3
    ensures var op := LoadOp(1, SV_BASE + SvOffset(j), 4, false);
      Execute(mode, t, op) == t.(core := SetReg(t.core, 1, SvField(t.core, j)))
  {
    hide HitTranslate, MissTranslate, FindLeaf;
    DivUnique(SvField(t.core, j), 0x1_0000_0000, 0, SvField(t.core, j));
  }

  lemma SvLoadStep(mode: Mode, s: State, rx: Option<Byte>, j: nat)
    requires Quiet(s.core) && s.core.r[15] < MEM_SIZE && j < 3 && s.core.r[0] == 0x0400_0000
    requires Read32(s.mem, s.core.r[15]) == LoadWord(1, 0, SvOffset(j) - 0x1000)
    ensures var d := Step(mode, s, rx);
      && d.mem == s.mem && Moved(s.core, d.core)
      && d.core.r == s.core.r[15 := Wrap(s.core.r[15] + 4)][1 := SvField(s.core, j)]
  {
    hide Read32, Decode, Execute, Step, Imm;
    var pc := s.core.r[15];
    var t := s.(core := SetReg(s.core.(faultingPc := pc), 15, Wrap(pc + 4)));
    QuietStep(mode, s, rx);
    DecodeImm(t.core, pc, 0x0B, 1, 0, SvOffset(j) - 0x1000);
    SvLoadEffect(mode, t, j);
  }

  function SetSv(c: Core, j: nat, v: Word): Core
    requires j < 3
  {
    if j == 0 then c.(epc := v) else if j == 1 then c.(eflags := v) else c.(estatus := v)
  }

  lemma SvStoreEffect(mode: Mode, t: State, j: nat, v: Word)
    requires !t.core.User() && t.core.satp < 0x8000_0000 && j < 3
    ensures Execute(mode, t, StoreOp(SV_BASE + SvOffset(j), 4, v)) == t.(core := SetSv(t.core, j, v))
  {
    hide HitTranslate, MissTranslate, FindLeaf;
    DivUnique(v, 0x1_0000_0000, 0, v);
  }

  lemma SvStoreStep(mode: Mode, s: State, rx: Option<Byte>, j: nat)
    requires Quiet(s.core) && s.core.r[15] < MEM_SIZE && j < 3 && s.core.r[0] == 0x0400_0000
    requires Read32(s.mem, s.core.r[15]) == StoreWord(1, 0, SvOffset(j) - 0x1000)
    ensures var d := Step(mode, s, rx);
      && d.mem == s.mem && Moved(SetSv(s.core, j, s.core.r[1]), d.core)
      && d.core.r == s.core.r[15 := Wrap(s.core.r[15] + 4)]
  {
    hide Read32, Decode, Execute, Step, Imm;
    var pc := s.core.r[15];
    var t := s.(core := SetReg(s.core.(faultingPc := pc), 15, Wrap(pc + 4)));
    QuietStep(mode, s, rx);
    DecodeImm(t.core, pc, 0x0C, 1, 0, SvOffset(j) - 0x1000);
    SvStoreEffect(mode, t, j, s.core.r[1]);
  }

  lemma BaseStep(mode: Mode, s: State, rx: Option<Byte>)
    requires Quiet(s.core) && s.core.r[15] < MEM_SIZE && Read32(s.mem, s.core.r[15]) == BaseWord()
    ensures var d := Step(mode, s, rx);
      && d.mem == s.mem && Moved(s.core, d.core)
      && d.core.r == s.core.r[15 := Wrap(s.core.r[15] + 4)][0 := 0x0400_0000]
  {
    hide Read32, Decode, Step, Imm;
    var pc := s.core.r[15];
    QuietStep(mode, s, rx);
    DecodeImm(SetReg(s.core.(faultingPc := pc), 15, Wrap(pc + 4)), pc, 0x38, 0, 0, 0x400);
  }

  lemma PushStep(mode: Mode, s: State, rx: Option<Byte>)
    requires Quiet(s.core) && s.core.r[15] < MEM_SIZE && Read32(s.mem, s.core.r[15]) == PushWord()
    requires s.core.r[13] >= 72
    ensures var d := Step(mode, s, rx);
      && d.mem == s.mem && Moved(s.core, d.core)
      && d.core.r == s.core.r[15 := Wrap(s.core.r[15] + 4)][13 := s.core.r[13] - 72]
  {
    hide Read32, Decode, Step, Imm;
    var pc := s.core.r[15];
    QuietStep(mode, s, rx);
    DecodeImm(SetReg(s.core.(faultingPc := pc), 15, Wrap(pc + 4)), pc, 0x15, 13, 13, 72);
    DivUnique(s.core.r[13] - 72, 0x1_0000_0000, 0, s.core.r[13] - 72);
  }

  /* ---- Runs, one step after another ---- */

  lemma RunOneMore(mode: Mode, s: State, rxs: Inputs, k: nat)
    requires k < |rxs| && !Run(mode, s, rxs[..k]).core.halted
    ensures Run(mode, s, rxs[..k + 1]) == Step(mode, Run(mode, s, rxs[..k]), rxs[k])
  {
    hide Step, Run;
    assert rxs[..k + 1] == rxs[..k] + [rxs[k]];
    RunAppend(mode, s, rxs[..k], [rxs[k]]);
    OneStep(mode, Run(mode, s, rxs[..k]), rxs[k]);
  }

  /* ---- The frame ---- */

  function FrameWord(c: Core, i: nat): Word
    requires i < 18
  {
    if i < 15 then c.r[i] else SvField(c, i - 15)
  }

  /** The first `k` words of the frame. */
  predicate Holds(m: Mem, f: nat, c: Core, k: nat)
    requires k <= 18
  {
    forall i :: 0 <= i < k ==> Read32(m, f + 4 * i) == FrameWord(c, i)
  }

  lemma HoldsAll(m: Mem, f: nat, c: Core)
    ensures Holds(m, f, c, 18) <==> FrameHolds(m, f, c)
  {
    hide Read32;
    assert f + 60 == f + 4 * 15 && f + 64 == f + 4 * 16 && f + 68 == f + 4 * 17;
    if Holds(m, f, c, 18) {
      forall i | 0 <= i < 15 ensures Read32(m, f + 4 * i) == c.r[i] {
        assert Read32(m, f + 4 * i) == FrameWord(c, i);
      }
      assert Read32(m, f + 4 * 15) == FrameWord(c, 15) && Read32(m, f + 4 * 16) == FrameWord(c, 16);
      assert Read32(m, f + 4 * 17) == FrameWord(c, 17);
    }
  }

  predicate OutsideSame(m: Mem, m': Mem, f: nat) {
    forall a :: 0 <= a < 0x0400_0000 && !InFrame(f, a) ==> m'[a] == m[a]
  }

  lemma StoreInFrame(m: Mem, f: nat, c: Core, k: nat)
    requires k < 18 && f + 72 <= MEM_SIZE && Holds(m, f, c, k)
    ensures var m' := Write32(m, f + 4 * k, FrameWord(c, k));
      Holds(m', f, c, k + 1) && OutsideSame(m, m', f)
  {
    hide Read32, FrameWord;
    var a, v := f + 4 * k, FrameWord(c, k);
    ReadOverWrite(m, a, 4, v);
    forall i | 0 <= i < k ensures Read32(Write32(m, a, v), f + 4 * i) == FrameWord(c, i) {
      ReadMissesWrite(m, a, 4, v, f + 4 * i);
    }
  }

  lemma CodeOutside(m: Mem, m': Mem, f: nat, a: nat, ws: seq<Word>)
    requires CodeAt(m, a, ws) && OutsideSame(m, m', f) && (a + 4 * |ws| <= f || f + 72 <= a)
    ensures CodeAt(m', a, ws)
  {
    forall i | 0 <= i < |ws| ensures Read32(m', a + 4 * i) == ws[i] {
      assert Read32(m, a + 4 * i) == ws[i];
    }
  }

  /* ---- Saving ---- */

  /** A trap has been entered at the prologue, with room for a frame below the stack pointer. */
  predicate AtPrologue(q: State) {
    var a, sp := q.core.r[15], q.core.r[13];
    && Quiet(q.core) && CodeAt(q.mem, a, Prologue())
    && 72 <= sp <= MMIO_BASE && sp % 4 == 0 && (a + 92 <= sp - 72 || sp <= a)
  }

  /** `k` words of the frame are written; the registers from r2 on are still those of `q`. */
  predicate Saving(q: State, s: State, k: nat, steps: nat)
    requires AtPrologue(q) && k <= 18
  {
    var f := q.core.r[13] - 72;
    && Holds(s.mem, f, q.core, k) && OutsideSame(q.mem, s.mem, f)
    && (forall i :: 2 <= i < 15 ==> s.core.r[i] == q.core.r[i])
    && s.core.r[15] == q.core.r[15] + 4 * steps && Moved(q.core, s.core)
  }

  lemma SavingFetch(q: State, s: State, k: nat, i: nat)
    requires AtPrologue(q) && k <= 18 && i < 23 && Saving(q, s, k, i)
    ensures Quiet(s.core) && s.core.r[15] < MEM_SIZE && Read32(s.mem, s.core.r[15]) == Prologue()[i]
    ensures Wrap(s.core.r[15] + 4) == q.core.r[15] + 4 * (i + 1)
  {
    hide Read32, Prologue, Holds;
    CodeOutside(q.mem, s.mem, q.core.r[13] - 72, q.core.r[15], Prologue());
  }

  lemma SaveOne(mode: Mode, q: State, s: State, rx: Option<Byte>, k: nat, i: nat, rd: Reg)
    requires AtPrologue(q) && k < 18 && i < 23 && Saving(q, s, k, i) && rd < 15
    requires Prologue()[i] == StoreWord(rd, 13, 4 * k - 72) && s.core.r[rd] == FrameWord(q.core, k)
    ensures Saving(q, Step(mode, s, rx), k + 1, i + 1)
    ensures forall j :: 0 <= j < 15 ==> Step(mode, s, rx).core.r[j] == s.core.r[j]
  {
    hide Step, Prologue, Read32, Write32, Holds, StoreWord, FrameWord, OutsideSame;
    var f := q.core.r[13] - 72;
    SavingFetch(q, s, k, i);
    FrameAligned(f, k);
    assert s.core.r[13] + (4 * k - 72) == f + 4 * k;
    StoreStep(mode, s, rx, rd, 13, 4 * k - 72);
    StoreInFrame(s.mem, f, q.core, k);
    OutsideTrans(q.mem, s.mem, Step(mode, s, rx).mem, f);
  }

  lemma FrameAligned(f: nat, k: nat)
    requires (f + 72) % 4 == 0
    ensures (f + 4 * k) % 4 == 0
  {
  }

  lemma OutsideTrans(m: Mem, m': Mem, m'': Mem, f: nat)
    requires OutsideSame(m, m', f) && OutsideSame(m', m'', f)
    ensures OutsideSame(m, m'', f)
  {
  }

  lemma {:induction false} RegistersSaved(mode: Mode, q: State, rxs: Inputs, k: nat)
    requires AtPrologue(q) && |rxs| == 23 && k <= 15
    ensures var s := Run(mode, q, rxs[..k]);
      Saving(q, s, k, k) && s.core.r[0] == q.core.r[0] && s.core.r[1] == q.core.r[1]
  {
    hide Step, Read32, StoreWord, CodeAt;
    if k == 0 {
      assert rxs[..0] == [];
    } else {
      hide Run;
      RegistersSaved(mode, q, rxs, k - 1);
      var s := Run(mode, q, rxs[..k - 1]);
      RunOneMore(mode, q, rxs, k - 1);
      SaveOne(mode, q, s, rxs[k - 1], k - 1, k - 1, k - 1);
    }
  }

  lemma SaveBase(mode: Mode, q: State, s: State, rx: Option<Byte>)
    requires AtPrologue(q) && Saving(q, s, 15, 15)
    ensures Saving(q, Step(mode, s, rx), 15, 16) && Step(mode, s, rx).core.r[0] == 0x0400_0000
  {
    hide Step, Read32, BaseWord, CodeAt, Holds, OutsideSame, StoreWord, LoadWord, PushWord;
    SavingFetch(q, s, 15, 15);
    assert Prologue()[15] == BaseWord();
    BaseStep(mode, s, rx);
  }

  lemma SaveFetched(mode: Mode, q: State, s: State, rx: Option<Byte>, j: nat)
    requires AtPrologue(q) && j < 3 && Saving(q, s, 15 + j, 16 + 2 * j) && s.core.r[0] == 0x0400_0000
    ensures var t := Step(mode, s, rx);
      Saving(q, t, 15 + j, 17 + 2 * j) && t.core.r[0] == 0x0400_0000 && t.core.r[1] == SvField(q.core, j)
  {
    hide Step, Read32, BaseWord, CodeAt, Holds, OutsideSame, StoreWord, LoadWord, PushWord;
    SavingFetch(q, s, 15 + j, 16 + 2 * j);
    assert Prologue()[16 + 2 * j] == LoadWord(1, 0, SvOffset(j) - 0x1000);
    SvLoadStep(mode, s, rx, j);
  }

  lemma SavePair(mode: Mode, q: State, s: State, rx: Option<Byte>, rx': Option<Byte>, j: nat)
    requires AtPrologue(q) && j < 3 && Saving(q, s, 15 + j, 16 + 2 * j) && s.core.r[0] == 0x0400_0000
    ensures !Step(mode, s, rx).core.halted
    ensures var t := Step(mode, Step(mode, s, rx), rx');
      Saving(q, t, 16 + j, 18 + 2 * j) && t.core.r[0] == 0x0400_0000
  {
    hide Step, Read32, StoreWord, LoadWord, BaseWord, PushWord, CodeAt, Holds, OutsideSame;
    SaveFetched(mode, q, s, rx, j);
    var t := Step(mode, s, rx);
    SavingFetch(q, t, 15 + j, 17 + 2 * j);
    assert Prologue()[17 + 2 * j] == StoreWord(1, 13, 4 * (15 + j) - 72);
    hide Prologue, SvField;
    SaveOne(mode, q, t, rx', 15 + j, 17 + 2 * j, 1);
  }

  lemma SavingRuns(q: State, s: State, k: nat, i: nat)
    requires AtPrologue(q) && k <= 18 && Saving(q, s, k, i)
    ensures !s.core.halted
  {
    hide CodeAt, Holds, OutsideSame;
  }

  lemma {:induction false} StateSaved(mode: Mode, q: State, rxs: Inputs, j: nat)
    requires AtPrologue(q) && |rxs| == 23 && j <= 3
    ensures var s := Run(mode, q, rxs[..16 + 2 * j]);
      Saving(q, s, 15 + j, 16 + 2 * j) && s.core.r[0] == 0x0400_0000
  {
    hide Step, Run, AtPrologue, Saving;
    if j == 0 {
      RegistersSaved(mode, q, rxs, 15);
      SavingRuns(q, Run(mode, q, rxs[..15]), 15, 15);
      RunOneMore(mode, q, rxs, 15);
      SaveBase(mode, q, Run(mode, q, rxs[..15]), rxs[15]);
    } else {
      StateSaved(mode, q, rxs, j - 1);
      var i := 14 + 2 * j;
      var s := Run(mode, q, rxs[..i]);
      SavingRuns(q, s, 14 + j, i);
      RunOneMore(mode, q, rxs, i);
      SavePair(mode, q, s, rxs[i], rxs[i + 1], j - 1);
      RunOneMore(mode, q, rxs, i + 1);
    }
  }

  /** The 23 steps of the prologue: the frame holds everything, the stack pointer is its address, nothing
      else in memory and no supervisor register changed. */
  lemma PrologueSaves(mode: Mode, q: State, rxs: Inputs)
    requires AtPrologue(q) && |rxs| == 23
    ensures var s, f := Run(mode, q, rxs), q.core.r[13] - 72;
      && FrameHolds(s.mem, f, q.core) && OutsideSame(q.mem, s.mem, f)
      && s.core.r[13] == f && s.core.r[15] == q.core.r[15] + 92 && Moved(q.core, s.core)
  {
    hide Step, Run, Read32, PushWord, CodeAt, OutsideSame;
    StateSaved(mode, q, rxs, 3);
    var s := Run(mode, q, rxs[..22]);
    RunOneMore(mode, q, rxs, 22);
    assert rxs[..23] == rxs;
    SavingFetch(q, s, 18, 22);
    PushStep(mode, s, rxs[22]);
    HoldsAll(s.mem, q.core.r[13] - 72, q.core);
  }

  /* ---- Restoring ---- */

  /** The body has come back: at the epilogue, the stack pointer at the frame. */
  predicate AtEpilogue(e: State, f: nat) {
    Quiet(e.core) && CodeAt(e.mem, e.core.r[15], Epilogue()) && e.core.r[13] == f && f + 72 <= MMIO_BASE && f % 4 == 0
  }

  /** `steps` instructions of the epilogue are done; nothing is written to memory. */
  predicate Restoring(e: State, s: State, steps: nat) {
    && s.mem == e.mem && Quiet(s.core) && s.core.r[15] == e.core.r[15] + 4 * steps
  }

  lemma RestoringFetch(e: State, s: State, f: nat, i: nat)
    requires AtEpilogue(e, f) && i < 23 && Restoring(e, s, i)
    ensures s.core.r[15] < MEM_SIZE && Read32(s.mem, s.core.r[15]) == Epilogue()[i]
    ensures Wrap(s.core.r[15] + 4) == e.core.r[15] + 4 * (i + 1)
  {
    hide Read32, Epilogue;
  }

  lemma LoadOne(mode: Mode, e: State, s: State, f: nat, c: Core, rx: Option<Byte>, i: nat, k: nat, rd: Reg)
    requires AtEpilogue(e, f) && Holds(e.mem, f, c, 18) && i < 23 && Restoring(e, s, i) && k < 18 && rd < 15
    requires Epilogue()[i] == LoadWord(rd, 13, 4 * k) && s.core.r[13] == f
    ensures var t := Step(mode, s, rx);
      && Restoring(e, t, i + 1) && Moved(s.core, t.core) && t.core.r[rd] == FrameWord(c, k)
      && forall j :: 0 <= j < 15 && j != rd ==> t.core.r[j] == s.core.r[j]
  {
    hide Step, Epilogue, Read32, LoadWord, FrameWord;
    RestoringFetch(e, s, f, i);
    assert (f + 72) % 4 == 0;
    FrameAligned(f, k);
    LoadStep(mode, s, rx, rd, 13, 4 * k);
  }

  predicate StateBack(e: State, s: State, f: nat, c: Core, j: nat)
    requires j <= 3
  {
    && Restoring(e, s, 1 + 2 * j) && s.core.r[0] == 0x0400_0000 && s.core.r[13] == f
    && forall i :: 0 <= i < j ==> SvField(s.core, i) == SvField(c, i)
  }

  lemma RestoreBase(mode: Mode, e: State, f: nat, c: Core, rx: Option<Byte>)
    requires AtEpilogue(e, f)
    ensures StateBack(e, Step(mode, e, rx), f, c, 0)
  {
    hide Step, Read32, CodeAt, BaseWord, LoadWord, StoreWord, KretWord;
    RestoringFetch(e, e, f, 0);
    assert Epilogue()[0] == BaseWord();
    BaseStep(mode, e, rx);
  }

  /** The next word of the frame is in r1. */
  predicate StateFetched(e: State, t: State, f: nat, c: Core, j: nat)
    requires j < 3
  {
    && Restoring(e, t, 2 + 2 * j) && t.core.r[0] == 0x0400_0000 && t.core.r[13] == f && t.core.r[1] == SvField(c, j)
    && forall i :: 0 <= i < j ==> SvField(t.core, i) == SvField(c, i)
  }

  lemma RestoreFetched(mode: Mode, e: State, s: State, f: nat, c: Core, rx: Option<Byte>, j: nat)
    requires AtEpilogue(e, f) && Holds(e.mem, f, c, 18) && j < 3 && StateBack(e, s, f, c, j)
    ensures StateFetched(e, Step(mode, s, rx), f, c, j)
  {
    hide Step, Read32, CodeAt, BaseWord, LoadWord, StoreWord, KretWord, Holds, AtEpilogue;
    assert Epilogue()[1 + 2 * j] == LoadWord(1, 13, 4 * (15 + j));
    LoadOne(mode, e, s, f, c, rx, 1 + 2 * j, 15 + j, 1);
  }

  lemma RestoreStored(mode: Mode, e: State, t: State, f: nat, c: Core, rx: Option<Byte>, j: nat)
    requires AtEpilogue(e, f) && j < 3 && StateFetched(e, t, f, c, j)
    ensures StateBack(e, Step(mode, t, rx), f, c, j + 1)
  {
    hide Step, Read32, CodeAt, BaseWord, LoadWord, StoreWord, KretWord, AtEpilogue;
    assert Epilogue()[2 + 2 * j] == StoreWord(1, 0, SvOffset(j) - 0x1000);
    RestoringFetch(e, t, f, 2 + 2 * j);
    hide Epilogue;
    SvStoreStep(mode, t, rx, j);
  }

  lemma {:induction false} StateRestored(mode: Mode, e: State, f: nat, c: Core, rxs: Inputs, j: nat)
    requires AtEpilogue(e, f) && Holds(e.mem, f, c, 18) && |rxs| == 22 && j <= 3
    ensures StateBack(e, Run(mode, e, rxs[..1 + 2 * j]), f, c, j)
  {
    hide Step, Run, AtEpilogue, StateBack, StateFetched, Holds;
    if j == 0 {
      AtEpilogueRuns(e, f);
      NoStep(mode, e);
      assert rxs[..0] == [];
      RunOneMore(mode, e, rxs, 0);
      RestoreBase(mode, e, f, c, rxs[0]);
    } else {
      StateRestored(mode, e, f, c, rxs, j - 1);
      var i := 2 * j - 1;
      var s := Run(mode, e, rxs[..i]);
      assert !s.core.halted by { BackRuns(e, s, f, c, j - 1); }
      RunOneMore(mode, e, rxs, i);
      RestoreFetched(mode, e, s, f, c, rxs[i], j - 1);
      var t := Step(mode, s, rxs[i]);
      assert !t.core.halted by { FetchedRuns(e, t, f, c, j - 1); }
      RunOneMore(mode, e, rxs, i + 1);
      RestoreStored(mode, e, t, f, c, rxs[i + 1], j - 1);
    }
  }

  lemma AtEpilogueRuns(e: State, f: nat)
    requires AtEpilogue(e, f)
    ensures !e.core.halted
  {
    hide CodeAt;
  }

  lemma FetchedRuns(e: State, t: State, f: nat, c: Core, j: nat)
    requires j < 3 && StateFetched(e, t, f, c, j)
    ensures !t.core.halted
  {
  }

  lemma BackRuns(e: State, s: State, f: nat, c: Core, j: nat)
    requires j <= 3 && StateBack(e, s, f, c, j)
    ensures !s.core.halted
  {
  }

  lemma {:induction false} RegistersRestored(mode: Mode, e: State, f: nat, c: Core, rxs: Inputs, k: nat)
    requires AtEpilogue(e, f) && Holds(e.mem, f, c, 18) && |rxs| == 22 && k <= 15
    ensures var s := Run(mode, e, rxs[..7 + k]);
      && Restoring(e, s, 7 + k) && (k < 15 ==> s.core.r[13] == f)
      && (forall i :: 0 <= i < 3 ==> SvField(s.core, i) == SvField(c, i))
      && (forall i :: 0 <= i < k ==> s.core.r[LoadOrder(i)] == c.r[LoadOrder(i)])
  {
    hide Step, Run, Read32, LoadWord, CodeAt, Holds;
    if k == 0 {
      StateRestored(mode, e, f, c, rxs, 3);
    } else {
      RegistersRestored(mode, e, f, c, rxs, k - 1);
      var i := 6 + k;
      var s := Run(mode, e, rxs[..i]);
      RunOneMore(mode, e, rxs, i);
      LoadOne(mode, e, s, f, c, rxs[i], i, LoadOrder(k - 1), LoadOrder(k - 1));
    }
  }

  /** The 22 steps before the KRET: what the frame holds is back in the registers, memory is untouched. */
  lemma EpilogueRestores(mode: Mode, e: State, f: nat, c: Core, rxs: Inputs)
    requires AtEpilogue(e, f) && FrameHolds(e.mem, f, c) && |rxs| == 22
    ensures var p := Run(mode, e, rxs);
      p.mem == e.mem && FrameHolds(e.mem, f, p.core) && AtKret(mode, p)
  {
    hide Step, Run, Read32, CodeAt;
    HoldsAll(e.mem, f, c);
    RegistersRestored(mode, e, f, c, rxs, 15);
    assert rxs[..22] == rxs;
    var p := Run(mode, e, rxs);
    forall i | 0 <= i < 15 ensures p.core.r[i] == c.r[i] {
      assert i == LoadOrder(LoadOrder(i));
    }
    assert SvField(p.core, 0) == SvField(c, 0) && SvField(p.core, 1) == SvField(c, 1)
        && SvField(p.core, 2) == SvField(c, 2);
    RestoringFetch(e, p, f, 22);
    BareFetch(mode, p);
    hide Fetched, Opcode, Imm;
    assert Epilogue()[22] == KretWord();
    ImmFields(0x3F, 0, 0, 0);
  }

  /* ---- The handler ---- */

  /** Main result: the prologue, any disciplined work that comes back to the epilogue with the stack pointer
      where it was, the epilogue and KRET are a disciplined handler, whatever it was entered with. */
  lemma StackHandlerDisciplined(mode: Mode, q: State, h: Handler, live: set<nat>)
    requires AtPrologue(q) && |h.save| == 23 && |h.restore| == 22 && h.frame == q.core.r[13] - 72
    requires FrameBytes(h.frame) !! live
    requires BodyDisciplined(mode, Saved(mode, q, h), h.body, live + FrameBytes(h.frame))
    requires AtEpilogue(BodyEnd(mode, Saved(mode, q, h), h.body), h.frame)
    ensures Disciplined(mode, q, h, live)
  {
    hide Run, Read32, FrameHolds, AtPrologue, AtEpilogue, BodyEnd, AtKret, FrameBytes;
    var s, e := Saved(mode, q, h), BodyEnd(mode, Saved(mode, q, h), h.body);
    FrameBound(q);
    PrologueSaves(mode, q, h.save);
    OutsideKeepsLive(q.mem, s.mem, h.frame, live);
    BodyUnwinds(mode, s, h.body, live + FrameBytes(h.frame));
    FrameSurvives(s.mem, e.mem, h.frame, q.core);
    EpilogueRestores(mode, e, h.frame, q.core, h.restore);
  }

  lemma FrameBound(q: State)
    requires AtPrologue(q)
    ensures 72 <= q.core.r[13] <= MEM_SIZE
  {
  }

  lemma OutsideKeepsLive(m: Mem, m': Mem, f: nat, live: set<nat>)
    requires OutsideSame(m, m', f) && FrameBytes(f) !! live
    ensures KeepsLive(m, m', live)
  {
    forall a | a in live && a < 0x0400_0000 ensures m'[a] == m[a] {
      assert InFrame(f, a) ==> a in FrameBytes(f);
    }
  }

  /** The handler that only saves and restores: the epilogue stands right behind the prologue. */
  function Plain(q: State, save: Inputs, restore: Inputs, kret: Option<Byte>): Handler
    requires q.core.r[13] >= 72
  {
    Handler(q.core.r[13] - 72, save, Finished, restore, kret)
  }

  predicate AtPlainHandler(q: State) {
    && AtPrologue(q) && CodeAt(q.mem, q.core.r[15] + 92, Epilogue())
    && (q.core.r[15] + 184 <= q.core.r[13] - 72 || q.core.r[13] <= q.core.r[15])
  }

  lemma PlainSaved(mode: Mode, q: State, save: Inputs)
    requires AtPlainHandler(q) && |save| == 23
    ensures var s, f := Run(mode, q, save), q.core.r[13] - 72;
      FrameHolds(s.mem, f, q.core) && OutsideSame(q.mem, s.mem, f) && Moved(q.core, s.core) && AtEpilogue(s, f)
  {
    hide Run, Read32, FrameHolds, Prologue, Epilogue, OutsideSame;
    PrologueSaves(mode, q, save);
    CodeOutside(q.mem, Run(mode, q, save).mem, q.core.r[13] - 72, q.core.r[15] + 92, Epilogue());
  }

  /** A concrete disciplined handler: 46 instructions, entered with any registers, by any trap. */
  lemma PlainDisciplined(mode: Mode, q: State, h: Handler, live: set<nat>)
    requires AtPlainHandler(q) && h == Plain(q, h.save, h.restore, h.kret) && |h.save| == 23 && |h.restore| == 22
    requires FrameBytes(h.frame) !! live
    ensures Disciplined(mode, q, h, live)
  {
    hide Run, AtPlainHandler, AtEpilogue, AtPrologue, FrameBytes, OutsideSame, FrameHolds;
    PlainSaved(mode, q, h.save);
    assert AtPrologue(q) by { PlainAtPrologue(q); }
    StackHandlerDisciplined(mode, q, h, live);
  }

  lemma PlainAtPrologue(q: State)
    requires AtPlainHandler(q)
    ensures AtPrologue(q)
  {
  }

  /** What it leaves behind. */
  lemma PlainExit(mode: Mode, q: State, h: Handler)
    requires AtPlainHandler(q) && h == Plain(q, h.save, h.restore, h.kret) && |h.save| == 23 && |h.restore| == 22
    ensures var d := Exit(mode, q, h);
      && OutsideSame(q.mem, d.mem, h.frame) && Resumes(q.core, d.core)
      && d.core.satp < 0x8000_0000 && !d.core.halted
  {
    hide Run, Step, Read32, AtPlainHandler, AtEpilogue, FrameBytes, OutsideSame, FrameHolds, AtKret, Resumes;
    PlainDisciplined(mode, q, h, {});
    HandlerUnwinds(mode, q, h, {});
    PlainSaved(mode, q, h.save);
    var s := Run(mode, q, h.save);
    EpilogueRestores(mode, s, h.frame, q.core, h.restore);
    KretStep(mode, Restored(mode, q, h), h.kret);
    QuietAfterRestore(mode, s, h.frame, q.core, h.restore);
  }

  lemma QuietAfterRestore(mode: Mode, e: State, f: nat, c: Core, rxs: Inputs)
    requires AtEpilogue(e, f) && FrameHolds(e.mem, f, c) && |rxs| == 22
    ensures Quiet(Run(mode, e, rxs).core)
  {
    hide Run, Read32, CodeAt, Holds, FrameHolds;
    HoldsAll(e.mem, f, c);
    RegistersRestored(mode, e, f, c, rxs, 15);
    assert rxs[..22] == rxs;
  }

  /* ---- Nested ---- */

  function SyscallWord(): Word { Imm(0x10, 0, 0, 0) }

  /** A handler whose work is a system call to the plain handler at `b`: prologue, SYSCALL, epilogue. */
  predicate AtCallingHandler(q: State, b: Word) {
    var a, sp := q.core.r[15], q.core.r[13];
    && AtPrologue(q) && CodeAt(q.mem, a + 92, [SyscallWord()]) && CodeAt(q.mem, a + 96, Epilogue())
    && CodeAt(q.mem, b, Prologue()) && CodeAt(q.mem, b + 92, Epilogue())
    && Vector(q.mem, q.core.evec, 3) == b && 144 <= sp
    && Wrap(q.core.evec + 12) + 4 <= sp - 144 && a + 188 <= sp - 144 && b + 184 <= sp - 144
  }

  lemma SyscallStep(mode: Mode, s: State, rx: Option<Byte>)
    requires Quiet(s.core) && s.core.r[15] < MEM_SIZE && Read32(s.mem, s.core.r[15]) == SyscallWord()
    ensures var q := Step(mode, s, rx);
      && Enters(mode, s, rx) && q.mem == s.mem
      && q.core.r == s.core.r[15 := Vector(s.mem, s.core.evec, 3)]
      && Quiet(q.core) && q.core.evec == s.core.evec && q.core.epc == Wrap(s.core.r[15] + 4) && q.core.estatus == 1
  {
    hide Read32, Imm, Fetched, Tick, Poll, Vector, And, Opcode;
    var pc := s.core.r[15];
    var t := s.(core := SetReg(s.core.(faultingPc := pc), 15, Wrap(pc + 4)));
    BareFetch(mode, s);
    ImmFields(0x10, 0, 0, 0);
    assert Decode(t.core, pc, SyscallWord()) == Syscall;
    TickPollKeeps(Execute(mode, t, Syscall).core, rx);
  }

  lemma VectorKept(m: Mem, m': Mem, f: nat, evec: Word)
    requires OutsideSame(m, m', f) && Wrap(evec + 12) + 4 <= f
    ensures Vector(m', evec, 3) == Vector(m, evec, 3)
  {
  }

  /** The calling handler is disciplined too, two frames deep; by `Unwinding.EntryUnwinds` its own trap
      and the one it was entered by both unwind. */
  lemma CallingDisciplined(mode: Mode, q: State, b: Word, h: Handler, g: Handler, rx: Option<Byte>, live: set<nat>)
    requires AtCallingHandler(q, b) && |h.save| == |g.save| == 23 && |h.restore| == |g.restore| == 22
    requires h.frame == q.core.r[13] - 72 && g.frame == q.core.r[13] - 144 && g.body == Finished
    requires h.body == Trapped(rx, g, Finished)
    requires FrameBytes(h.frame) !! live && FrameBytes(g.frame) !! live
    ensures Disciplined(mode, q, h, live)
  {
    hide Run, Step, Read32, FrameHolds, Prologue, Epilogue, FrameBytes, OutsideSame, CodeAt, SyscallWord, Vector,
         Enters, Disciplined, Exit, Resumes;
    var s, f := Run(mode, q, h.save), h.frame;
    var a := q.core.r[15];
    PrologueSaves(mode, q, h.save);
    KeepCalling(q, s, b);
    CodeWord(s.mem, a + 92, SyscallWord());
    SyscallStep(mode, s, rx);
    var p := Step(mode, s, rx);
    assert AtPlainHandler(p);
    FramesApart(g.frame);
    PlainDisciplined(mode, p, g, live + FrameBytes(f));
    PlainExit(mode, p, g);
    var e := Exit(mode, p, g);
    ResumedCore(p.core, e.core);
    CodeOutside(p.mem, e.mem, g.frame, a + 96, Epilogue());
    assert AtEpilogue(e, f);
    assert KeepsLive(s.mem, p.mem, live + FrameBytes(f));
    StackHandlerDisciplined(mode, q, h, live);
  }

  lemma ResumedCore(q: Core, d: Core)
    requires Resumes(q, d)
    ensures d.r[13] == q.r[13] && d.r[15] == q.epc && d.status == q.estatus
  {
  }

  lemma FramesApart(g: nat)
    ensures FrameBytes(g) !! FrameBytes(g + 72)
  {
  }

  lemma CodeWord(m: Mem, a: nat, w: Word)
    requires CodeAt(m, a, [w])
    ensures Read32(m, a) == w && a + 4 <= MEM_SIZE
  {
    assert Read32(m, a + 4 * 0) == [w][0];
  }

  lemma KeepCalling(q: State, s: State, b: Word)
    requires AtCallingHandler(q, b) && OutsideSame(q.mem, s.mem, q.core.r[13] - 72)
    ensures CodeAt(s.mem, q.core.r[15] + 92, [SyscallWord()]) && CodeAt(s.mem, q.core.r[15] + 96, Epilogue())
    ensures CodeAt(s.mem, b, Prologue()) && CodeAt(s.mem, b + 92, Epilogue())
    ensures Vector(s.mem, q.core.evec, 3) == b
  {
    hide Read32, Prologue, Epilogue, OutsideSame, CodeAt, SyscallWord, Vector;
    var f, a := q.core.r[13] - 72, q.core.r[15];
    CodeOutside(q.mem, s.mem, f, a + 92, [SyscallWord()]);
    CodeOutside(q.mem, s.mem, f, a + 96, Epilogue());
    CodeOutside(q.mem, s.mem, f, b, Prologue());
    CodeOutside(q.mem, s.mem, f, b + 92, Epilogue());
    VectorKept(q.mem, s.mem, f, q.core.evec);
  }

  /* ---- A load that loses its destination ---- */

  /** The program `LW r1,[r2]` at 0x100, its bus-error vector at 8, and the plain handler at 0x1000. */
  function RomWord(k: nat): Word {
    if k == 2 then 0x1000
    else if k == 0x40 then LoadWord(1, 2, 0)
    else if 0x400 <= k < 0x417 then Prologue()[k - 0x400]
    else if 0x417 <= k < 0x42E then Epilogue()[k - 0x417]
    else 0
  }

  function Rom(): Mem {
    seq(0x0400_0000, a requires 0 <= a < 0x0400_0000 => Assembler.WordLe(RomWord(a / 4))[a % 4])
  }

  lemma RomByte(k: nat, i: nat)
    requires k < 0x100_0000 && i < 4
    ensures Rom()[4 * k + i] == Assembler.WordLe(RomWord(k))[i]
  {
    hide RomWord, Assembler.WordLe;
    DivUnique(4 * k + i, 4, k, i);
  }

  lemma RomReads(k: nat)
    requires k < 0x100_0000
    ensures Read32(Rom(), 4 * k) == RomWord(k)
  {
    hide RomWord, Rom;
    RomByte(k, 0);
    RomByte(k, 1);
    RomByte(k, 2);
    RomByte(k, 3);
    WordBytes(RomWord(k));
  }

  /** User mode, r1 = 7, r2 just past the end of memory, everything else off or 0. */
  function LosingState(tlb: Tlb): State {
    State(Core([0, 7, 0x0400_0000, 0, 0, 0, 0, 0, 0, 0, 0, 0, 0, 0x10_0000, 0, 0x100], 0,
               0, 0, 0, 0, 0, 0, 0, 0, false, 0, 0,
               Uart(0, false, 0, []), Timer(0, 0, 0), 0, 0, Blk(0, 0, 0, 0)), Rom(), tlb)
  }

  function LosingFetched(tlb: Tlb): State {
    var s := LosingState(tlb);
    s.(core := SetReg(s.core.(faultingPc := 0x100), 15, 0x104))
  }

  lemma LosingFetch(mode: Mode, tlb: Tlb)
    ensures Fetched(mode, LosingState(tlb)) == (LosingFetched(tlb), Some(LoadWord(1, 2, 0)))
    ensures Decode(LosingFetched(tlb).core, 0x100, LoadWord(1, 2, 0)) == LoadOp(1, 0x0400_0000, 4, false)
  {
    hide Read32, Fetched, Imm, Decode, RomWord, Rom;
    BareFetch(mode, LosingState(tlb));
    RomReads(0x40);
    LosingWords();
    DecodeImm(LosingFetched(tlb).core, 0x100, 0x0B, 1, 2, 0);
  }

  lemma LosingEffect(mode: Mode, tlb: Tlb)
    ensures var t := LosingFetched(tlb);
      var u := Execute(mode, t, LoadOp(1, 0x0400_0000, 4, false));
      && OpTraps(mode, t, LoadOp(1, 0x0400_0000, 4, false))
      && u.mem == Rom() && u.core.r == LosingState(tlb).core.r[15 := 0x1000][1 := 0] && Quiet(u.core)
  {
    hide Read32, HitTranslate, MissTranslate, FindLeaf, RomWord, Rom;
    RomReads(2);
    LosingWords();
    var t := LosingFetched(tlb);
    assert Vector(t.mem, 0, 2) == 0x1000;
    var u := Execute(mode, t, LoadOp(1, 0x0400_0000, 4, false));
    assert u == t.(core := SetReg(Raise(t.core, t.mem, 2), 1, 0));
  }

  lemma LosingTrap(mode: Mode, tlb: Tlb, rx: Option<Byte>)
    ensures var s := LosingState(tlb);
      var q := Step(mode, s, rx);
      && StepTraps(mode, s) && Enters(mode, s, rx) && Executed(mode, s).1 == LoadOp(1, 0x0400_0000, 4, false)
      && q.mem == Rom() && q.core.r == s.core.r[15 := 0x1000][1 := 0] && Quiet(q.core)
  {
    hide Step, Read32, Fetched, Decode, Execute, Tick, Poll, And, OpTraps, Rom, LoadWord, IrqDue;
    var s := LosingState(tlb);
    LosingFetch(mode, tlb);
    LosingEffect(mode, tlb);
    InterruptStep(mode, s, rx);
    TrapStep(mode, s, rx);
    StepHalts(mode, s, rx);
  }

  lemma StepHalts(mode: Mode, s: State, rx: Option<Byte>)
    ensures Step(mode, s, rx).core.halted == AfterInstruction(mode, s).core.halted
  {
    hide Fetched, Decode, Execute, Tick, Poll, Vector, IrqDue;
    TickPollKeeps(AfterInstruction(mode, s).core, rx);
  }

  lemma LosingWords()
    ensures RomWord(0x40) == LoadWord(1, 2, 0) && RomWord(2) == 0x1000
    ensures forall i :: 0 <= i < 23 ==> RomWord(0x400 + i) == Prologue()[i] && RomWord(0x417 + i) == Epilogue()[i]
  {
    hide Prologue, Epilogue, LoadWord;
  }

  lemma RomHandler(q: State)
    requires q.mem == Rom() && Quiet(q.core) && q.core.r[15] == 0x1000 && q.core.r[13] == 0x10_0000
    ensures AtPlainHandler(q)
  {
    hide Read32, Rom, RomWord, Prologue, Epilogue;
    LosingWords();
    forall i | 0 <= i < 23
      ensures Read32(q.mem, 0x1000 + 4 * i) == Prologue()[i] && Read32(q.mem, 0x105C + 4 * i) == Epilogue()[i]
    {
      RomReads(0x400 + i);
      RomReads(0x417 + i);
      assert 4 * (0x400 + i) == 0x1000 + 4 * i && 4 * (0x417 + i) == 0x105C + 4 * i;
    }
  }

  /** The failing case, run to its end: load, trap entry, the 46 instructions of the handler. The load is
      about to be executed again with everything as it was, but r1 is 0. */
  lemma LoadLosesRegister(mode: Mode, tlb: Tlb, rxs: Inputs)
    requires |rxs| == 47
    ensures var s := LosingState(tlb);
      var d := Run(mode, s, rxs).core;
      && s.core.r[1] == 7 && d.r[1] == 0 && (forall i :: 0 <= i < 16 && i != 1 ==> d.r[i] == s.core.r[i])
      && d.flags == s.core.flags && d.status == s.core.status
  {
    hide Run, Step, Rom, StepTraps, Enters, AtPlainHandler, Disciplined, KeepsLive, AllContinue, FrameBytes,
         Continues;
    var s := LosingState(tlb);
    LosingTrap(mode, tlb, rxs[0]);
    var q := Step(mode, s, rxs[0]);
    RomHandler(q);
    var h := Plain(q, rxs[1..24], rxs[24..46], rxs[46]);
    PlainDisciplined(mode, q, h, {});
    EntryUnwinds(mode, s, rxs[0], h, {});
    PlainSteps(h, rxs);
    LosingContinues(mode, tlb, Run(mode, s, rxs).core);
  }

  lemma LosingContinues(mode: Mode, tlb: Tlb, d: Core)
    requires var s := LosingState(tlb);
      StepTraps(mode, s) && Continues(mode, s, d) && Executed(mode, s).1 == LoadOp(1, 0x0400_0000, 4, false)
    ensures var s := LosingState(tlb);
      d.r == s.core.r[1 := 0] && d.flags == s.core.flags && d.status == s.core.status
  {
    hide Executed, AfterInstruction, StepTraps, Rom;
  }

  lemma PlainSteps(h: Handler, rxs: Inputs)
    requires |rxs| == 47 && h.save == rxs[1..24] && h.restore == rxs[24..46] && h.kret == rxs[46] && h.body == Finished
    ensures [rxs[0]] + Steps(h) == rxs
  {
  }
}
