/** Nested traps unwind. A handler saves r0-r14, EPC, EFLAGS and ESTATUS in a memory frame, does any work
    that leaves live frames alone, may itself be trapped to any depth, restores from its frame and executes
    KRET: the trapped code then continues where and as it was. Every state is reached by steps of the machine;
    a handler is described by the terminal input of its steps. */
module Unwinding {
  import opened Words
  import opened Memory
  import opened Mmu
  import opened Cpu
  import opened Privilege

  /** The terminal input of consecutive steps, one element a step. */
  type Inputs = seq<Option<Byte>>

  /** One handler activation: where its frame is, and its steps: saving, work, restoring, and the KRET. */
  datatype Handler = Handler(frame: nat, save: Inputs, body: Body, restore: Inputs, kret: Option<Byte>)

  /** Work of a handler: some steps, or a step that traps or is interrupted and the handler that takes over. */
  datatype Body =
    | Finished
    | Work(rxs: Inputs, rest: Body)
    | Trapped(rx: Option<Byte>, handler: Handler, rest: Body)

  /* ---- Where the steps lead ---- */

  function Saved(mode: Mode, q: State, h: Handler): State {
    Run(mode, q, h.save)
  }

  /** The state in which the handler entered in `q` executes its KRET. */
  function Restored(mode: Mode, q: State, h: Handler): State
    decreases h, 1
  {
    Run(mode, BodyEnd(mode, Saved(mode, q, h), h.body), h.restore)
  }

  /** The state after that KRET. */
  function Exit(mode: Mode, q: State, h: Handler): State
    decreases h, 2
  {
    Step(mode, Restored(mode, q, h), h.kret)
  }

  function BodyEnd(mode: Mode, s: State, b: Body): State
    decreases b, 0
  {
    match b
    case Finished => s
    case Work(rxs, rest) => BodyEnd(mode, Run(mode, s, rxs), rest)
    case Trapped(rx, h, rest) => BodyEnd(mode, Exit(mode, Step(mode, s, rx), h), rest)
  }

  /** All the steps in a row. */
  function Steps(h: Handler): Inputs
    decreases h, 1
  {
    h.save + BodySteps(h.body) + h.restore + [h.kret]
  }

  function BodySteps(b: Body): Inputs
    decreases b, 0
  {
    match b
    case Finished => []
    case Work(rxs, rest) => rxs + BodySteps(rest)
    case Trapped(rx, h, rest) => [rx] + Steps(h) + BodySteps(rest)
  }

  /* ---- The discipline ---- */

  predicate InFrame(f: nat, a: nat) {
    f <= a < f + 72
  }

  function FrameBytes(f: nat): set<nat> {
    set a: nat | f <= a < f + 72 && InFrame(f, a)
  }

  predicate KeepsLive(m: Mem, m': Mem, live: set<nat>) {
    forall a :: a in live && a < 0x0400_0000 ==> m'[a] == m[a]
  }

  /** The frame holds the registers and the saved supervisor state. */
  predicate FrameHolds(m: Mem, f: nat, c: Core) {
    && (forall i :: 0 <= i < 15 ==> Read32(m, f + 4 * i) == c.r[i])
    && Read32(m, f + 60) == c.epc && Read32(m, f + 64) == c.eflags && Read32(m, f + 68) == c.estatus
  }

  /** `s` is about to execute a KRET in supervisor mode. */
  predicate AtKret(mode: Mode, s: State) {
    var (t, w) := Fetched(mode, s);
    !s.core.halted && w.Some? && Opcode(w.value) == 0x3F && !s.core.User()
  }

  /** The next step enters a handler: its instruction traps, or an interrupt follows it. (CAS only where it
      does not write over what the entry has just saved.) */
  predicate Enters(mode: Mode, s: State, rx: Option<Byte>) {
    && !s.core.halted
    && (StepTraps(mode, s) ==> CleanStep(mode, s))
    && (StepTraps(mode, s) || StepInterrupted(mode, s, rx))
  }

  /** The handler entered in `q` follows the discipline; `live` is memory it must not disturb. */
  predicate Disciplined(mode: Mode, q: State, h: Handler, live: set<nat>)
    decreases h, 3
  {
    var s, e, p := Saved(mode, q, h), BodyEnd(mode, Saved(mode, q, h), h.body), Restored(mode, q, h);
    && h.frame + 72 <= MEM_SIZE && FrameBytes(h.frame) !! live
    && KeepsLive(q.mem, s.mem, live) && FrameHolds(s.mem, h.frame, q.core)
    && BodyDisciplined(mode, s, h.body, live + FrameBytes(h.frame))
    && KeepsLive(e.mem, p.mem, live) && FrameHolds(e.mem, h.frame, p.core)
    && AtKret(mode, p)
  }

  predicate BodyDisciplined(mode: Mode, s: State, b: Body, live: set<nat>)
    decreases b, 0
  {
    match b
    case Finished => true
    case Work(rxs, rest) =>
      KeepsLive(s.mem, Run(mode, s, rxs).mem, live) && BodyDisciplined(mode, Run(mode, s, rxs), rest, live)
    case Trapped(rx, h, rest) =>
      var q := Step(mode, s, rx);
      && Enters(mode, s, rx) && KeepsLive(s.mem, q.mem, live)
      && Disciplined(mode, q, h, live)
      && BodyDisciplined(mode, Exit(mode, q, h), rest, live)
  }

  /* ---- What the trapped code gets back ---- */

  /** Code was taken out of state `s` by the next step and goes on as `d`. After a trap it has the registers,
      flags and STATUS it had, but for the register a trapped load or CAS clears, and is at the instruction
      that trapped, or behind a SYSCALL. After an interrupt it is in the state its last instruction left. */
  predicate Continues(mode: Mode, s: State, d: Core) {
    var (t, op) := Executed(mode, s);
    var u := AfterInstruction(mode, s).core;
    if StepTraps(mode, s) then
      && (forall i :: 0 <= i < 15 ==> d.r[i] == if Cleared(t.core, op) == Some(i) then 0 else s.core.r[i])
      && d.r[15] == (if op.Syscall? then Wrap(s.core.r[15] + 4) else s.core.r[15])
      && d.flags == s.core.flags && d.status == s.core.status
    else
      d.r == u.r && d.flags == u.flags && d.status == u.status
  }

  /** Wherever a handler of this activation was itself taken out, it went on as it was. */
  predicate AllContinue(mode: Mode, q: State, h: Handler)
    decreases h, 3
  {
    BodyContinues(mode, Saved(mode, q, h), h.body)
  }

  predicate BodyContinues(mode: Mode, s: State, b: Body)
    decreases b, 0
  {
    match b
    case Finished => true
    case Work(rxs, rest) => BodyContinues(mode, Run(mode, s, rxs), rest)
    case Trapped(rx, h, rest) =>
      var q := Step(mode, s, rx);
      && Continues(mode, s, Exit(mode, q, h).core)
      && AllContinue(mode, q, h)
      && BodyContinues(mode, Exit(mode, q, h), rest)
  }

  /** What the handler gives back to the code it was entered from. */
  predicate Resumes(q: Core, d: Core) {
    && (forall i :: 0 <= i < 15 ==> d.r[i] == q.r[i])
    && d.r[15] == q.epc && d.flags == q.eflags && d.status == q.estatus
  }

  /** A supervisor KRET restores PC, flags and STATUS, takes no interrupt and leaves memory alone. */
  lemma KretStep(mode: Mode, s: State, rx: Option<Byte>)
    requires AtKret(mode, s)
    ensures var d := Step(mode, s, rx).core;
      && (forall i :: 0 <= i < 15 ==> d.r[i] == s.core.r[i])
      && d.r[15] == s.core.epc && d.flags == s.core.eflags && d.status == s.core.estatus
      && d.evec == s.core.evec && d.satp == s.core.satp && !d.halted
    ensures Step(mode, s, rx).mem == s.mem
  {
    hide Fetched, Tick, Poll, Opcode;
    var (t, w) := Fetched(mode, s);
    FetchOutcome(mode, s);
    DecodeKret(t.core, s.core.r[15], w.value);
    TickPollKeeps(Execute(mode, t, Kret).core, rx);
  }

  lemma DecodeKret(c: Core, pc: Word, w: Word)
    requires Opcode(w) == 0x3F
    ensures Decode(c, pc, w) == Kret
  {
    hide Opcode;
  }

  lemma FrameSurvives(m: Mem, m': Mem, f: nat, c: Core)
    requires f + 72 <= MEM_SIZE && KeepsLive(m, m', FrameBytes(f)) && FrameHolds(m, f, c)
    ensures FrameHolds(m', f, c)
  {
    forall i | 0 <= i < 18 ensures Read32(m', f + 4 * i) == Read32(m, f + 4 * i) {
      WordSurvives(m, m', f, f + 4 * i);
    }
    assert f + 60 == f + 4 * 15 && f + 64 == f + 4 * 16 && f + 68 == f + 4 * 17;
  }

  lemma WordSurvives(m: Mem, m': Mem, f: nat, a: nat)
    requires f + 72 <= MEM_SIZE && KeepsLive(m, m', FrameBytes(f)) && f <= a <= f + 68
    ensures Read32(m', a) == Read32(m, a)
  {
    assert a in FrameBytes(f) && a + 1 in FrameBytes(f) && a + 2 in FrameBytes(f) && a + 3 in FrameBytes(f);
  }

  /** Two cores saved in equal frames agree on everything the frame holds. */
  lemma FramesAgree(m: Mem, f: nat, c: Core, d: Core)
    requires FrameHolds(m, f, c) && FrameHolds(m, f, d)
    ensures forall i :: 0 <= i < 15 ==> d.r[i] == c.r[i]
    ensures d.epc == c.epc && d.eflags == c.eflags && d.estatus == c.estatus
  {
    hide Read32;
    forall i | 0 <= i < 15 ensures d.r[i] == c.r[i] {
      assert Read32(m, f + 4 * i) == c.r[i];
    }
  }

  /** An entry followed by a handler that gives back what it was entered with. */
  lemma EntryContinues(mode: Mode, s: State, rx: Option<Byte>, d: Core)
    requires Enters(mode, s, rx) && Resumes(Step(mode, s, rx).core, d)
    ensures Continues(mode, s, d)
  {
    hide Fetched, Decode, Execute, Step, Vector, StepInterrupted, CasOverwrites, OpTraps;
    if StepTraps(mode, s) {
      FetchOutcome(mode, s);
      TrapStep(mode, s, rx);
    } else {
      InterruptStep(mode, s, rx);
    }
  }

  /** Main result, to any depth: the handler gives its caller back what it was entered with, every handler it
      was itself taken out of went on as it was, and no live memory is disturbed. */
  lemma {:induction false} HandlerUnwinds(mode: Mode, q: State, h: Handler, live: set<nat>)
    requires Disciplined(mode, q, h, live)
    ensures Resumes(q.core, Exit(mode, q, h).core)
    ensures AllContinue(mode, q, h)
    ensures KeepsLive(q.mem, Exit(mode, q, h).mem, live)
    decreases h, 1
  {
    hide Read32, Step, Run, FrameHolds, AtKret, FrameBytes, BodyEnd, BodyContinues;
    var inner := live + FrameBytes(h.frame);
    var s, e, p := Saved(mode, q, h), BodyEnd(mode, Saved(mode, q, h), h.body), Restored(mode, q, h);
    BodyUnwinds(mode, s, h.body, inner);
    FrameSurvives(s.mem, e.mem, h.frame, q.core);
    FramesAgree(e.mem, h.frame, q.core, p.core);
    KretStep(mode, p, h.kret);
  }

  lemma {:induction false} BodyUnwinds(mode: Mode, s: State, b: Body, live: set<nat>)
    requires BodyDisciplined(mode, s, b, live)
    ensures BodyContinues(mode, s, b)
    ensures KeepsLive(s.mem, BodyEnd(mode, s, b).mem, live)
    decreases b, 0
  {
    hide Step, Run, Continues, Enters;
    match b
    case Finished =>
    case Work(rxs, rest) => BodyUnwinds(mode, Run(mode, s, rxs), rest, live);
    case Trapped(rx, h, rest) =>
      var q := Step(mode, s, rx);
      HandlerUnwinds(mode, q, h, live);
      EntryContinues(mode, s, rx, Exit(mode, q, h).core);
      BodyUnwinds(mode, Exit(mode, q, h), rest, live);
  }

  /* ---- It is all one run of the machine ---- */

  lemma {:induction false} RunAppend(mode: Mode, s: State, a: Inputs, b: Inputs)
    ensures Run(mode, s, a + b) == Run(mode, Run(mode, s, a), b)
    decreases |a|
  {
    hide Step;
    if s.core.halted {
    } else if a == [] {
      assert a + b == b;
    } else {
      assert (a + b)[1..] == a[1..] + b;
      RunAppend(mode, Step(mode, s, a[0]), a[1..], b);
    }
  }

  lemma {:induction false} HandlerIsRun(mode: Mode, q: State, h: Handler, live: set<nat>)
    requires Disciplined(mode, q, h, live)
    ensures Run(mode, q, Steps(h)) == Exit(mode, q, h)
    decreases h, 1
  {
    hide Step, Run, FrameHolds, KeepsLive, Fetched;
    var s := Saved(mode, q, h);
    BodyIsRun(mode, s, h.body, live + FrameBytes(h.frame));
    RunAppend(mode, q, h.save, BodySteps(h.body));
    RunAppend(mode, q, h.save + BodySteps(h.body), h.restore);
    RunAppend(mode, q, h.save + BodySteps(h.body) + h.restore, [h.kret]);
    OneStep(mode, Restored(mode, q, h), h.kret);
  }

  lemma OneStep(mode: Mode, s: State, rx: Option<Byte>)
    requires !s.core.halted
    ensures Run(mode, s, [rx]) == Step(mode, s, rx)
  {
    hide Step;
    assert [rx][1..] == [];
  }

  lemma {:induction false} BodyIsRun(mode: Mode, s: State, b: Body, live: set<nat>)
    requires BodyDisciplined(mode, s, b, live)
    ensures Run(mode, s, BodySteps(b)) == BodyEnd(mode, s, b)
    decreases b, 0
  {
    hide Step, Run, KeepsLive, StepTraps, CleanStep, StepInterrupted;
    match b
    case Finished => NoStep(mode, s);
    case Work(rxs, rest) =>
      RunAppend(mode, s, rxs, BodySteps(rest));
      BodyIsRun(mode, Run(mode, s, rxs), rest, live);
    case Trapped(rx, h, rest) =>
      var q := Step(mode, s, rx);
      OneStep(mode, s, rx);
      HandlerIsRun(mode, q, h, live);
      RunAppend(mode, s, [rx], Steps(h));
      RunAppend(mode, s, [rx] + Steps(h), BodySteps(rest));
      BodyIsRun(mode, Exit(mode, q, h), rest, live);
  }

  lemma NoStep(mode: Mode, s: State)
    ensures Run(mode, s, []) == s
  {
  }

  /** Main result for the machine: from a step that is trapped or interrupted, run the handler's steps, and
      the code continues; it disturbs no live memory after that step. */
  lemma EntryUnwinds(mode: Mode, s: State, rx: Option<Byte>, h: Handler, live: set<nat>)
    requires Enters(mode, s, rx) && Disciplined(mode, Step(mode, s, rx), h, live)
    ensures var d := Run(mode, s, [rx] + Steps(h));
      && Continues(mode, s, d.core) && AllContinue(mode, Step(mode, s, rx), h)
      && KeepsLive(Step(mode, s, rx).mem, d.mem, live)
  {
    hide Step, Disciplined, Continues, AllContinue, StepTraps, StepInterrupted, CleanStep, Steps, KeepsLive, Resumes;
    var q := Step(mode, s, rx);
    HandlerUnwinds(mode, q, h, live);
    EntryContinues(mode, s, rx, Exit(mode, q, h).core);
    HandlerIsRun(mode, q, h, live);
    assert ([rx] + Steps(h))[1..] == Steps(h);
  }

  /* ---- When that is exactly as it was ---- */

  /** `d` has all of r0-r14, the flags and the STATUS of `c`, and is at `pc`. */
  predicate AsItWas(c: Core, d: Core, pc: Word) {
    && (forall i :: 0 <= i < 15 ==> d.r[i] == c.r[i])
    && d.r[15] == pc && d.flags == c.flags && d.status == c.status
  }

  /** After a trap and its handler the code is as it was, at the instruction that trapped or behind a SYSCALL,
      exactly unless the instruction was a load, or a CAS whose device read trapped, with a destination other
      than PC that did not hold 0: that register is 0 then. */
  lemma FaultUnwinds(mode: Mode, s: State, rx: Option<Byte>, h: Handler, live: set<nat>)
    requires StepTraps(mode, s) && Enters(mode, s, rx) && Disciplined(mode, Step(mode, s, rx), h, live)
    ensures var (t, op) := Executed(mode, s);
      var d := Exit(mode, Step(mode, s, rx), h).core;
      var pc := if op.Syscall? then Wrap(s.core.r[15] + 4) else s.core.r[15];
      && (AsItWas(s.core, d, pc) <==>
            match Cleared(t.core, op) case Some(rd) => rd == 15 || s.core.r[rd] == 0 case None => true)
      && (op.LoadOp? ==> (AsItWas(s.core, d, pc) <==> op.rd == 15 || s.core.r[op.rd] == 0))
  {
    hide Fetched, Decode, Step, Disciplined, Exit, OpTraps, StepTraps, CleanStep;
    HandlerUnwinds(mode, Step(mode, s, rx), h, live);
    EntryContinues(mode, s, rx, Exit(mode, Step(mode, s, rx), h).core);
  }

  /** An interrupt: the code continues with the next instruction, in the state the last one left. */
  lemma InterruptUnwinds(mode: Mode, s: State, rx: Option<Byte>, h: Handler, live: set<nat>)
    requires !StepTraps(mode, s) && Enters(mode, s, rx) && Disciplined(mode, Step(mode, s, rx), h, live)
    ensures var u, d := AfterInstruction(mode, s).core, Exit(mode, Step(mode, s, rx), h).core;
      d.r == u.r && d.flags == u.flags && d.status == u.status
  {
    hide Step, Disciplined, AfterInstruction, StepTraps, CleanStep, Exit;
    HandlerUnwinds(mode, Step(mode, s, rx), h, live);
    EntryContinues(mode, s, rx, Exit(mode, Step(mode, s, rx), h).core);
  }
}
