/** Multi-word arithmetic with ADD/ADDC and SUB/SUBC, and what the branches decide after it. */
module MultiWord {
  import opened Words
  import opened Cpu
  import opened Privilege
  import opened Unwinding

  /** Little-endian multi-word numbers, unsigned and two's complement. */
  function Value(ws: seq<Word>): nat {
    if ws == [] then 0 else ws[0] + 0x1_0000_0000 * Value(ws[1..])
  }

  function SignedValue(ws: seq<Word>): int
    requires ws != []
  {
    if |ws| == 1 then Signed(ws[0]) else ws[0] + 0x1_0000_0000 * SignedValue(ws[1..])
  }

  /** B^n, the number of n-word values. */
  function Span(n: nat): nat {
    if n == 0 then 1 else 0x1_0000_0000 * Span(n - 1)
  }

  /** Half of B^n: signed n-word numbers lie in [-Half, Half). */
  function Half(n: nat): nat
    requires n >= 1
  {
    if n == 1 then 0x8000_0000 else 0x1_0000_0000 * Half(n - 1)
  }

  /** The weight of the final carry or borrow. */
  function CarryOut(f: Word, n: nat): nat {
    if FlagC(f) then Span(n) else 0
  }

  predicate Fits(v: int, n: nat)
    requires n >= 1
  {
    0 <= v + Half(n) && v < Half(n)
  }

  datatype Chain = Chain(words: seq<Word>, flags: Word)

  /** The low word added with the given carry, every further word with ADDC. */
  function AddChain(a: seq<Word>, b: seq<Word>, carry: bool, f: Word): (c: Chain)
    requires |a| == |b|
    ensures |c.words| == |a|
  {
    if a == [] then Chain([], f) else
    var lo := AddOp(a[0], b[0], carry, f);
    var hi := AddChain(a[1..], b[1..], FlagC(lo.flags), lo.flags);
    Chain([lo.value] + hi.words, hi.flags)
  }

  function SubChain(a: seq<Word>, b: seq<Word>, borrow: bool, f: Word): (c: Chain)
    requires |a| == |b|
    ensures |c.words| == |a|
  {
    if a == [] then Chain([], f) else
    var lo := SubOp(a[0], b[0], borrow, f);
    var hi := SubChain(a[1..], b[1..], FlagC(lo.flags), lo.flags);
    Chain([lo.value] + hi.words, hi.flags)
  }

  lemma FlagsRead(f: Word, r: Word, c: bool, v: bool)
    ensures var g := Flags(f, r, c, v);
      FlagN(g) == Neg(r) && FlagZ(g) == (r == 0) && FlagC(g) == c && FlagV(g) == v
  {
    var n, z, low := One(Neg(r)), One(r == 0), f % 0x1000_0000;
    var g := Flags(f, r, c, v);
    DivUnique(g, 0x1000_0000, 8 * n + 4 * z + 2 * One(c) + One(v), low);
    DivUnique(g, 0x2000_0000, 4 * n + 2 * z + One(c), 0x1000_0000 * One(v) + low);
    DivUnique(g, 0x4000_0000, 2 * n + z, 0x2000_0000 * One(c) + 0x1000_0000 * One(v) + low);
    DivUnique(8 * n + 4 * z + 2 * One(c) + One(v), 2, 4 * n + 2 * z + One(c), One(v));
    DivUnique(4 * n + 2 * z + One(c), 2, 2 * n + z, One(c));
    DivUnique(2 * n + z, 2, n, z);
  }

  /** One word: the result with its carry is the exact sum; V says when the signed sum does not fit. */
  lemma AddOneWord(a: Word, b: Word, carry: bool, f: Word)
    ensures var r := AddOp(a, b, carry, f);
      && r.value + One(FlagC(r.flags)) * 0x1_0000_0000 == a + b + One(carry)
      && (FlagV(r.flags) <==> !Fits(Signed(a) + Signed(b) + One(carry), 1))
      && (FlagN(r.flags) != FlagV(r.flags) <==> Signed(a) + Signed(b) + One(carry) < 0)
  {
    hide Flags;
    var s := a + b + One(carry);
    var r := Wrap(s);
    FlagsRead(f, r, s > 0xFFFF_FFFF, Neg(a) == Neg(b) && Neg(r) != Neg(a));
    if s >= 0x1_0000_0000 {
      DivUnique(s, 0x1_0000_0000, 1, s - 0x1_0000_0000);
    } else {
      DivUnique(s, 0x1_0000_0000, 0, s);
    }
  }

  lemma SubOneWord(a: Word, b: Word, borrow: bool, f: Word)
    ensures var r := SubOp(a, b, borrow, f);
      && r.value - One(FlagC(r.flags)) * 0x1_0000_0000 == a - b - One(borrow)
      && (FlagV(r.flags) <==> !Fits(Signed(a) - Signed(b) - One(borrow), 1))
      && (FlagN(r.flags) != FlagV(r.flags) <==> Signed(a) - Signed(b) - One(borrow) < 0)
      && (!borrow ==> (FlagZ(r.flags) <==> a == b))
  {
    hide Flags;
    var d := a - b - One(borrow);
    var r := Wrap(d);
    FlagsRead(f, r, b + One(borrow) > a, Neg(a) != Neg(b) && Neg(r) != Neg(a));
    if d < 0 {
      assert d % 0x1_0000_0000 == d + 0x1_0000_0000;
    } else {
      DivUnique(d, 0x1_0000_0000, 0, d);
    }
  }

  /** The lowest word and the rest. */
  lemma ValueSplit(ws: seq<Word>)
    requires ws != []
    ensures Value(ws) == ws[0] + 0x1_0000_0000 * Value(ws[1..])
    ensures SignedValue(ws) == if |ws| == 1 then Signed(ws[0]) else ws[0] + 0x1_0000_0000 * SignedValue(ws[1..])
  {
  }

  lemma CarryNext(f: Word, n: nat)
    ensures CarryOut(f, 0) == One(FlagC(f)) && CarryOut(f, n + 1) == 0x1_0000_0000 * CarryOut(f, n)
  {
  }

  lemma AddChainSplit(a: seq<Word>, b: seq<Word>, carry: bool, f: Word)
    requires |a| == |b| >= 1
    ensures var lo, c := AddOp(a[0], b[0], carry, f), AddChain(a, b, carry, f);
      var hi := AddChain(a[1..], b[1..], FlagC(lo.flags), lo.flags);
      && c.words[0] == lo.value && c.words[1..] == hi.words && c.flags == hi.flags
      && (|a| == 1 ==> hi == Chain([], lo.flags) && Value(hi.words) == 0)
      && (|a| == 1 ==> Value(a[1..]) == 0 && Value(b[1..]) == 0)
  {
    hide AddOp, FlagC;
  }

  /** ADD then ADDC over n words: the exact 32n-bit sum, with the final carry and signed overflow. */
  lemma {:induction false} AddChainIsSum(a: seq<Word>, b: seq<Word>, carry: bool, f: Word)
    requires |a| == |b| >= 1
    ensures var c := AddChain(a, b, carry, f);
      && Value(c.words) + CarryOut(c.flags, |a|) == Value(a) + Value(b) + One(carry)
      && (FlagV(c.flags) <==> !Fits(SignedValue(a) + SignedValue(b) + One(carry), |a|))
      && (FlagN(c.flags) != FlagV(c.flags) <==> SignedValue(a) + SignedValue(b) + One(carry) < 0)
    decreases |a|
  {
    hide AddOp, AddChain, FlagC, FlagN, FlagV, FlagZ, Signed, Value, SignedValue, CarryOut, Fits;
    AddOneWord(a[0], b[0], carry, f);
    AddChainSplit(a, b, carry, f);
    ValueSplit(a);
    ValueSplit(b);
    ValueSplit(AddChain(a, b, carry, f).words);
    var lo := AddOp(a[0], b[0], carry, f);
    CarryNext(AddChain(a, b, carry, f).flags, |a| - 1);
    if |a| == 1 {
    } else {
      AddChainIsSum(a[1..], b[1..], FlagC(lo.flags), lo.flags);
      FitsStep(lo.value, SignedValue(a[1..]) + SignedValue(b[1..]) + One(FlagC(lo.flags)), |a|);
    }
  }

  lemma SubChainSplit(a: seq<Word>, b: seq<Word>, borrow: bool, f: Word)
    requires |a| == |b| >= 1
    ensures var lo, c := SubOp(a[0], b[0], borrow, f), SubChain(a, b, borrow, f);
      var hi := SubChain(a[1..], b[1..], FlagC(lo.flags), lo.flags);
      && c.words[0] == lo.value && c.words[1..] == hi.words && c.flags == hi.flags
      && (|a| == 1 ==> hi == Chain([], lo.flags) && Value(hi.words) == 0)
      && (|a| == 1 ==> Value(a[1..]) == 0 && Value(b[1..]) == 0)
  {
    hide SubOp, FlagC;
  }

  /** SUB then SUBC: the exact difference, its borrow, its signed overflow, and its sign. */
  lemma {:induction false} SubChainIsDifference(a: seq<Word>, b: seq<Word>, borrow: bool, f: Word)
    requires |a| == |b| >= 1
    ensures var c := SubChain(a, b, borrow, f);
      && Value(c.words) - CarryOut(c.flags, |a|) == Value(a) - Value(b) - One(borrow)
      && (FlagV(c.flags) <==> !Fits(SignedValue(a) - SignedValue(b) - One(borrow), |a|))
      && (FlagN(c.flags) != FlagV(c.flags) <==> SignedValue(a) - SignedValue(b) - One(borrow) < 0)
    decreases |a|
  {
    hide SubOp, SubChain, FlagC, FlagN, FlagV, FlagZ, Signed, Value, SignedValue, CarryOut, Fits;
    SubOneWord(a[0], b[0], borrow, f);
    SubChainSplit(a, b, borrow, f);
    ValueSplit(a);
    ValueSplit(b);
    ValueSplit(SubChain(a, b, borrow, f).words);
    var lo := SubOp(a[0], b[0], borrow, f);
    CarryNext(SubChain(a, b, borrow, f).flags, |a| - 1);
    if |a| == 1 {
    } else {
      SubChainIsDifference(a[1..], b[1..], FlagC(lo.flags), lo.flags);
      FitsStep(lo.value, SignedValue(a[1..]) - SignedValue(b[1..]) - One(FlagC(lo.flags)), |a|);
    }
  }

  lemma FitsStep(low: Word, high: int, n: nat)
    requires n >= 2
    ensures Fits(low + 0x1_0000_0000 * high, n) <==> Fits(high, n - 1)
    ensures low + 0x1_0000_0000 * high < 0 <==> high < 0
  {
  }

  lemma {:induction false} ValueBound(ws: seq<Word>)
    ensures Value(ws) < Span(|ws|)
  {
    if ws == [] {
    } else {
      ValueBound(ws[1..]);
    }
  }

  /** After an n-word subtraction BLTU/BGEU and BLT/BGE decide the n-word comparisons, overflow or not. */
  lemma BranchesDecideOrder(a: seq<Word>, b: seq<Word>, f: Word)
    requires |a| == |b| >= 1
    ensures var g := SubChain(a, b, false, f).flags;
      && (Taken(4, g) <==> Value(a) < Value(b)) && (Taken(5, g) <==> Value(a) >= Value(b))
      && (Taken(2, g) <==> SignedValue(a) < SignedValue(b)) && (Taken(3, g) <==> SignedValue(a) >= SignedValue(b))
  {
    hide FlagC, FlagN, FlagV, FlagZ;
    SubChainIsDifference(a, b, false, f);
    var c := SubChain(a, b, false, f);
    ValueBound(a);
    ValueBound(b);
    ValueBound(c.words);
  }

  /* ---- The instructions themselves ---- */

  function PerformOne(c: Core, w: Word): Core {
    var op := Decode(c, 0, w);
    if op.Put? then SetReg(c, op.rd, op.value).(flags := op.flags) else c
  }

  /** Execute register-to-register instructions one after another. */
  function Perform(c: Core, ws: seq<Word>): Core
    decreases |ws|
  {
    if ws == [] then c else Perform(PerformOne(c, ws[0]), ws[1..])
  }

  lemma PerformNext(c: Core, ws: seq<Word>)
    requires ws != []
    ensures Perform(c, ws) == Perform(PerformOne(c, ws[0]), ws[1..])
  {
    hide PerformOne;
  }

  lemma PerformNothing(c: Core)
    ensures Perform(c, []) == c
  {
  }

  function Operands(r: Regs, ws: seq<Word>, second: bool): (v: seq<Word>)
    ensures |v| == |ws|
  {
    seq(|ws|, i requires 0 <= i < |ws| => r[if second then Rs2(ws[i]) else Rs1(ws[i])])
  }

  /** `first` (ADD or SUB) for the low word, then `next` (ADDC or SUBC); no instruction overwrites an
      operand or a result that is still needed. */
  predicate Sequence(ws: seq<Word>, first: int, next: int) {
    && ws != [] && Opcode(ws[0]) == first
    && (forall i :: 1 <= i < |ws| ==> Opcode(ws[i]) == next)
    && (forall i, j :: 0 <= i < j < |ws| ==>
          Rd(ws[i]) != Rd(ws[j]) && Rd(ws[i]) != Rs1(ws[j]) && Rd(ws[i]) != Rs2(ws[j]))
  }

  lemma DecodeArithmetic(c: Core, pc: Word, w: Word)
    ensures var a, b, f := c.r[Rs1(w)], c.r[Rs2(w)], c.flags;
      && (Opcode(w) in {0x00, 0x2B} ==>
            Decode(c, pc, w) == PutResult(Rd(w), AddOp(a, b, Opcode(w) == 0x2B && FlagC(f), f)))
      && (Opcode(w) in {0x01, 0x2C} ==>
            Decode(c, pc, w) == PutResult(Rd(w), SubOp(a, b, Opcode(w) == 0x2C && FlagC(f), f)))
  {
    hide AddOp, SubOp, FlagC, Rs1, Rs2, Rd, Opcode, Shift, Imm16, Simm, Soff;
  }

  /** Running ADD, ADDC, ADDC, ... leaves the chain's words in the destination registers. */
  lemma {:induction false} AddSequenceRuns(c: Core, ws: seq<Word>, first: int)
    requires Sequence(ws, first, 0x2B) && first in {0x00, 0x2B}
    ensures var carry := first == 0x2B && FlagC(c.flags);
      var sum := AddChain(Operands(c.r, ws, false), Operands(c.r, ws, true), carry, c.flags);
      var d := Perform(c, ws);
      && d.flags == sum.flags
      && (forall i :: 0 <= i < |ws| ==> d.r[Rd(ws[i])] == sum.words[i])
      && (forall k: Reg :: (forall i :: 0 <= i < |ws| ==> Rd(ws[i]) != k) ==> d.r[k] == c.r[k])
    decreases |ws|
  {
    hide AddOp, AddChain, FlagC, Rs1, Rs2, Rd, Opcode, Decode, Perform, Value;
    DecodeArithmetic(c, 0, ws[0]);
    PerformNext(c, ws);
    var carry := first == 0x2B && FlagC(c.flags);
    var lo := AddOp(c.r[Rs1(ws[0])], c.r[Rs2(ws[0])], carry, c.flags);
    AddChainSplit(Operands(c.r, ws, false), Operands(c.r, ws, true), carry, c.flags);
    var c1 := SetReg(c, Rd(ws[0]), lo.value).(flags := lo.flags);
    var rest := ws[1..];
    assert Operands(c.r, ws, false)[1..] == Operands(c1.r, rest, false);
    assert Operands(c.r, ws, true)[1..] == Operands(c1.r, rest, true);
    if rest == [] {
      PerformNothing(c1);
    } else {
      AddSequenceRuns(c1, rest, 0x2B);
      assert forall i :: 0 <= i < |rest| ==> rest[i] == ws[i + 1];
    }
  }

  lemma {:induction false} SubSequenceRuns(c: Core, ws: seq<Word>, first: int)
    requires Sequence(ws, first, 0x2C) && first in {0x01, 0x2C}
    ensures var borrow := first == 0x2C && FlagC(c.flags);
      var diff := SubChain(Operands(c.r, ws, false), Operands(c.r, ws, true), borrow, c.flags);
      var d := Perform(c, ws);
      && d.flags == diff.flags
      && (forall i :: 0 <= i < |ws| ==> d.r[Rd(ws[i])] == diff.words[i])
      && (forall k: Reg :: (forall i :: 0 <= i < |ws| ==> Rd(ws[i]) != k) ==> d.r[k] == c.r[k])
    decreases |ws|
  {
    hide SubOp, SubChain, FlagC, Rs1, Rs2, Rd, Opcode, Decode, Perform, Value;
    DecodeArithmetic(c, 0, ws[0]);
    PerformNext(c, ws);
    var borrow := first == 0x2C && FlagC(c.flags);
    var lo := SubOp(c.r[Rs1(ws[0])], c.r[Rs2(ws[0])], borrow, c.flags);
    SubChainSplit(Operands(c.r, ws, false), Operands(c.r, ws, true), borrow, c.flags);
    var c1 := SetReg(c, Rd(ws[0]), lo.value).(flags := lo.flags);
    var rest := ws[1..];
    assert Operands(c.r, ws, false)[1..] == Operands(c1.r, rest, false);
    assert Operands(c.r, ws, true)[1..] == Operands(c1.r, rest, true);
    if rest == [] {
      PerformNothing(c1);
    } else {
      SubSequenceRuns(c1, rest, 0x2C);
      assert forall i :: 0 <= i < |rest| ==> rest[i] == ws[i + 1];
    }
  }

  /* ---- On the machine, interrupts in between ---- */

  /** One instruction of the sequence: a step, and the handler of the interrupt that follows it, if one does. */
  datatype Pace = Plain(rx: Option<Byte>) | WithInterrupt(rx: Option<Byte>, handler: Handler)

  function AfterPace(mode: Mode, s: State, p: Pace): State {
    match p
    case Plain(rx) => Step(mode, s, rx)
    case WithInterrupt(rx, h) => Exit(mode, Step(mode, s, rx), h)
  }

  function AfterPaces(mode: Mode, s: State, ps: seq<Pace>): State
    decreases |ps|
  {
    if ps == [] then s else AfterPaces(mode, AfterPace(mode, s, ps[0]), ps[1..])
  }

  /** No interrupt follows the instruction, or one whose handler keeps the discipline. */
  predicate PaceOk(mode: Mode, s: State, p: Pace) {
    match p
    case Plain(rx) => !StepInterrupted(mode, s, rx)
    case WithInterrupt(rx, h) => Enters(mode, s, rx) && Unwinding.Disciplined(mode, Step(mode, s, rx), h, {})
  }

  /** The machine fetches the words of the sequence one after the other. */
  predicate Executes(mode: Mode, s: State, ws: seq<Word>, ps: seq<Pace>)
    decreases |ws|
  {
    |ps| == |ws| && (ws != [] ==>
      && Fetched(mode, s).1 == Some(ws[0]) && PaceOk(mode, s, ps[0])
      && Executes(mode, AfterPace(mode, s, ps[0]), ws[1..], ps[1..]))
  }

  /** An addition or subtraction that neither reads nor writes PC. */
  predicate Arithmetic(w: Word) {
    Opcode(w) in {0x00, 0x01, 0x2B, 0x2C} && Rd(w) != 15 && Rs1(w) != 15 && Rs2(w) != 15
  }

  /** Equal but for PC. */
  predicate Agree(c: Core, d: Core) {
    (forall k :: 0 <= k < 15 ==> d.r[k] == c.r[k]) && d.flags == c.flags
  }

  /** Fetching and executing the word does to registers and flags what `PerformOne` does. */
  lemma MachineOne(mode: Mode, s: State, w: Word, c: Core)
    requires Fetched(mode, s).1 == Some(w) && Arithmetic(w) && Agree(c, s.core)
    ensures var u := AfterInstruction(mode, s).core;
      Agree(PerformOne(c, w), u) && u.r[15] == Wrap(s.core.r[15] + 4) && u.status == s.core.status
          && !StepTraps(mode, s)
    ensures AfterInstruction(mode, s).mem == s.mem
  {
    hide AddOp, SubOp, FlagC, Rs1, Rs2, Rd, Opcode, Decode, Fetched;
    FetchOutcome(mode, s);
    var t := Fetched(mode, s).0;
    DecodeArithmetic(t.core, s.core.r[15], w);
    DecodeArithmetic(c, 0, w);
  }

  /** ... and so does the step with the interrupt that may follow. */
  lemma PaceOne(mode: Mode, s: State, w: Word, p: Pace, c: Core)
    requires Fetched(mode, s).1 == Some(w) && Arithmetic(w) && Agree(c, s.core) && PaceOk(mode, s, p)
    ensures var d := AfterPace(mode, s, p).core;
      Agree(PerformOne(c, w), d) && d.r[15] == Wrap(s.core.r[15] + 4) && d.status == s.core.status
  {
    hide Step, Fetched, PerformOne, Arithmetic, StepInterrupted, StepTraps, CleanStep, Exit, AfterInstruction,
         Unwinding.Disciplined;
    MachineOne(mode, s, w, c);
    match p
    case Plain(rx) => InterruptStep(mode, s, rx);
    case WithInterrupt(rx, h) => InterruptUnwinds(mode, s, rx, h, {});
  }

  /** The sequence on the machine: registers and flags as `Perform` has them, PC behind the sequence. */
  lemma {:induction false} MachinePerforms(mode: Mode, s: State, ws: seq<Word>, ps: seq<Pace>, c: Core)
    requires Executes(mode, s, ws, ps) && Agree(c, s.core) && forall i :: 0 <= i < |ws| ==> Arithmetic(ws[i])
    ensures var d := AfterPaces(mode, s, ps).core;
      Agree(Perform(c, ws), d) && d.r[15] == Wrap(s.core.r[15] + 4 * |ws|) && d.status == s.core.status
    decreases |ws|
  {
    hide Fetched, PaceOk, AfterPace, Arithmetic, Decode;
    if ws == [] {
      DivUnique(s.core.r[15], 0x1_0000_0000, 0, s.core.r[15]);
    } else {
      var t := AfterPace(mode, s, ps[0]);
      PaceOne(mode, s, ws[0], ps[0], c);
      MachinePerforms(mode, t, ws[1..], ps[1..], PerformOne(c, ws[0]));
      NextPc(s.core.r[15], |ws| - 1);
    }
  }

  lemma NextPc(pc: Word, n: nat)
    ensures Wrap(Wrap(pc + 4) + 4 * n) == Wrap(pc + 4 * (n + 1))
  {
    var k := (pc + 4) / 0x1_0000_0000;
    assert Wrap(pc + 4) + 4 * n + k * 0x1_0000_0000 == pc + 4 * (n + 1);
  }

  /** Main result: the machine that fetches ADD, ADDC, ADDC, ... has the n-word sum in the destination registers,
      and its carry and overflow in the flags, whatever interrupts were handled in between. */
  lemma AddOnMachine(mode: Mode, s: State, ws: seq<Word>, ps: seq<Pace>)
    requires Sequence(ws, 0x00, 0x2B) && Executes(mode, s, ws, ps) && forall i :: 0 <= i < |ws| ==> Arithmetic(ws[i])
    ensures var sum := AddChain(Operands(s.core.r, ws, false), Operands(s.core.r, ws, true), false, s.core.flags);
      var d := AfterPaces(mode, s, ps).core;
      && d.flags == sum.flags && d.r[15] == Wrap(s.core.r[15] + 4 * |ws|) && d.status == s.core.status
      && (forall i :: 0 <= i < |ws| ==> d.r[Rd(ws[i])] == sum.words[i])
      && (forall k: Reg :: k != 15 && (forall i :: 0 <= i < |ws| ==> Rd(ws[i]) != k) ==> d.r[k] == s.core.r[k])
  {
    hide Perform, AfterPaces, Executes, AddOp, FlagC, Opcode, Rs1, Rs2, Rd;
    AddSequenceRuns(s.core, ws, 0x00);
    MachinePerforms(mode, s, ws, ps, s.core);
  }

  /** The same for SUB, SUBC, SUBC, ...: the difference, its borrow and its overflow. */
  lemma SubOnMachine(mode: Mode, s: State, ws: seq<Word>, ps: seq<Pace>)
    requires Sequence(ws, 0x01, 0x2C) && Executes(mode, s, ws, ps) && forall i :: 0 <= i < |ws| ==> Arithmetic(ws[i])
    ensures var diff := SubChain(Operands(s.core.r, ws, false), Operands(s.core.r, ws, true), false, s.core.flags);
      var d := AfterPaces(mode, s, ps).core;
      && d.flags == diff.flags && d.r[15] == Wrap(s.core.r[15] + 4 * |ws|) && d.status == s.core.status
      && (forall i :: 0 <= i < |ws| ==> d.r[Rd(ws[i])] == diff.words[i])
      && (forall k: Reg :: k != 15 && (forall i :: 0 <= i < |ws| ==> Rd(ws[i]) != k) ==> d.r[k] == s.core.r[k])
  {
    hide Perform, AfterPaces, Executes, SubOp, FlagC, Opcode, Rs1, Rs2, Rd;
    SubSequenceRuns(s.core, ws, 0x01);
    MachinePerforms(mode, s, ws, ps, s.core);
  }

  /* ---- One word: CMP and the ten conditional branches ---- */

  /** What each branch mnemonic is named after. */
  predicate Holds(cond: Reg, a: Word, b: Word)
    requires cond <= 10
  {
    match cond
    case 0 => a == b
    case 1 => a != b
    case 2 => Signed(a) < Signed(b)
    case 3 => Signed(a) >= Signed(b)
    case 4 => a < b
    case 5 => a >= b
    case 6 => true
    case 7 => Signed(a) > Signed(b)
    case 8 => Signed(a) <= Signed(b)
    case 9 => a > b
    case _ => a <= b
  }

  /** CMP rs1, rs2 (or CMPI) followed by a branch: taken exactly when the named relation holds. */
  lemma CompareAndBranch(c: Core, pc: Word, cmp: Word, pc': Word, br: Word)
    requires Opcode(cmp) in {0x28, 0x29} && Opcode(br) == 0x0D && Rd(br) <= 10
    ensures var a := c.r[Rs1(cmp)];
      var b := if Opcode(cmp) == 0x28 then c.r[Rs2(cmp)] else Imm16(cmp);
      var op := Decode(c, pc, cmp);
      && op.Compare?
      && Decode(c.(flags := op.flags), pc', br) ==
           if Holds(Rd(br), a, b) then Goto(Wrap(pc' + Soff(br))) else Fall
  {
    hide FlagC, FlagN, FlagV, FlagZ, SubOp, Soff, Wrap, Rs1, Rs2, Imm16, Opcode, Rd;
    var a := c.r[Rs1(cmp)];
    var b := if Opcode(cmp) == 0x28 then c.r[Rs2(cmp)] else Imm16(cmp);
    SubOneWord(a, b, false, c.flags);
    TakenIsHolds(Rd(br), a, b, c.flags);
  }

  lemma TakenIsHolds(cond: Reg, a: Word, b: Word, f: Word)
    requires cond <= 10
    ensures Taken(cond, SubOp(a, b, false, f).flags) == Holds(cond, a, b)
  {
    hide FlagC, FlagN, FlagV, FlagZ, SubOp;
    SubOneWord(a, b, false, f);
  }
}
