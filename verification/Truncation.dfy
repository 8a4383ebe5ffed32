/** Assembling and linking any label expressions: the result is the flat image of the source whose wide label
    references are cut down to what the object file keeps, and so the flat image of the source itself exactly
    when every dropped tail is worth nothing where it stands. */
module Truncation {
  import opened Words
  import opened Memory
  import opened OpTable
  import opened Lexer
  import opened Assembler
  import opened Passes
  import opened Symbols
  import opened Dobj
  import opened Linker
  import opened Moving
  import opened Tables
  import opened Toolchain
  import opened Addends
  import Disasm

  /* ---- Cutting a line ---- */

  /** The line has a wide operand that starts with a label. */
  ghost predicate HasReference(lines: seq<Line>, toks: Line) {
    WideOperand(toks).Some? && LabelRef(lines, WideOperand(toks).value)
  }

  /** The line as far as the object file keeps it. */
  ghost function CutLine(lines: seq<Line>, toks: Line): Line {
    if HasReference(lines, toks) then
      WideIsSuffix(toks);
      toks[..|toks| - |WideOperand(toks).value|] + Cut(WideOperand(toks).value)
    else toks
  }

  ghost function CutAll(lines: seq<Line>): (cut: seq<Line>)
    ensures |cut| == |lines|
  {
    seq(|lines|, i requires 0 <= i < |lines| => CutLine(lines, lines[i]))
  }

  lemma {:induction false} LabelsFirst(toks: Line)
    ensures |toks| == LabelCount(toks) + |DropLabels(toks)| && DropLabels(toks) == toks[LabelCount(toks)..]
  {
    if toks == [] || !toks[0].Label? {
    } else {
      LabelsFirst(toks[1..]);
    }
  }

  /** A wide operand stands behind its directive, or behind MOVI32, register and comma. */
  lemma WideIsSuffix(toks: Line)
    requires WideOperand(toks).Some?
    ensures var ts, w := DropLabels(toks), WideOperand(toks).value;
      && ts != [] && w == (if ts[0].Dot? then ts[1..] else ts[3..]) && |w| < |ts| <= |toks|
      && (ts[0].Dot? || |ts| >= 3)
  {
    hide DirectiveOf, FindOpcode, RegisterComma;
    RegisterSuffix(DropLabels(toks)[1..]);
  }

  /** Replacing what follows the labels and at least one more token. */
  lemma {:induction false} SameLabels(toks: Line, n: nat, v: seq<Token>)
    requires LabelCount(toks) < n <= |toks|
    ensures var r := toks[..n] + v;
      && LabelCount(r) == LabelCount(toks) && DropLabels(r) == toks[LabelCount(toks)..n] + v
      && forall y :: IsLabelOf(r, y) <==> IsLabelOf(toks, y)
  {
    var r := toks[..n] + v;
    assert r[0] == toks[0];
    if toks[0].Label? {
      SameLabels(toks[1..], n - 1, v);
      assert r[1..] == toks[1..][..n - 1] + v;
      assert toks[1..][LabelCount(toks) - 1..n - 1] == toks[LabelCount(toks)..n];
    } else {
      assert toks[0..n] == toks[..n];
    }
  }

  /** What stands before the operand, labels aside. */
  function Head(ts: Line): Line
    requires ts != [] && (ts[0].Dot? || |ts| >= 3)
  {
    if ts[0].Dot? then ts[..1] else ts[..3]
  }

  lemma CutShape(lines: seq<Line>, toks: Line)
    requires HasReference(lines, toks)
    ensures var ts, w := DropLabels(toks), WideOperand(toks).value;
      && ts != [] && (ts[0].Dot? || |ts| >= 3)
      && ts == Head(ts) + w && DropLabels(CutLine(lines, toks)) == Head(ts) + Cut(w)
      && LabelCount(CutLine(lines, toks)) == LabelCount(toks)
    ensures forall y :: IsLabelOf(CutLine(lines, toks), y) <==> IsLabelOf(toks, y)
  {
    hide WideOperand, IsLabelName, ParseRegister, Cut;
    WideIsSuffix(toks);
    LabelsFirst(toks);
    var ts, w := DropLabels(toks), WideOperand(toks).value;
    var n := |toks| - |w|;
    SameLabels(toks, n, Cut(w));
    assert toks[LabelCount(toks)..n] == Head(ts);
  }

  lemma SameNames(lines: seq<Line>, y: string)
    ensures IsLabelName(CutAll(lines), y) <==> IsLabelName(lines, y)
  {
    hide CutLine, HasReference, IsLabelOf;
    forall i | 0 <= i < |lines| ensures IsLabelOf(CutAll(lines)[i], y) <==> IsLabelOf(lines[i], y) {
      CutLabels(lines, lines[i], y);
    }
    if IsLabelName(lines, y) {
      var i :| 0 <= i < |lines| && IsLabelOf(lines[i], y);
      assert IsLabelOf(CutAll(lines)[i], y);
    }
  }

  lemma CutLabels(lines: seq<Line>, toks: Line, y: string)
    ensures IsLabelOf(CutLine(lines, toks), y) <==> IsLabelOf(toks, y)
  {
    hide HasReference, IsLabelOf;
    if HasReference(lines, toks) {
      CutShape(lines, toks);
    } else {
      assert CutLine(lines, toks) == toks;
    }
  }

  /* ---- What the cut line means ---- */

  /** Both lines have the same directive or mnemonic and register, and their own operands. */
  lemma CutOperand(lines: seq<Line>, toks: Line)
    requires HasReference(lines, toks)
    ensures var ts, us, w := DropLabels(toks), DropLabels(CutLine(lines, toks)), WideOperand(toks).value;
      && ts != [] && us != [] && us[0] == ts[0] && WideOperand(CutLine(lines, toks)) == Some(Cut(w))
      && (if ts[0].Dot? then DirectiveOf(ts[0].name).WordDir? && ts[1..] == w && us[1..] == Cut(w)
          else
            && ts[0].Ident? && FindOpcode(ts[0].name).Some? && FindOpcode(ts[0].name).value.fmt.Movi32?
            && RegisterComma(ts[1..]).Some? && RegisterComma(ts[1..]).value.1 == w
            && RegisterComma(us[1..]) == Some((RegisterComma(ts[1..]).value.0, Cut(w))))
  {
    hide DirectiveOf, FindOpcode, IsLabelName, CutLine, Cut, ParseRegister;
    CutShape(lines, toks);
    WideIsSuffix(toks);
    var ts, us, w := DropLabels(toks), DropLabels(CutLine(lines, toks)), WideOperand(toks).value;
    if ts[0].Dot? {
      assert us[1..] == Cut(w);
    } else {
      RegisterSuffix(ts[1..]);
      assert us[1..][0] == ts[1..][0] && us[1..][1] == ts[1..][1] && us[1..][1..][1..] == Cut(w);
      assert us[1..][1..][0] == us[1..][1];
    }
  }

  lemma CutDirective(lines: seq<Line>, toks: Line)
    ensures LineDirective(CutLine(lines, toks)).0 == LineDirective(toks).0
    ensures !LineDirective(toks).0.WordDir? ==> LineDirective(CutLine(lines, toks)) == LineDirective(toks)
  {
    hide DirectiveOf, FindOpcode, RegisterComma, CutLine, Cut, HasReference;
    if HasReference(lines, toks) {
      CutOperand(lines, toks);
    } else {
      assert CutLine(lines, toks) == toks by { NotCut(lines, toks); }
    }
  }

  lemma NotCut(lines: seq<Line>, toks: Line)
    requires !HasReference(lines, toks)
    ensures CutLine(lines, toks) == toks
  {
    hide HasReference;
  }

  lemma CutSymbols(lines: seq<Line>, toks: Line, syms: Symtab)
    ensures LineSymbols(CutLine(lines, toks), syms) == LineSymbols(toks, syms)
  {
    hide DirectiveOf, FindOpcode, RegisterComma, CutLine, Cut, HasReference;
    if HasReference(lines, toks) {
      CutOperand(lines, toks);
    } else {
      NotCut(lines, toks);
    }
  }

  lemma {:induction false} SameDefinitions(toks: Line, us: Line, syms: Symtab, org: Word)
    requires LabelCount(us) == LabelCount(toks) <= |toks| && LabelCount(us) <= |us|
    requires forall i :: 0 <= i < LabelCount(toks) ==> us[i] == toks[i]
    ensures DefineLabels(us, syms, org) == DefineLabels(toks, syms, org)
  {
    hide DefineLabel;
    if toks == [] || !toks[0].Label? {
    } else {
      assert us[0] == toks[0];
      var t := DefineLabel(syms, toks[0].name, org);
      if t.Some? {
        forall i | 0 <= i < LabelCount(toks[1..]) ensures us[1..][i] == toks[1..][i] {
          assert us[i + 1] == toks[i + 1];
        }
        SameDefinitions(toks[1..], us[1..], t.value, org);
      }
    }
  }

  lemma CutPass1Line(lines: seq<Line>, toks: Line, p: Pass1, obj: bool)
    ensures Pass1Line(CutLine(lines, toks), p, obj) == Pass1Line(toks, p, obj)
  {
    hide DirectiveOf, FindOpcode, RegisterComma, CutLine, Cut, HasReference, DefineLabels, DirectiveSize, InstrSize;
    if HasReference(lines, toks) {
      CutOperand(lines, toks);
      CutShape(lines, toks);
      CutDefinitions(lines, toks, p.syms, p.org);
      CutSize(lines, toks);
    } else {
      NotCut(lines, toks);
    }
  }

  lemma CutDefinitions(lines: seq<Line>, toks: Line, syms: Symtab, org: Word)
    requires HasReference(lines, toks)
    ensures DefineLabels(CutLine(lines, toks), syms, org) == DefineLabels(toks, syms, org)
  {
    hide DefineLabels, Cut, LabelRef, WideOperand;
    CutShape(lines, toks);
    WideIsSuffix(toks);
    LabelsFirst(toks);
    SameDefinitions(toks, CutLine(lines, toks), syms, org);
  }

  lemma CutSize(lines: seq<Line>, toks: Line)
    requires HasReference(lines, toks)
    ensures DirectiveSize(CutLine(lines, toks)) == DirectiveSize(toks)
  {
    hide DirectiveOf, FindOpcode, RegisterComma, CutLine, Cut, HasReference, LabelCount;
    CutOperand(lines, toks);
    CutShape(lines, toks);
    PassOneSize(toks);
    PassOneSize(CutLine(lines, toks));
    assert DataSize(CutLine(lines, toks)) == DataSize(toks);
  }

  lemma {:induction false} CutPassOne(lines: seq<Line>, k: nat, obj: bool)
    requires k <= |lines|
    ensures RunPass1(CutAll(lines), k, obj) == RunPass1(lines, k, obj)
  {
    hide Pass1Line, CutLine;
    if k == 0 {
    } else {
      CutPassOne(lines, k - 1, obj);
      var p := RunPass1(lines, k - 1, obj);
      if p.Some? {
        CutPass1Line(lines, lines[k - 1], p.value, obj);
      }
    }
  }

  /* ---- The object file ---- */

  /** In the object file only what is kept shows. */
  lemma CutObjectLine(lines: seq<Line>, toks: Line, syms: Symtab, org: Word)
    requires HasReference(lines, toks) && PeekSymbol(WideOperand(toks).value, syms).Some?
    ensures LineBytes(CutLine(lines, toks), syms, org, true) == LineBytes(toks, syms, org, true)
  {
    hide DirectiveOf, FindOpcode, RegisterComma, CutLine, Cut, IsLabelName, PeekSymbol, Eval, WordLe, Instr,
         WideOperand;
    CutOperand(lines, toks);
    CutPeeks(WideOperand(toks).value, syms);
  }

  ghost predicate AllLocal(lines: seq<Line>) {
    forall i :: 0 <= i < |lines| ==> LocalNames(lines, lines[i])
  }

  /** The cut source has the form the linking theorems ask for. */
  lemma CutLinkable(lines: seq<Line>)
    requires AllLocal(lines)
    ensures AllLinkable(CutAll(lines))
  {
    hide CutLine, LocalNames, Linkable;
    forall i | 0 <= i < |lines| ensures Linkable(CutAll(lines), CutAll(lines)[i]) {
      CutLineLinkable(lines, lines[i]);
    }
  }

  lemma CutLineLinkable(lines: seq<Line>, toks: Line)
    requires LocalNames(lines, toks)
    ensures Linkable(CutAll(lines), CutLine(lines, toks))
  {
    hide CutLine, CutAll, IsLabelName, DirectiveOf, FindOpcode, RegisterComma, Cut, SimpleRef, ParseRegister,
         WideOperand;
    CutDirective(lines, toks);
    forall y | IsEquOf(CutLine(lines, toks), y) ensures !IsLabelName(CutAll(lines), y) {
      assert IsEquOf(toks, y);
      SameNames(lines, y);
    }
    if HasReference(lines, toks) {
      CutOperand(lines, toks);
      CutIsSimple(WideOperand(toks).value);
    } else {
      NotCut(lines, toks);
      if WideOperand(toks).Some? && LabelRef(CutAll(lines), WideOperand(toks).value) {
        SameNames(lines, WideOperand(toks).value[0].name);
      }
    }
  }

  /** A table of the cut source knows every reference. */
  lemma ReferenceKnown(lines: seq<Line>, toks: Line, syms: Symtab)
    requires HasReference(lines, toks) && TableOf(CutAll(lines), syms, 0)
    ensures var w := WideOperand(toks).value;
      w != [] && w[0].Ident? && PeekSymbol(w, syms).Some? && FindSymbol(syms, w[0].name).Some?
  {
    hide CutAll, IsLabelName, WideOperand, LabelsOf, Fits;
    SameNames(lines, WideOperand(toks).value[0].name);
  }

  lemma CutObjectStep(lines: seq<Line>, toks: Line, p: Pass2, base: Word)
    requires GoodTable(CutAll(lines), p.syms, 0)
    ensures Pass2Line(CutLine(lines, toks), p, base, true) == Pass2Line(toks, p, base, true)
  {
    hide CutLine, CutAll, HasReference, LineBytes, LineSymbols, TableOf, UniqueNames;
    CutSymbols(lines, toks, p.syms);
    if HasReference(lines, toks) {
      ReferenceKnown(lines, toks, p.syms);
      CutObjectLine(lines, toks, p.syms, Wrap(|p.out|));
    } else {
      NotCut(lines, toks);
    }
  }

  lemma {:induction false} CutObjectRun(lines: seq<Line>, k: nat, syms: Symtab, base: Word)
    requires k <= |lines| && AllLinkable(CutAll(lines)) && GoodTable(CutAll(lines), syms, 0)
    ensures RunPass2(CutAll(lines), k, syms, base, true) == RunPass2(lines, k, syms, base, true)
    ensures RunPass2(lines, k, syms, base, true).Some? ==>
        GoodTable(CutAll(lines), RunPass2(lines, k, syms, base, true).value.syms, 0)
  {
    hide Pass2Line, CutLine, Linkable, GoodTable;
    if k == 0 {
    } else {
      CutObjectRun(lines, k - 1, syms, base);
      var p := RunPass2(lines, k - 1, syms, base, true);
      if p.Some? {
        assert CutAll(lines)[k - 1] == CutLine(lines, lines[k - 1]);
        CutObjectStep(lines, lines[k - 1], p.value, base);
        if Pass2Line(lines[k - 1], p.value, base, true).Some? {
          Pass2KeepsTable(CutAll(lines), CutLine(lines, lines[k - 1]), p.value, base, 0);
        }
      }
    }
  }

  lemma CutTable(lines: seq<Line>, obj: bool)
    requires AllLocal(lines) && RunPass1(lines, |lines|, obj).Some?
    ensures GoodTable(CutAll(lines), RunPass1(lines, |lines|, obj).value.syms, 0)
  {
    hide RunPass1, CutAll, AllLinkable, TableOf, UniqueNames;
    CutLinkable(lines);
    CutPassOne(lines, |lines|, obj);
    FinalTable(CutAll(lines), obj, 0);
  }

  /** Main result for the object file: it is that of the cut source, whatever the expressions were. */
  lemma ObjectIsCut(lines: seq<Line>)
    requires AllLocal(lines)
    ensures AssembleObject(CutAll(lines)) == AssembleObject(lines)
  {
    hide RunPass1, RunPass2, CutAll, GoodTable, AllLocal, AllLinkable;
    CutPassOne(lines, |lines|, true);
    CutLinkable(lines);
    var p1 := RunPass1(lines, |lines|, true);
    if p1.Some? {
      CutTable(lines, true);
      CutObjectRun(lines, |lines|, p1.value.syms, p1.value.base);
    }
  }

  /* ---- The flat program ---- */

  /** The bytes of a `.word` or MOVI32 whose operand is worth `v`. */
  function WideBytes(long: bool, rd: Byte, v: int): seq<Byte> {
    if long then WordLe(Instr(0x0F, rd, 0, v % 0x1_0000)) + WordLe(Instr(0x13, rd, 0, v / 0x1_0000 % 0x1_0000))
    else WordLe(Wrap(v))
  }

  lemma WordLeInjective(v: Word, w: Word)
    requires WordLe(v) == WordLe(w)
    ensures v == w
  {
    hide WordLe;
    ReadWordLe([], v, []);
    ReadWordLe([], w, []);
    assert [] + WordLe(v) + [] == WordLe(v) && [] + WordLe(w) + [] == WordLe(w);
  }

  lemma SameHalves(v: int, w: int)
    ensures Wrap(v) == Wrap(w) <==> v % 0x1_0000 == w % 0x1_0000 && v / 0x1_0000 % 0x1_0000 == w / 0x1_0000 % 0x1_0000
  {
    Moving.Halves(v);
    Moving.Halves(w);
  }

  /** The bytes give the value away, modulo 2^32. */
  lemma WideBytesTell(long: bool, rd: Byte, v: int, w: int)
    requires rd < 0x10
    ensures WideBytes(long, rd, v) == WideBytes(long, rd, w) <==> Wrap(v) == Wrap(w)
  {
    hide WordLe, Instr;
    if WideBytes(long, rd, v) == WideBytes(long, rd, w) {
      if long {
        var a, b := Instr(0x0F, rd, 0, v % 0x1_0000), Instr(0x13, rd, 0, v / 0x1_0000 % 0x1_0000);
        var a', b' := Instr(0x0F, rd, 0, w % 0x1_0000), Instr(0x13, rd, 0, w / 0x1_0000 % 0x1_0000);
        assert WideBytes(long, rd, v)[..4] == WordLe(a) && WideBytes(long, rd, v)[4..] == WordLe(b);
        assert WideBytes(long, rd, w)[..4] == WordLe(a') && WideBytes(long, rd, w)[4..] == WordLe(b');
        WordLeInjective(a, a');
        WordLeInjective(b, b');
        Disasm.InstrFields(0x0F, rd, 0, v % 0x1_0000);
        Disasm.InstrFields(0x13, rd, 0, v / 0x1_0000 % 0x1_0000);
        Disasm.InstrFields(0x0F, rd, 0, w % 0x1_0000);
        Disasm.InstrFields(0x13, rd, 0, w / 0x1_0000 % 0x1_0000);
      } else {
        WordLeInjective(Wrap(v), Wrap(w));
      }
    }
    SameHalves(v, w);
  }

  function IsLongLoad(toks: Line): bool {
    DropLabels(toks) != [] && DropLabels(toks)[0].Ident?
  }

  function LoadRegister(toks: Line): Byte {
    var ts := DropLabels(toks);
    if ts != [] && RegisterComma(ts[1..]).Some? then RegisterComma(ts[1..]).value.0 else 0
  }

  /** A flat line with a wide operand: the operand's value, and nothing else of it. */
  lemma WideLine(toks: Line, syms: Symtab, org: Word)
    requires WideOperand(toks).Some?
    ensures var v := Eval(WideOperand(toks).value, syms, true);
      LineBytes(toks, syms, org, false)
      == if v.None? then None
         else Some(Emission(WideBytes(IsLongLoad(toks), if IsLongLoad(toks) then LoadRegister(toks)
             else 0, v.value.0), []))
  {
    hide DirectiveOf, FindOpcode, RegisterComma, Eval, WordLe, Instr, PeekSymbol;
  }

  /** Flat, the line and the cut line give the same bytes exactly when nothing of value was cut. */
  lemma CutFlatLine(lines: seq<Line>, toks: Line, syms: Symtab, org: Word)
    requires HasReference(lines, toks) && TableOf(CutAll(lines), syms, 0)
    ensures var w := WideOperand(toks).value;
      var f, g := LineBytes(toks, syms, org, false), LineBytes(CutLine(lines, toks), syms, org, false);
      && w != [] && w[0].Ident? && FindSymbol(syms, w[0].name).Some?
      && g.Some? && g.value.relocs == [] && (f.Some? ==> |f.value.bytes| == |g.value.bytes| && f.value.relocs == [])
      && (f == g <==> KeepsAll(w, syms))
  {
    hide TableOf, LabelRef, CutLine, CutAll, Cut, WideOperand, Eval, KeptValue, LineBytes, WideBytes, RegisterComma,
         DirectiveOf, FindOpcode;
    var w := WideOperand(toks).value;
    ReferenceKnown(lines, toks, syms);
    CutOperand(lines, toks);
    EvalDropped(w, syms);
    WideLine(toks, syms, org);
    WideLine(CutLine(lines, toks), syms, org);
    var rd := if IsLongLoad(toks) then LoadRegister(toks) else 0;
    Disasm.RegisterBound(DropLabels(toks)[1..]);
    assert IsLongLoad(CutLine(lines, toks)) == IsLongLoad(toks);
    assert IsLongLoad(toks) ==> LoadRegister(CutLine(lines, toks)) == LoadRegister(toks);
    if Eval(w, syms, true).Some? {
      WideBytesTell(IsLongLoad(toks), rd, Eval(w, syms, true).value.0, KeptValue(w, syms));
      WideLength(IsLongLoad(toks), rd, Eval(w, syms, true).value.0);
      WideLength(IsLongLoad(toks), rd, KeptValue(w, syms));
    }
  }

  lemma WideLength(long: bool, rd: Byte, v: int)
    ensures |WideBytes(long, rd, v)| == if long then 8 else 4
  {
    hide WordLe, Instr;
  }

  /** The table and position with which the flat program reaches line `k`. */
  ghost function CutBefore(lines: seq<Line>, k: nat, syms: Symtab): Option<Pass2>
    requires k <= |lines|
  {
    RunPass2(CutAll(lines), k, syms, 0, false)
  }

  /** Flat, the references of line `k` lose nothing. */
  ghost predicate LineKeeps(lines: seq<Line>, k: nat, syms: Symtab)
    requires k < |lines|
  {
    HasReference(lines, lines[k]) && CutBefore(lines, k, syms).Some? ==>
      var w, t := WideOperand(lines[k]).value, CutBefore(lines, k, syms).value.syms;
      w != [] && w[0].Ident? && FindSymbol(t, w[0].name).Some? && KeepsAll(w, t)
  }

  lemma CutFlatStep(lines: seq<Line>, toks: Line, p: Pass2, q: Pass2)
    requires GoodTable(CutAll(lines), q.syms, 0) && p.syms == q.syms && |p.out| == |q.out|
        && Pass2Line(toks, p, 0, false).Some?
    requires p.relocs == q.relocs == []
    ensures var r, s := Pass2Line(toks, p, 0, false), Pass2Line(CutLine(lines, toks), q, 0, false);
      s.Some? && r.value.syms == s.value.syms && |r.value.out| == |s.value.out|
      && r.value.relocs == s.value.relocs == []
  {
    hide CutLine, CutAll, HasReference, LineBytes, LineSymbols, TableOf, UniqueNames, KeepsAll;
    CutSymbols(lines, toks, p.syms);
    if HasReference(lines, toks) {
      CutFlatLine(lines, toks, p.syms, Wrap(|p.out|));
    } else {
      NotCut(lines, toks);
    }
    FlatNoRelocs(toks, p.syms, Wrap(|p.out|));
    FlatNoRelocs(CutLine(lines, toks), p.syms, Wrap(|p.out|));
  }

  lemma FlatNoRelocs(toks: Line, syms: Symtab, org: Word)
    ensures LineBytes(toks, syms, org, false).Some? ==> LineBytes(toks, syms, org, false).value.relocs == []
  {
    hide Encode, Eval, PeekSymbol, FindOpcode, DirectiveOf, AlignUp, WordLe, CText, TextBytes;
    var ts := DropLabels(toks);
    if ts != [] && ts[0].Ident? && FindOpcode(ts[0].name).Some? {
      PlainInstruction(FindOpcode(ts[0].name).value, ts[1..], syms, org);
    }
  }

  /** Line by line the two flat programs have the same table and the same addresses. */
  lemma {:induction false} CutFlatRun(lines: seq<Line>, k: nat, syms: Symtab)
    requires k <= |lines| && AllLinkable(CutAll(lines)) && GoodTable(CutAll(lines), syms, 0)
    requires RunPass2(lines, k, syms, 0, false).Some?
    ensures var p, q := RunPass2(lines, k, syms, 0, false), CutBefore(lines, k, syms);
      && q.Some? && p.value.syms == q.value.syms && |p.value.out| == |q.value.out|
      && p.value.relocs == q.value.relocs == []
      && GoodTable(CutAll(lines), q.value.syms, 0)
  {
    hide Pass2Line, CutLine, Linkable, GoodTable;
    if k == 0 {
    } else {
      CutFlatRun(lines, k - 1, syms);
      var p, q := RunPass2(lines, k - 1, syms, 0, false).value, CutBefore(lines, k - 1, syms).value;
      assert CutAll(lines)[k - 1] == CutLine(lines, lines[k - 1]);
      CutFlatStep(lines, lines[k - 1], p, q);
      FlatKeepsTable(CutAll(lines), CutLine(lines, lines[k - 1]), q);
    }
  }

  lemma FlatKeepsTable(lines: seq<Line>, toks: Line, p: Pass2)
    requires GoodTable(lines, p.syms, 0) && Linkable(lines, toks) && Pass2Line(toks, p, 0, false).Some?
    ensures GoodTable(lines, Pass2Line(toks, p, 0, false).value.syms, 0)
  {
    hide LineBytes, LineSymbols, TableOf, UniqueNames, Linkable;
    LineSymbolsKeep(lines, toks, p.syms, 0);
  }

  lemma {:induction false} CutTables(lines: seq<Line>, k: nat, syms: Symtab)
    requires k <= |lines| && AllLinkable(CutAll(lines)) && GoodTable(CutAll(lines), syms, 0)
    ensures CutBefore(lines, k, syms).Some? ==> GoodTable(CutAll(lines), CutBefore(lines, k, syms).value.syms, 0)
  {
    hide Pass2Line, CutLine, Linkable, GoodTable;
    if k == 0 {
    } else {
      CutTables(lines, k - 1, syms);
      if CutBefore(lines, k, syms).Some? {
        FlatKeepsTable(CutAll(lines), CutAll(lines)[k - 1], CutBefore(lines, k - 1, syms).value);
      }
    }
  }

  /* ---- Equal images ---- */

  lemma {:induction false} KeptRun(lines: seq<Line>, k: nat, syms: Symtab)
    requires k <= |lines| && AllLinkable(CutAll(lines)) && GoodTable(CutAll(lines), syms, 0)
    requires forall i :: 0 <= i < k ==> LineKeeps(lines, i, syms)
    ensures RunPass2(lines, k, syms, 0, false) == CutBefore(lines, k, syms)
  {
    hide Pass2Line, CutLine, Linkable, GoodTable, LineKeeps;
    if k == 0 {
    } else {
      KeptRun(lines, k - 1, syms);
      CutTables(lines, k - 1, syms);
      var p := CutBefore(lines, k - 1, syms);
      if p.Some? {
        assert CutAll(lines)[k - 1] == CutLine(lines, lines[k - 1]);
        KeptStep(lines, k - 1, syms);
      }
    }
  }

  lemma KeptStep(lines: seq<Line>, k: nat, syms: Symtab)
    requires k < |lines| && CutBefore(lines, k, syms).Some? && LineKeeps(lines, k, syms)
    requires GoodTable(CutAll(lines), CutBefore(lines, k, syms).value.syms, 0)
    ensures var p := CutBefore(lines, k, syms).value;
      Pass2Line(lines[k], p, 0, false) == Pass2Line(CutLine(lines, lines[k]), p, 0, false)
  {
    hide CutLine, CutAll, CutBefore, HasReference, LineBytes, LineSymbols, TableOf, UniqueNames, KeepsAll;
    var p := CutBefore(lines, k, syms).value;
    CutSymbols(lines, lines[k], p.syms);
    if HasReference(lines, lines[k]) {
      CutFlatLine(lines, lines[k], p.syms, Wrap(|p.out|));
    } else {
      NotCut(lines, lines[k]);
    }
  }

  /** Equal images have equal bytes for every line, and those tell the value. */
  lemma KeptByImage(lines: seq<Line>, k: nat, syms: Symtab)
    requires k < |lines| && AllLinkable(CutAll(lines)) && GoodTable(CutAll(lines), syms, 0)
    requires RunPass2(lines, |lines|, syms, 0, false).Some? && CutBefore(lines, |lines|, syms).Some?
    requires RunPass2(lines, |lines|, syms, 0, false).value.out == CutBefore(lines, |lines|, syms).value.out
    ensures LineKeeps(lines, k, syms)
  {
    hide RunPass2, CutLine, Linkable, LineBytes, TableOf, UniqueNames, KeepsAll, HasReference;
    RunsArePrefixClosed(lines, k, |lines|, syms, 0, false);
    CutFlatRun(lines, k, syms);
    LineBytesInImage(lines, k, |lines|, syms, 0, false);
    LineBytesInImage(CutAll(lines), k, |lines|, syms, 0, false);
    if HasReference(lines, lines[k]) {
      var p := CutBefore(lines, k, syms).value;
      assert CutAll(lines)[k] == CutLine(lines, lines[k]);
      CutFlatLine(lines, lines[k], p.syms, Wrap(|p.out|));
      EqualSlices(LineBytes(lines[k], p.syms, Wrap(|p.out|), false).value,
                  LineBytes(CutLine(lines, lines[k]), p.syms, Wrap(|p.out|), false).value);
    }
  }

  lemma EqualSlices(f: Emission, g: Emission)
    requires |f.bytes| == |g.bytes| && f.relocs == g.relocs && f.bytes == g.bytes
    ensures f == g
  {
  }

  ghost predicate AllKeep(lines: seq<Line>, syms: Symtab) {
    forall k :: 0 <= k < |lines| ==> LineKeeps(lines, k, syms)
  }

  /** The flat images of the source and of the cut source are equal exactly when nothing of value was cut. */
  lemma FlatIffKept(lines: seq<Line>)
    requires AllLocal(lines) && AssembleFlat(CutAll(lines)).Some?
    ensures RunPass1(lines, |lines|, false).Some?
    ensures AssembleFlat(lines) == AssembleFlat(CutAll(lines)) <==>
      AllKeep(lines, RunPass1(lines, |lines|, false).value.syms)
  {
    hide RunPass1, RunPass2, CutAll, GoodTable, AllLocal, AllLinkable, LineKeeps;
    var n := |lines|;
    CutPassOne(lines, n, false);
    CutLinkable(lines);
    CutTable(lines, false);
    var syms := RunPass1(lines, n, false).value.syms;
    if AllKeep(lines, syms) {
      KeptRun(lines, n, syms);
    }
    if AssembleFlat(lines) == AssembleFlat(CutAll(lines)) {
      forall k | 0 <= k < n ensures LineKeeps(lines, k, syms) {
        KeptByImage(lines, k, syms);
      }
    }
  }

  /** Plus and minus terms only (and shifts by 0) are dropped anywhere. */
  ghost predicate DropsTerms(lines: seq<Line>) {
    forall k :: 0 <= k < |lines| && HasReference(lines, lines[k]) ==>
      var us := Rest(WideOperand(lines[k]).value);
      IntTail(us) && ShiftsByZero(us)
  }

  /** What is dropped sums to 0 modulo 2^32 on every line. */
  ghost predicate DropsNothing(lines: seq<Line>)
    requires DropsTerms(lines)
  {
    forall k :: 0 <= k < |lines| && HasReference(lines, lines[k]) ==>
      Sum(Rest(WideOperand(lines[k]).value)) % 0x1_0000_0000 == 0
  }

  /** In that case the condition can be read off the source. */
  lemma KeepIffSumsZero(lines: seq<Line>)
    requires AllLocal(lines) && AssembleFlat(CutAll(lines)).Some? && DropsTerms(lines)
    ensures RunPass1(lines, |lines|, false).Some?
    ensures AllKeep(lines, RunPass1(lines, |lines|, false).value.syms) <==> DropsNothing(lines)
  {
    hide RunPass1, RunPass2, CutAll, AllLocal, AllLinkable, WideOperand, IsLabelName, TableOf, UniqueNames, KeepsAll;
    var n := |lines|;
    CutPassOne(lines, n, false);
    CutLinkable(lines);
    CutTable(lines, false);
    var syms := RunPass1(lines, n, false).value.syms;
    forall k | 0 <= k < n && HasReference(lines, lines[k])
      ensures LineKeeps(lines, k, syms) <==> Sum(Rest(WideOperand(lines[k]).value)) % 0x1_0000_0000 == 0
    {
      RunsArePrefixClosed(CutAll(lines), k, n, syms, 0, false);
      CutTables(lines, k, syms);
      var t := CutBefore(lines, k, syms).value.syms;
      ReferenceKnown(lines, lines[k], t);
      KeptIffSumZero(WideOperand(lines[k]).value, t);
    }
    forall k | 0 <= k < n && !HasReference(lines, lines[k]) ensures LineKeeps(lines, k, syms) {
    }
    if DropsNothing(lines) {
      forall k | 0 <= k < n ensures LineKeeps(lines, k, syms) {
      }
    }
    if AllKeep(lines, syms) {
      forall k | 0 <= k < n && HasReference(lines, lines[k])
        ensures Sum(Rest(WideOperand(lines[k]).value)) % 0x1_0000_0000 == 0
      {
        assert LineKeeps(lines, k, syms);
      }
    }
  }

  /* ---- Linked images ---- */

  lemma QuietNotCut(lines: seq<Line>, toks: Line, b: Word)
    requires EmitsNothing(toks) || OrgLine(toks, b)
    ensures CutLine(lines, toks) == toks
  {
    hide DirectiveOf, FindOpcode, RegisterComma, LabelRef;
  }

  lemma CutOrigin(lines: seq<Line>, j: nat, b: Word)
    requires OriginAt(lines, j, b)
    ensures OriginAt(CutAll(lines), j, b)
  {
    hide CutLine, EmitsNothing, OrgLine;
    QuietNotCut(lines, lines[j], b);
    forall i | 0 <= i < j ensures EmitsNothing(CutAll(lines)[i]) {
      QuietNotCut(lines, lines[i], b);
    }
  }

  /** Main result, with an origin and any expressions: the linked image is the flat image of the cut source, and
      it is that of the source itself exactly when every wide reference is worth what the object file keeps
      of it; where plus and minus terms are dropped, exactly when on every line they sum to 0 modulo 2^32. */
  lemma LinkedIffKept(lines: seq<Line>, j: nat, b: Word, textBase: Word)
    requires AllLocal(lines) && OriginAt(lines, j, b)
    requires AssembleObject(lines).Some? && ObjectFits(AssembleObject(lines).value)
    ensures RunPass1(lines, |lines|, false).Some?
    ensures var linked := LinkFile(Write(AssembleObject(lines).value), textBase);
      && linked.Some? && linked == AssembleFlat(CutAll(lines))
      && (linked == AssembleFlat(lines) <==> AllKeep(lines, RunPass1(lines, |lines|, false).value.syms))
      && (DropsTerms(lines) ==> (linked == AssembleFlat(lines) <==> DropsNothing(lines)))
  {
    hide AssembleObject, AssembleFlat, CutAll, OriginAt, ObjectFits, LinkFile, Write, AllLocal, AllLinkable, AllKeep,
         DropsTerms, DropsNothing;
    ObjectIsCut(lines);
    CutOrigin(lines, j, b);
    CutLinkable(lines);
    LinkedIsFlat(CutAll(lines), j, b, textBase);
    FlatIffKept(lines);
    if DropsTerms(lines) {
      KeepIffSumsZero(lines);
    }
  }

  /* ---- ... without an origin ---- */

  lemma OriginNames(lines: seq<Line>, b: Word, y: string)
    ensures IsLabelName([Origin(b)] + lines, y) <==> IsLabelName(lines, y)
  {
    hide IsLabelOf;
    var prog := [Origin(b)] + lines;
    assert !IsLabelOf(Origin(b), y) by { OriginNoLabel(b, y); }
    if IsLabelName(lines, y) {
      var i :| 0 <= i < |lines| && IsLabelOf(lines[i], y);
      assert IsLabelOf(prog[i + 1], y);
    }
    if IsLabelName(prog, y) {
      var i :| 0 <= i < |prog| && IsLabelOf(prog[i], y);
      assert IsLabelOf(lines[i - 1], y);
    }
  }

  lemma OriginNoLabel(b: Word, y: string)
    ensures !IsLabelOf(Origin(b), y)
  {
  }

  lemma OriginReference(lines: seq<Line>, b: Word, toks: Line)
    ensures HasReference([Origin(b)] + lines, toks) <==> HasReference(lines, toks)
    ensures CutLine([Origin(b)] + lines, toks) == CutLine(lines, toks)
  {
    hide IsLabelName, WideOperand, Cut, ParseRegister;
    if WideOperand(toks).Some? && WideOperand(toks).value != [] && WideOperand(toks).value[0].Ident? {
      OriginNames(lines, b, WideOperand(toks).value[0].name);
    }
  }

  lemma CutWithOrigin(lines: seq<Line>, b: Word)
    ensures CutAll([Origin(b)] + lines) == [Origin(b)] + CutAll(lines)
  {
    hide CutLine, Origin;
    var prog := [Origin(b)] + lines;
    OriginIsOrg(b);
    QuietNotCut(prog, Origin(b), b);
    forall i | 0 <= i < |lines| ensures CutAll(prog)[i + 1] == CutAll(lines)[i] {
      OriginReference(lines, b, lines[i]);
    }
  }

  lemma OriginIsOrg(b: Word)
    ensures OrgLine(Origin(b), b) && LineDirective(Origin(b)) == (Org, [Int(b)])
  {
    hide DirectiveOf;
    OrgIsOrg();
    WrapSmall(b);
    assert Origin(b)[1..] == [Int(b)];
  }

  lemma LocalWithOrigin(lines: seq<Line>, b: Word)
    requires AllLocal(lines)
    ensures AllLocal([Origin(b)] + lines)
  {
    hide Origin, IsLabelName, DirectiveOf;
    OriginIsOrg(b);
    var prog := [Origin(b)] + lines;
    forall i | 0 <= i < |prog| ensures LocalNames(prog, prog[i]) {
      if i > 0 {
        assert LocalNames(lines, lines[i - 1]);
        forall y | IsEquOf(prog[i], y) ensures !IsLabelName(prog, y) {
          OriginNames(lines, b, y);
        }
      }
    }
  }

  lemma CutNoOrg(lines: seq<Line>)
    requires NoOrg(lines)
    ensures NoOrg(CutAll(lines))
  {
    hide CutLine, LineDirective;
    forall i | 0 <= i < |lines| ensures !LineDirective(CutAll(lines)[i]).0.Org? {
      CutDirective(lines, lines[i]);
    }
  }

  lemma CutFits(lines: seq<Line>, b: Word)
    requires AddressesFit(lines, b, true)
    ensures AddressesFit(CutAll(lines), b, true)
  {
    hide RunPass1, CutAll;
    forall k | 0 <= k <= |lines| ensures RunPass1(CutAll(lines), k, true) == RunPass1(lines, k, true) {
      CutPassOne(lines, k, true);
    }
  }

  lemma SameReferences(lines: seq<Line>, ts: seq<Token>)
    ensures LabelRef(CutAll(lines), ts) <==> LabelRef(lines, ts)
    ensures LabelFree(CutAll(lines), ts) <==> LabelFree(lines, ts)
  {
    hide IsLabelName, CutAll, Uses, ParseRegister;
    forall y ensures IsLabelName(CutAll(lines), y) <==> IsLabelName(lines, y) {
      SameNames(lines, y);
    }
  }

  lemma CutMovable(lines: seq<Line>, toks: Line, shift: nat)
    requires Movable(lines, toks, shift)
    ensures Movable(CutAll(lines), CutLine(lines, toks), shift)
  {
    hide CutAll, CutLine, LabelRef, LabelFree, SimpleRef, FindOpcode, DirectiveOf, RegisterComma, PowerOfTwo, Cut,
         IsLabelName;
    if HasReference(lines, toks) {
      CutOperand(lines, toks);
      CutReference(lines, toks);
    } else {
      NotCut(lines, toks);
      var ts := DropLabels(toks);
      if TargetOperand(toks).Some? {
        SameReferences(lines, TargetOperand(toks).value);
      } else if WideOperand(toks).Some? {
        SameReferences(lines, WideOperand(toks).value);
      } else if ts != [] {
        SameReferences(lines, ts[1..]);
      }
    }
  }

  lemma CutReference(lines: seq<Line>, toks: Line)
    requires HasReference(lines, toks)
    ensures LabelRef(CutAll(lines), Cut(WideOperand(toks).value))
  {
    hide IsLabelName, CutAll, WideOperand, ParseRegister;
    CutIsSimple(WideOperand(toks).value);
    SameNames(lines, WideOperand(toks).value[0].name);
  }

  lemma CutAllMovable(lines: seq<Line>, shift: nat)
    requires AllMovable(lines, shift)
    ensures AllMovable(CutAll(lines), shift)
  {
    hide Movable, CutLine;
    if shift != 0 {
      forall i | 0 <= i < |lines| ensures Movable(CutAll(lines), CutAll(lines)[i], shift) {
        CutMovable(lines, lines[i], shift);
      }
    }
  }

  /** Main result, without an origin: linking at `b` gives the flat image of the cut source with `.org b` before
      it, and that of the source itself exactly when nothing of value was cut. */
  lemma LinkedAtBaseIffKept(lines: seq<Line>, b: Word)
    requires AllLocal(lines) && NoOrg(lines) && AllMovable(lines, b) && AddressesFit(lines, b, true) && b % 4 == 0
    requires AssembleObject(lines).Some? && ObjectFits(AssembleObject(lines).value)
    requires b + |AssembleObject(lines).value.data| <= MAX_OUTPUT
    ensures var prog := [Origin(b)] + lines;
      RunPass1(prog, |prog|, false).Some?
    ensures var prog := [Origin(b)] + lines;
      var linked := LinkFile(Write(AssembleObject(lines).value), b);
      && linked.Some? && linked == AssembleFlat([Origin(b)] + CutAll(lines))
      && (linked == AssembleFlat(prog) <==> AllKeep(prog, RunPass1(prog, |prog|, false).value.syms))
      && (DropsTerms(prog) ==> (linked == AssembleFlat(prog) <==> DropsNothing(prog)))
  {
    hide AssembleObject, AssembleFlat, CutAll, ObjectFits, LinkFile, Write, AllLocal, AllLinkable, AllKeep,
         DropsTerms, DropsNothing, NoOrg, AllMovable, AddressesFit, Origin;
    var prog := [Origin(b)] + lines;
    ObjectIsCut(lines);
    CutLinkable(lines);
    CutNoOrg(lines);
    CutAllMovable(lines, b);
    CutFits(lines, b);
    LinkedAtBaseIsFlat(CutAll(lines), b);
    CutWithOrigin(lines, b);
    LocalWithOrigin(lines, b);
    FlatIffKept(prog);
    if DropsTerms(prog) {
      KeepIffSumsZero(prog);
    }
  }
}
