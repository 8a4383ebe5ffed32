/** Several sources, each assembled to an object file, written, read back and linked: what one source refers to by
    name in another it reaches. */
module Externals {
  import opened Words
  import opened Memory
  import opened OpTable
  import opened Lexer
  import opened Assembler
  import opened Passes
  import opened Symbols
  import opened Moving
  import opened Dobj
  import opened Linker
  import opened Landing
  import opened Toolchain
  import opened Records
  import opened Calls
  import Cpu
  import DataLines
  import Disasm
  import Instructions
  import Tables

  type Source = seq<Line>

  /* ---- The relocations of a line ---- */

  /** None, or one for each word of the line, in order, each naming an entry of the table. */
  predicate Orderly(e: Emission, size: nat) {
    && |e.relocs| <= 2
    && (forall i :: 0 <= i < |e.relocs| ==>
        e.relocs[i].offset == 4 * i && 4 * i + 4 <= |e.bytes| && e.relocs[i].sym < size)
  }

  lemma RelativeOrderly(op: Byte, rd: Byte, kind: Byte, ts: seq<Token>, syms: Symtab, at: Word)
    ensures var e := Relative(op, rd, kind, ts, syms, at, true); e.Some? ==> Orderly(e.value, |syms|)
  {
    hide Eval, Instr, Int32;
  }

  lemma LongOrderly(ts: seq<Token>, syms: Symtab)
    ensures var e := LoadAddress(ts, syms, true); e.Some? ==> Orderly(e.value, |syms|)
  {
    hide RegisterComma, Eval, Instr, Int32;
  }

  lemma EncodeOrderly(e: OpEntry, ts: seq<Token>, syms: Symtab, at: Word)
    requires Encode(e, ts, syms, at, true).Some?
    ensures Orderly(Encode(e, ts, syms, at, true).value, |syms|)
  {
    hide RegisterComma, Register, Eval, RegRegImm, MemOperand, IndexOperands, Instr, WordLe, Relative, LoadAddress;
    match e.fmt
    case Branch => RelativeOrderly(e.opcode, e.cond, BRANCH20, ts, syms, at);
    case Call => RelativeOrderly(e.opcode, 14, JUMP20, ts, syms, at);
    case Jump =>
      var (rd, t1) := RegisterComma(ts).value;
      RelativeOrderly(e.opcode, rd, JUMP20, t1, syms, at);
    case Movi32 => LongOrderly(ts, syms);
    case _ =>
  }

  lemma LineOrderly(toks: Line, syms: Symtab, at: Word)
    requires LineBytes(toks, syms, at, true).Some?
    ensures Orderly(LineBytes(toks, syms, at, true).value, |syms|)
  {
    hide Encode, DirectiveBytes, FindOpcode, DirectiveOf;
    var ts := DropLabels(toks);
    if ts != [] && ts[0].Ident? {
      EncodeOrderly(FindOpcode(ts[0].name).value, ts[1..], syms, at);
    } else if ts != [] && ts[0].Dot? {
      DirectiveOrderly(DirectiveOf(ts[0].name), ts[1..], syms, at);
    }
  }

  lemma DirectiveOrderly(d: Directive, args: seq<Token>, syms: Symtab, at: Word)
    requires DirectiveBytes(d, args, syms, at, true).Some?
    ensures Orderly(DirectiveBytes(d, args, syms, at, true).value, |syms|)
  {
    hide Eval, AlignUp, WordLe, CText, Int32;
  }

  /** Relocated words lie in the output, in order and without overlap. */
  predicate InOrder(p: Pass2) {
    && (forall i :: 0 <= i < |p.relocs| ==> p.relocs[i].offset + 4 <= |p.out| && p.relocs[i].sym < |p.syms|)
    && (forall i, j :: 0 <= i < j < |p.relocs| ==> p.relocs[i].offset + 4 <= p.relocs[j].offset)
  }

  lemma LineInOrder(toks: Line, p: Pass2)
    requires InOrder(p) && Pass2Line(toks, p, 0, true).Some?
    ensures InOrder(Pass2Line(toks, p, 0, true).value)
  {
    hide LineBytes, LineSymbols;
    WrapSmallOut(p, toks);
    LineOrderly(toks, p.syms, Wrap(|p.out|));
    var e := LineBytes(toks, p.syms, Wrap(|p.out|), true).value;
    Pass2Flags(toks, p.syms, "");
    forall i | 0 <= i < |e.relocs| ensures Place(e.relocs[i], |p.out|).offset == |p.out| + 4 * i {
      WrapSmall(|p.out| + 4 * i);
    }
  }

  lemma WrapSmallOut(p: Pass2, toks: Line)
    requires Pass2Line(toks, p, 0, true).Some?
    ensures |p.out| <= MAX_OUTPUT
  {
    hide LineBytes, LineSymbols;
  }

  lemma {:induction false} RunInOrder(lines: Source, k: nat, syms: Symtab)
    requires k <= |lines| && RunPass2(lines, k, syms, 0, true).Some?
    ensures InOrder(RunPass2(lines, k, syms, 0, true).value)
  {
    hide Pass2Line, InOrder;
    if k == 0 {
      assert InOrder(Pass2([], syms, [])) by { NothingInOrder(syms); }
    } else {
      RunInOrder(lines, k - 1, syms);
      LineInOrder(lines[k - 1], RunPass2(lines, k - 1, syms, 0, true).value);
    }
  }

  lemma NothingInOrder(syms: Symtab)
    ensures InOrder(Pass2([], syms, []))
  {
  }

  /** The relocations of line `k` come behind those of the lines before it, and stay. */
  lemma {:induction false} RelocationsStay(lines: Source, k: nat, n: nat, syms: Symtab)
    requires k < n <= |lines| && RunPass2(lines, n, syms, 0, true).Some?
    ensures RunPass2(lines, k, syms, 0, true).Some?
    ensures var p, q := RunPass2(lines, k, syms, 0, true).value, RunPass2(lines, n, syms, 0, true).value;
      var e := LineBytes(lines[k], p.syms, Wrap(|p.out|), true);
      e.Some? && |p.relocs| + |e.value.relocs| <= |q.relocs|
      && forall i :: 0 <= i < |e.value.relocs| ==> q.relocs[|p.relocs| + i] == Place(e.value.relocs[i], |p.out|)
    decreases n
  {
    hide LineBytes, LineSymbols;
    RunsArePrefixClosed(lines, k, n, syms, 0, true);
    if k >= n - 1 {
    } else {
      RelocationsStay(lines, k, n - 1, syms);
    }
  }

  /** The origin is where pass 2 gets to. */
  lemma BaseLine(toks: Line, p: Pass1, q: Pass2)
    requires Pass1Line(toks, p, true).Some? && Pass2Line(toks, q, 0, true).Some? && p.base <= |q.out|
    ensures Pass1Line(toks, p, true).value.base <= |Pass2Line(toks, q, 0, true).value.out|
  {
    hide Encode, Eval, FindOpcode, AlignUp, DirectiveSize, InstrSize, CText, PeekSymbol, LineSymbols, DirectiveOf,
         DefineLabels, WordLe, SetExtern, SetGlobal, SetValue;
    WrapSmallOut(q, toks);
    WrapSmall(|q.out|);
  }

  lemma {:induction false} BaseReached(lines: Source, k: nat, syms: Symtab)
    requires k <= |lines| && RunPass1(lines, k, true).Some? && RunPass2(lines, k, syms, 0, true).Some?
    ensures RunPass1(lines, k, true).value.base <= |RunPass2(lines, k, syms, 0, true).value.out| <= MAX_OUTPUT
  {
    hide Pass1Line, Pass2Line;
    if k == 0 {
    } else {
      BaseReached(lines, k - 1, syms);
      BaseLine(lines[k - 1], RunPass1(lines, k - 1, true).value, RunPass2(lines, k - 1, syms, 0, true).value);
      Pass2Grows(lines[k - 1], RunPass2(lines, k - 1, syms, 0, true).value, 0, true);
    }
  }

  /* ---- One compiled source ---- */

  predicate Compiles(lines: Source, f: ObjFile) {
    AssembleObject(lines).Some? && ObjectFits(AssembleObject(lines).value) && Compiled(lines) == Some(f)
  }

  /** The object file of a source: one section, the bytes behind the origin; indices are valid; relocated words apart.
      */
  lemma CompiledShape(lines: Source, f: ObjFile)
    requires Compiles(lines, f)
    ensures ValidIndices(f) && |f.secs| == 1
    ensures var p, base := ObjectBefore(lines, |lines|), Final(lines).base;
      && InOrder(p) && base <= |p.out| <= MAX_OUTPUT && f.secs[0].data == p.out[base..] && |f.rels| == |p.relocs|
      && f.secs[0].vmaHint == base
      && forall i :: 0 <= i < |f.rels| ==> f.rels[i] == RelMeaning(Rebase(p.relocs[i], base))
  {
    hide RunPass1, RunPass2, ObjectFits, Compiled, AssembleObject, InOrder, SymMeaning, RelMeaning, Rebase;
    PassOneRan(lines);
    CompiledIs(lines);
    ObjectIs(lines);
    ObjectRun(lines);
    var p, o := ObjectBefore(lines, |lines|), AssembleObject(lines).value;
    RunInOrder(lines, |lines|, Final(lines).syms);
    BaseReached(lines, |lines|, Final(lines).syms);
    IndicesValid(p, Final(lines).base, o);
    SliceWhole(p.out, Final(lines).base);
  }

  lemma SliceWhole(out: seq<Byte>, base: nat)
    requires base <= |out|
    ensures (if |out| > base then out[base..] else []) == out[base..]
  {
  }

  lemma PassOneRan(lines: Source)
    requires AssembleObject(lines).Some?
    ensures RunPass1(lines, |lines|, true).Some?
  {
    hide RunPass1, RunPass2;
  }

  lemma IndicesValid(p: Pass2, base: Word, o: Object)
    requires InOrder(p) && o == ObjectOf(p, base) && ObjectFits(o)
    ensures ValidIndices(Meaning(o))
  {
    hide NameFits;
    forall i | 0 <= i < |o.relocs| ensures Meaning(o).rels[i].symIdx < |o.syms| {
      assert o.relocs[i] == Rebase(p.relocs[i], base);
      WrapSmall(p.relocs[i].sym);
    }
  }

  /** Offsets from the origin, taken modulo 2^32, keep words apart. */
  lemma ApartFromBase(a: nat, b: nat, base: nat)
    requires a + 4 <= b <= 0x80_0000 && base <= 0x80_0000
    ensures var x, y := Wrap(a - base), Wrap(b - base); x + 4 <= y || y + 4 <= x
  {
    FromBaseWrap(a, base);
    FromBaseWrap(b, base);
  }

  lemma FromBaseWrap(a: nat, base: nat)
    requires a <= 0x80_0000 && base <= 0x80_0000
    ensures Wrap(a - base) == if a >= base then a - base else a - base + 0x1_0000_0000
  {
  }

  lemma RelationsApart(lines: Source, f: ObjFile, i: nat, j: nat)
    requires Compiles(lines, f) && i < j < |f.rels|
    ensures f.rels[i].offset + 4 <= f.rels[j].offset || f.rels[j].offset + 4 <= f.rels[i].offset
    ensures f.rels[i].secIdx == f.rels[j].secIdx == 0
  {
    hide AssembleObject, ObjectBefore, Final, Compiled, ObjectFits;
    CompiledShape(lines, f);
    PassOneRan(lines);
    var p, base := ObjectBefore(lines, |lines|), Final(lines).base;
    ApartFromBase(p.relocs[i].offset, p.relocs[j].offset, base);
  }

  /* ---- All of them ---- */

  predicate AllCompile(srcs: seq<Source>, objs: Objs) {
    |srcs| == |objs| && forall i :: 0 <= i < |srcs| ==> Compiles(srcs[i], objs[i])
  }

  predicate SingleSections(objs: Objs) {
    forall i :: 0 <= i < |objs| ==> |objs[i].secs| == 1
  }

  lemma CompiledShapes(srcs: seq<Source>, objs: Objs)
    requires AllCompile(srcs, objs)
    ensures AllValid(objs) && SingleSections(objs)
  {
    hide Compiles, ValidIndices, Final, ObjectBefore;
    forall i | 0 <= i < |objs| ensures ValidIndices(objs[i]) && |objs[i].secs| == 1 {
      CompiledShape(srcs[i], objs[i]);
    }
  }

  lemma {:induction false} OneSectionEach(objs: Objs, n: nat)
    requires SingleSections(objs) && n <= |objs|
    ensures |Sections(objs, n)| == n
    ensures forall i :: 0 <= i < n ==> Sections(objs, n)[i] == objs[i].secs[0]
  {
    if n == 0 {
    } else {
      OneSectionEach(objs, n - 1);
    }
  }

  /** The sites of the first `n` objects, in order of object and relocation. */
  lemma {:induction false} SitesOrdered(srcs: seq<Source>, objs: Objs, bases: seq<Word>, gs: seq<GlobalSym>, n: nat)
    requires AllCompile(srcs, objs) && n <= |objs| && AllValid(objs) && |Sections(objs, n)| <= |bases|
    requires Sites(objs, bases, gs, n).Some?
    ensures AllApart(Sites(objs, bases, gs, n).value)
    ensures forall s :: s in Sites(objs, bases, gs, n).value ==> s.sec < n
  {
    hide Compiles, ValidIndices, ObjSites, Apart;
    CompiledShapes(srcs, objs);
    OneSectionEach(objs, n);
    if n == 0 {
    } else {
      OneSectionEach(objs, n - 1);
      SitesOrdered(srcs, objs, bases, gs, n - 1);
      var a := Sites(objs, bases, gs, n - 1).value;
      ObjectSites(srcs[n - 1], objs[n - 1], bases, n - 1, gs);
      var b := ObjSites(objs[n - 1], bases, n - 1, gs, |objs[n - 1].rels|).value;
      assert Sites(objs, bases, gs, n).value == a + b;
      AppendApart(a, b, n - 1);
    }
  }

  lemma AppendApart(a: seq<Site>, b: seq<Site>, n: nat)
    requires AllApart(a) && AllApart(b)
    requires (forall s :: s in a ==> s.sec < n) && (forall s :: s in b ==> s.sec == n)
    ensures AllApart(a + b) && forall s :: s in a + b ==> s.sec < n + 1
  {
    forall i, j | 0 <= i < j < |a + b| ensures Apart((a + b)[i], (a + b)[j]) {
      if i < |a| <= j {
        assert a[i] in a && b[j - |a|] in b;
      } else if i >= |a| {
        assert Apart(b[i - |a|], b[j - |a|]);
      }
    }
  }

  lemma ObjectSites(lines: Source, f: ObjFile, bases: seq<Word>, start: nat, gs: seq<GlobalSym>)
    requires Compiles(lines, f) && ValidIndices(f) && start + |f.secs| <= |bases|
    requires ObjSites(f, bases, start, gs, |f.rels|).Some?
    ensures var b := ObjSites(f, bases, start, gs, |f.rels|).value;
      AllApart(b) && forall s :: s in b ==> s.sec == start
  {
    hide Compiles, ValidIndices, ObjSites, FindGlobal;
    ObjSitesAre(f, bases, start, gs, |f.rels|);
    var b := ObjSites(f, bases, start, gs, |f.rels|).value;
    forall i | 0 <= i < |b| ensures b[i].sec == start && b[i].offset == f.rels[i].offset {
      assert SiteOf(f, bases, start, gs, f.rels[i]) == Some(b[i]);
      SectionZero(lines, f, i);
    }
    forall i, j | 0 <= i < j < |b| ensures Apart(b[i], b[j]) {
      RelationsApart(lines, f, i, j);
    }
  }

  lemma SectionZero(lines: Source, f: ObjFile, i: nat)
    requires Compiles(lines, f) && i < |f.rels|
    ensures f.rels[i].secIdx == 0
  {
    hide Compiles;
    CompiledShape(lines, f);
  }

  /** The relocated words of a link of assembled sources are always apart. */
  lemma LinkedApart(srcs: seq<Source>, objs: Objs, textBase: Word, bases: seq<Word>, sites: seq<Site>, data: Data)
    requires AllCompile(srcs, objs) && Linked(objs, textBase, bases, sites, data)
    ensures AllApart(sites) && |bases| == |data| == |objs|
    ensures forall m :: 0 <= m < |objs| ==>
      |Sections(objs, m)| == m && |objs[m].secs| == 1 && SectionData(objs)[m] == objs[m].secs[0].data
      && |data[m]| == |objs[m].secs[0].data|
  {
    hide Compiles, Globals, Sites, AssignAddresses, AllApart, ApplySites, ValidIndices;
    CompiledShapes(srcs, objs);
    OneSectionEach(objs, |objs|);
    SitesOrdered(srcs, objs, bases, Globals(objs, bases, |objs|).value, |objs|);
    forall m | 0 <= m < |objs| ensures |Sections(objs, m)| == m && |objs[m].secs| == 1 {
      OneSectionEach(objs, m);
    }
  }

  /* ---- A reference and its relocation ---- */

  /** Line `k` of the source refers to `y`, an external symbol of it. */
  predicate RefersOut(lines: Source, ts: seq<Token>, y: string) {
    SimpleRef(ts) && ts[0] == Ident(y) && ParseRegister(y).None? && Declared(lines, Extern, y)
  }

  /** Word `q` of line `k` is emitted as `w`, with a relocation of this kind against `y` with this addend. */
  ghost predicate Relocated(lines: Source, k: nat, q: nat, w: Word, kind: Byte, y: string, addend: int)
    requires AssembleObject(lines).Some?
  {
    && k < |lines| && q < 2
    && var p := ObjectBefore(lines, k);
       var e := LineBytes(lines[k], p.syms, Wrap(|p.out|), true);
       && e.Some? && q < |e.value.relocs| && 4 * q + 4 <= |e.value.bytes|
       && FindSymbol(p.syms, y).Some?
       && e.value.relocs[q] == Reloc(4 * q, FindSymbol(p.syms, y).value, kind, Int32(addend))
       && e.value.bytes[4 * q..4 * q + 4] == WordLe(w)
  }

  lemma PeeksExternal(lines: Source, k: nat, ts: seq<Token>, y: string)
    requires AssembleObject(lines).Some? && k <= |lines| && RefersOut(lines, ts, y)
    ensures var syms := ObjectBefore(lines, k).syms;
      && FindSymbol(syms, y).Some? && syms[FindSymbol(syms, y).value].extern
      && PeekSymbol(ts, syms) == Some((FindSymbol(syms, y).value, Addend(ts)))
  {
    hide RunPass1, RunPass2, ObjectBefore, Declared;
    ObjectFlags(lines, k, y);
  }

  lemma LineEmits(lines: Source, k: nat)
    requires AssembleObject(lines).Some? && k < |lines|
    ensures var p := ObjectBefore(lines, k);
      LineBytes(lines[k], p.syms, Wrap(|p.out|), true).Some?
  {
    hide LineBytes, LineSymbols, RunPass1, RunPass2;
    ObjectRun(lines);
    LineBytesInImage(lines, k, |lines|, Final(lines).syms, 0, true);
  }

  /** A branch, JMP or CALL to an external symbol leaves its offset to the linker, with opcode and register in place. */
  lemma TransferRelocated(lines: Source, k: nat, m: string, rd: Cpu.Reg, ts: seq<Token>, y: string)
    requires AssembleObject(lines).Some? && k < |lines| && TransferTo(lines[k], m, rd, ts) && RefersOut(lines, ts, y)
    ensures var (op, r, kind) := TransferCode(UpperCase(m), rd);
      Relocated(lines, k, 0, Instr(op, r, 0, 0), kind, y, Addend(ts))
  {
    hide TransferTo, RefersOut, TransferCode, LineBytes, Eval, Instr, PeekSymbol, ObjectBefore, AssembleObject,
         WordLe, Int32;
    var p := ObjectBefore(lines, k);
    PeeksExternal(lines, k, ts, y);
    TransferEncodes(lines[k], p.syms, Wrap(|p.out|), true, m, rd, ts);
    var (op, r, kind) := TransferCode(UpperCase(m), rd);
    assert WordLe(Instr(op, r, 0, 0))[0..4] == WordLe(Instr(op, r, 0, 0));
  }

  lemma WordRelocated(lines: Source, k: nat, ts: seq<Token>, y: string)
    requires AssembleObject(lines).Some? && k < |lines| && DataLines.Directs(lines[k], ".WORD", ts)
        && RefersOut(lines, ts, y)
    ensures Relocated(lines, k, 0, 0, ABS32, y, Addend(ts))
  {
    hide RefersOut, Eval, PeekSymbol, ObjectBefore, AssembleObject, WordLe, Int32, DirectiveOf, UpperCase;
    var p := ObjectBefore(lines, k);
    PeeksExternal(lines, k, ts, y);
    DataLines.DirectiveNames(DropLabels(lines[k])[0].name);
    assert WordLe(0)[0..4] == WordLe(0);
  }

  /** `MOVI32 rd, ts` */
  predicate LongLine(toks: Line, rd: Cpu.Reg, ts: seq<Token>) {
    var us := DropLabels(toks);
    |us| == |ts| + 3 && us[0].Ident? && UpperCase(us[0].name) == "MOVI32" && Instructions.Names(us[1], rd)
    && us[2] == Comma && us[3..] == ts
  }

  lemma LongRow()
    ensures Row("MOVI32") == Some(OpEntry(0x00, Movi32, 0))
  {
  }

  lemma LongRelocated(lines: Source, k: nat, rd: Cpu.Reg, ts: seq<Token>, y: string)
    requires AssembleObject(lines).Some? && k < |lines| && LongLine(lines[k], rd, ts) && RefersOut(lines, ts, y)
    ensures Relocated(lines, k, 0, Instr(0x0F, rd, 0, 0), MOVI32_LO, y, Addend(ts))
    ensures Relocated(lines, k, 1, Instr(0x13, rd, 0, 0), MOVI32_HI, y, Addend(ts))
  {
    hide RefersOut, Eval, PeekSymbol, ObjectBefore, AssembleObject, WordLe, Int32, UpperCase, Instr, Row,
         RegisterComma, LineBytes;
    var p := ObjectBefore(lines, k);
    PeeksExternal(lines, k, ts, y);
    LongRow();
    var us := DropLabels(lines[k])[1..];
    Instructions.MnemonicLine(lines[k], p.syms, Wrap(|p.out|), true, DropLabels(lines[k])[0].name,
                              OpEntry(0x00, Movi32, 0));
    Instructions.Takes(us, rd);
    assert us[2..] == ts;
    var lo, hi := WordLe(Instr(0x0F, rd, 0, 0)), WordLe(Instr(0x13, rd, 0, 0));
    assert (lo + hi)[0..4] == lo && (lo + hi)[4..8] == hi;
  }

  /* ---- Through the linker ---- */

  /** The sources' objects have been linked, at these bases, without sections on top of each other or beyond 2^32. */
  predicate LinkedSources(srcs: seq<Source>, objs: Objs, textBase: Word, bases: seq<Word>, sites: seq<Site>, data: Data)
  {
    && AllCompile(srcs, objs) && AllValid(objs) && Linked(objs, textBase, bases, sites, data)
    && |bases| == |data| == |objs| && DisjointSections(bases, data)
    && forall m :: 0 <= m < |objs| ==> bases[m] + |data[m]| <= 0x1_0000_0000
  }

  /** Source `d` exports `y`, and line `i` is its label. */
  predicate ExportsLine(lines: Source, i: nat, y: string) {
    && i < |lines| && LabelAt(lines, i, y) && Declared(lines, Global, y)
    && forall j :: 0 <= j < |lines| ==> SizeSeen(lines[j])
  }

  /** The final address of line `i` of source `d`. */
  function LineAddress(srcs: seq<Source>, bases: seq<Word>, d: nat, i: nat): int
    requires d < |srcs| == |bases| && AssembleObject(srcs[d]).Some? && i <= |srcs[d]|
  {
    bases[d] + Offset(srcs[d], i)
  }

  /** The record of an exported label: in section 0, global, at the line's distance from the origin. */
  lemma ExportRecord(lines: Source, f: ObjFile, i: nat, y: string) returns (n: nat)
    requires Compiles(lines, f) && ExportsLine(lines, i, y)
    ensures n < |f.syms| && Exports(f, n) && f.syms[n].name == y && f.syms[n].secIdx == 0
    ensures f.syms[n].value == Wrap(Offset(lines, i))
  {
    hide AssembleObject, LabelAt, Declared, SizeSeen, Offset, Compiled, ObjectFits;
    RecordOf(lines, y);
    n :| 0 <= n < |f.syms| && f.syms[n].name == y;
    RecordsTell(lines, n);
    LabelNotExtern(lines, i, y);
  }

  /** The relocation record of a relocated word. */
  lemma RelocationFields(lines: Source, f: ObjFile, k: nat, q: nat, w: Word, kind: Byte, y: string, addend: int)
    requires Compiles(lines, f) && Relocated(lines, k, q, w, kind, y, addend)
    ensures var j, idx := |ObjectBefore(lines, k).relocs| + q, FindSymbol(ObjectBefore(lines, k).syms, y).value;
      && j < |f.rels| && idx < |f.syms|
      && f.rels[j] == Rel(Wrap(Offset(lines, k) + 4 * q), idx, kind, 0, Int32(addend))
      && f.syms[idx].name == y
  {
    hide LineBytes, ObjectFits, WordLe, ObjectBefore, AssembleObject, Final, Int32, Rebase, RelMeaning, Place, Compiled;
    CompiledShape(lines, f);
    PassOneRan(lines);
    CompiledIs(lines);
    ObjectIs(lines);
    RelocationAt(lines, k, q, w, kind, y, addend);
    ObjectIndex(lines, k, y);
    var p, base := ObjectBefore(lines, k), Final(lines).base;
    RecordFields(|p.out|, q, base, kind, FindSymbol(p.syms, y).value, addend);
  }

  lemma RelocationRecord(lines: Source, f: ObjFile, k: nat, q: nat, w: Word, kind: Byte, y: string, addend: int)
    returns (j: nat)
    requires k < |lines| && Compiles(lines, f) && Relocated(lines, k, q, w, kind, y, addend)
    requires Declared(lines, Extern, y)
    ensures j < |f.rels| && f.rels[j].symIdx < |f.syms|
    ensures f.rels[j].offset == Wrap(Offset(lines, k) + 4 * q) && f.rels[j].kind == kind && f.rels[j].secIdx == 0
    ensures f.rels[j].addend == Int32(addend)
    ensures f.syms[f.rels[j].symIdx].name == y && f.syms[f.rels[j].symIdx].secIdx == SEC_UNDEF
  {
    hide Declared, ObjectFits, ObjectBefore, AssembleObject, Int32, Compiled, Relocated, Offset;
    RelocationFields(lines, f, k, q, w, kind, y, addend);
    j := |ObjectBefore(lines, k).relocs| + q;
    RecordsTell(lines, f.rels[j].symIdx);
  }

  lemma RecordFields(at: nat, q: nat, base: Word, kind: Byte, idx: nat, addend: int)
    requires q < 2 && at <= MAX_OUTPUT && idx < 0x1_0000_0000
    ensures var r := RelMeaning(Rebase(Place(Reloc(4 * q, idx, kind, Int32(addend)), at), base));
      r == Rel(Wrap(at - base + 4 * q), idx, kind, 0, Int32(addend))
  {
    WrapSmall(at + 4 * q);
    WrapSmall(idx);
    assert at + 4 * q - base == at - base + 4 * q;
    Int32Twice(addend);
  }

  lemma Int32Twice(v: int)
    ensures Int32(Int32(v)) == Int32(v)
  {
  }

  lemma ObjectIndex(lines: Source, k: nat, y: string)
    requires AssembleObject(lines).Some? && k <= |lines| && FindSymbol(ObjectBefore(lines, k).syms, y).Some?
    requires ObjectFits(AssembleObject(lines).value)
    ensures var o, idx := AssembleObject(lines).value, FindSymbol(ObjectBefore(lines, k).syms, y).value;
      idx < |o.syms| < 0x1_0000_0000 && o.syms[idx].name == y
  {
    hide AssembleObject, NameFits, RunPass1, RunPass2;
    ObjectIs(lines);
    PassOneRan(lines);
    ObjectRun(lines);
    TableGrows(lines, k, |lines|, Final(lines).syms);
  }

  lemma {:induction false} TableGrows(lines: Source, k: nat, n: nat, syms: Symtab)
    requires k <= n <= |lines| && RunPass2(lines, n, syms, 0, true).Some?
    ensures RunPass2(lines, k, syms, 0, true).Some?
    ensures var a, b := RunPass2(lines, k, syms, 0, true).value.syms, RunPass2(lines, n, syms, 0, true).value.syms;
      |a| <= |b| && forall i :: 0 <= i < |a| ==> b[i].name == a[i].name
    decreases n
  {
    hide LineBytes, LineSymbols;
    if k >= n {
    } else {
      TableGrows(lines, k, n - 1, syms);
      Pass2Flags(lines[n - 1], RunPass2(lines, n - 1, syms, 0, true).value.syms, "");
    }
  }

  /** The relocation and the word in the output of pass 2. */
  lemma RelocationAt(lines: Source, k: nat, q: nat, w: Word, kind: Byte, y: string, addend: int)
    requires AssembleObject(lines).Some? && Relocated(lines, k, q, w, kind, y, addend)
    ensures var p, e := ObjectBefore(lines, k), ObjectBefore(lines, |lines|);
      && |p.out| + 4 * q + 4 <= |e.out| <= MAX_OUTPUT && |p.relocs| + q < |e.relocs|
      && e.relocs[|p.relocs| + q] == Place(Reloc(4 * q, FindSymbol(p.syms, y).value, kind, Int32(addend)), |p.out|)
      && Read32(e.out, |p.out| + 4 * q) == w
  {
    hide LineBytes, RunPass1, RunPass2, WordLe, Read32, Int32;
    PassOneRan(lines);
    ObjectRun(lines);
    var p, e := ObjectBefore(lines, k), ObjectBefore(lines, |lines|);
    RelocationsStay(lines, k, |lines|, Final(lines).syms);
    LineBytesInImage(lines, k, |lines|, Final(lines).syms, 0, true);
    BaseReached(lines, |lines|, Final(lines).syms);
    var b := LineBytes(lines[k], p.syms, Wrap(|p.out|), true).value.bytes;
    var at := |p.out| + 4 * q;
    InnerSlice(e.out, |p.out|, |b|, 4 * q);
    ImageWord(e.out, at, w);
  }

  lemma InnerSlice(s: seq<Byte>, a: nat, n: nat, o: nat)
    requires a + n <= |s| && o + 4 <= n
    ensures s[a..a + n][o..o + 4] == s[a + o..a + o + 4]
  {
    var t, u := s[a..a + n][o..o + 4], s[a + o..a + o + 4];
    assert forall k :: 0 <= k < 4 ==> t[k] == s[a..a + n][o + k] == s[a + o + k] == u[k];
    assert t == u;
  }

  /** The word of the object's section. */
  lemma SectionWord(lines: Source, f: ObjFile, k: nat, q: nat, w: Word, kind: Byte, y: string, addend: int)
    requires Compiles(lines, f) && Relocated(lines, k, q, w, kind, y, addend)
    requires |f.secs| == 1 && Wrap(Offset(lines, k) + 4 * q) + 4 <= |f.secs[0].data|
    ensures Offset(lines, k) + 4 * q >= 0 && Offset(lines, k) + 4 * q + 4 <= |f.secs[0].data|
    ensures Read32(f.secs[0].data, Offset(lines, k) + 4 * q) == w
  {
    hide LineBytes, ObjectFits, WordLe, Read32, ObjectBefore, AssembleObject, Final, Compiled;
    CompiledShape(lines, f);
    PassOneRan(lines);
    RelocationAt(lines, k, q, w, kind, y, addend);
    var p, e, base := ObjectBefore(lines, k), ObjectBefore(lines, |lines|), Final(lines).base;
    var at := |p.out| + 4 * q;
    assert at - base == Offset(lines, k) + 4 * q;
    SliceWord(e.out, base, at);
  }

  lemma SliceWord(out: seq<Byte>, base: nat, at: nat)
    requires base <= |out| <= MAX_OUTPUT && at + 4 <= |out| && Wrap(at - base) + 4 <= |out| - base
    ensures at >= base && Read32(out[base..], at - base) == Read32(out, at)
  {
    FromBaseWrap(at, base);
  }

  /** Main step: in the linked image the relocated word is patched, for the address it lies at, with the final address
      of the exported line plus the addend. */
  lemma RelocatedReaches(srcs: seq<Source>, objs: Objs, textBase: Word, bases: seq<Word>, sites: seq<Site>, data: Data,
                         m: nat, k: nat, q: nat, w: Word, kind: Byte, y: string, addend: int, d: nat, i: nat)
    returns (s: Site)
    requires LinkedSources(srcs, objs, textBase, bases, sites, data) && m < |srcs| == |objs| && d < |srcs|
    requires k < |srcs[m]| && i < |srcs[d]|
    requires Compiles(srcs[m], objs[m]) && Compiles(srcs[d], objs[d])
    requires Relocated(srcs[m], k, q, w, kind, y, addend) && Declared(srcs[m], Extern, y) && ExportsLine(srcs[d], i, y)
    ensures s.kind == kind && s.addr == LineAddress(srcs, bases, m, k) + 4 * q && SiteOk(s, SectionData(objs))
    ensures s.target == Wrap(LineAddress(srcs, bases, d, i) + addend)
    ensures Link(objs, textBase).Some? && s.addr + 4 <= |Link(objs, textBase).value|
    ensures Read32(Link(objs, textBase).value, s.addr) == PatchWord(s, w)
  {
    hide Linked, AllCompile, Compiles, Relocated, Declared, ExportsLine, Read32, PatchWord, DisjointSections, Offset,
         AllApart, AssembleObject, ValidIndices, Sections, Link, SiteOk, Int32;
    LinkedApart(srcs, objs, textBase, bases, sites, data);
    var j := RelocationRecord(srcs[m], objs[m], k, q, w, kind, y, addend);
    var n := ExportRecord(srcs[d], objs[d], i, y);
    assert RefersTo(objs, m, j, d, n);
    s := SiteMeans(objs, textBase, bases, sites, data, m, j, d, n);
    SiteHolds(objs, textBase, bases, sites, data, s);
    SectionWord(srcs[m], objs[m], k, q, w, kind, y, addend);
    Assembled(srcs[m], objs[m]);
    Assembled(srcs[d], objs[d]);
    WrapSmall(Offset(srcs[m], k) + 4 * q);
    WrapSmall(bases[m] + s.offset);
    TargetIs(bases[d], Offset(srcs[d], i), addend);
    PatchedInImage(objs, textBase, bases, sites, data, s);
  }

  lemma Assembled(lines: Source, f: ObjFile)
    requires Compiles(lines, f)
    ensures AssembleObject(lines).Some?
  {
  }

  /** Sites of a link that succeeded are in bounds. */
  lemma SiteHolds(objs: Objs, textBase: Word, bases: seq<Word>, sites: seq<Site>, data: Data, s: Site)
    requires Linked(objs, textBase, bases, sites, data) && s in sites
    ensures SiteOk(s, SectionData(objs)) && InBounds(s, SectionData(objs))
  {
    hide AssignAddresses, Globals, Sites, ApplySites;
    RelocationSucceedsIff(sites, SectionData(objs));
  }

  lemma TargetIs(base: Word, offset: int, addend: int)
    ensures Wrap(Wrap(base + Wrap(offset)) + Int32(addend)) == Wrap(base + offset + addend)
  {
  }

  /* ---- The theorems ---- */

  /** Main result: the word of a branch, JMP or CALL to `y`, `y + n` or `y - n`, where `y` is external in source `m`
      and an exported label of source `d`, goes, executed where the linker has put it, to the label's final address
      plus n, as its mnemonic says; CALL links through r14. */
  lemma ExternalTransfer(srcs: seq<Source>, objs: Objs, textBase: Word, bases: seq<Word>, sites: seq<Site>, data: Data,
                         m: nat, k: nat, name: string, rd: Cpu.Reg, ts: seq<Token>, y: string, d: nat, i: nat)
    requires LinkedSources(srcs, objs, textBase, bases, sites, data) && m < |srcs| == |objs| && d < |srcs|
    requires k < |srcs[m]| && TransferTo(srcs[m][k], name, rd, ts) && RefersOut(srcs[m], ts, y)
    requires i < |srcs[d]| && ExportsLine(srcs[d], i, y)
    ensures AssembleObject(srcs[m]).Some? && AssembleObject(srcs[d]).Some? && Link(objs, textBase).Some?
    ensures var image, at := Link(objs, textBase).value, LineAddress(srcs, bases, m, k);
      && 0 <= at && at + 4 <= |image| && at < 0x1_0000_0000
      && Transfers(UpperCase(name), rd, Read32(image, at), at, Wrap(LineAddress(srcs, bases, d, i) + Addend(ts)))
  {
    hide LinkedSources, ExportsLine, Relocated, Transfers, TransferTo, TransferCode, Read32, AssembleObject, Offset,
         Link, Declared, PatchWord, SiteOk, Instr, Compiles, LineAddress;
    SourceCompiles(srcs, objs, textBase, bases, sites, data, m);
    SourceCompiles(srcs, objs, textBase, bases, sites, data, d);
    TransferRelocated(srcs[m], k, name, rd, ts, y);
    var (op, r, kind) := TransferCode(UpperCase(name), rd);
    var w := Instr(op, r, 0, 0);
    var s := RelocatedReaches(srcs, objs, textBase, bases, sites, data, m, k, 0, w, kind, y, Addend(ts), d, i);
    PatchedTransfers(s, SectionData(objs), UpperCase(name), rd);
  }

  lemma SourceCompiles(srcs: seq<Source>, objs: Objs, textBase: Word, bases: seq<Word>, sites: seq<Site>, data: Data,
                       m: nat)
    requires LinkedSources(srcs, objs, textBase, bases, sites, data) && m < |srcs|
    ensures |bases| == |srcs| == |objs| && AllValid(objs) && Compiles(srcs[m], objs[m])
    ensures AssembleObject(srcs[m]).Some?
  {
    hide Linked, DisjointSections, AssembleObject, ValidIndices, ObjectFits, Compiled;
  }

  lemma PatchedTransfers(s: Site, data: Data, m: string, rd: Cpu.Reg)
    requires s.kind == TransferCode(m, rd).2 && SiteOk(s, data)
    ensures Transfers(m, rd, PatchWord(s, Instr(TransferCode(m, rd).0, TransferCode(m, rd).1, 0, 0)), s.addr, s.target)
  {
    hide Transfers, Cpu.Opcode, Cpu.Rd, Cpu.Soff, Instr, Condition, ConditionCode, TransferWord, InBounds;
    var (op, r, kind) := TransferCode(m, rd);
    var w, dist := Instr(op, r, 0, 0), s.target - s.addr;
    TransferCodes(m, rd);
    Disasm.InstrFields(op, r, 0, 0);
    HighKept(w, dist % 0x10_0000, 0x10_0000);
    OffsetField(PatchWord(s, w), dist);
    assert s.addr + dist == s.target;
    WrapSmall(s.target);
    WordTransfers(m, rd, PatchWord(s, w), s.addr, s.target);
  }

  /** Main result for data: a `.word y`, `y + n` or `y - n` holds the label's final address plus n. */
  lemma ExternalWord(srcs: seq<Source>, objs: Objs, textBase: Word, bases: seq<Word>, sites: seq<Site>, data: Data,
                     m: nat, k: nat, ts: seq<Token>, y: string, d: nat, i: nat)
    requires LinkedSources(srcs, objs, textBase, bases, sites, data) && m < |srcs| == |objs| && d < |srcs|
    requires k < |srcs[m]| && DataLines.Directs(srcs[m][k], ".WORD", ts) && RefersOut(srcs[m], ts, y)
    requires i < |srcs[d]| && ExportsLine(srcs[d], i, y)
    ensures AssembleObject(srcs[m]).Some? && AssembleObject(srcs[d]).Some? && Link(objs, textBase).Some?
    ensures var image, at := Link(objs, textBase).value, LineAddress(srcs, bases, m, k);
      && 0 <= at && at + 4 <= |image|
      && Read32(image, at) == Wrap(LineAddress(srcs, bases, d, i) + Addend(ts))
  {
    hide LinkedSources, ExportsLine, Relocated, DataLines.Directs, Read32, AssembleObject, Offset, Link, Declared,
         SiteOk, Compiles, LineAddress;
    SourceCompiles(srcs, objs, textBase, bases, sites, data, m);
    SourceCompiles(srcs, objs, textBase, bases, sites, data, d);
    WordRelocated(srcs[m], k, ts, y);
    var s := RelocatedReaches(srcs, objs, textBase, bases, sites, data, m, k, 0, 0, ABS32, y, Addend(ts), d, i);
  }

  /** Main result for MOVI32: the two instructions leave the label's final address plus n in the register. */
  lemma ExternalLoad(srcs: seq<Source>, objs: Objs, textBase: Word, bases: seq<Word>, sites: seq<Site>, data: Data,
                     m: nat, k: nat, rd: Cpu.Reg, ts: seq<Token>, y: string, d: nat, i: nat)
    requires LinkedSources(srcs, objs, textBase, bases, sites, data) && m < |srcs| == |objs| && d < |srcs|
    requires k < |srcs[m]| && LongLine(srcs[m][k], rd, ts) && RefersOut(srcs[m], ts, y)
    requires i < |srcs[d]| && ExportsLine(srcs[d], i, y)
    ensures AssembleObject(srcs[m]).Some? && AssembleObject(srcs[d]).Some? && Link(objs, textBase).Some?
    ensures var image, at := Link(objs, textBase).value, LineAddress(srcs, bases, m, k);
      && 0 <= at && at + 8 <= |image|
      && PairLoads(Read32(image, at), Read32(image, at + 4), rd, Wrap(LineAddress(srcs, bases, d, i) + Addend(ts)))
  {
    hide LinkedSources, ExportsLine, Relocated, LongLine, Read32, AssembleObject, Offset, Link, Declared, SiteOk,
         Compiles, LineAddress, PairLoads, PatchWord, Instr, Cpu.Opcode, Cpu.Rd;
    SourceCompiles(srcs, objs, textBase, bases, sites, data, m);
    SourceCompiles(srcs, objs, textBase, bases, sites, data, d);
    LongRelocated(srcs[m], k, rd, ts, y);
    var lo, hi := Instr(0x0F, rd, 0, 0), Instr(0x13, rd, 0, 0);
    var s := RelocatedReaches(srcs, objs, textBase, bases, sites, data, m, k, 0, lo, MOVI32_LO, y, Addend(ts), d, i);
    var t := RelocatedReaches(srcs, objs, textBase, bases, sites, data, m, k, 1, hi, MOVI32_HI, y, Addend(ts), d, i);
    Disasm.InstrFields(0x0F, rd, 0, 0);
    Disasm.InstrFields(0x13, rd, 0, 0);
    PatchedPairLoads(s, t, lo, hi);
  }

  /** Sources without an origin, except perhaps the first, are laid out without overlap. */
  lemma UnhintedApart(objs: Objs, textBase: Word, bases: seq<Word>, sites: seq<Site>, data: Data)
    requires Linked(objs, textBase, bases, sites, data)
    requires NoOverflow(Sections(objs, |objs|), textBase)
    requires forall j :: 0 < j < |Sections(objs, |objs|)| ==> Sections(objs, |objs|)[j].vmaHint == 0
    ensures |bases| == |data| && DisjointSections(bases, data)
  {
    hide Globals, Sites, ApplySites, AssignAddresses, NoOverflow, Sections;
    var secs := Sections(objs, |objs|);
    forall i, j | 0 <= i < j < |data| ensures bases[i] + |data[i]| <= bases[j] {
      LayoutSound(secs, textBase, i, j);
    }
  }

  /** The same for two sources without an origin, in plain terms: A has `.extern y` and a `CALL` (or a branch, or a
      JMP) to it, B exports the label y; both are assembled, written, read and linked. */
  lemma AcrossTwoFiles(a: Source, b: Source, fa: ObjFile, fb: ObjFile, textBase: Word, k: nat, name: string,
                       rd: Cpu.Reg, ts: seq<Token>, y: string, i: nat)
    requires Compiles(a, fa) && Compiles(b, fb) && fa.secs != [] && fb.secs != []
    requires fb.secs[0].vmaHint == 0 && NoOverflow([fa.secs[0], fb.secs[0]], textBase)
    requires k < |a| && TransferTo(a[k], name, rd, ts) && RefersOut(a, ts, y) && i < |b| && ExportsLine(b, i, y)
    requires AllValid([fa, fb]) && Link([fa, fb], textBase).Some?
    ensures AssembleObject(a).Some? && AssembleObject(b).Some?
    ensures var image, bases := Link([fa, fb], textBase).value, AssignAddresses([fa.secs[0], fb.secs[0]], textBase);
      var at := bases[0] + Offset(a, k);
      && 0 <= at && at + 4 <= |image| && at < 0x1_0000_0000
      && Transfers(UpperCase(name), rd, Read32(image, at), at, Wrap(bases[1] + Offset(b, i) + Addend(ts)))
  {
    hide *;
    var srcs, objs := [a, b], [fa, fb];
    assert srcs[0] == a && srcs[1] == b;
    var bases, sites, data := TwoLinked(a, b, fa, fb, textBase);
    BothLinked(srcs, objs, textBase, bases, sites, data);
    AddressIs(srcs, bases, 0, k);
    AddressIs(srcs, bases, 1, i);
    ExternalTransfer(srcs, objs, textBase, bases, sites, data, 0, k, name, rd, ts, y, 1, i);
  }

  lemma BothLinked(srcs: seq<Source>, objs: Objs, textBase: Word, bases: seq<Word>, sites: seq<Site>, data: Data)
    requires LinkedSources(srcs, objs, textBase, bases, sites, data)
    ensures |srcs| == |objs| == |bases|
  {
    hide Linked, DisjointSections, Compiles, ValidIndices;
  }

  lemma AddressIs(srcs: seq<Source>, bases: seq<Word>, d: nat, i: nat)
    requires d < |srcs| == |bases| && AssembleObject(srcs[d]).Some? && i <= |srcs[d]|
    ensures LineAddress(srcs, bases, d, i) == bases[d] + Offset(srcs[d], i)
  {
    hide AssembleObject, Offset;
  }

  lemma TwoLinked(a: Source, b: Source, fa: ObjFile, fb: ObjFile, textBase: Word)
    returns (bases: seq<Word>, sites: seq<Site>, data: Data)
    requires Compiles(a, fa) && Compiles(b, fb) && fa.secs != [] && fb.secs != []
    requires fb.secs[0].vmaHint == 0 && NoOverflow([fa.secs[0], fb.secs[0]], textBase)
    requires AllValid([fa, fb]) && Link([fa, fb], textBase).Some?
    ensures LinkedSources([a, b], [fa, fb], textBase, bases, sites, data)
    ensures AssembleObject(a).Some? && AssembleObject(b).Some?
    ensures bases == AssignAddresses([fa.secs[0], fb.secs[0]], textBase)
  {
    hide Compiles, Linked, AssignAddresses, NoOverflow, Link, DisjointSections, Sections, ValidIndices;
    var srcs, objs := [a, b], [fa, fb];
    Assembled(a, fa);
    Assembled(b, fb);
    CompiledShapes(srcs, objs);
    OneSectionEach(objs, 2);
    var secs := [fa.secs[0], fb.secs[0]];
    assert Sections(objs, |objs|) == secs;
    LinkPieces(objs, textBase);
    bases, sites, data :| Linked(objs, textBase, bases, sites, data);
    LinkedApart(srcs, objs, textBase, bases, sites, data);
    UnhintedApart(objs, textBase, bases, sites, data);
    BasesAre(objs, textBase, bases, sites, data);
    BothFit(secs, textBase);
  }

  lemma BasesAre(objs: Objs, textBase: Word, bases: seq<Word>, sites: seq<Site>, data: Data)
    requires Linked(objs, textBase, bases, sites, data)
    ensures bases == AssignAddresses(Sections(objs, |objs|), textBase)
  {
    hide Globals, Sites, ApplySites, AssignAddresses, Sections;
  }

  lemma BothFit(secs: seq<Sec>, textBase: Word)
    requires |secs| == 2 && NoOverflow(secs, textBase)
    ensures var b := AssignAddresses(secs, textBase);
      b[0] + |secs[0].data| <= 0x1_0000_0000 && b[1] + |secs[1].data| <= 0x1_0000_0000
  {
    hide SecBase, NextFree;
    assert secs[1..][0] == secs[1];
  }
}
