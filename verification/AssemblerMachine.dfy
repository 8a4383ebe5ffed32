/** The assembler in its own form: one object whose passes advance an address, fill an output buffer and
    extend the symbol and relocation tables in place. Every method is proved to have exactly the effect of
    its counterpart in `Assembler`; `ok` is false where the program reports an error. */
module AssemblerMachine {
  import opened Words
  import opened OpTable
  import opened Lexer
  import opened Assembler

  class Assembly {
    const objectMode: bool
    const outbuf: array<Byte>
    var orgAddr: Word
    var writePos: nat
    var symtab: Symtab
    var relocTab: seq<Reloc>
    var sectionBase: Word

    ghost predicate Valid()
      reads this
    {
      outbuf.Length == MAX_OUTPUT && writePos <= MAX_OUTPUT
    }

    /** In pass 2 the address is the position in the output. */
    ghost predicate InPass2()
      reads this
    {
      Valid() && orgAddr == writePos
    }

    /** Where pass 1 stands. */
    ghost function First(): Pass1
      reads this
    {
      Pass1(orgAddr, symtab, sectionBase)
    }

    /** Where pass 2 stands. */
    ghost function Second(): Pass2
      requires Valid()
      reads this, outbuf
    {
      Pass2(outbuf[..writePos], symtab, relocTab)
    }

    constructor (objectMode: bool)
      ensures Valid() && fresh(outbuf) && this.objectMode == objectMode
      ensures First() == Pass1(0, [], 0) && relocTab == [] && writePos == 0
    {
      this.objectMode := objectMode;
      outbuf := new Byte[MAX_OUTPUT](_ => 0);
      orgAddr, writePos, sectionBase := 0, 0, 0;
      symtab, relocTab := [], [];
    }

    /* ---- Emitting ---- */

    method EmitByte(b: Byte) returns (ok: bool)
      requires InPass2()
      modifies this`orgAddr, this`writePos, outbuf
      ensures Valid() && (ok <==> old(writePos) < MAX_OUTPUT) && (ok ==> writePos == old(writePos) + 1)
      ensures ok ==> InPass2() && Second() == old(Second()).(out := old(Second()).out + [b])
    {
      ok := writePos < MAX_OUTPUT;
      if ok {
        outbuf[writePos] := b;
        writePos := writePos + 1;
      }
      orgAddr := Wrap(orgAddr + 1);
    }

    method EmitWord(w: Word) returns (ok: bool)
      requires InPass2()
      modifies this`orgAddr, this`writePos, outbuf
      ensures Valid()
      ensures ok <==> old(writePos) + 4 <= MAX_OUTPUT
      ensures ok ==> InPass2() && Second() == old(Second()).(out := old(Second()).out + WordLe(w))
    {
      ok := EmitBytes(WordLe(w));
    }

    method EmitBytes(bytes: seq<Byte>) returns (ok: bool)
      requires InPass2()
      modifies this`orgAddr, this`writePos, outbuf
      ensures Valid()
      ensures ok <==> old(writePos) + |bytes| <= MAX_OUTPUT
      ensures ok ==> InPass2() && Second() == old(Second()).(out := old(Second()).out + bytes)
    {
      var i := 0;
      while i < |bytes|
        invariant 0 <= i <= |bytes| && InPass2() && writePos == old(writePos) + i
        invariant symtab == old(symtab) && relocTab == old(relocTab)
        invariant outbuf[..writePos] == old(outbuf[..writePos]) + bytes[..i]
      {
        ok := EmitByte(bytes[i]);
        if !ok {
          return;
        }
        assert bytes[..i + 1] == bytes[..i] + [bytes[i]];
        i := i + 1;
      }
      ok := true;
      assert bytes[..i] == bytes;
    }

    /** The zero fill of .org, .space and .align. */
    method EmitZeros(n: nat) returns (ok: bool)
      requires InPass2()
      modifies this`orgAddr, this`writePos, outbuf
      ensures Valid()
      ensures ok <==> old(writePos) + n <= MAX_OUTPUT
      ensures ok ==> InPass2() && Second() == old(Second()).(out := old(Second()).out + Zeros(n))
    {
      var i := 0;
      while i < n
        invariant 0 <= i <= n && InPass2() && writePos == old(writePos) + i
        invariant symtab == old(symtab) && relocTab == old(relocTab)
        invariant outbuf[..writePos] == old(outbuf[..writePos]) + Zeros(i)
      {
        ok := EmitByte(0);
        if !ok {
          return;
        }
        assert Zeros(i + 1) == Zeros(i) + [0];
        i := i + 1;
      }
      ok := true;
    }

    method EmitReloc(r: Reloc)
      requires InPass2()
      modifies this`relocTab
      ensures relocTab == old(relocTab) + [Place(r, writePos - sectionBase)]
    {
      relocTab := relocTab + [Reloc(Wrap(writePos - sectionBase + r.offset), r.sym, r.kind, r.addend)];
    }

    /** A line's relocations, and then its bytes. */
    method Emit(e: Emission) returns (ok: bool)
      requires InPass2()
      modifies this`orgAddr, this`writePos, this`relocTab, outbuf
      ensures Valid()
      ensures ok <==> old(writePos) + |e.bytes| <= MAX_OUTPUT
      ensures ok ==> InPass2() && Second() == Pass2(old(Second()).out + e.bytes, old(symtab),
                                                   old(relocTab) + PlaceAll(e.relocs, old(writePos) - sectionBase))
    {
      var i := 0;
      while i < |e.relocs|
        invariant 0 <= i <= |e.relocs| && InPass2() && writePos == old(writePos)
            && outbuf[..writePos] == old(outbuf[..writePos])
        invariant relocTab == old(relocTab) + PlaceAll(e.relocs, writePos - sectionBase)[..i]
      {
        EmitReloc(e.relocs[i]);
        i := i + 1;
      }
      assert PlaceAll(e.relocs, writePos - sectionBase)[..i] == PlaceAll(e.relocs, writePos - sectionBase);
      ok := EmitBytes(e.bytes);
    }

    /* ---- Symbols ---- */

    /** The linear search through the table. */
    method FindSymIndex(name: string) returns (i: nat)
      ensures FindSymbol(symtab, name) == if i < |symtab| then Some(i) else None
      ensures i <= |symtab|
    {
      hide FindSymbol;
      i := 0;
      while i < |symtab| && symtab[i].name != name
        invariant 0 <= i <= |symtab| && forall k :: 0 <= k < i ==> symtab[k].name != name
      {
        i := i + 1;
      }
    }

    /** The entry for `name`, added at the end if it is new. */
    method FindOrAdd(name: string) returns (i: nat)
      modifies this`symtab
      ensures (symtab, i) == Ensure(old(symtab), name)
    {
      i := FindSymIndex(name);
      if i == |symtab| {
        symtab := symtab + [Symbol(name, 0, false, false, false, false)];
      }
    }

    method MakeGlobal(name: string)
      modifies this`symtab
      ensures symtab == SetGlobal(old(symtab), name)
    {
      var i := FindOrAdd(name);
      symtab := symtab[i := symtab[i].(global := true)];
    }

    method MakeExtern(name: string)
      modifies this`symtab
      ensures symtab == SetExtern(old(symtab), name)
    {
      var i := FindOrAdd(name);
      symtab := symtab[i := symtab[i].(extern := true, defined := false)];
    }

    method AssignSymbol(name: string, v: int)
      modifies this`symtab
      ensures symtab == SetValue(old(symtab), name, v)
    {
      var i := FindOrAdd(name);
      symtab := symtab[i := symtab[i].(addr := Wrap(v), defined := true)];
    }

    /* ---- Pass 1 ---- */

    /** All labels the line starts with; `rest` is the index of what follows them. */
    method CollectLabels(toks: Line) returns (ok: bool, rest: nat)
      modifies this`symtab
      ensures DefineLabels(toks, old(symtab), orgAddr) == if ok then Some(symtab) else None
      ensures ok ==> rest <= |toks| && toks[rest..] == DropLabels(toks)
    {
      rest := 0;
      assert toks[0..] == toks;
      while rest < |toks| && toks[rest].Label?
        invariant 0 <= rest <= |toks| && DropLabels(toks[rest..]) == DropLabels(toks)
        invariant DefineLabels(toks[rest..], symtab, orgAddr) == DefineLabels(toks, old(symtab), orgAddr)
      {
        assert toks[rest..][1..] == toks[rest + 1..];
        var i := FindOrAdd(toks[rest].name);
        if symtab[i].defined {
          return false, rest;
        }
        symtab := symtab[i := symtab[i].(addr := orgAddr, defined := true, isLabel := true)];
        rest := rest + 1;
      }
      ok := true;
    }

    method FirstPassDirective(d: Directive, args: seq<Token>, toks: Line) returns (ok: bool)
      modifies this`orgAddr, this`symtab, this`sectionBase
      ensures Pass1Directive(d, args, toks, old(First()), objectMode) == if ok then Some(First()) else None
    {
      hide DirectiveSize, Eval, SetGlobal, SetExtern, SetValue, AlignUp;
      ok := true;
      match d
      case Org =>
        if args != [] && args[0].Int? {
          var newAddr := Wrap(args[0].value);
          if objectMode && sectionBase == 0 && newAddr != 0 {
            sectionBase := newAddr;
          }
          orgAddr := newAddr;
        }
      case Extern =>
        if args != [] && args[0].Ident? {
          MakeExtern(args[0].name);
        }
      case Section =>
      case Global =>
        if args != [] && args[0].Ident? {
          MakeGlobal(args[0].name);
        }
      case Align =>
        if args != [] && args[0].Int? {
          orgAddr := AlignUp(orgAddr, Wrap(args[0].value));
        }
      case Equ =>
        if EquParts(args).Some? {
          var (name, expr) := EquParts(args).value;
          var v := Eval(expr, symtab, false);
          if v.None? {
            return false;
          }
          AssignSymbol(name, v.value.0);
        }
      case _ => orgAddr := Wrap(orgAddr + DirectiveSize(toks));
    }

    method FirstPassLine(toks: Line) returns (ok: bool)
      modifies this`orgAddr, this`symtab, this`sectionBase
      ensures Pass1Line(toks, old(First()), objectMode) == if ok then Some(First()) else None
    {
      hide DefineLabels, DropLabels, Pass1Line, Pass1Directive, DirectiveOf, InstrSize;
      ghost var p := First();
      var i;
      ok, i := CollectLabels(toks);
      PassOneLine(toks, p, if ok then i else 0, objectMode);
      if !ok || i == |toks| {
        return;
      }
      match toks[i]
      case Dot(d) => ok := FirstPassDirective(DirectiveOf(d), toks[i + 1..], toks);
      case Ident(m) => orgAddr := Wrap(orgAddr + InstrSize(m));
      case _ =>
    }

    /** Pass 1 starts from empty tables. */
    method FirstPass(lines: seq<Line>) returns (ok: bool)
      requires symtab == [] && sectionBase == 0
      modifies this`orgAddr, this`symtab, this`sectionBase
      ensures RunPass1(lines, |lines|, objectMode) == if ok then Some(First()) else None
    {
      hide Pass1Line;
      orgAddr := 0;
      var k := 0;
      while k < |lines|
        invariant 0 <= k <= |lines| && RunPass1(lines, k, objectMode) == Some(First())
      {
        ok := FirstPassLine(lines[k]);
        if !ok {
          FirstError(lines, k + 1, objectMode);
          return;
        }
        k := k + 1;
      }
      ok := true;
    }

    /* ---- Pass 2 ---- */

    method SecondPassDirective(d: Directive, args: seq<Token>) returns (ok: bool)
      requires InPass2()
      modifies this`orgAddr, this`writePos, this`symtab, this`relocTab, outbuf
      ensures Valid() && (ok ==> InPass2())
      ensures Next(DirectiveBytes(d, args, old(symtab), old(orgAddr), objectMode),
          DirectiveSymbols(d, args, old(symtab)),
                   old(Second()), sectionBase)
              == if ok then Some(Second()) else None
    {
      hide Eval, SetGlobal, SetValue, AlignUp, PeekSymbol, WordLe, CText;
      ghost var start := Second();
      assert relocTab + PlaceAll([], writePos - sectionBase) == relocTab;
      assert start.out + Zeros(0) == start.out;
      ok := true;
      match d
      case Org =>
        if args == [] || !args[0].Int? {
          return false;
        }
        var newAddr := Wrap(args[0].value);
        if newAddr < orgAddr {
          return false;
        }
        ok := EmitZeros(newAddr - orgAddr);
      case Extern => assert start.out + [] == start.out;
      case Section => assert start.out + [] == start.out;
      case Global =>
        assert start.out + [] == start.out;
        if args != [] && args[0].Ident? {
          MakeGlobal(args[0].name);
        }
      case WordDir =>
        var ref := PeekSymbol(args, symtab);
        if objectMode && ref.Some? {
          ok := Emit(Emission(WordLe(0), [Reloc(0, ref.value.0, ABS32, Int32(ref.value.1))]));
        } else {
          var v := Eval(args, symtab, true);
          if v.None? {
            return false;
          }
          ok := EmitWord(Wrap(v.value.0));
        }
      case ByteDir =>
        var v := Eval(args, symtab, true);
        if v.None? {
          return false;
        }
        ok := EmitByte(v.value.0 % 0x100);
      case Space =>
        if args == [] || !args[0].Int? {
          return false;
        }
        ok := EmitZeros(Wrap(args[0].value));
      case Ascii =>
        if args == [] || !args[0].Str? {
          return false;
        }
        ok := EmitBytes(TextBytes(CText(args[0].text)));
      case Asciiz =>
        if args == [] || !args[0].Str? {
          return false;
        }
        ok := EmitBytes(TextBytes(CText(args[0].text)) + [0]);
      case Align =>
        if args == [] || !args[0].Int? {
          return false;
        }
        ok := EmitZeros(Wrap(AlignUp(orgAddr, Wrap(args[0].value)) - orgAddr));
      case Equ =>
        assert start.out + [] == start.out;
        if EquParts(args).None? {
          return false;
        }
        var (name, expr) := EquParts(args).value;
        var v := Eval(expr, symtab, true);
        if v.None? {
          return false;
        }
        AssignSymbol(name, v.value.0);
      case Unknown => ok := false;
    }

    method AssembleLine(toks: Line) returns (ok: bool)
      requires InPass2()
      modifies this`orgAddr, this`writePos, this`symtab, this`relocTab, outbuf
      ensures Valid() && (ok ==> InPass2())
      ensures Pass2Line(toks, old(Second()), sectionBase, objectMode) == if ok then Some(Second()) else None
    {
      hide DirectiveBytes, DirectiveSymbols, Encode, FindOpcode, DirectiveOf;
      var ts := DropLabels(toks);
      assert Wrap(writePos) == orgAddr;
      NextIsPass2Line(toks, Second(), sectionBase, objectMode);
      assert relocTab + PlaceAll([], writePos - sectionBase) == relocTab;
      if ts == [] {
        assert Second().out + [] == Second().out;
        return true;
      }
      match ts[0]
      case Dot(d) => ok := SecondPassDirective(DirectiveOf(d), ts[1..]);
      case Ident(m) =>
        var op := FindOpcode(m);
        if op.None? {
          return false;
        }
        var e := Encode(op.value, ts[1..], symtab, orgAddr, objectMode);
        if e.None? {
          return false;
        }
        ok := Emit(e.value);
      case _ => ok := false;
    }

    method SecondPass(lines: seq<Line>) returns (ok: bool)
      requires Valid() && relocTab == []
      modifies this`orgAddr, this`writePos, this`symtab, this`relocTab, outbuf
      ensures Valid() && (ok ==> InPass2())
      ensures RunPass2(lines, |lines|, old(symtab), sectionBase, objectMode) == if ok then Some(Second()) else None
    {
      hide Pass2Line;
      orgAddr, writePos := 0, 0;
      var k := 0;
      while k < |lines|
        invariant 0 <= k <= |lines| && InPass2()
        invariant RunPass2(lines, k, old(symtab), sectionBase, objectMode) == Some(Second())
      {
        ok := AssembleLine(lines[k]);
        if !ok {
          SecondError(lines, k + 1, old(symtab), sectionBase, objectMode);
          return;
        }
        k := k + 1;
      }
      ok := true;
    }
  }

  /** What a line with these bytes and symbols does to pass 2. */
  function Next(e: Option<Emission>, syms: Option<Symtab>, p: Pass2, base: Word): Option<Pass2> {
    if e.None? || syms.None? || |p.out| + |e.value.bytes| > MAX_OUTPUT then None
    else Some(Pass2(p.out + e.value.bytes, syms.value, p.relocs + PlaceAll(e.value.relocs, |p.out| - base)))
  }

  lemma NextIsPass2Line(toks: Line, p: Pass2, base: Word, obj: bool)
    ensures Pass2Line(toks, p, base, obj)
        == Next(LineBytes(toks, p.syms, Wrap(|p.out|), obj), LineSymbols(toks, p.syms), p, base)
  {
    hide LineBytes, LineSymbols;
  }

  /** An error in pass 1, or in pass 2, is never made good by later lines. */
  lemma {:induction false} FirstErrorStays(lines: seq<Line>, k: nat, n: nat, obj: bool)
    requires k <= n <= |lines| && RunPass1(lines, k, obj).None?
    ensures RunPass1(lines, n, obj).None?
    decreases n
  {
    hide Pass1Line;
    if k >= n {
    } else {
      FirstErrorStays(lines, k, n - 1, obj);
    }
  }

  lemma FirstError(lines: seq<Line>, k: nat, obj: bool)
    requires k <= |lines| && RunPass1(lines, k, obj).None?
    ensures RunPass1(lines, |lines|, obj).None?
  {
    FirstErrorStays(lines, k, |lines|, obj);
  }

  lemma {:induction false} SecondErrorStays(lines: seq<Line>, k: nat, n: nat, syms: Symtab, base: Word, obj: bool)
    requires k <= n <= |lines| && RunPass2(lines, k, syms, base, obj).None?
    ensures RunPass2(lines, n, syms, base, obj).None?
    decreases n
  {
    hide Pass2Line;
    if k >= n {
    } else {
      SecondErrorStays(lines, k, n - 1, syms, base, obj);
    }
  }

  lemma SecondError(lines: seq<Line>, k: nat, syms: Symtab, base: Word, obj: bool)
    requires k <= |lines| && RunPass2(lines, k, syms, base, obj).None?
    ensures RunPass2(lines, |lines|, syms, base, obj).None?
  {
    SecondErrorStays(lines, k, |lines|, syms, base, obj);
  }

  /** The whole program in flat mode: the two passes over the same object, and the bytes of the image. */
  method AssembleToImage(lines: seq<Line>) returns (image: Option<seq<Byte>>)
    ensures image == AssembleFlat(lines)
  {
    hide RunPass1, RunPass2;
    var a := new Assembly(false);
    var ok := a.FirstPass(lines);
    if !ok {
      return None;
    }
    assert a.sectionBase == 0 by { FlatHasNoBase(lines, |lines|); }
    ok := a.SecondPass(lines);
    image := if ok then Some(a.outbuf[..a.writePos]) else None;
  }

  lemma {:induction false} FlatHasNoBase(lines: seq<Line>, k: nat)
    requires k <= |lines| && RunPass1(lines, k, false).Some?
    ensures RunPass1(lines, k, false).value.base == 0
  {
    hide DefineLabels, DirectiveOf, Eval, SetValue, SetGlobal, SetExtern, AlignUp, DirectiveSize, InstrSize;
    if k == 0 {
    } else {
      FlatHasNoBase(lines, k - 1);
    }
  }

  /** ... and in object mode: the section from its base on, its symbols and its relocations. */
  method AssembleToObject(lines: seq<Line>) returns (o: Option<Object>)
    ensures o == AssembleObject(lines)
  {
    hide RunPass1, RunPass2;
    var a := new Assembly(true);
    var ok := a.FirstPass(lines);
    if !ok {
      return None;
    }
    var base := a.sectionBase;
    ok := a.SecondPass(lines);
    if !ok {
      return None;
    }
    var out := a.outbuf[..a.writePos];
    o := Some(Object(base, if |out| > base then out[base..] else [], base, a.symtab, a.relocTab));
  }

  /** Pass 1 on a line, by the token behind its labels. */
  lemma PassOneLine(toks: Line, p: Pass1, i: nat, obj: bool)
    requires DefineLabels(toks, p.syms, p.org).Some? ==> i <= |toks| && toks[i..] == DropLabels(toks)
    ensures var syms := DefineLabels(toks, p.syms, p.org);
      Pass1Line(toks, p, obj)
      == if syms.None? then None
         else if i == |toks| then Some(p.(syms := syms.value))
         else match toks[i]
              case Dot(d) => Pass1Directive(DirectiveOf(d), toks[i + 1..], toks, p.(syms := syms.value), obj)
              case Ident(m) => Some(p.(syms := syms.value, org := Wrap(p.org + InstrSize(m))))
              case _ => Some(p.(syms := syms.value))
  {
    hide DefineLabels, DropLabels, Pass1Directive, DirectiveOf, InstrSize;
    if DefineLabels(toks, p.syms, p.org).Some? && i < |toks| {
      assert toks[i..][0] == toks[i] && toks[i..][1..] == toks[i + 1..];
    }
  }
}
