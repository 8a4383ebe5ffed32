/** A source whose linked image differs from its flat image: `.org 0x100`, then `a: .word a + 1 + 1`. */
module LostTerm {
  import opened Words
  import opened OpTable
  import opened Lexer
  import opened Assembler
  import opened Passes
  import opened Symbols
  import opened Dobj
  import opened Linker
  import opened Moving
  import opened Toolchain
  import opened Addends
  import opened Truncation

  /** `.org 0x100` and `a: .word e`. */
  function Source(e: seq<Token>): (lines: seq<Line>)
    ensures |lines| == 2
  {
    [Origin(0x100), [Label("a"), Dot(".word")] + e]
  }

  function Table(): Symtab {
    [Symbol("a", 0x100, false, true, false, true)]
  }

  lemma SourceTokens(e: seq<Token>)
    ensures DropLabels(Source(e)[1]) == [Dot(".word")] + e && DropLabels(Source(e)[1])[1..] == e
    ensures LabelCount(Source(e)[1]) == 1 && forall y :: IsLabelOf(Source(e)[1], y) <==> y == "a"
    ensures LineDirective(Source(e)[1]) == (WordDir, e) && WideOperand(Source(e)[1]) == Some(e)
  {
    hide DirectiveOf;
    WordIsWord();
    var toks := Source(e)[1];
    assert toks[1..] == [Dot(".word")] + e;
    assert DropLabels(toks[1..]) == toks[1..];
    assert ([Dot(".word")] + e)[1..] == e;
    assert LabelCount(toks[1..]) == 0;
    assert forall y :: !IsLabelOf(toks[1..], y);
  }

  lemma PassOne(e: seq<Token>, obj: bool)
    ensures var base := if obj then 0x100 else 0;
      RunPass1(Source(e), 2, obj) == Some(Pass1(0x104, Table(), base))
  {
    hide DirectiveOf;
    SourceTokens(e);
    OriginIsOrg(0x100);
    WordIsWord();
    PassOneSize(Source(e)[1]);
    var base := if obj then 0x100 else 0;
    assert RunPass1(Source(e), 0, obj) == Some(Pass1(0, [], 0));
    assert Pass1Line(Origin(0x100), Pass1(0, [], 0), obj) == Some(Pass1(0x100, [], base));
    DefineNew([], "a", 0x100);
    assert [] + [Symbol("a", 0x100, false, true, false, true)] == Table();
    assert Source(e)[1][1..] == [Dot(".word")] + e;
    assert DefineLabels(Source(e)[1][1..], Table(), 0x100) == Some(Table());
    assert DefineLabels(Source(e)[1], [], 0x100) == Some(Table());
    assert Pass1Line(Source(e)[1], Pass1(0x100, [], base), obj) == Some(Pass1(0x104, Table(), base));
  }

  lemma PassTwo(e: seq<Token>, obj: bool, base: Word, m: Emission)
    requires DirectiveBytes(WordDir, e, Table(), 0x100, obj) == Some(m) && |m.bytes| == 4
    ensures RunPass2(Source(e), 2, Table(), base, obj)
            == Some(Pass2(Zeros(0x100) + m.bytes, Table(), PlaceAll(m.relocs, 0x100 - base)))
  {
    hide DirectiveOf, Eval, PeekSymbol, WordLe, Place;
    SourceTokens(e);
    OriginIsOrg(0x100);
    WordIsWord();
    var t, none: seq<Reloc> := Table(), [];
    var p, q: Pass2 := Pass2([], t, none), Pass2(Zeros(0x100), t, none);
    assert RunPass2(Source(e), 0, t, base, obj) == Some(p);
    assert LineBytes(Origin(0x100), t, 0, obj) == Some(Emission(Zeros(0x100), none));
    assert LineSymbols(Origin(0x100), t) == Some(t);
    assert p.out + Zeros(0x100) == Zeros(0x100) && none + PlaceAll(none, 0 - base) == none;
    assert Pass2Line(Origin(0x100), p, base, obj) == Some(q);
    assert LineBytes(Source(e)[1], t, 0x100, obj) == Some(m) && LineSymbols(Source(e)[1], t) == Some(t);
    assert none + PlaceAll(m.relocs, 0x100 - base) == PlaceAll(m.relocs, 0x100 - base);
  }

  /** `a + 1 + 1`. */
  function Long(): seq<Token> {
    [Ident("a"), Plus, Int(1), Plus, Int(1)]
  }

  lemma LongValues()
    ensures KeptTokens(Long()) == 3 && Cut(Long()) == [Ident("a"), Plus, Int(1)] && Rest(Long()) == [Plus, Int(1)]
    ensures IntTail(Rest(Long())) && ShiftsByZero(Rest(Long())) && Sum(Rest(Long())) == 1
    ensures ParseRegister("a").None? && FindSymbol(Table(), "a") == Some(0)
    ensures PeekSymbol(Long(), Table()) == Some((0, 1))
    ensures Eval(Long(), Table(), true).Some? && Eval(Long(), Table(), true).value.0 == 0x102
    ensures Eval(Cut(Long()), Table(), true).Some? && Eval(Cut(Long()), Table(), true).value.0 == 0x101
  {
    var us := Rest(Long());
    assert us == [Plus, Int(1)] && us[2..] == [];
    assert Cut(Long()) == [Ident("a"), Plus, Int(1)];
    assert ParseRegister("a").None? by {
      assert UpperCase("a")[0] == 'A' && |UpperCase("a")| == 1;
    }
    assert KeptValue(Long(), Table()) == 0x101;
    EvalDropped(Long(), Table());
    TailEvaluates(0x101, us, Table());
    TailIsSum(0x101, us);
    assert Sum(us[2..]) == 0 && Sum(us) == 1;
  }

  lemma LongObject()
    ensures AssembleObject(Source(Long()))
            == Some(Object(0x100, WordLe(0), 0x100, Table(), [Reloc(0, 0, ABS32, 1)]))
  {
    hide PeekSymbol, Eval, RunPass1, RunPass2, WordLe;
    LongValues();
    PassOne(Long(), true);
    assert Int32(1) == 1;
    var m := Emission(WordLe(0), [Reloc(0, 0, ABS32, 1)]);
    PassTwo(Long(), true, 0x100, m);
    assert PlaceAll(m.relocs, 0) == m.relocs;
    assert (Zeros(0x100) + WordLe(0))[0x100..] == WordLe(0);
  }

  lemma FlatWord(e: seq<Token>, v: Word)
    requires Eval(e, Table(), true).Some? && Eval(e, Table(), true).value.0 == v
    ensures AssembleFlat(Source(e)) == Some(Zeros(0x100) + WordLe(v))
  {
    hide PeekSymbol, Eval, RunPass1, RunPass2, WordLe;
    PassOne(e, false);
    WrapSmall(v);
    PassTwo(e, false, 0, Words1(v));
  }

  lemma LongIsCut()
    ensures AllLocal(Source(Long())) && CutAll(Source(Long())) == Source(Cut(Long()))
    ensures OriginAt(Source(Long()), 0, 0x100)
  {
    hide DirectiveOf, WideOperand, Cut, CutLine, IsLabelName;
    var lines := Source(Long());
    SourceTokens(Long());
    OriginIsOrg(0x100);
    QuietNotCut(lines, Origin(0x100), 0x100);
    assert CutLine(lines, lines[1]) == Source(Cut(Long()))[1] by { LongLineCut(); }
    assert CutAll(lines)[0] == Origin(0x100) && CutAll(lines)[1] == Source(Cut(Long()))[1];
    assert forall y :: !IsEquOf(lines[0], y) && !IsEquOf(lines[1], y);
    assert LocalNames(lines, lines[0]) && LocalNames(lines, lines[1]);
  }

  lemma LongLineCut()
    ensures CutLine(Source(Long()), Source(Long())[1]) == Source(Cut(Long()))[1]
  {
    hide DirectiveOf, WideOperand, Cut;
    var lines := Source(Long());
    SourceTokens(Long());
    LongValues();
    assert IsLabelOf(lines[1], "a") && IsLabelName(lines, "a");
    assert lines[1][..2] == [Label("a"), Dot(".word")];
  }

  lemma LongFits()
    ensures AssembleObject(Source(Long())).Some? && ObjectFits(AssembleObject(Source(Long())).value)
  {
    hide AssembleObject, Source, WordLe, NameFits;
    LongObject();
    NameOfA();
  }

  lemma NameOfA()
    ensures NameFits("a")
  {
  }

  lemma LongLinks(textBase: Word)
    ensures AssembleObject(Source(Long())).Some?
    ensures LinkFile(Write(AssembleObject(Source(Long())).value), textBase) == AssembleFlat(Source(Cut(Long())))
  {
    hide *;
    LongFits();
    LongIsCut();
    LinkedIffKept(Source(Long()), 0, 0x100, textBase);
  }

  lemma WordsDiffer()
    ensures WordLe(0x101) == [0x01, 0x01, 0, 0] && WordLe(0x102) == [0x02, 0x01, 0, 0]
    ensures Zeros(0x100) + WordLe(0x101) != Zeros(0x100) + WordLe(0x102)
  {
    hide Zeros;
    assert (Zeros(0x100) + WordLe(0x101))[0x100] == 1 && (Zeros(0x100) + WordLe(0x102))[0x100] == 2;
  }

  /** Linked the word is 0x101, flat it is 0x102: the object file keeps `a + 1` only. By their contracts these
      are the bytes `LinkerMachine.LinkObjects` and `AssemblerMachine.AssembleToImage` produce. */
  lemma LongExpressionLost(textBase: Word)
    ensures PeekSymbol(Long(), Table()) == Some((0, 1))
    ensures Eval(Long(), Table(), true).Some? && Eval(Long(), Table(), true).value.0 == 0x102
    ensures AssembleObject(Source(Long())).Some?
    ensures var linked := LinkFile(Write(AssembleObject(Source(Long())).value), textBase);
      var flat := AssembleFlat(Source(Long()));
      && linked == Some(Zeros(0x100) + [0x01, 0x01, 0, 0])
      && flat == Some(Zeros(0x100) + [0x02, 0x01, 0, 0])
      && linked != flat
  {
    hide *;
    LongValues();
    LongLinks(textBase);
    FlatWord(Long(), 0x102);
    FlatWord(Cut(Long()), 0x101);
    WordsDiffer();
  }
}
