/** The two passes agree: on the address of every line, and on the value of every symbol. */
module Passes {
  import opened Words
  import opened OpTable
  import opened Lexer
  import opened Assembler

  /* ---- Sizes ---- */

  predicate IsLong(f: Format) {
    f.Movi32? || f.Push? || f.Pop?
  }

  lemma LongRows(m: string)
    requires Row(m).Some?
    ensures IsLong(Row(m).value.fmt) <==> m == "MOVI32" || m == "PUSH" || m == "POP"
  {
  }

  lemma LongNames()
    ensures UpperCase("movi32") == "MOVI32" && UpperCase("push") == "PUSH" && UpperCase("pop") == "POP"
  {
  }

  /** Pass 1 looks at the spelling of a mnemonic, pass 2 at its table row: the sizes are the same. */
  lemma SizeOfMnemonic(m: string)
    requires FindOpcode(m).Some?
    ensures InstrSize(m) == if IsLong(FindOpcode(m).value.fmt) then 8 else 4
  {
    LongNames();
    LongRows(UpperCase(m));
    hide UpperCase, Row;
  }

  lemma EncodeLength(e: OpEntry, ts: seq<Token>, syms: Symtab, addr: Word, obj: bool)
    requires Encode(e, ts, syms, addr, obj).Some?
    ensures |Encode(e, ts, syms, addr, obj).value.bytes| == if IsLong(e.fmt) then 8 else 4
  {
    hide RegisterComma, Register, Eval, RegRegImm, MemOperand, IndexOperands, PeekSymbol, Instr, WordLe;
  }

  /* ---- Addresses ---- */

  function LabelCount(toks: Line): nat {
    if toks != [] && toks[0].Label? then 1 + LabelCount(toks[1..]) else 0
  }

  /** The number of bytes a data directive stands for, labels aside. */
  function DataSize(toks: Line): Word {
    DirectiveSize(DropLabels(toks))
  }

  /** Pass 1 sees the size of this line: at most one label stands before a directive that takes room. */
  predicate SizeSeen(toks: Line) {
    LabelCount(toks) <= 1 || DataSize(toks) == 0
  }

  lemma {:induction false} DropLabelsFacts(toks: Line)
    ensures LabelCount(toks) == 0 ==> DropLabels(toks) == toks
    ensures LabelCount(toks) == 1 ==> DropLabels(toks) == toks[1..]
    ensures LabelCount(toks) >= 1 ==> toks != [] && toks[0].Label?
    ensures LabelCount(toks) >= 2 ==> toks[1..] != [] && toks[1..][0].Label?
    ensures DropLabels(toks) == [] || !DropLabels(toks)[0].Label?
  {
    if toks == [] || !toks[0].Label? {
    } else {
      DropLabelsFacts(toks[1..]);
    }
  }

  lemma PassOneSize(toks: Line)
    ensures DirectiveSize(toks) == if LabelCount(toks) <= 1 then DataSize(toks) else 0
  {
    hide UpperCase, CText, DirectiveOf;
    DropLabelsFacts(toks);
    var ts := DropLabels(toks);
    assert ts != [] ==> !ts[0].Label?;
  }

  lemma AlignReaches(org: Word, align: Word)
    ensures Wrap(org + Wrap(AlignUp(org, align) - org)) == AlignUp(org, align)
  {
    var n := AlignUp(org, align);
    if n < org {
      DivUnique(n - org + 0x1_0000_0000, 0x1_0000_0000, 0, n - org + 0x1_0000_0000);
    }
  }

  /** The address after a directive line: pass 1 computes it, pass 2 gets there by emitting. */
  lemma DirectiveAgrees(toks: Line, p: Pass1, syms: Symtab, org: Word, obj: bool)
    requires var ts := DropLabels(toks);
      && ts != [] && ts[0].Dot? && p.org == org
      && DirectiveBytes(DirectiveOf(ts[0].name), ts[1..], syms, org, obj).Some?
      && Pass1Directive(DirectiveOf(ts[0].name), ts[1..], toks, p, obj).Some?
    ensures var ts := DropLabels(toks);
      var d := DirectiveOf(ts[0].name);
      var n := |DirectiveBytes(d, ts[1..], syms, org, obj).value.bytes|;
      var q := Pass1Directive(d, ts[1..], toks, p, obj).value.org;
      if d.Org? then q == org + n
      else if d.Align? then q == Wrap(org + n)
      else q == Wrap(org + DirectiveSize(toks)) && (!IsData(d) ==> n == 0)
  {
    hide UpperCase, DirectiveOf, DirectiveBytes, AlignUp, DirectiveSize, LabelCount, SetValue, SetGlobal, SetExtern,
         Eval;
    var ts := DropLabels(toks);
    PassOneSize(toks);
    LineSize(ts, syms, org, obj);
    if DirectiveOf(ts[0].name).Org? || DirectiveOf(ts[0].name).Align? {
      OriginAgrees(DirectiveOf(ts[0].name), toks, ts[1..], p, syms, obj);
    }
  }

  lemma OriginAgrees(d: Directive, toks: Line, args: seq<Token>, p: Pass1, syms: Symtab, obj: bool)
    requires (d.Org? || d.Align?) && DirectiveBytes(d, args, syms, p.org, obj).Some?
    ensures var n := |DirectiveBytes(d, args, syms, p.org, obj).value.bytes|;
      var q := Pass1Directive(d, args, toks, p, obj);
      q.Some? && q.value.org == if d.Org? then p.org + n else Wrap(p.org + n)
  {
    hide AlignUp;
    if d.Align? {
      AlignReaches(p.org, Wrap(args[0].value));
    }
  }

  /** One line keeps the passes together exactly when pass 1 sees its size. */
  lemma LineAgrees(toks: Line, p1: Pass1, p2: Pass2, base: Word, obj: bool)
    requires p1.org == |p2.out| && Pass1Line(toks, p1, obj).Some? && Pass2Line(toks, p2, base, obj).Some?
    ensures Pass1Line(toks, p1, obj).value.org == |Pass2Line(toks, p2, base, obj).value.out| <==> SizeSeen(toks)
  {
    hide Encode, DirectiveBytes, Pass1Directive, UpperCase, DirectiveOf, InstrSize, FindOpcode, DefineLabels,
         LineSymbols, DirectiveSize, LabelCount;
    var org := p1.org;
    var ts := DropLabels(toks);
    var e := LineBytes(toks, p2.syms, org, obj).value;
    WrapSmall(org);
    WrapSmall(org + |e.bytes|);
    PassOneSize(toks);
    if ts == [] {
      NoDataSize(ts);
    } else if ts[0].Ident? {
      NoDataSize(ts);
      SizeOfMnemonic(ts[0].name);
      EncodeLength(FindOpcode(ts[0].name).value, ts[1..], p2.syms, org, obj);
    } else {
      var q := p1.(syms := DefineLabels(toks, p1.syms, org).value);
      DirectiveAgrees(toks, q, p2.syms, org, obj);
      LineSize(ts, p2.syms, org, obj);
      if IsData(DirectiveOf(ts[0].name)) {
        SizesDiffer(org, |e.bytes|, DataSize(toks));
      }
    }
  }

  lemma WrapSmall(n: nat)
    requires n < 0x1_0000_0000
    ensures Wrap(n) == n
  {
  }

  lemma SizesDiffer(org: nat, n: nat, size: nat)
    requires org + n < 0x1_0000_0000 && Wrap(n) == size
    ensures n == size && Wrap(org + size) == org + n && (org == org + n <==> size == 0)
  {
  }

  lemma NoDataSize(ts: seq<Token>)
    requires ts == [] || ts[0].Ident?
    ensures DirectiveSize(ts) == 0
  {
  }

  predicate IsData(d: Directive) {
    d.WordDir? || d.ByteDir? || d.Space? || d.Ascii? || d.Asciiz?
  }

  /** What a directive emits in pass 2 is the size pass 1 computes from the line without its labels. */
  lemma LineSize(ts: seq<Token>, syms: Symtab, org: Word, obj: bool)
    requires ts != [] && ts[0].Dot? && DirectiveBytes(DirectiveOf(ts[0].name), ts[1..], syms, org, obj).Some?
    ensures var d := DirectiveOf(ts[0].name);
      var n := |DirectiveBytes(d, ts[1..], syms, org, obj).value.bytes|;
      if IsData(d) then Wrap(n) == DirectiveSize(ts)
      else DirectiveSize(ts) == 0 && (d.Org? || d.Align? || n == 0)
  {
    hide Eval, UpperCase, CText, DirectiveOf, PeekSymbol, AlignUp;
  }

  /* ---- The whole program ---- */

  lemma {:induction false} RunsArePrefixClosed(lines: seq<Line>, k: nat, n: nat, syms: Symtab, base: Word, obj: bool)
    requires k <= n <= |lines|
    ensures RunPass1(lines, n, obj).Some? ==> RunPass1(lines, k, obj).Some?
    ensures RunPass2(lines, n, syms, base, obj).Some? ==> RunPass2(lines, k, syms, base, obj).Some?
    decreases n
  {
    hide Pass1Line, Pass2Line;
    if k >= n {
    } else {
      RunsArePrefixClosed(lines, k, n - 1, syms, base, obj);
    }
  }

  /** Both passes succeed, with these symbols and this base handed from the first to the second. */
  predicate Succeed(lines: seq<Line>, syms: Symtab, base: Word, obj: bool) {
    RunPass1(lines, |lines|, obj).Some? && RunPass2(lines, |lines|, syms, base, obj).Some?
  }

  predicate SameAddress(lines: seq<Line>, k: nat, syms: Symtab, base: Word, obj: bool)
    requires k <= |lines|
  {
    RunPass1(lines, k, obj).Some? && RunPass2(lines, k, syms, base, obj).Some?
    && RunPass1(lines, k, obj).value.org == |RunPass2(lines, k, syms, base, obj).value.out|
  }

  /** Main result: in an error-free assembly every line starts in pass 2 at its pass-1 address exactly
      when pass 1 sees the size of every line. */
  lemma PassesAgree(lines: seq<Line>, syms: Symtab, base: Word, obj: bool)
    requires Succeed(lines, syms, base, obj)
    ensures (forall k :: 0 <= k <= |lines| ==> SameAddress(lines, k, syms, base, obj))
            <==> (forall i :: 0 <= i < |lines| ==> SizeSeen(lines[i]))
  {
    hide Pass1Line, Pass2Line, SizeSeen;
    if forall i :: 0 <= i < |lines| ==> SizeSeen(lines[i]) {
      forall k | 0 <= k <= |lines| ensures SameAddress(lines, k, syms, base, obj) {
        AddressesMeet(lines, k, syms, base, obj);
      }
    }
    if forall k :: 0 <= k <= |lines| ==> SameAddress(lines, k, syms, base, obj) {
      forall i | 0 <= i < |lines| ensures SizeSeen(lines[i]) {
        assert SameAddress(lines, i, syms, base, obj) && SameAddress(lines, i + 1, syms, base, obj);
        LineAgrees(lines[i], RunPass1(lines, i, obj).value, RunPass2(lines, i, syms, base, obj).value, base, obj);
      }
    }
  }

  lemma {:induction false} AddressesMeet(lines: seq<Line>, k: nat, syms: Symtab, base: Word, obj: bool)
    requires k <= |lines| && Succeed(lines, syms, base, obj)
    requires forall i :: 0 <= i < |lines| ==> SizeSeen(lines[i])
    ensures SameAddress(lines, k, syms, base, obj)
  {
    hide Pass1Line, Pass2Line, SizeSeen;
    RunsArePrefixClosed(lines, k, |lines|, syms, base, obj);
    if k == 0 {
    } else {
      AddressesMeet(lines, k - 1, syms, base, obj);
      LineAgrees(lines[k - 1], RunPass1(lines, k - 1, obj).value, RunPass2(lines, k - 1, syms, base, obj).value,
          base, obj);
    }
  }

  /** The bytes of every line sit in the final image at the address the line started at. */
  lemma {:induction false} LineBytesInImage(lines: seq<Line>, k: nat, n: nat, syms: Symtab, base: Word, obj: bool)
    requires k < n <= |lines| && RunPass2(lines, n, syms, base, obj).Some?
    ensures RunPass2(lines, k, syms, base, obj).Some?
    ensures var p := RunPass2(lines, k, syms, base, obj).value;
      var e := LineBytes(lines[k], p.syms, Wrap(|p.out|), obj);
      var out := RunPass2(lines, n, syms, base, obj).value.out;
      && e.Some? && |p.out| + |e.value.bytes| <= |out|
      && out[|p.out|..|p.out| + |e.value.bytes|] == e.value.bytes
    decreases n
  {
    hide LineBytes, LineSymbols, RunPass2;
    RunsArePrefixClosed(lines, k, n, syms, base, obj);
    RunsArePrefixClosed(lines, n - 1, n, syms, base, obj);
    LastLine(lines, n, syms, base, obj);
    if k >= n - 1 {
    } else {
      LineBytesInImage(lines, k, n - 1, syms, base, obj);
      var p, q := RunPass2(lines, n - 1, syms, base, obj).value, RunPass2(lines, n, syms, base, obj).value;
      var a := |RunPass2(lines, k, syms, base, obj).value.out|;
      var b := a + |LineBytes(lines[k], RunPass2(lines, k, syms, base, obj).value.syms, Wrap(a), obj).value.bytes|;
      assert q.out[a..b] == p.out[a..b];
    }
  }

  lemma LastLine(lines: seq<Line>, n: nat, syms: Symtab, base: Word, obj: bool)
    requires 0 < n <= |lines| && RunPass2(lines, n, syms, base, obj).Some?
    ensures RunPass2(lines, n - 1, syms, base, obj).Some?
    ensures var p, q := RunPass2(lines, n - 1, syms, base, obj).value, RunPass2(lines, n, syms, base, obj).value;
      var e := LineBytes(lines[n - 1], p.syms, Wrap(|p.out|), obj);
      e.Some? && q.out == p.out + e.value.bytes
  {
    hide LineBytes, LineSymbols;
  }

  /* ---- Two labels before a data directive ---- */

  /** `a: b: .word 1`, then `c: .word c`. */
  function TwoLabels(): seq<Line> {
    [[Label("a"), Label("b"), Dot(".word"), Int(1)], [Label("c"), Dot(".word"), Ident("c")]]
  }

  function TwoLabelsTable(): (t: Symtab)
    ensures |t| == 3
  {
    [Symbol("a", 0, false, true, false, true), Symbol("b", 0, false, true, false, true),
     Symbol("c", 0, false, true, false, true)]
  }

  lemma TwoLabelsTokens()
    ensures |TwoLabels()| == 2
    ensures var u, v := TwoLabels()[0], TwoLabels()[1];
      && u[1..] == [Label("b"), Dot(".word"), Int(1)] && u[1..][1..] == [Dot(".word"), Int(1)]
      && v[1..] == [Dot(".word"), Ident("c")] && DropLabels(u) == [Dot(".word"), Int(1)]
      && DropLabels(v) == [Dot(".word"), Ident("c")]
  {
    var u, v := TwoLabels()[0], TwoLabels()[1];
    assert u[1..] == [Label("b"), Dot(".word"), Int(1)];
    assert u[1..][1..] == [Dot(".word"), Int(1)];
    assert v[1..] == [Dot(".word"), Ident("c")];
    assert DropLabels(u[1..][1..]) == u[1..][1..];
    assert DropLabels(u[1..]) == u[1..][1..];
    assert DropLabels(v[1..]) == v[1..];
  }

  lemma DefineNew(syms: Symtab, name: string, org: Word)
    requires FindSymbol(syms, name).None?
    ensures DefineLabel(syms, name, org) == Some(syms + [Symbol(name, org, false, true, false, true)])
  {
    var t := syms + [Symbol(name, 0, false, false, false, false)];
    assert t[|syms| := Symbol(name, org, false, true, false, true)]
        == syms + [Symbol(name, org, false, true, false, true)];
  }

  lemma TwoLabelsDefined()
    ensures DefineLabels(TwoLabels()[0], [], 0) == Some(TwoLabelsTable()[..2])
    ensures DefineLabels(TwoLabels()[1], TwoLabelsTable()[..2], 0) == Some(TwoLabelsTable())
  {
    TwoLabelsTokens();
    hide DefineLabel;
    var u, v := TwoLabels()[0], TwoLabels()[1];
    var t1 := [Symbol("a", 0, false, true, false, true)];
    var t2 := t1 + [Symbol("b", 0, false, true, false, true)];
    assert "a"[0] != "b"[0] && "a"[0] != "c"[0] && "b"[0] != "c"[0];
    DefineNew([], "a", 0);
    assert [] + t1 == t1;
    assert FindSymbol(t1[1..], "b").None? && FindSymbol(t1, "b").None?;
    DefineNew(t1, "b", 0);
    assert DefineLabels(u[1..][1..], t2, 0) == Some(t2);
    assert DefineLabels(u[1..], t1, 0) == Some(t2);
    assert t2 == TwoLabelsTable()[..2] && t2[1..][1..] == [];
    assert FindSymbol(t2[1..], "c").None? && FindSymbol(t2, "c").None?;
    DefineNew(t2, "c", 0);
    assert t2 + [Symbol("c", 0, false, true, false, true)] == TwoLabelsTable();
    assert DefineLabels(v[1..], TwoLabelsTable(), 0) == Some(TwoLabelsTable());
  }

  lemma TwoLabelsPassOne()
    ensures RunPass1(TwoLabels(), 1, false) == Some(Pass1(0, TwoLabelsTable()[..2], 0))
    ensures RunPass1(TwoLabels(), 2, false) == Some(Pass1(4, TwoLabelsTable(), 0))
  {
    hide DirectiveOf, DefineLabels, TwoLabelsTable;
    TwoLabelsTokens();
    TwoLabelsDefined();
    WordIsWord();
    var u, v := TwoLabels()[0], TwoLabels()[1];
    assert RunPass1(TwoLabels(), 0, false) == Some(Pass1(0, [], 0));
    assert DirectiveSize(u) == 0 && DirectiveSize(v) == 4;
    assert Pass1Line(u, Pass1(0, [], 0), false) == Some(Pass1(0, TwoLabelsTable()[..2], 0));
    assert Pass1Line(v, Pass1(0, TwoLabelsTable()[..2], 0), false) == Some(Pass1(4, TwoLabelsTable(), 0));
  }

  lemma TwoLabelsValues()
    ensures Eval([Int(1)], TwoLabelsTable(), true) == Some((1, []))
    ensures Eval([Ident("c")], TwoLabelsTable(), true) == Some((0, []))
  {
    var t := TwoLabelsTable();
    assert t[1..][1..][0].name == "c" && t[1..][0].name == "b";
    assert FindSymbol(t[1..][1..], "c") == Some(0);
    assert FindSymbol(t[1..], "c") == Some(1) && FindSymbol(t, "c") == Some(2);
    assert [Int(1)][1..] == [] && [Ident("c")][1..] == [];
    assert EvalTail(1, [], t, true) == Some((1, [])) && EvalTail(0, [], t, true) == Some((0, []));
  }

  lemma TwoLabelsBytes()
    ensures LineBytes(TwoLabels()[0], TwoLabelsTable(), 0, false) == Some(Emission([1, 0, 0, 0], []))
    ensures LineBytes(TwoLabels()[1], TwoLabelsTable(), 4, false) == Some(Emission([0, 0, 0, 0], []))
    ensures forall i :: 0 <= i < 2 ==> LineSymbols(TwoLabels()[i], TwoLabelsTable()) == Some(TwoLabelsTable())
  {
    hide DirectiveOf, Eval, PeekSymbol;
    TwoLabelsTokens();
    TwoLabelsValues();
    WordIsWord();
    assert [Dot(".word"), Int(1)][1..] == [Int(1)] && [Dot(".word"), Ident("c")][1..] == [Ident("c")];
    assert WordLe(1) == [1, 0, 0, 0] && WordLe(0) == [0, 0, 0, 0];
  }

  lemma TwoLabelsPassTwo()
    ensures RunPass2(TwoLabels(), 1, TwoLabelsTable(), 0, false) == Some(Pass2([1, 0, 0, 0], TwoLabelsTable(), []))
    ensures RunPass2(TwoLabels(), 2, TwoLabelsTable(), 0, false)
            == Some(Pass2([1, 0, 0, 0, 0, 0, 0, 0], TwoLabelsTable(), []))
  {
    hide LineBytes, LineSymbols, TwoLabels, TwoLabelsTable;
    TwoLabelsBytes();
    assert |TwoLabels()| == 2 by { TwoLabelsTokens(); }
    var t := TwoLabelsTable();
    var none: seq<Reloc> := [];
    assert none + PlaceAll(none, 0) == none && none + PlaceAll(none, 4) == none;
    var p: Pass2 := Pass2([], t, none);
    assert p.out + [1, 0, 0, 0] == [1, 0, 0, 0] && [1, 0, 0, 0] + [0, 0, 0, 0] == [1, 0, 0, 0, 0, 0, 0, 0];
    assert RunPass2(TwoLabels(), 0, t, 0, false) == Some(p);
    assert Pass2Line(TwoLabels()[0], p, 0, false) == Some(Pass2([1, 0, 0, 0], t, none));
  }

  /** Two labels before a data directive do make the passes disagree: the source assembles without error, its
      second line starts at 0 in pass 1 and at 4 in pass 2, and so `c: .word c` stores 0 at address 4. */
  lemma TwoLabelsDisagree()
    ensures !SizeSeen(TwoLabels()[0])
    ensures Succeed(TwoLabels(), TwoLabelsTable(), 0, false)
    ensures RunPass1(TwoLabels(), 2, false).value.syms == TwoLabelsTable()
    ensures !SameAddress(TwoLabels(), 1, TwoLabelsTable(), 0, false)
    ensures RunPass1(TwoLabels(), 1, false).value.org == 0
    ensures |RunPass2(TwoLabels(), 1, TwoLabelsTable(), 0, false).value.out| == 4
    ensures AssembleFlat(TwoLabels()) == Some([1, 0, 0, 0, 0, 0, 0, 0])
  {
    hide DirectiveOf, RunPass1, RunPass2;
    TwoLabelsPassOne();
    TwoLabelsPassTwo();
    TwoLabelsTokens();
    WordIsWord();
    var u := TwoLabels()[0];
    assert LabelCount(u[1..]) >= 1 && LabelCount(u) >= 2;
    assert DataSize(u) == 4;
  }

  lemma WordIsWord()
    ensures DirectiveOf(".word") == WordDir
  {
    assert UpperCase(".word")[1] == 'W';
    assert UpperCase(".org")[1] == 'O' && UpperCase(".extern")[1] == 'E' && UpperCase(".section")[1] == 'S';
    assert UpperCase(".global")[1] == 'G';
  }
}
