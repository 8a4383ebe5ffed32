/** The symbol records of an object file, from the source lines: which symbols are external, which are exported, and
    where a label stands. */
module Records {
  import opened Words
  import opened OpTable
  import opened Lexer
  import opened Assembler
  import opened Passes
  import opened Symbols
  import opened Tables
  import opened Landing
  import opened Dobj
  import opened Toolchain

  /* ---- Flags of table entries ---- */

  predicate IsExternal(syms: Symtab, y: string) {
    SymbolOf(syms, y).Some? && SymbolOf(syms, y).value.extern
  }

  /** The line is `d y`, like `.extern y` or `.global y`. */
  predicate Declares(toks: Line, d: Directive, y: string) {
    var (e, args) := LineDirective(toks);
    e == d && args != [] && args[0] == Ident(y)
  }

  /** One of the first `k` lines is. */
  predicate DeclaredBy(lines: seq<Line>, k: nat, d: Directive, y: string)
    requires k <= |lines|
  {
    exists j :: 0 <= j < k && Declares(lines[j], d, y)
  }

  predicate Declared(lines: seq<Line>, d: Directive, y: string) {
    DeclaredBy(lines, |lines|, d, y)
  }

  /** From `a` to `b`: entries stay at their index under their name; of `y` the flags become `e` and `g`. */
  predicate FlagsBecome(a: Symtab, b: Symtab, y: string, e: bool, g: bool) {
    && |a| <= |b| && (forall i :: 0 <= i < |a| ==> b[i].name == a[i].name)
    && (UniqueNames(a) ==> UniqueNames(b))
    && IsExternal(b, y) == e && IsGlobal(SymbolOf(b, y)) == g
  }

  lemma Entered(syms: Symtab, name: string, s: Symbol, y: string)
    requires s.name == name
    ensures var (t, i) := Ensure(syms, name);
      && |syms| <= |t| && (forall k :: 0 <= k < |syms| ==> t[i := s][k].name == syms[k].name)
      && (UniqueNames(syms) ==> UniqueNames(t[i := s]))
      && SymbolOf(t[i := s], y) == (if y == name then Some(s) else SymbolOf(syms, y))
      && (SymbolOf(syms, name).Some? ==> t[i] == SymbolOf(syms, name).value)
      && (SymbolOf(syms, name).None? ==> t[i] == Symbol(name, 0, false, false, false, false))
  {
    EnsureThenUpdate(syms, name, s, y);
  }

  lemma GlobalFlags(syms: Symtab, name: string, y: string)
    ensures FlagsBecome(syms, SetGlobal(syms, name), y, IsExternal(syms, y), IsGlobal(SymbolOf(syms, y)) || y == name)
  {
    hide SymbolOf, UniqueNames;
    var (t, i) := Ensure(syms, name);
    Entered(syms, name, t[i].(global := true), y);
  }

  lemma ExternFlags(syms: Symtab, name: string, y: string)
    ensures FlagsBecome(syms, SetExtern(syms, name), y, IsExternal(syms, y) || y == name, IsGlobal(SymbolOf(syms, y)))
  {
    hide SymbolOf, UniqueNames;
    var (t, i) := Ensure(syms, name);
    Entered(syms, name, t[i].(extern := true, defined := false), y);
  }

  lemma ValueFlags(syms: Symtab, name: string, v: int, y: string)
    ensures FlagsBecome(syms, SetValue(syms, name, v), y, IsExternal(syms, y), IsGlobal(SymbolOf(syms, y)))
  {
    hide SymbolOf, UniqueNames;
    var (t, i) := Ensure(syms, name);
    Entered(syms, name, t[i].(addr := Wrap(v), defined := true), y);
  }

  lemma {:induction false} LabelsFlags(toks: Line, syms: Symtab, org: Word, y: string)
    requires DefineLabels(toks, syms, org).Some?
    ensures FlagsBecome(syms, DefineLabels(toks, syms, org).value, y, IsExternal(syms, y), IsGlobal(SymbolOf(syms, y)))
  {
    hide SymbolOf, UniqueNames;
    if toks == [] || !toks[0].Label? {
    } else {
      var name := toks[0].name;
      var (t, i) := Ensure(syms, name);
      Entered(syms, name, t[i].(addr := org, defined := true, isLabel := true), y);
      LabelsFlags(toks[1..], DefineLabel(syms, name, org).value, org, y);
    }
  }

  lemma FlagsCompose(a: Symtab, b: Symtab, c: Symtab, y: string, e: bool, g: bool)
    requires FlagsBecome(a, b, y, IsExternal(a, y), IsGlobal(SymbolOf(a, y))) && FlagsBecome(b, c, y, e, g)
    ensures FlagsBecome(a, c, y, e, g)
  {
    hide UniqueNames, SymbolOf;
  }

  /* ---- The passes ---- */

  lemma Pass1Flags(toks: Line, p: Pass1, obj: bool, y: string)
    requires Pass1Line(toks, p, obj).Some?
    ensures FlagsBecome(p.syms, Pass1Line(toks, p, obj).value.syms, y,
                        IsExternal(p.syms, y) || Declares(toks, Extern, y),
                        IsGlobal(SymbolOf(p.syms, y)) || Declares(toks, Global, y))
  {
    hide SetGlobal, SetExtern, SetValue, Eval, DirectiveOf, DirectiveSize, InstrSize, AlignUp, DefineLabels,
         FlagsBecome, IsExternal, SymbolOf;
    LabelsFlags(toks, p.syms, p.org, y);
    var syms := DefineLabels(toks, p.syms, p.org).value;
    var (d, args) := LineDirective(toks);
    NothingFlags(syms, y);
    if args != [] && args[0].Ident? {
      GlobalFlags(syms, args[0].name, y);
      ExternFlags(syms, args[0].name, y);
    }
    if d.Equ? && EquParts(args).Some? && Eval(EquParts(args).value.1, syms, false).Some? {
      ValueFlags(syms, EquParts(args).value.0, Eval(EquParts(args).value.1, syms, false).value.0, y);
    }
    LabelsKeep(p.syms, syms, y);
    FlagsCompose(p.syms, syms, Pass1Line(toks, p, obj).value.syms, y,
                 IsExternal(p.syms, y) || Declares(toks, Extern, y),
                 IsGlobal(SymbolOf(p.syms, y)) || Declares(toks, Global, y));
  }

  lemma LabelsKeep(a: Symtab, b: Symtab, y: string)
    requires FlagsBecome(a, b, y, IsExternal(a, y), IsGlobal(SymbolOf(a, y)))
    ensures IsExternal(b, y) == IsExternal(a, y) && IsGlobal(SymbolOf(b, y)) == IsGlobal(SymbolOf(a, y))
  {
    hide UniqueNames, SymbolOf;
  }

  lemma NothingFlags(syms: Symtab, y: string)
    ensures FlagsBecome(syms, syms, y, IsExternal(syms, y), IsGlobal(SymbolOf(syms, y)))
  {
  }

  /** In pass 1 a symbol has become external, or exported, exactly by an `.extern`, or `.global`, line so far. */
  lemma {:induction false} Pass1Declares(lines: seq<Line>, k: nat, obj: bool, y: string)
    requires k <= |lines| && RunPass1(lines, k, obj).Some?
    ensures var syms := RunPass1(lines, k, obj).value.syms;
      && UniqueNames(syms)
      && (IsExternal(syms, y) <==> DeclaredBy(lines, k, Extern, y))
      && (IsGlobal(SymbolOf(syms, y)) <==> DeclaredBy(lines, k, Global, y))
  {
    hide Pass1Line, SymbolOf, Declares;
    if k == 0 {
      assert SymbolOf([], y).None? by { NoSymbol(y); }
    } else {
      Pass1Declares(lines, k - 1, obj, y);
      Pass1Flags(lines[k - 1], RunPass1(lines, k - 1, obj).value, obj, y);
    }
  }

  lemma NoSymbol(y: string)
    ensures SymbolOf([], y).None?
  {
  }

  lemma Pass2Flags(toks: Line, syms: Symtab, y: string)
    requires LineSymbols(toks, syms).Some?
    ensures FlagsBecome(syms, LineSymbols(toks, syms).value, y, IsExternal(syms, y),
                        IsGlobal(SymbolOf(syms, y)) || Declares(toks, Global, y))
  {
    hide SetGlobal, SetValue, Eval, DirectiveOf, FlagsBecome, IsExternal, SymbolOf;
    var (d, args) := LineDirective(toks);
    NothingFlags(syms, y);
    if args != [] && args[0].Ident? {
      GlobalFlags(syms, args[0].name, y);
    }
    if d.Equ? && EquParts(args).Some? && Eval(EquParts(args).value.1, syms, true).Some? {
      ValueFlags(syms, EquParts(args).value.0, Eval(EquParts(args).value.1, syms, true).value.0, y);
    }
  }

  /** Throughout pass 2 the flags are those of the whole source, and entries keep their index. */
  lemma {:induction false} Pass2Declares(lines: seq<Line>, k: nat, syms: Symtab, base: Word, obj: bool, y: string)
    requires k <= |lines| && RunPass2(lines, k, syms, base, obj).Some? && UniqueNames(syms)
    requires IsExternal(syms, y) <==> Declared(lines, Extern, y)
    requires IsGlobal(SymbolOf(syms, y)) <==> Declared(lines, Global, y)
    ensures var t := RunPass2(lines, k, syms, base, obj).value.syms;
      && UniqueNames(t) && |syms| <= |t| && (forall i :: 0 <= i < |syms| ==> t[i].name == syms[i].name)
      && (IsExternal(t, y) <==> Declared(lines, Extern, y))
      && (IsGlobal(SymbolOf(t, y)) <==> Declared(lines, Global, y))
  {
    hide LineBytes, LineSymbols, SymbolOf, UniqueNames, IsExternal, Declares;
    if k == 0 {
    } else {
      Pass2Declares(lines, k - 1, syms, base, obj, y);
      Pass2Flags(lines[k - 1], RunPass2(lines, k - 1, syms, base, obj).value.syms, y);
    }
  }

  /** The index of a name does not change while the table grows. */
  lemma {:induction false} IndexKept(a: Symtab, b: Symtab, y: string)
    requires |a| <= |b| && (forall i :: 0 <= i < |a| ==> b[i].name == a[i].name) && FindSymbol(a, y).Some?
    ensures FindSymbol(b, y) == FindSymbol(a, y)
  {
    if a[0].name == y {
    } else {
      IndexKept(a[1..], b[1..], y);
    }
  }

  lemma IndexOf(syms: Symtab, i: nat)
    requires i < |syms| && UniqueNames(syms)
    ensures FindSymbol(syms, syms[i].name) == Some(i)
  {
    var r := FindSymbol(syms, syms[i].name);
    assert r == Some(i) || r == None;
  }

  /* ---- The object ---- */

  function Final(lines: seq<Line>): Pass1
    requires RunPass1(lines, |lines|, true).Some?
  {
    RunPass1(lines, |lines|, true).value
  }

  /** Pass 2 of the object assembly before line `k`, with relocations counted from address 0. */
  function ObjectBefore(lines: seq<Line>, k: nat): Pass2
    requires k <= |lines| && AssembleObject(lines).Some?
  {
    ObjectRun(lines);
    RunsArePrefixClosed(lines, k, |lines|, Final(lines).syms, 0, true);
    RunPass2(lines, k, Final(lines).syms, 0, true).value
  }

  /** Where line `k` starts, counted from the section's origin; below 0 for a line before it. */
  function Offset(lines: seq<Line>, k: nat): int
    requires k <= |lines| && AssembleObject(lines).Some?
  {
    |ObjectBefore(lines, k).out| - Final(lines).base
  }

  lemma ObjectIs(lines: seq<Line>)
    requires AssembleObject(lines).Some?
    ensures AssembleObject(lines).value == ObjectOf(ObjectBefore(lines, |lines|), Final(lines).base)
  {
    hide RunPass1, RunPass2, RebaseAll;
    ObjectRun(lines);
  }

  lemma ObjectFlags(lines: seq<Line>, k: nat, y: string)
    requires k <= |lines| && AssembleObject(lines).Some?
    ensures var t, o := ObjectBefore(lines, k).syms, AssembleObject(lines).value;
      && UniqueNames(t) && (IsExternal(t, y) <==> Declared(lines, Extern, y))
      && (IsGlobal(SymbolOf(t, y)) <==> Declared(lines, Global, y))
      && |Final(lines).syms| <= |t|
      && forall i :: 0 <= i < |Final(lines).syms| ==> t[i].name == Final(lines).syms[i].name
  {
    hide RunPass1, RunPass2, SymbolOf, UniqueNames, IsExternal, DeclaredBy;
    ObjectRun(lines);
    Pass1Declares(lines, |lines|, true, y);
    RunsArePrefixClosed(lines, k, |lines|, Final(lines).syms, 0, true);
    Pass2Declares(lines, k, Final(lines).syms, 0, true, y);
  }

  /** A label's entry has the address of its line. */
  lemma ObjectLabel(lines: seq<Line>, k: nat, i: nat, y: string)
    requires k <= |lines| && AssembleObject(lines).Some? && LabelAt(lines, i, y)
    requires forall j :: 0 <= j < |lines| ==> SizeSeen(lines[j])
    ensures var t := ObjectBefore(lines, k).syms;
      SymbolOf(t, y).Some? && Val(t, y) == |ObjectBefore(lines, i).out|
  {
    hide RunPass1, RunPass2, SymbolOf, SizeSeen, Assigns, IsLabelOf;
    ObjectRun(lines);
    var syms := Final(lines).syms;
    FinalLabel(lines, i, y, true);
    LabelNotEqu(lines, i, y);
    RunsArePrefixClosed(lines, k, |lines|, syms, 0, true);
    RunsArePrefixClosed(lines, i, |lines|, syms, 0, true);
    LabelInPassTwo(lines, k, syms, 0, true, y);
    AddressesMeet(lines, i, syms, 0, true);
  }

  /** The assembled object, written and read back. */
  function Compiled(lines: seq<Line>): Option<ObjFile> {
    var o :- AssembleObject(lines);
    Load(Write(o))
  }

  lemma CompiledIs(lines: seq<Line>)
    requires AssembleObject(lines).Some? && ObjectFits(AssembleObject(lines).value)
    ensures Compiled(lines) == Some(Meaning(AssembleObject(lines).value))
  {
    hide AssembleObject, Write, Load;
    RoundTrip(AssembleObject(lines).value);
  }

  /** Main result on symbol records, from source to file and back: there is one record a name; its section index is
      0xFFFF and its value 0 exactly for a name some line declares `.extern`, and 0 for any other; its global byte is
      1 exactly for a name some line declares `.global`, and 0 for any other; and the value of a label is the distance
      of its line from the origin. */
  lemma RecordsTell(lines: seq<Line>, n: nat)
    requires AssembleObject(lines).Some? && ObjectFits(AssembleObject(lines).value)
    requires Compiled(lines).Some? && n < |Compiled(lines).value.syms|
    ensures var r := Compiled(lines).value.syms[n];
      && (forall k :: 0 <= k < |Compiled(lines).value.syms| && k != n ==> Compiled(lines).value.syms[k].name != r.name)
      && r.secIdx == (if Declared(lines, Extern, r.name) then 0xFFFF else 0)
      && (Declared(lines, Extern, r.name) ==> r.value == 0)
      && r.global == (if Declared(lines, Global, r.name) then 1 else 0)
    ensures var r := Compiled(lines).value.syms[n];
      (forall j :: 0 <= j < |lines| ==> SizeSeen(lines[j])) ==>
        forall i :: 0 <= i < |lines| && LabelAt(lines, i, r.name) ==> r.value == Wrap(Offset(lines, i))
  {
    hide AssembleObject, DeclaredBy, ObjectFits, SizeSeen, LabelAt, RebaseAll, ObjectBefore, Final, Compiled, Offset;
    CompiledIs(lines);
    ObjectIs(lines);
    var o := AssembleObject(lines).value;
    ObjectFlags(lines, |lines|, o.syms[n].name);
    IndexOf(o.syms, n);
    if forall j :: 0 <= j < |lines| ==> SizeSeen(lines[j]) {
      forall i | 0 <= i < |lines| && LabelAt(lines, i, o.syms[n].name)
        ensures Compiled(lines).value.syms[n].value == Wrap(Offset(lines, i))
      {
        LabelRecord(lines, i, n);
      }
    }
  }

  lemma LabelRecord(lines: seq<Line>, i: nat, n: nat)
    requires AssembleObject(lines).Some? && n < |AssembleObject(lines).value.syms|
    requires LabelAt(lines, i, AssembleObject(lines).value.syms[n].name)
    requires forall j :: 0 <= j < |lines| ==> SizeSeen(lines[j])
    ensures var o := AssembleObject(lines).value;
      !o.syms[n].extern && SymMeaning(o.syms[n], o.base).value == Wrap(Offset(lines, i))
  {
    hide AssembleObject, SizeSeen, RebaseAll, ObjectBefore, Final, Assigns, IsLabelOf, UniqueNames;
    ObjectIs(lines);
    var o := AssembleObject(lines).value;
    var y := o.syms[n].name;
    ObjectFlags(lines, |lines|, y);
    IndexOf(o.syms, n);
    ObjectLabel(lines, |lines|, i, y);
    LabelNotExtern(lines, i, y);
  }

  lemma LabelNotExtern(lines: seq<Line>, i: nat, y: string)
    requires LabelAt(lines, i, y)
    ensures !Declared(lines, Extern, y)
  {
    hide IsLabelOf, IsEquOf;
    forall j | 0 <= j < |lines| ensures !Declares(lines[j], Extern, y) {
      assert j != i ==> !Assigns(lines[j], y);
    }
  }

  predicate AllSeen(lines: seq<Line>) {
    forall j :: 0 <= j < |lines| ==> SizeSeen(lines[j])
  }

  /** A label and an export that a source has are among the records. */
  lemma RecordOf(lines: seq<Line>, y: string)
    requires AssembleObject(lines).Some? && ObjectFits(AssembleObject(lines).value)
    requires (exists i :: 0 <= i < |lines| && LabelAt(lines, i, y) && AllSeen(lines))
             || Declared(lines, Extern, y) || Declared(lines, Global, y)
    ensures Compiled(lines).Some?
    ensures exists n :: 0 <= n < |Compiled(lines).value.syms| && Compiled(lines).value.syms[n].name == y
  {
    hide AssembleObject, DeclaredBy, ObjectFits, SizeSeen, LabelAt, RebaseAll, ObjectBefore, Final, Compiled;
    CompiledIs(lines);
    ObjectIs(lines);
    var o := AssembleObject(lines).value;
    ObjectFlags(lines, |lines|, y);
    if i :| 0 <= i < |lines| && LabelAt(lines, i, y) && AllSeen(lines) {
      ObjectLabel(lines, |lines|, i, y);
    }
    var n := FindSymbol(o.syms, y).value;
    assert Compiled(lines).value.syms[n].name == y;
  }
}
