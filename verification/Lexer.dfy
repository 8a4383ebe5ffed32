/** The assembler's tokenizer over one line of source text. */
module Lexer {
  import opened Words
  import opened OpTable

  datatype Token =
    | Ident(name: string)
    | Label(name: string)
    | Dot(name: string)
    | Int(value: int)
    | Str(text: string)
    | Comma | LBracket | RBracket | Plus | Minus | RShiftTok

  predicate IsDigit(c: char) { '0' <= c <= '9' }
  predicate IsBlank(c: char) { c == ' ' || c == '\t' }
  predicate IsAlpha(c: char) { 'a' <= c <= 'z' || 'A' <= c <= 'Z' }
  predicate IsIdentChar(c: char) { IsAlpha(c) || IsDigit(c) || c == '_' }

  function SkipBlanks(s: string): (r: string)
    ensures |r| <= |s|
    ensures r != "" ==> !IsBlank(r[0])
  {
    if s != "" && IsBlank(s[0]) then SkipBlanks(s[1..]) else s
  }

  /** Length of the identifier characters `s` starts with. */
  function IdentLength(s: string): (n: nat)
    ensures n <= |s|
  {
    if s == "" || !IsIdentChar(s[0]) then 0 else 1 + IdentLength(s[1..])
  }

  /** Value of a digit in bases up to 16, or 16 for any other character. */
  function DigitValue(c: char): nat {
    if IsDigit(c) then c as int - '0' as int
    else if 'a' <= c <= 'f' then c as int - 'a' as int + 10
    else if 'A' <= c <= 'F' then c as int - 'A' as int + 10
    else 16
  }

  function DigitsLength(s: string, base: nat): (n: nat)
    ensures n <= |s|
  {
    if s == "" || DigitValue(s[0]) >= base then 0 else 1 + DigitsLength(s[1..], base)
  }

  function DigitsValue(s: string, base: nat): nat {
    if s == "" then 0 else base * DigitsValue(s[..|s| - 1], base) + DigitValue(s[|s| - 1])
  }

  /** r0-r15 in decimal, or an alias. */
  function ParseRegister(s: string): Option<Byte> {
    if |s| >= 2 && (s[0] == 'r' || s[0] == 'R') && (forall i :: 1 <= i < |s| ==> IsDigit(s[i]))
       && DigitsValue(s[1..], 10) <= 15
    then Some(DigitsValue(s[1..], 10))
    else if SameNoCase(s, "sp") then Some(13)
    else if SameNoCase(s, "lr") then Some(14)
    else if SameNoCase(s, "pc") then Some(15)
    else None
  }

  /** strtoull(s, &end, 0) read as an int64_t: the value and the number of characters used. */
  function ParseNumber(s: string): (r: (int, nat))
    requires s != "" && IsDigit(s[0])
    ensures 1 <= r.1 <= |s|
  {
    if |s| >= 3 && s[0] == '0' && (s[1] == 'x' || s[1] == 'X') && DigitValue(s[2]) < 16 then
      var n := DigitsLength(s[2..], 16);
      (AsInt64(DigitsValue(s[2..2 + n], 16)), 2 + n)
    else if s[0] == '0' then
      var n := DigitsLength(s, 8);
      (AsInt64(DigitsValue(s[..n], 8)), n)
    else
      var n := DigitsLength(s, 10);
      (AsInt64(DigitsValue(s[..n], 10)), n)
  }

  function AsInt64(v: nat): int {
    if v < 0x8000_0000_0000_0000 then v
    else if v <= 0xFFFF_FFFF_FFFF_FFFF then v - 0x1_0000_0000_0000_0000
    else -1
  }

  function Unescape(c: char): char {
    if c == 'n' then '\n' else if c == 'r' then '\r' else if c == 't' then '\t' else if c == '0' then '\0' else c
  }

  /** The rest of a string literal after its opening quote: its text, and what follows it. */
  function Quoted(s: string): (r: (string, string))
    ensures |r.1| <= |s|
  {
    if s == "" then ("", "")
    else if s[0] == '"' then ("", s[1..])
    else if s[0] == '\\' && |s| >= 2 then
      var (t, rest) := Quoted(s[2..]);
      ([Unescape(s[1])] + t, rest)
    else
      var (t, rest) := Quoted(s[1..]);
      ([s[0]] + t, rest)
  }

  datatype Lexeme = End | Bad | Tok(tok: Token, rest: string)

  /** The next token of the line. */
  function NextToken(s: string): (r: Lexeme)
    ensures r.Tok? ==> |r.rest| < |s|
  {
    var t := SkipBlanks(s);
    if t == "" || t[0] == '\n' || t[0] == '\0' || t[0] == ';' then End
    else if Punctuation(t[0]).Some? then Tok(Punctuation(t[0]).value, t[1..])
    else if IsIdentChar(t[0]) then WordToken(t)
    else MarkToken(t)
  }

  function Punctuation(c: char): Option<Token> {
    match c
    case ',' => Some(Comma)
    case '[' => Some(LBracket)
    case ']' => Some(RBracket)
    case '+' => Some(Plus)
    case '-' => Some(Minus)
    case _ => None
  }

  /** A shift operator, a string literal or a directive name. */
  function MarkToken(t: string): (r: Lexeme)
    requires t != ""
    ensures r.Tok? ==> |r.rest| < |t|
  {
    if t[0] == '>' then
      if |t| >= 2 && t[1] == '>' then Tok(RShiftTok, t[2..]) else Bad
    else if t[0] == '"' then
      var (text, rest) := Quoted(t[1..]);
      Tok(Str(text), rest)
    else if t[0] == '.' then
      var n := IdentLength(t[1..]);
      Tok(Dot(t[..n + 1]), t[n + 1..])
    else Bad
  }

  /** A number, an identifier, or an identifier followed by a colon (blanks allowed between): a label. */
  function WordToken(t: string): (r: Lexeme)
    requires t != "" && IsIdentChar(t[0])
    ensures r.Tok? ==> |r.rest| < |t|
  {
    if IsDigit(t[0]) then
      var (v, n) := ParseNumber(t);
      Tok(Int(v), t[n..])
    else
      var n := IdentLength(t);
      var rest := SkipBlanks(t[n..]);
      if rest != "" && rest[0] == ':' then Tok(Label(t[..n]), rest[1..]) else Tok(Ident(t[..n]), rest)
  }

  /** All tokens of a line; None when an unexpected character was reported. */
  function Tokenize(s: string): Option<seq<Token>>
    decreases |s|
  {
    match NextToken(s)
    case End => Some([])
    case Bad => None
    case Tok(t, rest) =>
      var ts := Tokenize(rest);
      if ts.None? then None else Some([t] + ts.value)
  }

  /** The same, as the loop that advances through the line. */
  method TokenizeLine(line: string) returns (toks: seq<Token>, ok: bool)
    ensures Tokenize(line) == if ok then Some(toks) else None
  {
    toks, ok := [], true;
    var text := line;
    assert Tokenize(text).Some? ==> [] + Tokenize(text).value == Tokenize(text).value;
    while true
      invariant ok
      invariant Tokenize(line) == (if Tokenize(text).None? then None else Some(toks + Tokenize(text).value))
      decreases |text|
    {
      match NextToken(text)
      case End =>
        assert toks + [] == toks;
        return;
      case Bad =>
        ok := false;
        return;
      case Tok(t, rest) =>
        assert Tokenize(rest).Some? ==> toks + ([t] + Tokenize(rest).value) == (toks + [t]) + Tokenize(rest).value;
        toks := toks + [t];
        text := rest;
    }
  }
}
