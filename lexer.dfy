/** lex_string: the tokenizer over a cursor into an immutable NUL-terminated
    buffer. The pure functions below state what one call returns; the class
    LexBuffer holds the cursor and line counter the source mutates. */
module Lexer {
  import opened Text
  import opened Tables
  import opened Diagnostics

  datatype TokenType =
    | VarTypeTok(varType: VarType) | KeywordTok(keyword: Keyword)
    | Name | Number | Mut | Let | Multiply | Eof
    | StartParen | EndParen | StartRect | EndRect | StartCurly | EndCurly
    | Assign | Comma | SLComment | LessThen | BiggerThen | Plus | Minus

  /** A token: its type, the offset where classification started (the
      source's `name` pointer for names and numbers) and `string_size`. */
  datatype Token = Token(kind: TokenType, start: nat, size: nat)

  /** The lexing state: the cursor offset and `line_num`. */
  datatype St = St(pos: nat, line: int)

  datatype Lexed = Lexed(tok: Token, st: St)

  /** The offset after the run of ' ' and '\n' at `p`. */
  function SkipWs(buf: seq<char>, p: nat): (q: nat)
    decreases |buf| - p
    ensures p <= q && (p <= |buf| ==> q <= |buf|)
    ensures At(buf, q) != ' ' && At(buf, q) != '\n'
  {
    if p < |buf| && (buf[p] == ' ' || buf[p] == '\n') then SkipWs(buf, p + 1) else p
  }

  /** Everything SkipWs passes over is a ' ' or a '\n'. */
  lemma {:induction false} SkipWsBlanks(buf: seq<char>, p: nat)
    ensures forall k :: p <= k < SkipWs(buf, p) ==> At(buf, k) == ' ' || At(buf, k) == '\n'
    decreases |buf| - p
  {
    if p < |buf| && (buf[p] == ' ' || buf[p] == '\n') {
      SkipWsBlanks(buf, p + 1);
    }
  }

  /** The number of '\n' in buf[p..q]. */
  function Newlines(buf: seq<char>, p: nat, q: nat): nat
    requires p <= q <= |buf|
    decreases q - p
  {
    if q == p then 0 else Newlines(buf, p, q - 1) + (if buf[q - 1] == '\n' then 1 else 0)
  }

  /** The single-character tokens, in the order lex_string tests them. */
  function Punct(c: char): Option<TokenType> {
    if c == ',' then Some(Comma)
    else if c == '+' then Some(Plus)
    else if c == '-' then Some(Minus)
    else if c == '*' then Some(Multiply)
    else if c == '(' then Some(StartParen)
    else if c == ')' then Some(EndParen)
    else if c == '[' then Some(StartRect)
    else if c == ']' then Some(EndRect)
    else if c == '{' then Some(StartCurly)
    else if c == '}' then Some(EndCurly)
    else if c == '=' then Some(Assign)
    else if c == '<' then Some(LessThen)
    else if c == '>' then Some(BiggerThen)
    else None
  }

  /** The offset after the run of digits and '.' at `p`. */
  function DigitRun(buf: seq<char>, p: nat): (q: nat)
    decreases |buf| - p
    ensures p <= q && (p <= |buf| ==> q <= |buf|)
    ensures !IsDigit(At(buf, q)) && At(buf, q) != '.'
  {
    if p < |buf| && (IsDigit(buf[p]) || buf[p] == '.') then DigitRun(buf, p + 1) else p
  }

  /** Everything DigitRun passes over is a digit or a '.'. */
  lemma {:induction false} DigitRunDigits(buf: seq<char>, p: nat)
    ensures forall k :: p <= k < DigitRun(buf, p) ==> IsDigit(At(buf, k)) || At(buf, k) == '.'
    decreases |buf| - p
  {
    if p < |buf| && (IsDigit(buf[p]) || buf[p] == '.') {
      DigitRunDigits(buf, p + 1);
    }
  }

  /** The offset after the run of alphanumeric characters at `p`. */
  function AlnumRun(buf: seq<char>, p: nat): (q: nat)
    decreases |buf| - p
    ensures p <= q && (p <= |buf| ==> q <= |buf|)
    ensures !IsAlnum(At(buf, q))
  {
    if p < |buf| && IsAlnum(buf[p]) then AlnumRun(buf, p + 1) else p
  }

  /** Everything AlnumRun passes over is alphanumeric. */
  lemma {:induction false} AlnumRunAlnum(buf: seq<char>, p: nat)
    ensures forall k :: p <= k < AlnumRun(buf, p) ==> IsAlnum(At(buf, k))
    decreases |buf| - p
  {
    if p < |buf| && IsAlnum(buf[p]) {
      AlnumRunAlnum(buf, p + 1);
    }
  }

  /** The first index from `i` on whose table entry is a prefix of the
      buffer at `p`, or |table| when there is none. */
  function FirstMatch(buf: seq<char>, p: nat, table: seq<string>, i: nat): (k: nat)
    requires i <= |table|
    decreases |table| - i
    ensures i <= k <= |table|
    ensures k < |table| ==> HasPrefix(buf, p, table[k])
  {
    if i == |table| then i
    else if HasPrefix(buf, p, table[i]) then i
    else FirstMatch(buf, p, table, i + 1)
  }

  /** No entry before the first match is a prefix of the buffer at `p`. */
  lemma {:induction false} FirstMatchSkips(buf: seq<char>, p: nat, table: seq<string>, i: nat)
    requires i <= |table|
    ensures forall j :: i <= j < FirstMatch(buf, p, table, i) ==> !HasPrefix(buf, p, table[j])
    decreases |table| - i
  {
    if i < |table| && !HasPrefix(buf, p, table[i]) {
      FirstMatchSkips(buf, p, table, i + 1);
    }
  }

  /** The token lex_string classifies at offset `p` (whitespace skipped). */
  function Classify(buf: seq<char>, p: nat): Token {
    var c := At(buf, p);
    if c == NUL then Token(Eof, p, 0)
    else if Punct(c).Some? then Token(Punct(c).value, p, 1)
    else if HasPrefix(buf, p, "//") then Token(SLComment, p, 2)
    else if HasPrefix(buf, p, "mut") then Token(Mut, p, 3)
    else if HasPrefix(buf, p, "let") then Token(Let, p, 3)
    else ClassifyWord(buf, p)
  }

  /** The rest of the first-match order: a number, a keyword, a base type,
      or a name. */
  function ClassifyWord(buf: seq<char>, p: nat): Token {
    if !IsAlpha(At(buf, DigitRun(buf, p))) then Token(Number, p, DigitRun(buf, p) - p)
    else if FirstMatch(buf, p, KeywordNames, 0) < |KeywordNames| then
      var k := FirstMatch(buf, p, KeywordNames, 0);
      Token(KeywordTok(KeywordAt(k)), p, |KeywordNames[k]|)
    else if FirstMatch(buf, p, VarTypeNames, 0) < |VarTypeNames| then
      var k := FirstMatch(buf, p, VarTypeNames, 0);
      Token(VarTypeTok(VarTypeAt(k)), p, |VarTypeNames[k]|)
    else Token(Name, p, AlnumRun(buf, p) - p)
  }

  /** One call of lex_string from state `st`: skip whitespace (counting each
      '\n'), classify, and consume the token unless `lookahead`. */
  function Next(buf: seq<char>, st: St, lookahead: bool): Lexed
    requires st.pos <= |buf|
  {
    var q := SkipWs(buf, st.pos);
    var t := Classify(buf, q);
    Lexed(t, St(if lookahead then q else q + t.size, st.line + Newlines(buf, st.pos, q)))
  }

  /** The cursor of one buffer: the source's LexBuffer, plus the output
      stream the front end writes to. */
  class LexBuffer {
    const buf: seq<char>
    var pos: nat
    var lineNum: int
    var out: seq<Emit>

    ghost predicate Valid()
      reads this
    {
      pos <= |buf|
    }

    function State(): St
      reads this
    {
      St(pos, lineNum)
    }

    constructor (text: seq<char>)
      ensures buf == text && pos == 0 && lineNum == 1 && out == [] && Valid()
    {
      buf := text;
      pos := 0;
      lineNum := 1;
      out := [];
    }

    /** Appends diagnostics or generated text to the output stream. */
    method Write(e: seq<Emit>)
      modifies this`out
      ensures out == old(out) + e
    {
      out := out + e;
    }

    method LexString(lookahead: bool) returns (t: Token)
      requires Valid()
      modifies this`pos, this`lineNum
      ensures Valid()
      ensures Lexed(t, State()) == Next(buf, old(State()), lookahead)
    {
      ghost var p0 := pos;
      while pos < |buf| && (buf[pos] == ' ' || buf[pos] == '\n')
        invariant p0 <= pos <= |buf|
        invariant SkipWs(buf, pos) == SkipWs(buf, p0)
        invariant lineNum == old(lineNum) + Newlines(buf, p0, pos)
        decreases |buf| - pos
      {
        if buf[pos] == '\n' {
          lineNum := lineNum + 1;
        }
        pos := pos + 1;
      }
      assert pos == SkipWs(buf, p0);
      var c := At(buf, pos);
      if c == NUL {
        return Token(Eof, pos, 0);
      }
      var punct := Punct(c);
      if punct.Some? {
        t := Token(punct.value, pos, 1);
        if !lookahead { pos := pos + 1; }
        return;
      }
      if HasPrefix(buf, pos, "//") {
        t := Token(SLComment, pos, 2);
        if !lookahead { pos := pos + 2; }
        return;
      }
      if HasPrefix(buf, pos, "mut") {
        t := Token(Mut, pos, 3);
        if !lookahead { pos := pos + 3; }
        return;
      }
      if HasPrefix(buf, pos, "let") {
        t := Token(Let, pos, 3);
        if !lookahead { pos := pos + 3; }
        return;
      }
      t := LexWord(lookahead);
    }

    /** The part of lex_string after the fixed-spelling tokens. */
    method LexWord(lookahead: bool) returns (t: Token)
      requires Valid()
      modifies this`pos
      ensures Valid()
      ensures t == ClassifyWord(buf, old(pos))
      ensures pos == if lookahead then old(pos) else old(pos) + t.size
    {
      var candidate := ScanDigits(pos);
      if !IsAlpha(At(buf, candidate)) {
        t := Token(Number, pos, candidate - pos);
        if !lookahead { pos := candidate; }
        return;
      }
      var i := ScanTable(pos, KeywordNames);
      if i < |KeywordNames| {
        t := Token(KeywordTok(KeywordAt(i)), pos, |KeywordNames[i]|);
        if !lookahead { pos := pos + |KeywordNames[i]|; }
        return;
      }
      var j := ScanTable(pos, VarTypeNames);
      if j < |VarTypeNames| {
        t := Token(VarTypeTok(VarTypeAt(j)), pos, |VarTypeNames[j]|);
        if !lookahead { pos := pos + |VarTypeNames[j]|; }
        return;
      }
      var name := pos;
      var size := 0;
      while pos < |buf| && IsAlnum(buf[pos])
        invariant name <= pos <= |buf| && size == pos - name
        invariant AlnumRun(buf, pos) == AlnumRun(buf, name)
        decreases |buf| - pos
      {
        size := size + 1;
        pos := pos + 1;
      }
      t := Token(Name, name, size);
      if lookahead {
        pos := name;
      }
    }

    /** The `candidate` loop: the end of the run of digits and '.' at `p`. */
    method ScanDigits(p: nat) returns (q: nat)
      requires p <= |buf|
      ensures q == DigitRun(buf, p)
    {
      q := p;
      while IsDigit(At(buf, q)) || At(buf, q) == '.'
        invariant p <= q <= |buf|
        invariant DigitRun(buf, q) == DigitRun(buf, p)
        decreases |buf| - q
      {
        q := q + 1;
      }
    }

    /** The table loops: the first entry that is a prefix at `p`, or |table|. */
    method ScanTable(p: nat, table: seq<string>) returns (k: nat)
      ensures k == FirstMatch(buf, p, table, 0)
    {
      k := 0;
      while k < |table| && !HasPrefix(buf, p, table[k])
        invariant 0 <= k <= |table|
        invariant FirstMatch(buf, p, table, k) == FirstMatch(buf, p, table, 0)
      {
        k := k + 1;
      }
    }
  }
}
