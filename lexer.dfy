/** The lexer: a character-level state machine over the program text. */
module Lexer {
  import opened Wrappers
  import opened Text
  /** The kinds a token can have: the values of the keyword, type and symbol
      tables, the kinds the lexer assigns itself, and the kinds the parser
      tests for although the lexer never produces them.  The source names a
      kind by a string; here each kind is a number and the constants below
      carry the source's names. */
  newtype TokenKind = k: int | 0 <= k < 79

  const IF: TokenKind := 0
  const ELSE: TokenKind := 1
  const WHILE: TokenKind := 2
  const FOR: TokenKind := 3
  const DO: TokenKind := 4
  const FUNCTION: TokenKind := 5
  const PROCEDURE: TokenKind := 6
  const ARRAY: TokenKind := 7
  const REPEAT: TokenKind := 8
  const NUMBER: TokenKind := 9
  const AND: TokenKind := 10
  const IN: TokenKind := 11
  const END: TokenKind := 12
  const THEN: TokenKind := 13
  const BEGIN: TokenKind := 14
  const VAR: TokenKind := 15
  const TYPE: TokenKind := 16
  const CONST: TokenKind := 17
  const PROGRAM: TokenKind := 18
  const TRUE: TokenKind := 19
  const TO: TokenKind := 20
  const FALSE: TokenKind := 21
  const UNTIL: TokenKind := 22
  const OF: TokenKind := 23
  const CASE: TokenKind := 24
  const DIV: TokenKind := 25
  const MOD: TokenKind := 26
  const BYTE: TokenKind := 27
  const WORD: TokenKind := 28
  const LONGWORD: TokenKind := 29
  const UINT64: TokenKind := 30
  const SHORTINT: TokenKind := 31
  const SMALLINT: TokenKind := 32
  const INTEGER: TokenKind := 33
  const INT64: TokenKind := 34
  const BOOLEAN: TokenKind := 35
  const CHAR: TokenKind := 36
  const STRING: TokenKind := 37
  const REAL: TokenKind := 38
  const DOUBLE: TokenKind := 39
  const ASSIGN: TokenKind := 40
  const EQUALITY: TokenKind := 41
  const PLUS: TokenKind := 42
  const MINUS: TokenKind := 43
  const MULTIPLY: TokenKind := 44
  const DIVIDE: TokenKind := 45
  const LPAREN: TokenKind := 46
  const RPAREN: TokenKind := 47
  const LBR: TokenKind := 48
  const RBR: TokenKind := 49
  const LCBR: TokenKind := 50
  const RCBR: TokenKind := 51
  const TAB: TokenKind := 52
  const GREATER_OR_EQUAL: TokenKind := 53
  const SMALLER_OR_EQUAL: TokenKind := 54
  const NONEQUALITY: TokenKind := 55
  const COMMA: TokenKind := 56
  const COLON: TokenKind := 57
  const SEMICOLON: TokenKind := 58
  const SMALLER: TokenKind := 59
  const GREATER: TokenKind := 60
  const SINGLE_QUOTE: TokenKind := 61
  const DOUBLE_QUOTE: TokenKind := 62
  const DOT: TokenKind := 63
  const ARRDOT: TokenKind := 64
  const NEWLINE: TokenKind := 65
  const IDENTIFIER: TokenKind := 66
  const CHAR_VAL: TokenKind := 67
  const STRING_VAL: TokenKind := 68
  const COMMENT: TokenKind := 69
  const EOF: TokenKind := 70
  const LCOM: TokenKind := 71
  const RECORD: TokenKind := 72
  const FORWARD: TokenKind := 73
  const OR: TokenKind := 74
  const XOR: TokenKind := 75
  const NOT: TokenKind := 76
  const SHL: TokenKind := 77
  const SHR: TokenKind := 78

  /** `(kind, value, row, col)`. */
  datatype Token = Token(kind: TokenKind, value: string, row: int, col: int)

  // ---------------------------------------------------------------------
  // The tables

  /** `KEYWORDS`, keyed by the lower-cased word. */
  const KEYWORDS: map<string, TokenKind> := map[
    "if" := IF, "else" := ELSE, "while" := WHILE, "for" := FOR, "do" := DO,
    "function" := FUNCTION, "procedure" := PROCEDURE, "array" := ARRAY,
    "repeat" := REPEAT, "number" := NUMBER, "and" := AND, "in" := IN,
    "end" := END, "then" := THEN, "begin" := BEGIN, "var" := VAR,
    "type" := TYPE, "const" := CONST, "program" := PROGRAM, "true" := TRUE,
    "to" := TO, "false" := FALSE, "until" := UNTIL, "of" := OF,
    "case" := CASE, "div" := DIV, "mod" := MOD]

  /** `TYPES`, keyed by the lower-cased word. */
  const TYPES: map<string, TokenKind> := map[
    "byte" := BYTE, "word" := WORD, "longword" := LONGWORD, "uint64" := UINT64,
    "shortint" := SHORTINT, "smallint" := SMALLINT, "integer" := INTEGER,
    "int64" := INT64, "boolean" := BOOLEAN, "char" := CHAR, "string" := STRING,
    "real" := REAL, "double" := DOUBLE]

  /** `SYMBOLS`. */
  const SYMBOLS: map<string, TokenKind> := map[
    ":=" := ASSIGN, "=" := EQUALITY, "+" := PLUS, "-" := MINUS,
    "*" := MULTIPLY, "/" := DIVIDE, "(" := LPAREN, ")" := RPAREN,
    "[" := LBR, "]" := RBR, "{" := LCBR, "}" := RCBR, "\t" := TAB,
    "<=" := GREATER_OR_EQUAL, ">=" := SMALLER_OR_EQUAL, "<>" := NONEQUALITY,
    "    " := TAB, "," := COMMA, ":" := COLON, ";" := SEMICOLON,
    "<" := SMALLER, ">" := GREATER, "'" := SINGLE_QUOTE, "\"" := DOUBLE_QUOTE,
    "." := DOT, ".." := ARRDOT, "\n" := NEWLINE]

  /** No word or symbol is classified as `EOF`. */
  lemma NoTableGivesEof()
    ensures forall w :: w in KEYWORDS ==> KEYWORDS[w] != EOF
    ensures forall w :: w in TYPES ==> TYPES[w] != EOF
    ensures forall w :: w in SYMBOLS ==> SYMBOLS[w] != EOF
  {
    NoKeywordIsEof();
    NoTypeIsEof();
    NoSymbolIsEof();
  }

  lemma NoKeywordIsEof()
    ensures forall w :: w in KEYWORDS ==> KEYWORDS[w] != EOF
  {
  }

  lemma NoTypeIsEof()
    ensures forall w :: w in TYPES ==> TYPES[w] != EOF
  {
  }

  lemma NoSymbolIsEof()
    ensures forall w :: w in SYMBOLS ==> SYMBOLS[w] != EOF
  {
  }

  // ---------------------------------------------------------------------
  // Characters and words

  /** A character that continues a word. */
  predicate IsWordChar(c: char) {
    IsAlpha(c) || IsDigit(c) || c == '_'
  }

  /** The kind of a word: its keyword kind, else its type kind, else
      `IDENTIFIER`, with the tables keyed case-insensitively. */
  function WordKind(w: string): (k: TokenKind)
    ensures Lower(w) in KEYWORDS ==> k == KEYWORDS[Lower(w)]
    ensures Lower(w) !in KEYWORDS && Lower(w) in TYPES ==> k == TYPES[Lower(w)]
    ensures Lower(w) !in KEYWORDS && Lower(w) !in TYPES ==> k == IDENTIFIER
    ensures k != EOF
  {
    NoTableGivesEof();
    var key := Lower(w);
    if key in KEYWORDS then KEYWORDS[key]
    else if key in TYPES then TYPES[key]
    else IDENTIFIER
  }

  /** A word's kind does not depend on the case of its letters. */
  lemma WordKindIgnoresCase(w: string)
    ensures WordKind(w) == WordKind(Lower(w))
  {
    LowerIdempotent(w);
  }

  // ---------------------------------------------------------------------
  // Numerals

  /** Accumulating digits left to right, as `number = number * 10 + int(c)`
      does, gives the value of the prefix followed by the run. */
  lemma {:induction false} AccumulateDigits(n: nat, s: string)
    requires AllDigits(s)
    ensures DigitsValue(s) == Accumulated(0, s)
    ensures Accumulated(n, s) == n * Power10(|s|) + DigitsValue(s)
    decreases |s|
  {
    if |s| > 0 {
      var init := s[..|s| - 1];
      AccumulateDigits(n, init);
      AccumulateDigits(0, init);
      AccumulatedSnoc(n, init, s[|s| - 1]);
      AccumulatedSnoc(0, init, s[|s| - 1]);
      assert init + [s[|s| - 1]] == s;
    }
  }

  function Power10(k: nat): nat {
    if k == 0 then 1 else 10 * Power10(k - 1)
  }

  function Accumulated(n: nat, s: string): nat
    requires AllDigits(s)
    decreases |s|
  {
    if |s| == 0 then n else Accumulated(n * 10 + DigitValue(s[0]), s[1..])
  }

  lemma {:induction false} AccumulatedSnoc(n: nat, s: string, c: char)
    requires AllDigits(s)
    requires IsDigit(c)
    ensures Accumulated(n, s + [c]) == Accumulated(n, s) * 10 + DigitValue(c)
    decreases |s|
  {
    if |s| > 0 {
      assert (s + [c])[1..] == s[1..] + [c];
      AccumulatedSnoc(n * 10 + DigitValue(s[0]), s[1..], c);
    }
  }

  // ---------------------------------------------------------------------
  // The cursor

  /** `current_char`: not read yet (`None`), end of file (`''`), one
      character, or the text `..` that the number branch leaves behind when
      a numeral is followed by two dots. */
  datatype Cur = Unread | Eof | Ch(c: char) | Dots

  /** The text `current_char` holds. */
  function CurText(c: Cur): string {
    match c
    case Ch(x) => [x]
    case Dots => ".."
    case _ => ""
  }

  /** The lexer's cursor: the position of the next character of the file,
      `current_char`, `row` and `col`. */
  datatype LexState = LexState(pos: nat, current: Cur, row: int, col: int)

  /** The state of a fresh lexer. */
  const Start: LexState := LexState(0, Unread, 1, 0)

  /** The characters left, with `current_char` counting for the state it is
      in; every call of `get_next_char` lowers it unless at end of file. */
  function Rank(input: seq<char>, s: LexState): nat {
    (if s.pos <= |input| then |input| - s.pos else 0) * 3
      + (match s.current case Eof => 0 case Unread => 2 case _ => 1)
  }

  /** `get_next_char`: unless at end of file the next character (or end of
      file) becomes current; a current newline starts a new row, anything
      else, end of file included, moves one column on. */
  function ReadChar(input: seq<char>, s: LexState): (r: LexState)
    requires s.pos <= |input|
    ensures r.pos <= |input| && r.current != Unread
    ensures s.current != Eof ==> Rank(input, r) < Rank(input, s)
    ensures s.current == Eof ==> r.current == Eof && r.pos == s.pos
    ensures r.current == Ch('\n') ==> r.row == s.row + 1 && r.col == 0
    ensures r.current != Ch('\n') ==> r.row == s.row && r.col == s.col + 1
  {
    var t :=
      if s.current == Eof then s
      else if s.pos < |input| then s.(pos := s.pos + 1, current := Ch(input[s.pos]))
      else s.(current := Eof);
    if t.current == Ch('\n') then t.(row := t.row + 1, col := 0) else t.(col := t.col + 1)
  }

  // ---------------------------------------------------------------------
  // Tokens

  /** `get_next_token`: the token at the cursor and the cursor after it.
      A state that starts unread reads first; end of file gives `EOF` and
      leaves the cursor where it is; blanks are skipped. */
  function Lex(input: seq<char>, s: LexState): (r: Result<(Token, LexState)>)
    requires s.pos <= |input|
    ensures r.Ok? ==> r.value.1.pos <= |input|
    ensures r.Ok? && r.value.0.kind == EOF ==> r.value.1.current == Eof
    ensures r.Ok? && r.value.0.kind != EOF ==> Rank(input, r.value.1) < Rank(input, s)
    decreases Rank(input, s)
  {
    var s1 := if s.current == Unread then ReadChar(input, s) else s;
    if s1.current == Eof then Ok((Token(EOF, "eof", s1.row, s1.col), s1))
    else if s1.current == Ch(' ') || s1.current == Ch('\t') || s1.current == Ch('\n') then
      Lex(input, ReadChar(input, s1))
    else
      var t :- Scan(input, s1);
      Ok((Token(t.0, t.1, t.2.row, t.2.col), t.2))
  }

  /** The branches of `get_next_token` after blanks and end of file. */
  function Scan(input: seq<char>, s: LexState): (r: Result<(TokenKind, string, LexState)>)
    requires s.pos <= |input| && (s.current.Ch? || s.current.Dots?)
    ensures r.Ok? ==> r.value.2.pos <= |input| && Rank(input, r.value.2) < Rank(input, s)
    ensures r.Ok? ==> r.value.0 != EOF
  {
    match s.current
    case Dots => DotsIsSymbol(); SymbolToken(input, s)
    case Ch(c) =>
      if c == '\'' then QuotedToken(input, s)
      else if [c] in SYMBOLS then SymbolToken(input, s)
      else if IsDigit(c) then NumberToken(input, s)
      else if IsAlpha(c) || c == '_' then WordToken(input, s)
      else Err(LexicalError)
  }

  /** `..`, the text the number branch leaves current, is a symbol. */
  lemma DotsIsSymbol()
    ensures ".." in SYMBOLS && SYMBOLS[".."] == ARRDOT
  {
  }

  /** Characters are collected up to the next `stop`, which stays current;
      end of file first makes the source loop forever. */
  function TextUntil(input: seq<char>, s: LexState, stop: char, acc: string): (r: Result<(string, LexState)>)
    requires s.pos <= |input|
    ensures r.Ok? ==> r.value.1.current == Ch(stop) && r.value.1.pos <= |input|
    ensures r.Ok? ==> Rank(input, r.value.1) <= Rank(input, s)
    ensures r.Ok? ==> |r.value.0| >= |acc| && r.value.0[..|acc|] == acc
    decreases Rank(input, s)
  {
    if s.current == Eof then Err(Diverges)
    else if s.current == Ch(stop) then Ok((acc, s))
    else TextUntil(input, ReadChar(input, s), stop, acc + CurText(s.current))
  }

  /** One character of text is a `CHAR_VAL`, any other length a `STRING_VAL`. */
  function TextKind(v: string): (k: TokenKind)
    ensures k == CHAR_VAL <==> |v| == 1
    ensures k == CHAR_VAL || k == STRING_VAL
  {
    if |v| == 1 then CHAR_VAL else STRING_VAL
  }

  /** A quoted text; a quote right after the closing one stands for one
      quote character, and the text goes on to the next quote. */
  function QuotedToken(input: seq<char>, s: LexState): (r: Result<(TokenKind, string, LexState)>)
    requires s.pos <= |input| && s.current == Ch('\'')
    ensures r.Ok? ==> r.value.2.pos <= |input| && Rank(input, r.value.2) < Rank(input, s)
    ensures r.Ok? ==> r.value.0 == TextKind(r.value.1)
  {
    var first :- TextUntil(input, ReadChar(input, s), '\'', "");
    var s2 := ReadChar(input, first.1);
    if s2.current == Ch('\'') then
      var second :- TextUntil(input, ReadChar(input, s2), '\'', first.0 + "'");
      Ok((TextKind(second.0), second.0, ReadChar(input, second.1)))
    else
      Ok((TextKind(first.0), first.0, s2))
  }

  /** The symbols branch: `:=` or `:`, the orderings, `..` or `.`, a comment
      or `(`, and the one-character symbols. */
  function SymbolToken(input: seq<char>, s: LexState): (r: Result<(TokenKind, string, LexState)>)
    requires s.pos <= |input| && CurText(s.current) in SYMBOLS && s.current != Ch('\'')
    ensures r.Ok? ==> r.value.2.pos <= |input| && Rank(input, r.value.2) < Rank(input, s)
    ensures r.Ok? ==> r.value.0 != EOF
  {
    if s.current == Ch(':') then
      // `:` is consumed, and then the character after it as well
      var s1 := ReadChar(input, s);
      if s1.current == Ch('=') then Ok((ASSIGN, ":=", ReadChar(input, s1)))
      else Ok((COLON, ":", ReadChar(input, s1)))
    else if s.current == Ch('>') || s.current == Ch('<') then
      var s1 := ReadChar(input, s);
      var two := s1.current == Ch('=') || s1.current == Ch('>');
      var v := if two then CurText(s.current) + CurText(s1.current) else CurText(s.current);
      var s2 := if two then ReadChar(input, s1) else s1;
      if v in SYMBOLS then Ok((SYMBOLS[v], v, s2)) else Err(RuntimeCrash)
    else if s.current == Ch('.') then
      var s1 := ReadChar(input, s);
      if s1.current == Ch('.') then Ok((ARRDOT, "..", ReadChar(input, s1)))
      else Ok((DOT, ".", ReadChar(input, s1)))
    else if s.current == Ch('(') then ParenToken(input, s)
    else Ok((SYMBOLS[CurText(s.current)], CurText(s.current), ReadChar(input, s)))
  }

  /** `(` followed by `*` starts a comment, which runs to the next `)`
      unless that `)` follows the `*` at once; a plain `(` leaves the
      character after it current. */
  function ParenToken(input: seq<char>, s: LexState): (r: Result<(TokenKind, string, LexState)>)
    requires s.pos <= |input| && s.current == Ch('(')
    ensures r.Ok? ==> r.value.2.pos <= |input| && Rank(input, r.value.2) < Rank(input, s)
    ensures r.Ok? ==> r.value.0 == LPAREN || r.value.0 == COMMENT
  {
    var s1 := ReadChar(input, s);
    if s1.current != Ch('*') then Ok((LPAREN, "(", s1))
    else
      // the loop that collects up to a `*` stops at once: `*` is current
      var s2 := ReadChar(input, s1);
      if s2.current == Ch(')') then Ok((COMMENT, "(*", s2))
      else
        var rest :- TextUntil(input, ReadChar(input, s2), ')', "(*" + CurText(s2.current));
        Ok((COMMENT, rest.0 + ")", ReadChar(input, rest.1)))
  }

  /** The digit loop: the digits from the cursor on, accumulated into
      `number`, and the state at the first non-digit. */
  function DigitRun(input: seq<char>, s: LexState, number: nat): (r: (nat, LexState))
    requires s.pos <= |input|
    ensures r.1.pos <= |input| && Rank(input, r.1) <= Rank(input, s)
    ensures !(r.1.current.Ch? && IsDigit(r.1.current.c))
    ensures s.current.Ch? && IsDigit(s.current.c) ==> Rank(input, r.1) < Rank(input, s)
    decreases Rank(input, s)
  {
    if s.current.Ch? && IsDigit(s.current.c) then
      DigitRun(input, ReadChar(input, s), number * 10 + DigitValue(s.current.c))
    else (number, s)
  }

  /** The fraction loop: digits appended to the text. */
  function DigitText(input: seq<char>, s: LexState, acc: string): (r: (string, LexState))
    requires s.pos <= |input|
    ensures r.1.pos <= |input| && Rank(input, r.1) <= Rank(input, s)
    ensures !(r.1.current.Ch? && IsDigit(r.1.current.c))
    ensures |r.0| >= |acc| && r.0[..|acc|] == acc
    ensures AllDigits(acc) ==> AllDigits(r.0)
    decreases Rank(input, s)
  {
    if s.current.Ch? && IsDigit(s.current.c) then
      DigitText(input, ReadChar(input, s), acc + [s.current.c])
    else (acc, s)
  }

  /** The numbers branch.  A letter or `_` right after the digits is an
      error.  After a `.`, the fraction digits follow; a second `.` takes the
      last character back off the text and leaves `..` current, and a text
      ending in `.` is an error. */
  function NumberToken(input: seq<char>, s: LexState): (r: Result<(TokenKind, string, LexState)>)
    requires s.pos <= |input| && s.current.Ch? && IsDigit(s.current.c)
    ensures r.Ok? ==> r.value.2.pos <= |input| && Rank(input, r.value.2) < Rank(input, s)
    ensures r.Ok? ==> r.value.0 == NUMBER
  {
    var run := DigitRun(input, s, 0);
    var s1 := run.1;
    if s1.current.Ch? && (IsAlpha(s1.current.c) || s1.current.c == '_') then Err(LexicalError)
    else if s1.current == Ch('.') then
      var frac := DigitText(input, ReadChar(input, s1), NatToString(run.0) + ".");
      var s2 := frac.1;
      if s2.current == Ch('.') then Ok((NUMBER, frac.0[..|frac.0| - 1], s2.(current := Dots)))
      else if frac.0[|frac.0| - 1] == '.' then Err(LexicalError)
      else Ok((NUMBER, frac.0, s2))
    else Ok((NUMBER, NatToString(run.0), s1))
  }

  /** The word loop: letters, digits and `_` from the cursor on. */
  function WordRun(input: seq<char>, s: LexState, acc: string): (r: (string, LexState))
    requires s.pos <= |input|
    ensures r.1.pos <= |input| && Rank(input, r.1) <= Rank(input, s)
    ensures !(r.1.current.Ch? && IsWordChar(r.1.current.c))
    ensures |r.0| >= |acc| && r.0[..|acc|] == acc
    ensures s.current.Ch? && IsWordChar(s.current.c) ==> Rank(input, r.1) < Rank(input, s) && |r.0| > |acc|
    decreases Rank(input, s)
  {
    if s.current.Ch? && IsWordChar(s.current.c) then
      WordRun(input, ReadChar(input, s), acc + [s.current.c])
    else (acc, s)
  }

  /** The identifiers branch: the word keeps its spelling and gets its
      case-insensitive kind. */
  function WordToken(input: seq<char>, s: LexState): (r: Result<(TokenKind, string, LexState)>)
    requires s.pos <= |input| && s.current.Ch? && (IsAlpha(s.current.c) || s.current.c == '_')
    ensures r.Ok? ==> r.value.2.pos <= |input| && Rank(input, r.value.2) < Rank(input, s)
    ensures r.Ok? ==> r.value.0 == WordKind(r.value.1) && |r.value.1| > 0 && r.value.1[0] == s.current.c
  {
    var run := WordRun(input, s, "");
    Ok((WordKind(run.0), run.0, run.1))
  }

  /** The tokens the parser pulls, one `get_next_token` call after another,
      up to (not including) the first `EOF`. */
  function Tokens(input: seq<char>, s: LexState, acc: seq<Token>): (r: Result<seq<Token>>)
    requires s.pos <= |input|
    requires forall i :: 0 <= i < |acc| ==> acc[i].kind != EOF
    ensures r.Ok? ==> forall i :: 0 <= i < |r.value| ==> r.value[i].kind != EOF
    decreases Rank(input, s)
  {
    match Lex(input, s)
    case Err(e) => Err(e)
    case Ok(t) => if t.0.kind == EOF then Ok(acc) else Tokens(input, t.1, acc + [t.0])
  }

  /** The token stream of a whole file. */
  function Tokenize(input: seq<char>): (r: Result<seq<Token>>)
    ensures r.Ok? ==> forall i :: 0 <= i < |r.value| ==> r.value[i].kind != EOF
  {
    Tokens(input, Start, [])
  }

  // ---------------------------------------------------------------------
  // The lexer object

  /** `Lexer` over the text of its file. */
  class Lexer {
    const input: seq<char>
    var pos: nat
    var current: Cur
    var row: int
    var col: int

    ghost predicate Valid()
      reads this
    {
      pos <= |input|
    }

    function State(): LexState
      reads this
    {
      LexState(pos, current, row, col)
    }

    constructor (input: seq<char>)
      ensures Valid() && this.input == input && State() == Start
    {
      this.input := input;
      pos := 0;
      current := Unread;
      row := 1;
      col := 0;
    }

    /** `has_next`. */
    predicate HasNext()
      reads this
    {
      current != Eof
    }

    /** `get_next_char`. */
    method NextChar()
      requires Valid()
      modifies this
      ensures Valid() && State() == ReadChar(input, old(State()))
    {
      if HasNext() {
        if pos < |input| {
          current := Ch(input[pos]);
          pos := pos + 1;
        } else {
          current := Eof;
        }
      }
      if current == Ch('\n') {
        row := row + 1;
        col := 0;
      } else {
        col := col + 1;
      }
    }

    /** `get_next_token`. */
    method NextToken() returns (r: Result<Token>)
      requires Valid()
      modifies this
      ensures Valid()
      ensures var g := Lex(input, old(State()));
              (g.Ok? ==> r == Ok(g.value.0) && State() == g.value.1) && (g.Err? ==> r == Err(g.error))
    {
      ghost var g := Lex(input, State());
      while true
        invariant Valid() && Lex(input, State()) == g
        decreases Rank(input, State())
      {
        if current == Unread {
          NextChar();
        }
        if current == Eof {
          return Ok(Token(EOF, "eof", row, col));
        }
        if current == Ch(' ') || current == Ch('\t') || current == Ch('\n') {
          NextChar();
        } else {
          var t := ScanToken();
          if t.Err? {
            return Err(t.error);
          }
          return Ok(Token(t.value.0, t.value.1, row, col));
        }
      }
    }

    /** The branches of `get_next_token` after blanks and end of file. */
    method ScanToken() returns (r: Result<(TokenKind, string)>)
      requires Valid() && (current.Ch? || current.Dots?)
      modifies this
      ensures Valid() && Yields(r, Scan(input, old(State())), State())
    {
      if current == Ch('\'') {
        r := ScanQuoted();
      } else if CurText(current) in SYMBOLS {
        r := ScanSymbol();
      } else if IsDigit(current.c) {
        r := ScanNumber();
      } else if IsAlpha(current.c) || current.c == '_' {
        var w := ReadWord();
        r := Ok((WordKind(w), w));
      } else {
        r := Err(LexicalError);
      }
    }

    /** `while current_char != stop: value += current_char; get_next_char()`,
        which at end of file never ends. */
    method ReadUntil(stop: char, acc: string) returns (r: Result<string>)
      requires Valid()
      modifies this
      ensures Valid()
      ensures var g := TextUntil(input, old(State()), stop, acc);
              (g.Ok? ==> r == Ok(g.value.0) && State() == g.value.1) && (g.Err? ==> r == Err(g.error))
    {
      var value := acc;
      while current != Ch(stop)
        invariant Valid() && TextUntil(input, State(), stop, value) == TextUntil(input, old(State()), stop, acc)
        decreases Rank(input, State())
      {
        if current == Eof {
          return Err(Diverges);
        }
        value := value + CurText(current);
        NextChar();
      }
      r := Ok(value);
    }

    /** The quote branch. */
    method ScanQuoted() returns (r: Result<(TokenKind, string)>)
      requires Valid() && current == Ch('\'')
      modifies this
      ensures Valid() && Yields(r, QuotedToken(input, old(State())), State())
    {
      NextChar();
      var first := ReadUntil('\'', "");
      if first.Err? {
        return Err(first.error);
      }
      NextChar();
      var value := first.value;
      if current == Ch('\'') {
        NextChar();
        var second := ReadUntil('\'', value + "'");
        if second.Err? {
          return Err(second.error);
        }
        NextChar();
        value := second.value;
      }
      r := Ok((TextKind(value), value));
    }

    /** The symbols branch. */
    method ScanSymbol() returns (r: Result<(TokenKind, string)>)
      requires Valid() && CurText(current) in SYMBOLS && current != Ch('\'')
      modifies this
      ensures Valid() && Yields(r, SymbolToken(input, old(State())), State())
    {
      if current == Ch(':') {
        NextChar();
        if current == Ch('=') {
          r := Ok((ASSIGN, ":="));
        } else {
          r := Ok((COLON, ":"));
        }
        NextChar();
      } else if current == Ch('>') || current == Ch('<') {
        var v := CurText(current);
        NextChar();
        if current == Ch('=') || current == Ch('>') {
          v := v + CurText(current);
          NextChar();
        }
        if v !in SYMBOLS {
          return Err(RuntimeCrash);
        }
        r := Ok((SYMBOLS[v], v));
      } else if current == Ch('.') {
        NextChar();
        if current == Ch('.') {
          r := Ok((ARRDOT, ".."));
        } else {
          r := Ok((DOT, "."));
        }
        NextChar();
      } else if current == Ch('(') {
        r := ScanParen();
      } else {
        var v := CurText(current);
        r := Ok((SYMBOLS[v], v));
        NextChar();
      }
    }

    /** The comment branch. */
    method ScanParen() returns (r: Result<(TokenKind, string)>)
      requires Valid() && current == Ch('(')
      modifies this
      ensures Valid() && Yields(r, ParenToken(input, old(State())), State())
    {
      NextChar();
      if current != Ch('*') {
        return Ok((LPAREN, "("));
      }
      NextChar();
      if current == Ch(')') {
        return Ok((COMMENT, "(*"));
      }
      var value := "(*" + CurText(current);
      NextChar();
      var rest := ReadUntil(')', value);
      if rest.Err? {
        return Err(rest.error);
      }
      NextChar();
      r := Ok((COMMENT, rest.value + ")"));
    }

    /** The numbers branch. */
    method ScanNumber() returns (r: Result<(TokenKind, string)>)
      requires Valid() && current.Ch? && IsDigit(current.c)
      modifies this
      ensures Valid() && Yields(r, NumberToken(input, old(State())), State())
    {
      var number := ReadNumber(0);
      if current.Ch? && (IsAlpha(current.c) || current.c == '_') {
        return Err(LexicalError);
      }
      if current != Ch('.') {
        return Ok((NUMBER, NatToString(number)));
      }
      NextChar();
      var text := ReadDigitText(NatToString(number) + ".");
      if current == Ch('.') {
        text := text[..|text| - 1];
        current := Dots;
      } else if text[|text| - 1] == '.' {
        return Err(LexicalError);
      }
      r := Ok((NUMBER, text));
    }

    /** The digit loop of the numbers branch. */
    method ReadNumber(n: nat) returns (number: nat)
      requires Valid()
      modifies this
      ensures Valid() && (number, State()) == DigitRun(input, old(State()), n)
    {
      number := n;
      while current.Ch? && IsDigit(current.c)
        invariant Valid() && DigitRun(input, State(), number) == DigitRun(input, old(State()), n)
        decreases Rank(input, State())
      {
        number := number * 10 + DigitValue(current.c);
        NextChar();
      }
    }

    /** The fraction loop of the numbers branch. */
    method ReadDigitText(acc: string) returns (text: string)
      requires Valid()
      modifies this
      ensures Valid() && (text, State()) == DigitText(input, old(State()), acc)
    {
      text := acc;
      while current.Ch? && IsDigit(current.c)
        invariant Valid() && DigitText(input, State(), text) == DigitText(input, old(State()), acc)
        decreases Rank(input, State())
      {
        text := text + [current.c];
        NextChar();
      }
    }

    /** The word loop of the identifiers branch. */
    method ReadWord() returns (w: string)
      requires Valid()
      modifies this
      ensures Valid() && (w, State()) == WordRun(input, old(State()), "")
    {
      w := "";
      while current.Ch? && IsWordChar(current.c)
        invariant Valid() && WordRun(input, State(), w) == WordRun(input, old(State()), "")
        decreases Rank(input, State())
      {
        w := w + [current.c];
        NextChar();
      }
    }
  }

  // ---------------------------------------------------------------------
  // Properties of the token functions

  /** Once end of file is current, every call gives `EOF` with `eof` and
      leaves the cursor where it is. */
  lemma EofIsStable(input: seq<char>, s: LexState)
    requires s.pos <= |input|
    requires Lex(input, s).Ok? && Lex(input, s).value.0.kind == EOF
    ensures var s1 := Lex(input, s).value.1;
            Lex(input, s1) == Ok((Token(EOF, "eof", s1.row, s1.col), s1))
  {
  }

  /** The fraction loop appends the digits it reads to whatever text it
      starts from. */
  lemma {:induction false} DigitTextAppends(input: seq<char>, s: LexState, acc: string)
    requires s.pos <= |input|
    ensures DigitText(input, s, acc) == (acc + DigitText(input, s, "").0, DigitText(input, s, "").1)
    decreases Rank(input, s)
  {
    if s.current.Ch? && IsDigit(s.current.c) {
      var c := s.current.c;
      var s1 := ReadChar(input, s);
      var t1 := DigitText(input, s1, "");
      DigitTextAppends(input, s1, acc + [c]);
      DigitTextAppends(input, s1, [c]);
      assert [] + [c] == [c];
      AppendAssoc(acc, [c], t1.0);
    } else {
      assert acc + [] == acc;
    }
  }

  /** The digit loop stops where the fraction loop would, and its number is
      the digits it passed accumulated onto its start value. */
  lemma {:induction false} DigitRunIsAccumulated(input: seq<char>, s: LexState, n: nat)
    requires s.pos <= |input|
    ensures DigitRun(input, s, n) == (Accumulated(n, DigitText(input, s, "").0), DigitText(input, s, "").1)
    decreases Rank(input, s)
  {
    if s.current.Ch? && IsDigit(s.current.c) {
      var c := s.current.c;
      var s1 := ReadChar(input, s);
      DigitRunIsAccumulated(input, s1, n * 10 + DigitValue(c));
      DigitTextAppends(input, s1, [c]);
      assert [] + [c] == [c];
      var ds := DigitText(input, s, "").0;
      assert ds == [c] + DigitText(input, s1, "").0;
      assert ds[1..] == DigitText(input, s1, "").0;
    }
  }

  /** A run of digits followed by neither a letter, `_` nor `.` is a
      `NUMBER` whose text is the decimal rendering of the run's value, so
      leading zeros are dropped. */
  lemma IntegerToken(input: seq<char>, s: LexState)
    requires s.pos <= |input| && s.current.Ch? && IsDigit(s.current.c)
    requires var st := DigitText(input, s, "").1;
             !(st.current.Ch? && (IsAlpha(st.current.c) || st.current.c == '_' || st.current.c == '.'))
    ensures var ds := DigitText(input, s, "").0;
            NumberToken(input, s) == Ok((NUMBER, NatToString(DigitsValue(ds)), DigitText(input, s, "").1))
  {
    DigitRunIsAccumulated(input, s, 0);
    AccumulateDigits(0, DigitText(input, s, "").0);
  }

  /** A numeral right before `..`, as in an array range `1..10`, is a
      `NUMBER` of its digits, and the next token is `ARRDOT`. */
  lemma NumberBeforeRange(input: seq<char>, s: LexState)
    requires s.pos <= |input| && s.current.Ch? && IsDigit(s.current.c)
    requires var st := DigitText(input, s, "").1;
             st.current == Ch('.') && st.pos < |input| && input[st.pos] == '.'
    ensures var ds := DigitText(input, s, "").0;
            var s2 := ReadChar(input, DigitText(input, s, "").1).(current := Dots);
            var s3 := ReadChar(input, s2);
            NumberToken(input, s) == Ok((NUMBER, NatToString(DigitsValue(ds)), s2))
            && Lex(input, s2) == Ok((Token(ARRDOT, "..", s3.row, s3.col), s3))
  {
    var ds := DigitText(input, s, "").0;
    var st := DigitText(input, s, "").1;
    DigitRunIsAccumulated(input, s, 0);
    AccumulateDigits(0, ds);
    var n := DigitsValue(ds);
    assert DigitRun(input, s, 0) == (n, st);
    var r := ReadChar(input, st);
    assert r.current == Ch('.');
    var text := NatToString(n) + ".";
    assert DigitText(input, r, text) == (text, r);
    assert text[..|text| - 1] == NatToString(n);
    var s2 := r.(current := Dots);
    assert NumberToken(input, s) == Ok((NUMBER, NatToString(n), s2));
    DotsIsSymbol();
    assert SymbolToken(input, s2) == Ok((ARRDOT, "..", ReadChar(input, s2)));
    assert Scan(input, s2) == SymbolToken(input, s2);
  }

  /** A `(` not followed by `*` is `LPAREN`, and the character after it is
      current, so it starts the next token. */
  lemma ParenKeepsNext(input: seq<char>, s: LexState)
    requires s.pos < |input| && s.current == Ch('(') && input[s.pos] != '*'
    ensures ParenToken(input, s) == Ok((LPAREN, "(", ReadChar(input, s)))
    ensures ReadChar(input, s).current == Ch(input[s.pos])
  {
  }

  /** A `:` not followed by `=` is `COLON`, and the character after it is
      consumed with it: it starts no token. */
  lemma ColonDropsNext(input: seq<char>, s: LexState)
    requires s.pos + 1 < |input| && s.current == Ch(':') && input[s.pos] != '='
    ensures SymbolToken(input, s) == Ok((COLON, ":", ReadChar(input, ReadChar(input, s))))
    ensures ReadChar(input, ReadChar(input, s)).current == Ch(input[s.pos + 1])
  {
  }

  /** A branch method's result and state are what the branch function
      gives, or its error. */
  ghost predicate Yields(r: Result<(TokenKind, string)>, g: Result<(TokenKind, string, LexState)>, s: LexState) {
    match g
    case Ok(t) => r == Ok((t.0, t.1)) && s == t.2
    case Err(e) => r == Err(e)
  }
}
