/** The language the recursive-descent parser accepts, as pure functions
    over the token sequence.  Each function takes the position of the
    current token and returns the node it builds together with the position
    of the first token it did not consume, or the error the parser stops
    with.  Past the last token the current token is `EOF`, as the lexer
    keeps returning it.  The semantic checks the parser makes along the way
    (declared names, type names, unary operators, assignments, calls and
    indexing) are part of these functions: `env` holds their outcomes as
    functions of what is checked.  The parser's checks read only the symbol
    table and the scope stack, which parsing an expression or a statement
    never changes, so one `env` serves a whole expression or statement. */
module Grammar {
  import opened Wrappers
  import opened SupportClasses
  import opened SemanticTools
  import opened Nodes
  import opened Lexer

  /** The outcomes of the semantic checks: whether `get_variable` finds a
      name, what `get_type` finds for a type name, and what
      `check_type_operation_support`, `check_assign`,
      `check_subroutine_call` and `check_array_access` return. */
  datatype Env = Env(
    declared: string -> bool,
    typeNamed: string -> Option<Symbol>,
    supports: (Expr, Operator) -> Outcome,
    assign: (string, Expr) -> Outcome,
    call: (string, seq<Expr>) -> Outcome,
    index: (string, seq<Expr>) -> Outcome)

  datatype Parsed<T> = Parsed(node: T, next: nat)

  /** `current_token[0]`. */
  function Kind(toks: seq<Token>, pos: nat): TokenKind {
    if pos < |toks| then toks[pos].kind else EOF
  }

  /** `current_token[1]`. */
  function TokenValue(toks: seq<Token>, pos: nat): string {
    if pos < |toks| then toks[pos].value else "eof"
  }

  /** `__next_token`: at end of input the lexer hands out `EOF` again. */
  function Advance(toks: seq<Token>, pos: nat): (p: nat)
    requires pos <= |toks|
    ensures p <= |toks| && (pos < |toks| ==> p == pos + 1) && (pos == |toks| ==> p == pos)
  {
    if pos < |toks| then pos + 1 else pos
  }

  /** `Operator(kind)` for a kind in `Operator.get_condition_operators()`. */
  function ConditionOperator(kind: TokenKind): (r: Option<Operator>)
    ensures r.Some? ==> Precedence(r.value) == 1
  {
    if kind == GREATER then Some(Greater)
    else if kind == SMALLER then Some(Smaller)
    else if kind == EQUALITY then Some(Equality)
    else if kind == NONEQUALITY then Some(NonEquality)
    else if kind == GREATER_OR_EQUAL then Some(GreaterOrEqual)
    else if kind == SMALLER_OR_EQUAL then Some(SmallerOrEqual)
    else None
  }

  /** `Operator(kind)` for a kind in `('PLUS', 'MINUS', 'OR', 'XOR')`. */
  function AdditiveOperator(kind: TokenKind): (r: Option<Operator>)
    ensures r.Some? ==> Precedence(r.value) == 2
  {
    if kind == PLUS then Some(Plus)
    else if kind == MINUS then Some(Minus)
    else if kind == OR then Some(Or)
    else if kind == XOR then Some(Xor)
    else None
  }

  /** `Operator(kind)` for a kind in
      `('MULTIPLY', 'DIVIDE', 'DIV', 'MOD', 'AND', 'SHL', 'SHR')`. */
  function MultiplicativeOperator(kind: TokenKind): (r: Option<Operator>)
    ensures r.Some? ==> Precedence(r.value) == 3
  {
    if kind == MULTIPLY then Some(Multiply)
    else if kind == DIVIDE then Some(Divide)
    else if kind == DIV then Some(Div)
    else if kind == MOD then Some(Mod)
    else if kind == AND then Some(And)
    else if kind == SHL then Some(Shl)
    else if kind == SHR then Some(Shr)
    else None
  }

  /** `PrimitiveType[kind]` for a kind that names a primitive kind. */
  function PrimitiveKind(kind: TokenKind): Option<PrimitiveType> {
    if kind == BYTE then Some(Byte)
    else if kind == WORD then Some(Word)
    else if kind == LONGWORD then Some(LongWord)
    else if kind == UINT64 then Some(UInt64)
    else if kind == SHORTINT then Some(ShortInt)
    else if kind == SMALLINT then Some(SmallInt)
    else if kind == INTEGER then Some(Integer)
    else if kind == INT64 then Some(Int64)
    else if kind == BOOLEAN then Some(Boolean)
    else if kind == CHAR then Some(Char)
    else if kind == STRING then Some(String)
    else if kind == REAL then Some(Real)
    else if kind == DOUBLE then Some(Double)
    else None
  }

  // ---------------------------------------------------------------------
  // Expressions

  /** `__parse_CONDITION`: expressions joined by relational operators. */
  function Condition(env: Env, toks: seq<Token>, pos: nat): (r: Result<Parsed<Expr>>)
    requires pos <= |toks|
    ensures r.Ok? ==> pos < r.value.next <= |toks|
    decreases |toks| - pos, 7
  {
    var left :- Expression(env, toks, pos);
    ConditionTail(env, toks, left.node, left.next)
  }

  function ConditionTail(env: Env, toks: seq<Token>, left: Expr, pos: nat): (r: Result<Parsed<Expr>>)
    requires pos <= |toks|
    ensures r.Ok? ==> pos <= r.value.next <= |toks|
    decreases |toks| - pos, 0
  {
    var op := ConditionOperator(Kind(toks, pos));
    if op.None? then Ok(Parsed(left, pos))
    else
      var right :- Expression(env, toks, pos + 1);
      ConditionTail(env, toks, Binary(left, right.node, op.value), right.next)
  }

  /** `__parse_EXPRESSION`: terms joined by + - or xor. */
  function Expression(env: Env, toks: seq<Token>, pos: nat): (r: Result<Parsed<Expr>>)
    requires pos <= |toks|
    ensures r.Ok? ==> pos < r.value.next <= |toks|
    decreases |toks| - pos, 6
  {
    var left :- Term(env, toks, pos);
    ExpressionTail(env, toks, left.node, left.next)
  }

  function ExpressionTail(env: Env, toks: seq<Token>, left: Expr, pos: nat): (r: Result<Parsed<Expr>>)
    requires pos <= |toks|
    ensures r.Ok? ==> pos <= r.value.next <= |toks|
    decreases |toks| - pos, 0
  {
    var op := AdditiveOperator(Kind(toks, pos));
    if op.None? then Ok(Parsed(left, pos))
    else
      var right :- Term(env, toks, pos + 1);
      ExpressionTail(env, toks, Binary(left, right.node, op.value), right.next)
  }

  /** `__parse_TERM`: factors joined by * / div mod and shl shr. */
  function Term(env: Env, toks: seq<Token>, pos: nat): (r: Result<Parsed<Expr>>)
    requires pos <= |toks|
    ensures r.Ok? ==> pos < r.value.next <= |toks|
    decreases |toks| - pos, 5
  {
    var left :- Factor(env, toks, pos);
    TermTail(env, toks, left.node, left.next)
  }

  function TermTail(env: Env, toks: seq<Token>, left: Expr, pos: nat): (r: Result<Parsed<Expr>>)
    requires pos <= |toks|
    ensures r.Ok? ==> pos <= r.value.next <= |toks|
    decreases |toks| - pos, 0
  {
    var op := MultiplicativeOperator(Kind(toks, pos));
    if op.None? then Ok(Parsed(left, pos))
    else
      var right :- Factor(env, toks, pos + 1);
      TermTail(env, toks, Binary(left, right.node, op.value), right.next)
  }

  /** `__parse_FACTOR`: a parenthesised condition, a unary operator, or an
      operand.  The kinds the branches test are distinct, so testing the
      literal kinds last (in `Operand`) picks the same branch as the
      parser, which tests them first. */
  function Factor(env: Env, toks: seq<Token>, pos: nat): (r: Result<Parsed<Expr>>)
    requires pos <= |toks|
    ensures r.Ok? ==> pos < r.value.next <= |toks|
    decreases |toks| - pos, 4
  {
    var kind := Kind(toks, pos);
    if kind == LPAREN then
      var c :- Condition(env, toks, pos + 1);
      if Kind(toks, c.next) != RPAREN then Err(SyntaxError) else Ok(Parsed(c.node, c.next + 1))
    else if kind == MINUS || kind == PLUS || kind == NOT then UnaryOperator(env, toks, pos)
    else Operand(env, toks, pos)
  }

  /** The remaining branches of `__parse_FACTOR`: a literal, typed by its
      text, or an identifier with its suffixes. */
  function Operand(env: Env, toks: seq<Token>, pos: nat): (r: Result<Parsed<Expr>>)
    requires pos <= |toks|
    ensures r.Ok? ==> pos < r.value.next <= |toks|
    decreases |toks| - pos, 3
  {
    var kind := Kind(toks, pos);
    if kind == NUMBER then
      var v := TokenValue(toks, pos);
      var t :- GetValueType(v);
      Ok(Parsed(Value(v, t), pos + 1))
    else if kind == STRING_VAL then Ok(Parsed(Value(TokenValue(toks, pos), String), pos + 1))
    else if kind == CHAR_VAL then Ok(Parsed(Value(TokenValue(toks, pos), Char), pos + 1))
    else if kind == TRUE || kind == FALSE then Ok(Parsed(Value(TokenValue(toks, pos), Boolean), pos + 1))
    else IdentifierStatement(env, toks, pos)
  }

  /** `__parse_UNARY_OPERATOR`: the operator, then the factor after it. */
  function UnaryOperator(env: Env, toks: seq<Token>, pos: nat): (r: Result<Parsed<Expr>>)
    requires pos <= |toks|
    ensures r.Ok? ==> pos < r.value.next <= |toks|
    decreases |toks| - pos, 2
  {
    var kind := Kind(toks, pos);
    if kind != PLUS && kind != MINUS && kind != NOT then Err(RuntimeCrash)
    else
      var factor :- Factor(env, toks, pos + 1);
      ApplyUnary(env, kind, factor)
  }

  /** What a unary operator makes of the factor after it: plus gives the
      factor once its type supports the operator; minus and not on a literal
      fold into a new literal (minus after the same check), otherwise they
      build a node. */
  function ApplyUnary(env: Env, kind: TokenKind, factor: Parsed<Expr>): (r: Result<Parsed<Expr>>)
    ensures r.Ok? ==> r.value.next == factor.next
  {
    if kind == PLUS then
      var supported := env.supports(factor.node, UnaryPlus);
      if supported.Fail? then Err(supported.error) else Ok(factor)
    else if kind == MINUS then
      if factor.node.Value? then
        var supported := env.supports(factor.node, UnaryMinus);
        if supported.Fail? then Err(supported.error)
        else
          var v := "-" + factor.node.value;
          var t :- GetValueType(v);
          Ok(Parsed(Value(v, t), factor.next))
      else Ok(Parsed(Unary(factor.node, UnaryMinus), factor.next))
    else if factor.node.Value? then
      var b :- ConvertValueToBoolean(factor.node.value);
      Ok(Parsed(Value(if b then "False" else "True", Boolean), factor.next))
    else Ok(Parsed(Unary(factor.node, Not), factor.next))
  }

  /** `__parse_IDENTIFIER_STATEMENT`: a declared variable followed by any
      number of assignments, call argument lists and index lists, each
      checked once it is parsed. */
  function IdentifierStatement(env: Env, toks: seq<Token>, pos: nat): (r: Result<Parsed<Expr>>)
    requires pos <= |toks|
    ensures r.Ok? ==> pos < r.value.next <= |toks|
    decreases |toks| - pos, 2
  {
    if Kind(toks, pos) != IDENTIFIER then Err(SyntaxError)
    else
      var name := TokenValue(toks, pos);
      if !env.declared(name) then Err(Undeclared)
      else IdentifierTail(env, toks, Variable(name), pos + 1)
  }

  /** The loop of `__parse_IDENTIFIER_STATEMENT`: suffixes while the
      current token starts one. */
  function IdentifierTail(env: Env, toks: seq<Token>, left: Expr, pos: nat): (r: Result<Parsed<Expr>>)
    requires pos <= |toks|
    ensures r.Ok? ==> pos <= r.value.next <= |toks|
    decreases |toks| - pos, 1
  {
    if SuffixKind(Kind(toks, pos)) then
      var s :- Suffix(env, toks, left, pos);
      IdentifierTail(env, toks, s.node, s.next)
    else Ok(Parsed(left, pos))
  }

  predicate SuffixKind(kind: TokenKind) {
    kind == ASSIGN || kind == LPAREN || kind == LBR || kind == DOT
  }

  /** One suffix: an assignment, whose target is the variable at the root
      of what it assigns to; a call argument list or an index list, which
      only a bare variable can take; or a field access, which is not
      implemented.  Each is checked once it is parsed. */
  function Suffix(env: Env, toks: seq<Token>, left: Expr, pos: nat): (r: Result<Parsed<Expr>>)
    requires pos <= |toks| && SuffixKind(Kind(toks, pos))
    ensures r.Ok? ==> pos < r.value.next <= |toks|
    decreases |toks| - pos, 0
  {
    var kind := Kind(toks, pos);
    if kind == ASSIGN then
      var right :- Condition(env, toks, pos + 1);
      var target :- RootVariable(left);
      var checked := env.assign(target, right.node);
      if checked.Fail? then Err(checked.error)
      else Ok(Parsed(Binary(left, right.node, Assign), right.next))
    else if kind == LPAREN then
      var right :- CallArguments(env, toks, [], pos + 1);
      if !left.Variable? then Err(RuntimeCrash)
      else
        var checked := env.call(left.identifier, right.node);
        if checked.Fail? then Err(checked.error)
        else Ok(Parsed(Binary(left, CallParams(right.node), SubroutineCall), right.next))
    else if kind == LBR then
      var right :- ArrayIndexes(env, toks, [], pos + 1);
      if !left.Variable? then Err(RuntimeCrash)
      else
        var checked := env.index(left.identifier, right.node);
        if checked.Fail? then Err(checked.error)
        else Ok(Parsed(Binary(left, CallParams(right.node), ArrayCall), right.next))
    else Err(NotImplemented)
  }

  /** The variable an assignment is checked against: the one reached by
      following `.left` from the assigned node; a node without `.left` is a
      runtime error. */
  function RootVariable(e: Expr): (r: Result<string>)
    ensures e.Variable? ==> r == Ok(e.identifier)
    ensures (e.Binary? || e.Unary?) ==> r == RootVariable(e.left)
  {
    match e
    case Variable(id) => Ok(id)
    case Binary(l, _, _) => RootVariable(l)
    case Unary(l, _) => RootVariable(l)
    case _ => Err(RuntimeCrash)
  }

  /** `__parse_SUBROUTINE_CALL_PARAMS`: conditions up to the closing
      parenthesis, each optionally followed by a comma. */
  function CallArguments(env: Env, toks: seq<Token>, params: seq<Expr>, pos: nat): (r: Result<Parsed<seq<Expr>>>)
    requires pos <= |toks|
    ensures r.Ok? ==> pos < r.value.next <= |toks|
    decreases |toks| - pos, 8
  {
    if Kind(toks, pos) == RPAREN then Ok(Parsed(params, pos + 1))
    else
      var c :- Condition(env, toks, pos);
      var p := if Kind(toks, c.next) == COMMA then c.next + 1 else c.next;
      CallArguments(env, toks, params + [c.node], p)
  }

  /** `__parse_ARRAY_CALL`: expressions up to the closing bracket. */
  function ArrayIndexes(env: Env, toks: seq<Token>, params: seq<Expr>, pos: nat): (r: Result<Parsed<seq<Expr>>>)
    requires pos <= |toks|
    ensures r.Ok? ==> pos < r.value.next <= |toks|
    decreases |toks| - pos, 8
  {
    if Kind(toks, pos) == RBR then Ok(Parsed(params, pos + 1))
    else
      var e :- Expression(env, toks, pos);
      var p := if Kind(toks, e.next) == COMMA then e.next + 1 else e.next;
      ArrayIndexes(env, toks, params + [e.node], p)
  }

  // ---------------------------------------------------------------------
  // Statements

  /** `__parse_STATEMENT_BLOCK`: `begin` statements `end`, or one statement. */
  function StatementBlock(env: Env, toks: seq<Token>, pos: nat): (r: Result<Parsed<StatementPart>>)
    requires pos <= |toks|
    ensures r.Ok? ==> pos < r.value.next <= |toks|
    decreases |toks| - pos, 11
  {
    if Kind(toks, pos) == BEGIN then BlockStatements(env, toks, [], pos + 1)
    else
      var s :- Statement(env, toks, pos);
      Ok(Parsed(StatementPart([s.node]), s.next))
  }

  /** The loop of a `begin` block: a statement must be followed by `;` or by
      `end`. */
  function BlockStatements(env: Env, toks: seq<Token>, statements: seq<Stmt>, pos: nat): (r: Result<Parsed<StatementPart>>)
    requires pos <= |toks|
    ensures r.Ok? ==> pos < r.value.next <= |toks|
    decreases |toks| - pos, 10
  {
    if Kind(toks, pos) == END then Ok(Parsed(StatementPart(statements), pos + 1))
    else
      var s :- Statement(env, toks, pos);
      if Kind(toks, s.next) == SEMICOLON then BlockStatements(env, toks, statements + [s.node], s.next + 1)
      else if Kind(toks, s.next) != END then Err(SyntaxError)
      else BlockStatements(env, toks, statements + [s.node], s.next)
  }

  /** `__parse_STATEMENT`.  The `LCOM` branch never assigns the node it
      returns, which the runtime reports as an error. */
  function Statement(env: Env, toks: seq<Token>, pos: nat): (r: Result<Parsed<Stmt>>)
    requires pos <= |toks|
    ensures r.Ok? ==> pos < r.value.next <= |toks|
    decreases |toks| - pos, 9
  {
    var kind := Kind(toks, pos);
    if kind == LCOM then Err(RuntimeCrash)
    else if kind == IF then IfStatement(env, toks, pos + 1)
    else if kind == CASE then CaseStatement(env, toks, pos + 1)
    else if kind == FOR then ForStatement(env, toks, pos + 1)
    else if kind == WHILE then WhileStatement(env, toks, pos + 1)
    else if kind == REPEAT then RepeatStatements(env, toks, [], pos + 1)
    else
      var e :- IdentifierStatement(env, toks, pos);
      Ok(Parsed(Simple(e.node), e.next))
  }

  /** `__parse_IF_STATEMENT` (after `if`); without `else` the else part is
      empty. */
  function IfStatement(env: Env, toks: seq<Token>, pos: nat): (r: Result<Parsed<Stmt>>)
    requires pos <= |toks|
    ensures r.Ok? ==> pos < r.value.next <= |toks|
    decreases |toks| - pos, 8
  {
    var c :- Condition(env, toks, pos);
    if Kind(toks, c.next) != THEN then Err(SyntaxError)
    else
      var thenPart :- StatementBlock(env, toks, c.next + 1);
      if Kind(toks, thenPart.next) == ELSE then
        var elsePart :- StatementBlock(env, toks, thenPart.next + 1);
        Ok(Parsed(If(c.node, thenPart.node, elsePart.node), elsePart.next))
      else Ok(Parsed(If(c.node, thenPart.node, StatementPart([])), thenPart.next))
  }

  /** `__parse_CASE_STATEMENT` (after `case`): the selector and `of`. */
  function CaseStatement(env: Env, toks: seq<Token>, pos: nat): (r: Result<Parsed<Stmt>>)
    requires pos <= |toks|
    ensures r.Ok? ==> pos < r.value.next <= |toks|
    decreases |toks| - pos, 8
  {
    if Kind(toks, pos) != IDENTIFIER || Kind(toks, pos + 1) != OF then Err(SyntaxError)
    else CaseBlocks(env, toks, TokenValue(toks, pos), [], None, None, pos + 2)
  }

  /** The case loop.  An `else` branch sets the default block and then
      appends the case block of the previous iteration once more; with no
      previous iteration that variable is unbound, a runtime error. */
  function CaseBlocks(env: Env, toks: seq<Token>, variable: string, blocks: seq<CaseBlock>,
                      default: Option<StatementPart>, last: Option<CaseBlock>, pos: nat): (r: Result<Parsed<Stmt>>)
    requires pos <= |toks|
    ensures r.Ok? ==> pos < r.value.next <= |toks|
    decreases |toks| - pos, 7
  {
    if Kind(toks, pos) == END then Ok(Parsed(Switch(variable, blocks, default), pos + 1))
    else if Kind(toks, pos) == ELSE then
      var d :- DefaultBlock(env, toks, pos + 1);
      if last.None? then Err(RuntimeCrash)
      else CaseBlocks(env, toks, variable, blocks + [last.value], Some(d.node), last, d.next)
    else
      var block :- CaseBlockItem(env, toks, pos);
      CaseBlocks(env, toks, variable, blocks + [block.node], default, Some(block.node), block.next)
  }

  /** The default block of a case statement (after `else`) and its `;`. */
  function DefaultBlock(env: Env, toks: seq<Token>, pos: nat): (r: Result<Parsed<StatementPart>>)
    requires pos <= |toks|
    ensures r.Ok? ==> pos < r.value.next <= |toks|
    decreases |toks| - pos, 12
  {
    var d :- StatementBlock(env, toks, pos);
    if Kind(toks, d.next) != SEMICOLON then Err(SyntaxError) else Ok(Parsed(d.node, d.next + 1))
  }

  /** One case block: its labels, its statement block and its `;`. */
  function CaseBlockItem(env: Env, toks: seq<Token>, pos: nat): (r: Result<Parsed<CaseBlock>>)
    requires pos <= |toks|
    ensures r.Ok? ==> pos < r.value.next <= |toks|
    decreases |toks| - pos, 6
  {
    var labels :- CaseLabels(env, toks, [], pos);
    var body :- StatementBlock(env, toks, labels.next);
    if Kind(toks, body.next) != SEMICOLON then Err(SyntaxError)
    else Ok(Parsed(CaseBlock(labels.node, body.node), body.next + 1))
  }

  /** The labels of one case block, up to and including the colon. */
  function CaseLabels(env: Env, toks: seq<Token>, cases: seq<Expr>, pos: nat): (r: Result<Parsed<seq<Expr>>>)
    requires pos <= |toks|
    ensures r.Ok? ==> pos < r.value.next <= |toks|
    decreases |toks| - pos, 7
  {
    if Kind(toks, pos) == COLON then Ok(Parsed(cases, pos + 1))
    else
      var e :- Expression(env, toks, pos);
      var p := if Kind(toks, e.next) == COMMA then e.next + 1 else e.next;
      CaseLabels(env, toks, cases + [e.node], p)
  }

  /** `__parse_FOR_STATEMENT` (after `for`); the counter always counts
      down-flagged, as `is_increase` is never set. */
  function ForStatement(env: Env, toks: seq<Token>, pos: nat): (r: Result<Parsed<Stmt>>)
    requires pos <= |toks|
    ensures r.Ok? ==> pos < r.value.next <= |toks|
    decreases |toks| - pos, 8
  {
    if Kind(toks, pos) != IDENTIFIER then Err(SyntaxError)
    else
      var name := TokenValue(toks, pos);
      if !env.declared(name) then Err(Undeclared)
      else
        var initial :- ForInitial(env, toks, name, pos + 1);
        ForRange(env, toks, name, initial.node, initial.next)
  }

  /** The rest of a for statement: `to`, the end expression, `do` and the
      body. */
  function ForRange(env: Env, toks: seq<Token>, counter: string, initial: Option<Expr>, pos: nat): (r: Result<Parsed<Stmt>>)
    requires pos <= |toks|
    ensures r.Ok? ==> pos < r.value.next <= |toks|
    decreases |toks| - pos, 8
  {
    if Kind(toks, pos) != TO then Err(SyntaxError)
    else
      var end :- Expression(env, toks, pos + 1);
      if Kind(toks, end.next) != DO then Err(SyntaxError)
      else
        var body :- StatementBlock(env, toks, end.next + 1);
        Ok(Parsed(For(counter, initial, end.node, body.node, false), body.next))
  }

  /** The optional `:= expression` of a for statement, checked as an
      assignment to the counter. */
  function ForInitial(env: Env, toks: seq<Token>, counter: string, pos: nat): (r: Result<Parsed<Option<Expr>>>)
    requires pos <= |toks|
    ensures r.Ok? ==> pos <= r.value.next <= |toks|
    decreases |toks| - pos, 7
  {
    if Kind(toks, pos) == ASSIGN then
      var e :- Expression(env, toks, pos + 1);
      var checked := env.assign(counter, e.node);
      if checked.Fail? then Err(checked.error) else Ok(Parsed(Some(e.node), e.next))
    else Ok(Parsed(None, pos))
  }

  /** `__parse_WHILE_STATEMENT` (after `while`). */
  function WhileStatement(env: Env, toks: seq<Token>, pos: nat): (r: Result<Parsed<Stmt>>)
    requires pos <= |toks|
    ensures r.Ok? ==> pos < r.value.next <= |toks|
    decreases |toks| - pos, 8
  {
    var c :- Condition(env, toks, pos);
    if Kind(toks, c.next) != DO then Err(SyntaxError)
    else
      var body :- StatementBlock(env, toks, c.next + 1);
      Ok(Parsed(While(c.node, body.node), body.next))
  }

  /** `__parse_REPEAT_STATEMENT` (after `repeat`): statements, each followed
      by `;`, up to `until`, then the condition. */
  function RepeatStatements(env: Env, toks: seq<Token>, statements: seq<Stmt>, pos: nat): (r: Result<Parsed<Stmt>>)
    requires pos <= |toks|
    ensures r.Ok? ==> pos < r.value.next <= |toks|
    decreases |toks| - pos, 10
  {
    if Kind(toks, pos) == UNTIL then
      var c :- Condition(env, toks, pos + 1);
      Ok(Parsed(RepeatUntil(c.node, StatementPart(statements)), c.next))
    else
      var s :- Statement(env, toks, pos);
      if Kind(toks, s.next) != SEMICOLON then Err(SyntaxError)
      else RepeatStatements(env, toks, statements + [s.node], s.next + 1)
  }

  // ---------------------------------------------------------------------
  // Types and declarations

  /** Every array node nested in `t` carries the next id: the outermost
      `id`, its element `id + 1`, and so on. */
  predicate NumberedFrom(t: Ty, id: nat) {
    t.Array? ==> t.arr.arrayId == id && NumberedFrom(t.arr.elem, id + 1)
  }

  /** The number of array nodes nested in `t`. */
  function ArrayCount(t: Ty): nat {
    if t.Array? then 1 + ArrayCount(t.arr.elem) else 0
  }

  /** `__parse_type`: an array type, a primitive kind, or the name of a type
      alias, which is looked up (types only) and stands for the alias symbol
      itself.  `id` is the id the first array node parsed gets. */
  function TypeSpec(env: Env, toks: seq<Token>, pos: nat, id: nat): (r: Result<Parsed<Ty>>)
    requires pos <= |toks|
    ensures r.Ok? ==> pos < r.value.next <= |toks|
    ensures r.Ok? ==> NumberedFrom(r.value.node, id)
    ensures r.Ok? && r.value.node.Alias? ==> env.typeNamed(TokenValue(toks, pos)) == Some(r.value.node.sym)
    decreases |toks| - pos, 1
  {
    var kind := Kind(toks, pos);
    if kind == ARRAY then ArrayTypeSpec(env, toks, pos + 1, id)
    else if kind == RECORD then Err(NotImplemented)
    else if PrimitiveKind(kind).Some? then Ok(Parsed(Prim(PrimitiveKind(kind).value), pos + 1))
    else if kind != IDENTIFIER then Err(SyntaxError)
    else
      var alias := env.typeNamed(TokenValue(toks, pos));
      if alias.None? then Err(Undeclared) else Ok(Parsed(Alias(alias.value), pos + 1))
  }

  /** `__parse_ARRAY_TYPE` (after `array`): the node is made first, so it
      gets `id` before its element type is parsed. */
  function ArrayTypeSpec(env: Env, toks: seq<Token>, pos: nat, id: nat): (r: Result<Parsed<Ty>>)
    requires pos <= |toks|
    ensures r.Ok? ==> pos < r.value.next <= |toks|
    ensures r.Ok? ==> r.value.node.Array? && NumberedFrom(r.value.node, id)
    decreases |toks| - pos, 0
  {
    if Kind(toks, pos) != LBR then Err(SyntaxError)
    else
      var ranges :- ArrayRanges(env, toks, [], pos + 1);
      if Kind(toks, ranges.next) != OF then Err(SyntaxError)
      else
        var elem :- TypeSpec(env, toks, ranges.next + 1, id + 1);
        Ok(Parsed(Array(ArrayTy(id, ranges.node, elem.node)), elem.next))
  }

  /** The ranges of an array type, `factor .. factor`, up to the closing
      bracket. */
  function ArrayRanges(env: Env, toks: seq<Token>, ranges: seq<ArrayRange>, pos: nat): (r: Result<Parsed<seq<ArrayRange>>>)
    requires pos <= |toks|
    ensures r.Ok? ==> pos < r.value.next <= |toks|
    decreases |toks| - pos
  {
    if Kind(toks, pos) == RBR then Ok(Parsed(ranges, pos + 1))
    else
      var range :- ArrayRangeSpec(env, toks, pos);
      ArrayRanges(env, toks, ranges + [range.node], range.next)
  }

  /** One range of an array type, `factor .. factor`, and the comma that
      may follow it. */
  function ArrayRangeSpec(env: Env, toks: seq<Token>, pos: nat): (r: Result<Parsed<ArrayRange>>)
    requires pos <= |toks|
    ensures r.Ok? ==> pos < r.value.next <= |toks|
  {
    var left :- Factor(env, toks, pos);
    if Kind(toks, left.next) != ARRDOT then Err(SyntaxError)
    else
      var right :- Factor(env, toks, left.next + 1);
      var p := if Kind(toks, right.next) == COMMA then right.next + 1 else right.next;
      Ok(Parsed(ArrayRange(left.node, right.node), p))
  }

  /** The identifier list of a var clause, up to and including the colon. */
  function VarIdentifiers(toks: seq<Token>, ids: seq<string>, pos: nat): (r: Result<Parsed<seq<string>>>)
    requires pos <= |toks|
    ensures r.Ok? ==> pos < r.value.next <= |toks|
    decreases |toks| - pos
  {
    if Kind(toks, pos) == COLON then Ok(Parsed(ids, pos + 1))
    else if Kind(toks, pos) != IDENTIFIER then Err(SyntaxError)
    else
      var p := if Kind(toks, pos + 1) == COMMA then pos + 2 else pos + 1;
      VarIdentifiers(toks, ids + [TokenValue(toks, pos)], p)
  }

  /** The head of a var clause: the identifiers, the colon and the type;
      an initial value after it is not supported. */
  function VarClause(env: Env, toks: seq<Token>, pos: nat, id: nat): (r: Result<Parsed<(seq<string>, Ty)>>)
    requires pos <= |toks|
    ensures r.Ok? ==> pos < r.value.next <= |toks|
    ensures r.Ok? ==> NumberedFrom(r.value.node.1, id)
  {
    var ids :- VarIdentifiers(toks, [], pos);
    var t :- TypeSpec(env, toks, ids.next, id);
    if Kind(toks, t.next) == ASSIGN then Err(NotImplemented)
    else Ok(Parsed((ids.node, t.node), t.next))
  }

  /** `name = condition` of a const clause. */
  function ConstClause(env: Env, toks: seq<Token>, pos: nat): (r: Result<Parsed<(string, Expr)>>)
    requires pos <= |toks|
    ensures r.Ok? ==> pos < r.value.next <= |toks|
    ensures r.Ok? ==> r.value.node.0 == TokenValue(toks, pos)
  {
    if Kind(toks, pos) != IDENTIFIER || Kind(toks, pos + 1) != EQUALITY then Err(SyntaxError)
    else
      var e :- Condition(env, toks, pos + 2);
      Ok(Parsed((TokenValue(toks, pos), e.node), e.next))
  }

  /** `name = type` of a type clause. */
  function TypeClause(env: Env, toks: seq<Token>, pos: nat, id: nat): (r: Result<Parsed<(string, Ty)>>)
    requires pos <= |toks|
    ensures r.Ok? ==> pos < r.value.next <= |toks|
    ensures r.Ok? ==> r.value.node.0 == TokenValue(toks, pos) && NumberedFrom(r.value.node.1, id)
  {
    if Kind(toks, pos) != IDENTIFIER || Kind(toks, pos + 1) != EQUALITY then Err(SyntaxError)
    else
      var t :- TypeSpec(env, toks, pos + 2, id);
      Ok(Parsed((TokenValue(toks, pos), t.node), t.next))
  }

  // ---------------------------------------------------------------------
  // Precedence and associativity

  /** The level at which the parser takes an operator kind: 1 relational,
      2 additive, 3 multiplicative, 0 for any other kind. */
  function KindLevel(kind: TokenKind): nat {
    if ConditionOperator(kind).Some? then 1
    else if AdditiveOperator(kind).Some? then 2
    else if MultiplicativeOperator(kind).Some? then 3
    else 0
  }

  /** The operator a kind of some level stands for. */
  function LevelOperator(kind: TokenKind): Operator
    requires KindLevel(kind) > 0
  {
    if ConditionOperator(kind).Some? then ConditionOperator(kind).value
    else if AdditiveOperator(kind).Some? then AdditiveOperator(kind).value
    else MultiplicativeOperator(kind).value
  }

  function Precedence(op: Operator): nat {
    if op in {Equality, NonEquality, Greater, Smaller, GreaterOrEqual, SmallerOrEqual} then 1
    else if op in {Plus, Minus, Or, Xor} then 2
    else if op in {Multiply, Divide, Div, Mod, And, Shl, Shr} then 3
    else 0
  }

  /** Operands bind tighter than any binary operator. */
  function TopPrecedence(e: Expr): nat {
    if e.Binary? then Precedence(e.operationType) else 4
  }

  /** Every binary node's left operand binds at least as tightly as the node
      (operators of one level associate to the left) and its right operand
      strictly more tightly. */
  predicate Respects(e: Expr) {
    match e
    case Binary(l, r, op) =>
      TopPrecedence(l) >= Precedence(op) && TopPrecedence(r) > Precedence(op) && Respects(l) && Respects(r)
    case Unary(l, _) => Respects(l)
    case _ => true
  }

  /** An identifier, an operator, or any other token, as read from the
      input or from a tree. */
  datatype Lexeme = Name(identifier: string) | Op(op: Operator) | Other(kind: TokenKind)

  /** The lexemes of a tree, left to right. */
  function Yield(e: Expr): seq<Lexeme> {
    match e
    case Variable(id) => [Name(id)]
    case Binary(l, r, op) => Yield(l) + [Lexeme.Op(op)] + Yield(r)
    case _ => []
  }

  function WordOf(t: Token): Lexeme {
    if t.kind == IDENTIFIER then Name(t.value)
    else if KindLevel(t.kind) > 0 then Lexeme.Op(LevelOperator(t.kind))
    else Other(t.kind)
  }

  /** The lexemes of the input tokens `from` to `to`. */
  function Words(toks: seq<Token>, from: nat, to: nat): (w: seq<Lexeme>)
    requires from <= to <= |toks|
    ensures |w| == to - from
    decreases |toks| - from
  {
    if from == to then [] else [WordOf(toks[from])] + Words(toks, from + 1, to)
  }

  lemma {:induction false} WordsSplit(toks: seq<Token>, a: nat, b: nat, c: nat)
    requires a <= b <= c <= |toks|
    ensures Words(toks, a, c) == Words(toks, a, b) + Words(toks, b, c)
    decreases b - a
  {
    if a < b {
      WordsSplit(toks, a + 1, b, c);
    }
  }

  /** An operator kind neither continues an identifier statement nor is an
      identifier or the end of input. */
  lemma OperatorKind(k: TokenKind)
    requires KindLevel(k) > 0
    ensures k != ASSIGN && k != LPAREN && k != LBR && k != DOT && k != IDENTIFIER && k != EOF
  {
  }

  /** Each level's operator lookup agrees with `LevelOperator` and
      `Precedence`. */
  lemma MultiplicativeLevel(k: TokenKind)
    requires MultiplicativeOperator(k).Some?
    ensures KindLevel(k) == 3 && LevelOperator(k) == MultiplicativeOperator(k).value
    ensures Precedence(MultiplicativeOperator(k).value) == 3
  {
  }

  lemma AdditiveLevel(k: TokenKind)
    requires AdditiveOperator(k).Some?
    ensures KindLevel(k) == 2 && LevelOperator(k) == AdditiveOperator(k).value
    ensures Precedence(AdditiveOperator(k).value) == 2
  {
  }

  lemma ConditionLevel(k: TokenKind)
    requires KindLevel(k) > 0 && BelowAdditive(k)
    ensures ConditionOperator(k).Some? && LevelOperator(k) == ConditionOperator(k).value
    ensures Precedence(ConditionOperator(k).value) == 1
  {
  }

  /** Declared identifiers at even positions and binary operators of some
      level at odd positions, starting and ending with an identifier. */
  ghost predicate InfixStream(env: Env, toks: seq<Token>) {
    InfixFrom(env, toks, 0)
  }

  /** The stream from an identifier at `i` on. */
  ghost predicate InfixFrom(env: Env, toks: seq<Token>, i: nat)
    decreases |toks| - i
  {
    i < |toks| && IdentifierAt(env, toks, i)
    && (i + 1 < |toks| ==> OperatorAt(toks, i + 1) && InfixFrom(env, toks, i + 2))
  }

  ghost predicate IdentifierAt(env: Env, toks: seq<Token>, i: nat)
    requires i < |toks|
  {
    toks[i].kind == IDENTIFIER && env.declared(toks[i].value)
  }

  ghost predicate OperatorAt(toks: seq<Token>, i: nat)
    requires i < |toks|
  {
    KindLevel(toks[i].kind) > 0
  }

  /** The stream has an identifier at each even position and an operator
      at each odd one, which is never the last token. */
  lemma StreamAt(env: Env, toks: seq<Token>, i: nat)
    requires InfixStream(env, toks)
    ensures i < |toks| && i % 2 == 0 ==> IdentifierAt(env, toks, i)
    ensures i < |toks| && i % 2 == 1 ==> OperatorAt(toks, i) && i + 1 < |toks|
  {
    InfixFromAt(env, toks, 0, i);
  }

  lemma {:induction false} InfixFromAt(env: Env, toks: seq<Token>, j: nat, i: nat)
    requires InfixFrom(env, toks, j) && j % 2 == 0
    ensures j <= i < |toks| && i % 2 == 0 ==> IdentifierAt(env, toks, i)
    ensures j <= i < |toks| && i % 2 == 1 ==> OperatorAt(toks, i) && i + 1 < |toks|
    decreases |toks| - j
  {
    if j + 1 < |toks| {
      InfixFromAt(env, toks, j + 2, i);
    }
  }

  /** A kind at which both the term and the expression loops stop. */
  predicate BelowAdditive(kind: TokenKind) {
    MultiplicativeOperator(kind).None? && AdditiveOperator(kind).None?
  }

  // The stream parsed by precedence climbing alone: the three loops of the
  // parser with each operand a bare identifier and no semantic check.

  function TermRun(toks: seq<Token>, left: Expr, pos: nat): (r: Parsed<Expr>)
    ensures pos <= r.next && (pos <= |toks| ==> r.next <= |toks|)
    decreases |toks| - pos
  {
    var op := MultiplicativeOperator(Kind(toks, pos));
    if op.None? || pos + 1 >= |toks| then Parsed(left, pos)
    else TermRun(toks, Binary(left, Variable(toks[pos + 1].value), op.value), pos + 2)
  }

  function TermAt(toks: seq<Token>, pos: nat): (r: Parsed<Expr>)
    requires pos < |toks|
    ensures pos < r.next <= |toks|
  {
    TermRun(toks, Variable(toks[pos].value), pos + 1)
  }

  function ExpressionRun(toks: seq<Token>, left: Expr, pos: nat): (r: Parsed<Expr>)
    ensures pos <= r.next && (pos <= |toks| ==> r.next <= |toks|)
    decreases |toks| - pos
  {
    var op := AdditiveOperator(Kind(toks, pos));
    if op.None? || pos + 1 >= |toks| then Parsed(left, pos)
    else
      var right := TermAt(toks, pos + 1);
      ExpressionRun(toks, Binary(left, right.node, op.value), right.next)
  }

  function ExpressionAt(toks: seq<Token>, pos: nat): (r: Parsed<Expr>)
    requires pos < |toks|
    ensures pos < r.next <= |toks|
  {
    var t := TermAt(toks, pos);
    ExpressionRun(toks, t.node, t.next)
  }

  function ConditionRun(toks: seq<Token>, left: Expr, pos: nat): (r: Parsed<Expr>)
    ensures pos <= r.next && (pos <= |toks| ==> r.next <= |toks|)
    decreases |toks| - pos
  {
    var op := ConditionOperator(Kind(toks, pos));
    if op.None? || pos + 1 >= |toks| then Parsed(left, pos)
    else
      var right := ExpressionAt(toks, pos + 1);
      ConditionRun(toks, Binary(left, right.node, op.value), right.next)
  }

  function ConditionAt(toks: seq<Token>, pos: nat): (r: Parsed<Expr>)
    requires pos < |toks|
    ensures pos < r.next <= |toks|
  {
    var e := ExpressionAt(toks, pos);
    ConditionRun(toks, e.node, e.next)
  }

  // What precedence climbing over the stream builds.

  /** An operator followed by what the stream holds up to `next`. */
  lemma WordsAfterOperator(toks: seq<Token>, pos: nat, next: nat)
    requires pos < next <= |toks| && OperatorAt(toks, pos)
    ensures Words(toks, pos, next) == [Lexeme.Op(LevelOperator(toks[pos].kind))] + Words(toks, pos + 1, next)
  {
    OperatorKind(toks[pos].kind);
  }

  /** Joining a parsed operator and operand to `left` extends what `left`
      reads as by the input they were parsed from. */
  lemma YieldExtends(toks: seq<Token>, left: Expr, right: Expr, op: Operator, pos: nat, mid: nat, next: nat)
    requires pos <= mid <= next <= |toks|
    requires Words(toks, pos, mid) == [Lexeme.Op(op)] + Yield(right)
    ensures Yield(Binary(left, right, op)) + Words(toks, mid, next) == Yield(left) + Words(toks, pos, next)
  {
    WordsSplit(toks, pos, mid, next);
    ConcatAssoc(Yield(left), [Lexeme.Op(op)], Yield(right), Words(toks, mid, next));
  }

  lemma ConcatAssoc<T>(a: seq<T>, b: seq<T>, c: seq<T>, d: seq<T>)
    ensures a + b + c + d == a + ((b + c) + d)
  {
  }

  /** The operator of one round of the term loop over the stream and the
      identifier after it, which a token that continues no identifier
      statement follows. */
  lemma TermRunStep(env: Env, toks: seq<Token>, pos: nat)
    requires InfixStream(env, toks) && pos % 2 == 1 && pos <= |toks|
    requires MultiplicativeOperator(Kind(toks, pos)).Some?
    ensures pos + 2 <= |toks|
    ensures Precedence(MultiplicativeOperator(Kind(toks, pos)).value) == 3
    ensures toks[pos + 1].kind == IDENTIFIER && env.declared(toks[pos + 1].value)
    ensures var k := Kind(toks, pos + 2); k != ASSIGN && k != LPAREN && k != LBR && k != DOT
  {
    StreamAt(env, toks, pos);
    Parity(pos);
    IdentifierInStream(env, toks, pos + 1);
  }

  lemma Parity(n: nat)
    ensures n % 2 == 1 ==> (n + 1) % 2 == 0 && (n + 2) % 2 == 1
    ensures n % 2 == 0 ==> (n + 1) % 2 == 1 && (n + 2) % 2 == 0
  {
  }

  /** ... and what that operator and identifier read as. */
  lemma TermRunWords(env: Env, toks: seq<Token>, pos: nat)
    requires InfixStream(env, toks) && pos % 2 == 1 && pos <= |toks|
    requires MultiplicativeOperator(Kind(toks, pos)).Some?
    ensures pos + 2 <= |toks|
    ensures Words(toks, pos, pos + 2)
            == [Lexeme.Op(MultiplicativeOperator(Kind(toks, pos)).value)] + Yield(Variable(toks[pos + 1].value))
  {
    Parity(pos);
    TermRunStep(env, toks, pos);
    MultiplicativeLevel(toks[pos].kind);
    WordsPair(toks, pos);
  }

  /** An operator and an identifier read as that operator and that name. */
  lemma WordsPair(toks: seq<Token>, pos: nat)
    requires pos + 2 <= |toks| && KindLevel(toks[pos].kind) > 0 && toks[pos + 1].kind == IDENTIFIER
    ensures Words(toks, pos, pos + 2) == [Lexeme.Op(LevelOperator(toks[pos].kind)), Name(toks[pos + 1].value)]
  {
    OperatorKind(toks[pos].kind);
    assert Words(toks, pos + 1, pos + 2) == [Name(toks[pos + 1].value)];
  }

  /** The term loop over the stream stops at an odd position not followed by
      a multiplicative operator, with a tree that respects precedence, binds
      at least as tightly as a term, and reads as `left` followed by the
      input it took. */
  lemma TermRunOutcome(env: Env, toks: seq<Token>, left: Expr, pos: nat)
    requires InfixStream(env, toks) && pos % 2 == 1 && pos <= |toks|
    requires Respects(left) && TopPrecedence(left) >= 3
    ensures var r := TermRun(toks, left, pos);
            r.next % 2 == 1 && MultiplicativeOperator(Kind(toks, r.next)).None?
            && Respects(r.node) && TopPrecedence(r.node) >= 3
            && Yield(r.node) == Yield(left) + Words(toks, pos, r.next)
  {
    Parity(pos);
    TermRunStops(env, toks, left, pos);
    TermRunTree(env, toks, left, pos);
    TermRunYield(env, toks, left, pos, TermRun(toks, left, pos));
  }

  lemma {:induction false} TermRunStops(env: Env, toks: seq<Token>, left: Expr, pos: nat)
    requires InfixStream(env, toks) && pos % 2 == 1 && pos <= |toks|
    ensures var r := TermRun(toks, left, pos);
            r.next % 2 == 1 && MultiplicativeOperator(Kind(toks, r.next)).None?
    decreases |toks| - pos
  {
    Parity(pos);
    if MultiplicativeOperator(Kind(toks, pos)).Some? {
      TermRunStep(env, toks, pos);
      var op := MultiplicativeOperator(Kind(toks, pos)).value;
      TermRunStops(env, toks, Binary(left, Variable(toks[pos + 1].value), op), pos + 2);
    }
  }

  lemma {:induction false} TermRunTree(env: Env, toks: seq<Token>, left: Expr, pos: nat)
    requires InfixStream(env, toks) && pos % 2 == 1 && pos <= |toks|
    requires Respects(left) && TopPrecedence(left) >= 3
    ensures var r := TermRun(toks, left, pos); Respects(r.node) && TopPrecedence(r.node) >= 3
    decreases |toks| - pos
  {
    Parity(pos);
    if MultiplicativeOperator(Kind(toks, pos)).Some? {
      TermRunStep(env, toks, pos);
      var op := MultiplicativeOperator(Kind(toks, pos)).value;
      TermRunTree(env, toks, Binary(left, Variable(toks[pos + 1].value), op), pos + 2);
    }
  }

  lemma {:induction false} TermRunYield(env: Env, toks: seq<Token>, left: Expr, pos: nat, r: Parsed<Expr>)
    requires InfixStream(env, toks) && pos % 2 == 1 && pos <= |toks|
    requires r == TermRun(toks, left, pos)
    ensures Yield(r.node) == Yield(left) + Words(toks, pos, r.next)
    decreases |toks| - pos
  {
    Parity(pos);
    if MultiplicativeOperator(Kind(toks, pos)).Some? {
      TermRunWords(env, toks, pos);
      var op := MultiplicativeOperator(Kind(toks, pos)).value;
      var b := Binary(left, Variable(toks[pos + 1].value), op);
      TermRunYield(env, toks, b, pos + 2, TermRun(toks, b, pos + 2));
      TermYieldStep(toks, left, op, pos, r.next);
    }
  }

  /** An operator and the identifier after it, joined to `left`. */
  lemma TermYieldStep(toks: seq<Token>, left: Expr, op: Operator, pos: nat, next: nat)
    requires pos + 2 <= next <= |toks|
    requires Words(toks, pos, pos + 2) == [Lexeme.Op(op)] + Yield(Variable(toks[pos + 1].value))
    ensures Yield(Binary(left, Variable(toks[pos + 1].value), op)) + Words(toks, pos + 2, next)
            == Yield(left) + Words(toks, pos, next)
  {
    YieldExtends(toks, left, Variable(toks[pos + 1].value), op, pos, pos + 2, next);
  }

  lemma TermAtOutcome(env: Env, toks: seq<Token>, pos: nat)
    requires InfixStream(env, toks) && pos % 2 == 0 && pos < |toks|
    ensures var r := TermAt(toks, pos);
            r.next % 2 == 1 && MultiplicativeOperator(Kind(toks, r.next)).None?
            && Respects(r.node) && TopPrecedence(r.node) >= 3
            && Yield(r.node) == Words(toks, pos, r.next)
  {
    Parity(pos);
    StreamAt(env, toks, pos);
    var v := Variable(toks[pos].value);
    TermRunOutcome(env, toks, v, pos + 1);
    var next := TermAt(toks, pos).next;
    assert Words(toks, pos, next) == [Name(toks[pos].value)] + Words(toks, pos + 1, next);
  }

  /** One round of the expression loop over the stream: the operator and
      the term after it. */
  lemma ExpressionRunStep(env: Env, toks: seq<Token>, pos: nat)
    requires InfixStream(env, toks) && pos % 2 == 1 && pos <= |toks|
    requires AdditiveOperator(Kind(toks, pos)).Some?
    ensures pos + 1 < |toks|
    ensures var op := AdditiveOperator(Kind(toks, pos)).value;
            var right := TermAt(toks, pos + 1);
            right.next % 2 == 1 && MultiplicativeOperator(Kind(toks, right.next)).None?
            && Respects(right.node) && TopPrecedence(right.node) >= 3
            && Precedence(op) == 2
            && Words(toks, pos, right.next) == [Lexeme.Op(op)] + Yield(right.node)
  {
    Parity(pos);
    StreamAt(env, toks, pos);
    AdditiveLevel(toks[pos].kind);
    TermAtOutcome(env, toks, pos + 1);
    WordsAfterOperator(toks, pos, TermAt(toks, pos + 1).next);
  }

  lemma {:induction false} ExpressionRunOutcome(env: Env, toks: seq<Token>, left: Expr, pos: nat)
    requires InfixStream(env, toks) && pos % 2 == 1 && pos <= |toks|
    requires MultiplicativeOperator(Kind(toks, pos)).None?
    requires Respects(left) && TopPrecedence(left) >= 2
    ensures var r := ExpressionRun(toks, left, pos);
            r.next % 2 == 1 && BelowAdditive(Kind(toks, r.next))
            && Respects(r.node) && TopPrecedence(r.node) >= 2
            && Yield(r.node) == Yield(left) + Words(toks, pos, r.next)
    decreases |toks| - pos
  {
    Parity(pos);
    if AdditiveOperator(Kind(toks, pos)).Some? {
      ExpressionRunStep(env, toks, pos);
      var op := AdditiveOperator(Kind(toks, pos)).value;
      var right := TermAt(toks, pos + 1);
      ExpressionRunOutcome(env, toks, Binary(left, right.node, op), right.next);
      YieldExtends(toks, left, right.node, op, pos, right.next, ExpressionRun(toks, left, pos).next);
    }
  }

  lemma ExpressionAtOutcome(env: Env, toks: seq<Token>, pos: nat)
    requires InfixStream(env, toks) && pos % 2 == 0 && pos < |toks|
    ensures var r := ExpressionAt(toks, pos);
            r.next % 2 == 1 && BelowAdditive(Kind(toks, r.next))
            && Respects(r.node) && TopPrecedence(r.node) >= 2
            && Yield(r.node) == Words(toks, pos, r.next)
  {
    Parity(pos);
    TermAtOutcome(env, toks, pos);
    var t := TermAt(toks, pos);
    ExpressionRunOutcome(env, toks, t.node, t.next);
    WordsSplit(toks, pos, t.next, ExpressionAt(toks, pos).next);
  }

  /** One round of the condition loop over the stream: below the additive
      level only a relational operator can come next. */
  lemma ConditionRunStep(env: Env, toks: seq<Token>, pos: nat)
    requires InfixStream(env, toks) && pos % 2 == 1 && pos < |toks|
    requires BelowAdditive(Kind(toks, pos))
    ensures ConditionOperator(Kind(toks, pos)).Some? && pos + 1 < |toks|
    ensures var op := ConditionOperator(Kind(toks, pos)).value;
            var right := ExpressionAt(toks, pos + 1);
            right.next % 2 == 1 && BelowAdditive(Kind(toks, right.next))
            && Respects(right.node) && TopPrecedence(right.node) >= 2
            && Precedence(op) == 1
            && Words(toks, pos, right.next) == [Lexeme.Op(op)] + Yield(right.node)
  {
    Parity(pos);
    StreamAt(env, toks, pos);
    ConditionLevel(toks[pos].kind);
    ExpressionAtOutcome(env, toks, pos + 1);
    WordsAfterOperator(toks, pos, ExpressionAt(toks, pos + 1).next);
  }

  lemma {:induction false} ConditionRunOutcome(env: Env, toks: seq<Token>, left: Expr, pos: nat)
    requires InfixStream(env, toks) && pos % 2 == 1 && pos <= |toks|
    requires BelowAdditive(Kind(toks, pos))
    requires Respects(left) && TopPrecedence(left) >= 1
    ensures var r := ConditionRun(toks, left, pos);
            r.next == |toks| && Respects(r.node)
            && Yield(r.node) == Yield(left) + Words(toks, pos, |toks|)
    decreases |toks| - pos
  {
    Parity(pos);
    if pos < |toks| {
      ConditionRunStep(env, toks, pos);
      var op := ConditionOperator(Kind(toks, pos)).value;
      var right := ExpressionAt(toks, pos + 1);
      ConditionRunOutcome(env, toks, Binary(left, right.node, op), right.next);
      YieldExtends(toks, left, right.node, op, pos, right.next, |toks|);
    }
  }

  /** Precedence climbing reads the whole stream back as one tree in which
      every operator binds as its level says, left-associatively within a
      level. */
  lemma ConditionAtOutcome(env: Env, toks: seq<Token>)
    requires InfixStream(env, toks)
    ensures var r := ConditionAt(toks, 0);
            r.next == |toks| && Respects(r.node) && Yield(r.node) == Words(toks, 0, |toks|)
  {
    ExpressionAtOutcome(env, toks, 0);
    var e := ExpressionAt(toks, 0);
    ConditionRunOutcome(env, toks, e.node, e.next);
    WordsSplit(toks, 0, e.next, |toks|);
  }

  // The parser on the stream: every factor is a bare declared identifier,
  // so its loops build what precedence climbing builds.

  /** Only end of input or an operator can follow an identifier of the
      stream, and neither continues an identifier statement. */
  lemma IdentifierInStream(env: Env, toks: seq<Token>, pos: nat)
    requires InfixStream(env, toks) && pos % 2 == 0 && pos < |toks|
    ensures toks[pos].kind == IDENTIFIER && env.declared(toks[pos].value)
    ensures var k := Kind(toks, pos + 1); k != ASSIGN && k != LPAREN && k != LBR && k != DOT
  {
    Parity(pos);
    StreamAt(env, toks, pos);
    StreamAt(env, toks, pos + 1);
    if pos + 1 < |toks| { OperatorKind(toks[pos + 1].kind); }
  }

  /** A declared identifier that nothing continues is a factor by itself. */
  lemma LoneIdentifier(env: Env, toks: seq<Token>, pos: nat)
    requires pos < |toks| && toks[pos].kind == IDENTIFIER && env.declared(toks[pos].value)
    requires var k := Kind(toks, pos + 1); k != ASSIGN && k != LPAREN && k != LBR && k != DOT
    ensures Factor(env, toks, pos) == Ok(Parsed(Variable(toks[pos].value), pos + 1))
  {
    var v := Variable(toks[pos].value);
    IdentifierTailStops(env, toks, v, pos + 1);
    DeclaredIdentifier(env, toks, pos);
  }

  /** ... and so starts a term. */
  lemma LoneIdentifierTerm(env: Env, toks: seq<Token>, pos: nat)
    requires pos < |toks| && toks[pos].kind == IDENTIFIER && env.declared(toks[pos].value)
    requires var k := Kind(toks, pos + 1); k != ASSIGN && k != LPAREN && k != LBR && k != DOT
    ensures Term(env, toks, pos) == TermTail(env, toks, Variable(toks[pos].value), pos + 1)
  {
    LoneIdentifier(env, toks, pos);
    TermUnfold(env, toks, pos, Parsed(Variable(toks[pos].value), pos + 1));
  }

  /** An identifier statement ends at a token that continues none of its
      suffixes. */
  lemma IdentifierTailStops(env: Env, toks: seq<Token>, left: Expr, pos: nat)
    requires pos <= |toks|
    requires var k := Kind(toks, pos); k != ASSIGN && k != LPAREN && k != LBR && k != DOT
    ensures IdentifierTail(env, toks, left, pos) == Ok(Parsed(left, pos))
  {
  }

  /** A declared identifier starts an identifier statement that goes on as
      its suffixes say. */
  lemma DeclaredIdentifier(env: Env, toks: seq<Token>, pos: nat)
    requires pos < |toks| && toks[pos].kind == IDENTIFIER && env.declared(toks[pos].value)
    ensures Factor(env, toks, pos) == IdentifierTail(env, toks, Variable(toks[pos].value), pos + 1)
  {
    assert IdentifierStatement(env, toks, pos) == IdentifierTail(env, toks, Variable(toks[pos].value), pos + 1);
    assert Operand(env, toks, pos) == IdentifierStatement(env, toks, pos);
  }

  /** The loops end at a kind that is not theirs. */
  lemma LoopsStop(env: Env, toks: seq<Token>, left: Expr, pos: nat)
    requires pos <= |toks|
    ensures MultiplicativeOperator(Kind(toks, pos)).None? ==> TermTail(env, toks, left, pos) == Ok(Parsed(left, pos))
    ensures AdditiveOperator(Kind(toks, pos)).None? ==> ExpressionTail(env, toks, left, pos) == Ok(Parsed(left, pos))
    ensures ConditionOperator(Kind(toks, pos)).None? ==> ConditionTail(env, toks, left, pos) == Ok(Parsed(left, pos))
  {
  }

  /** Each level starts with the level below it. */
  lemma TermUnfold(env: Env, toks: seq<Token>, pos: nat, left: Parsed<Expr>)
    requires pos < |toks| && Factor(env, toks, pos) == Ok(left)
    ensures Term(env, toks, pos) == TermTail(env, toks, left.node, left.next)
  {
  }

  lemma ExpressionUnfold(env: Env, toks: seq<Token>, pos: nat, left: Parsed<Expr>)
    requires pos < |toks| && Term(env, toks, pos) == Ok(left)
    ensures Expression(env, toks, pos) == ExpressionTail(env, toks, left.node, left.next)
  {
  }

  lemma ConditionUnfold(env: Env, toks: seq<Token>, pos: nat, left: Parsed<Expr>)
    requires pos < |toks| && Expression(env, toks, pos) == Ok(left)
    ensures Condition(env, toks, pos) == ConditionTail(env, toks, left.node, left.next)
  {
  }

  /** One round of each loop. */
  lemma TermTailUnfold(env: Env, toks: seq<Token>, left: Expr, pos: nat, right: Parsed<Expr>)
    requires pos < |toks| && MultiplicativeOperator(Kind(toks, pos)).Some?
    requires Factor(env, toks, pos + 1) == Ok(right)
    ensures TermTail(env, toks, left, pos)
            == TermTail(env, toks, Binary(left, right.node, MultiplicativeOperator(Kind(toks, pos)).value), right.next)
  {
  }

  lemma ExpressionTailUnfold(env: Env, toks: seq<Token>, left: Expr, pos: nat, right: Parsed<Expr>)
    requires pos < |toks| && AdditiveOperator(Kind(toks, pos)).Some?
    requires Term(env, toks, pos + 1) == Ok(right)
    ensures ExpressionTail(env, toks, left, pos)
            == ExpressionTail(env, toks, Binary(left, right.node, AdditiveOperator(Kind(toks, pos)).value), right.next)
  {
  }

  lemma ConditionTailUnfold(env: Env, toks: seq<Token>, left: Expr, pos: nat, right: Parsed<Expr>)
    requires pos < |toks| && ConditionOperator(Kind(toks, pos)).Some?
    requires Expression(env, toks, pos + 1) == Ok(right)
    ensures ConditionTail(env, toks, left, pos)
            == ConditionTail(env, toks, Binary(left, right.node, ConditionOperator(Kind(toks, pos)).value), right.next)
  {
  }

  /** A round of the term loop that takes a declared identifier standing
      alone. */
  lemma TermTailRound(env: Env, toks: seq<Token>, left: Expr, pos: nat)
    requires pos + 2 <= |toks| && MultiplicativeOperator(Kind(toks, pos)).Some?
    requires toks[pos + 1].kind == IDENTIFIER && env.declared(toks[pos + 1].value)
    requires var k := Kind(toks, pos + 2); k != ASSIGN && k != LPAREN && k != LBR && k != DOT
    ensures var op := MultiplicativeOperator(Kind(toks, pos)).value;
            TermTail(env, toks, left, pos) == TermTail(env, toks, Binary(left, Variable(toks[pos + 1].value), op), pos + 2)
  {
    LoneIdentifier(env, toks, pos + 1);
    TermTailUnfold(env, toks, left, pos, Parsed(Variable(toks[pos + 1].value), pos + 2));
  }

  lemma {:induction false} TermTailAgrees(env: Env, toks: seq<Token>, left: Expr, pos: nat)
    requires InfixStream(env, toks) && pos % 2 == 1 && pos <= |toks|
    ensures TermTail(env, toks, left, pos) == Ok(TermRun(toks, left, pos))
    decreases |toks| - pos
  {
    Parity(pos);
    if MultiplicativeOperator(Kind(toks, pos)).Some? {
      var op := MultiplicativeOperator(Kind(toks, pos)).value;
      TermRunStep(env, toks, pos);
      TermTailRound(env, toks, left, pos);
      TermTailAgrees(env, toks, Binary(left, Variable(toks[pos + 1].value), op), pos + 2);
    } else {
      LoopsStop(env, toks, left, pos);
    }
  }

  lemma TermAgrees(env: Env, toks: seq<Token>, pos: nat)
    requires InfixStream(env, toks) && pos % 2 == 0 && pos < |toks|
    ensures Term(env, toks, pos) == Ok(TermAt(toks, pos))
  {
    Parity(pos);
    IdentifierInStream(env, toks, pos);
    TermTailAgrees(env, toks, Variable(toks[pos].value), pos + 1);
    TermJoin(env, toks, pos, TermAt(toks, pos));
  }

  /** A term that starts with a lone identifier is what its loop makes of
      that identifier. */
  lemma TermJoin(env: Env, toks: seq<Token>, pos: nat, r: Parsed<Expr>)
    requires pos < |toks| && toks[pos].kind == IDENTIFIER && env.declared(toks[pos].value)
    requires var k := Kind(toks, pos + 1); k != ASSIGN && k != LPAREN && k != LBR && k != DOT
    requires TermTail(env, toks, Variable(toks[pos].value), pos + 1) == Ok(r)
    ensures Term(env, toks, pos) == Ok(r)
  {
    LoneIdentifierTerm(env, toks, pos);
  }

  lemma {:induction false} ExpressionTailAgrees(env: Env, toks: seq<Token>, left: Expr, pos: nat)
    requires InfixStream(env, toks) && pos % 2 == 1 && pos <= |toks|
    ensures ExpressionTail(env, toks, left, pos) == Ok(ExpressionRun(toks, left, pos))
    decreases |toks| - pos
  {
    Parity(pos);
    if AdditiveOperator(Kind(toks, pos)).Some? {
      var op := AdditiveOperator(Kind(toks, pos)).value;
      ExpressionRunStep(env, toks, pos);
      TermAgrees(env, toks, pos + 1);
      var right := TermAt(toks, pos + 1);
      ExpressionTailUnfold(env, toks, left, pos, right);
      ExpressionTailAgrees(env, toks, Binary(left, right.node, op), right.next);
    } else {
      LoopsStop(env, toks, left, pos);
    }
  }

  lemma ExpressionAgrees(env: Env, toks: seq<Token>, pos: nat)
    requires InfixStream(env, toks) && pos % 2 == 0 && pos < |toks|
    ensures Expression(env, toks, pos) == Ok(ExpressionAt(toks, pos))
  {
    Parity(pos);
    TermAgrees(env, toks, pos);
    TermAtOutcome(env, toks, pos);
    ExpressionUnfold(env, toks, pos, TermAt(toks, pos));
    ExpressionTailAgrees(env, toks, TermAt(toks, pos).node, TermAt(toks, pos).next);
  }

  lemma {:induction false} ConditionTailAgrees(env: Env, toks: seq<Token>, left: Expr, pos: nat)
    requires InfixStream(env, toks) && pos % 2 == 1 && pos <= |toks|
    ensures ConditionTail(env, toks, left, pos) == Ok(ConditionRun(toks, left, pos))
    decreases |toks| - pos
  {
    Parity(pos);
    if ConditionOperator(Kind(toks, pos)).Some? {
      var op := ConditionOperator(Kind(toks, pos)).value;
      ConditionRunStep(env, toks, pos);
      ExpressionAgrees(env, toks, pos + 1);
      var right := ExpressionAt(toks, pos + 1);
      ConditionTailUnfold(env, toks, left, pos, right);
      ConditionTailAgrees(env, toks, Binary(left, right.node, op), right.next);
    } else {
      LoopsStop(env, toks, left, pos);
    }
  }

  /** A stream of declared identifiers and binary operators parses
      completely into the tree precedence climbing builds: it reads back as
      the input and every operator in it binds as its level says,
      left-associatively within a level. */
  lemma InfixStreamParses(env: Env, toks: seq<Token>)
    requires InfixStream(env, toks)
    ensures Condition(env, toks, 0) == Ok(ConditionAt(toks, 0))
    ensures Condition(env, toks, 0).value.next == |toks|
    ensures Respects(Condition(env, toks, 0).value.node)
    ensures Yield(Condition(env, toks, 0).value.node) == Words(toks, 0, |toks|)
  {
    StreamAt(env, toks, 0);
    ExpressionAgrees(env, toks, 0);
    ExpressionAtOutcome(env, toks, 0);
    var e := ExpressionAt(toks, 0);
    ConditionUnfold(env, toks, 0, e);
    ConditionTailAgrees(env, toks, e.node, e.next);
    ConditionAtOutcome(env, toks);
  }

  // ---------------------------------------------------------------------
  // Literal folding

  /** A unary operator applies to the factor parsed after it. */
  lemma UnaryOperatorStep(env: Env, toks: seq<Token>, pos: nat, factor: Parsed<Expr>)
    requires pos < |toks| && (toks[pos].kind == PLUS || toks[pos].kind == MINUS || toks[pos].kind == NOT)
    requires Factor(env, toks, pos + 1) == Ok(factor)
    ensures UnaryOperator(env, toks, pos) == ApplyUnary(env, toks[pos].kind, factor)
  {
  }

  /** A numeric literal is typed by its text. */
  lemma NumberFactor(env: Env, toks: seq<Token>, pos: nat, k: PrimitiveType)
    requires pos < |toks| && toks[pos].kind == NUMBER && GetValueType(toks[pos].value) == Ok(k)
    ensures Factor(env, toks, pos) == Ok(Parsed(Value(toks[pos].value, k), pos + 1))
  {
  }

  /** A minus before a numeric literal becomes one literal whose text is the
      negated text and whose kind is typed from that text, once the check
      of unary minus on the literal passes. */
  lemma NegativeLiteralFolds(env: Env, toks: seq<Token>, pos: nat, k: PrimitiveType, t: PrimitiveType)
    requires pos + 1 < |toks| && toks[pos].kind == MINUS && toks[pos + 1].kind == NUMBER
    requires GetValueType(toks[pos + 1].value) == Ok(k) && GetValueType("-" + toks[pos + 1].value) == Ok(t)
    ensures var checked := env.supports(Value(toks[pos + 1].value, k), UnaryMinus);
            UnaryOperator(env, toks, pos)
            == if checked.Fail? then Err(checked.error) else Ok(Parsed(Value("-" + toks[pos + 1].value, t), pos + 2))
  {
    NumberFactor(env, toks, pos + 1, k);
    UnaryOperatorStep(env, toks, pos, Parsed(Value(toks[pos + 1].value, k), pos + 2));
  }

  /** `not` on a boolean literal becomes the opposite boolean literal. */
  lemma NotLiteralFolds(env: Env, toks: seq<Token>, pos: nat, b: bool)
    requires pos + 1 < |toks| && toks[pos].kind == NOT
    requires toks[pos + 1].kind == TRUE || toks[pos + 1].kind == FALSE
    requires ConvertValueToBoolean(toks[pos + 1].value) == Ok(b)
    ensures UnaryOperator(env, toks, pos) == Ok(Parsed(Value(if b then "False" else "True", Boolean), pos + 2))
  {
    BooleanLiteralFactor(env, toks, pos + 1);
    UnaryOperatorStep(env, toks, pos, Parsed(Value(toks[pos + 1].value, Boolean), pos + 2));
  }

  /** `true` and `false` are boolean literals holding their own text. */
  lemma BooleanLiteralFactor(env: Env, toks: seq<Token>, pos: nat)
    requires pos < |toks| && (toks[pos].kind == TRUE || toks[pos].kind == FALSE)
    ensures Factor(env, toks, pos) == Ok(Parsed(Value(toks[pos].value, Boolean), pos + 1))
  {
  }

  /** On an identifier, `not` and unary minus build a node over it. */
  lemma UnaryOverIdentifier(env: Env, toks: seq<Token>, pos: nat)
    requires pos + 1 < |toks| && (toks[pos].kind == NOT || toks[pos].kind == MINUS)
    requires toks[pos + 1].kind == IDENTIFIER
    requires env.declared(toks[pos + 1].value)
    requires var k := Kind(toks, pos + 2); k != ASSIGN && k != LPAREN && k != LBR && k != DOT
    ensures var op := if toks[pos].kind == NOT then Not else UnaryMinus;
            UnaryOperator(env, toks, pos) == Ok(Parsed(Unary(Variable(toks[pos + 1].value), op), pos + 2))
  {
    var v := Variable(toks[pos + 1].value);
    IdentifierTailStops(env, toks, v, pos + 2);
    DeclaredIdentifier(env, toks, pos + 1);
    assert Factor(env, toks, pos + 1) == Ok(Parsed(v, pos + 2));
    UnaryOperatorStep(env, toks, pos, Parsed(v, pos + 2));
  }
  // ---------------------------------------------------------------------
  // One round of each statement loop, as the parsing methods take it

  lemma StatementBlockSingle(env: Env, toks: seq<Token>, pos: nat, s: Result<Parsed<Stmt>>)
    requires pos <= |toks| && Kind(toks, pos) != BEGIN && Statement(env, toks, pos) == s
    ensures s.Err? ==> StatementBlock(env, toks, pos) == Err(s.error)
    ensures s.Ok? ==> StatementBlock(env, toks, pos) == Ok(Parsed(StatementPart([s.value.node]), s.value.next))
  {
  }

  lemma BlockStatementsRound(env: Env, toks: seq<Token>, statements: seq<Stmt>, pos: nat, s: Result<Parsed<Stmt>>)
    requires pos <= |toks| && Kind(toks, pos) != END && Statement(env, toks, pos) == s
    ensures s.Err? ==> BlockStatements(env, toks, statements, pos) == Err(s.error)
    ensures s.Ok? && Kind(toks, s.value.next) == SEMICOLON ==>
              BlockStatements(env, toks, statements, pos)
              == BlockStatements(env, toks, statements + [s.value.node], s.value.next + 1)
    ensures s.Ok? && Kind(toks, s.value.next) == END ==>
              BlockStatements(env, toks, statements, pos)
              == BlockStatements(env, toks, statements + [s.value.node], s.value.next)
    ensures s.Ok? && Kind(toks, s.value.next) != SEMICOLON && Kind(toks, s.value.next) != END ==>
              BlockStatements(env, toks, statements, pos) == Err(SyntaxError)
  {
  }
}
