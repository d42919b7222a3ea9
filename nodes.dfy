/** The syntax tree built by the parser, the types that declarations and
    symbols carry, and the symbols held by the semantic module's table.
    Tree nodes are values; a symbol is a heap object because other symbols
    refer to it through their types and its use count changes in place. */
module Nodes {
  import opened Wrappers
  import opened SupportClasses

  /** What a symbol's or a declaration's `type` attribute holds: a primitive
      kind, a plain string (declarations store their type as text), a type
      alias (the `TypeVariable` object itself) or an array type node. */
  datatype Ty =
    | Prim(kind: PrimitiveType)
    | Text(name: string)
    | Alias(sym: Symbol)
    | Array(arr: ArrayTy)

  datatype ArrayRange = ArrayRange(leftBound: Expr, rightBound: Expr)

  /** An array type node.  `arrayId` stands for the node's identity: the
      source compares array types by identity and prints them as their
      address, so every parsed array type gets an id of its own. */
  datatype ArrayTy = ArrayTy(arrayId: nat, ranges: seq<ArrayRange>, elem: Ty) {
    /** `NodeArrayType.append`. */
    function Append(range: ArrayRange): (r: ArrayTy)
      ensures |r.ranges| == |ranges| + 1 && r.ranges[..|ranges|] == ranges
      ensures r.ranges[|ranges|] == range
      ensures r.arrayId == arrayId && r.elem == elem
    {
      ArrayTy(arrayId, ranges + [range], elem)
    }
  }

  /** Expression nodes.  `CallParams` is the argument or index list that sits
      on the right of a SUBROUTINE_CALL or ARRAY_CALL node. */
  datatype Expr =
    | Value(value: string, kind: PrimitiveType)
    | Variable(identifier: string)
    | Unary(left: Expr, operationType: Operator)
    | Binary(left: Expr, right: Expr, operationType: Operator)
    | CallParams(params: seq<Expr>)
  {
    /** `NodeCallParams.append`. */
    function AppendParam(param: Expr): (r: Expr)
      requires CallParams?
      ensures r.CallParams? && |r.params| == |params| + 1
      ensures r.params[..|params|] == params && r.params[|params|] == param
    {
      CallParams(params + [param])
    }
  }

  /** Statement nodes.  An assignment, a call or a bare identifier used as a
      statement is the expression node itself, wrapped by `Simple`.  The
      switch's `defaultBlock` is absent unless the source sets it. */
  datatype Stmt =
    | Simple(expr: Expr)
    | If(condition: Expr, thenPart: StatementPart, elsePart: StatementPart)
    | Switch(variable: string, caseBlocks: seq<CaseBlock>, defaultBlock: Option<StatementPart>)
    | While(condition: Expr, body: StatementPart)
    | RepeatUntil(condition: Expr, body: StatementPart)
    | For(variable: string, initial: Option<Expr>, end: Expr, body: StatementPart, isIncrease: bool)
  {
    /** `NodeSwitchStatement.append`. */
    function AppendCaseBlock(block: CaseBlock): (r: Stmt)
      requires Switch?
      ensures r.Switch? && r.variable == variable && r.defaultBlock == defaultBlock
      ensures |r.caseBlocks| == |caseBlocks| + 1
      ensures r.caseBlocks[..|caseBlocks|] == caseBlocks && r.caseBlocks[|caseBlocks|] == block
    {
      Switch(variable, caseBlocks + [block], defaultBlock)
    }
  }

  datatype StatementPart = StatementPart(statements: seq<Stmt>) {
    /** `NodeStatementPart.append`. */
    function Append(statement: Stmt): (r: StatementPart)
      ensures |r.statements| == |statements| + 1
      ensures r.statements[..|statements|] == statements && r.statements[|statements|] == statement
    {
      StatementPart(statements + [statement])
    }
  }

  datatype CaseBlock = CaseBlock(caseList: seq<Expr>, statementPart: StatementPart) {
    /** `NodeCaseBlock.append_case`. */
    function AppendCase(case_: Expr): (r: CaseBlock)
      ensures r.statementPart == statementPart && |r.caseList| == |caseList| + 1
      ensures r.caseList[..|caseList|] == caseList && r.caseList[|caseList|] == case_
    {
      CaseBlock(caseList + [case_], statementPart)
    }

    /** `NodeCaseBlock.append_statement`. */
    function AppendStatement(statement: Stmt): (r: CaseBlock)
      ensures r.caseList == caseList
      ensures r.statementPart.statements == statementPart.statements + [statement]
    {
      CaseBlock(caseList, statementPart.Append(statement))
    }
  }

  /** Declaration nodes; apart from arrays their `ty` is the type's text. */
  datatype Decl =
    | VarDecl(identifier: string, ty: Ty)
    | TypeDecl(identifier: string, ty: Ty)
    | ConstDecl(identifier: string, ty: Ty, expression: Expr)
    | SubroutineDecl(subroutineType: SubroutineType, identifier: string, ty: Ty,
                     formalParams: FormalParams, declarationPart: DeclarationPart,
                     statementPart: StatementPart, isForward: bool)

  datatype FormalParams = FormalParams(params: seq<Decl>) {
    /** `NodeSubroutineFormalParams.append`. */
    function Append(param: Decl): (r: FormalParams)
      ensures |r.params| == |params| + 1
      ensures r.params[..|params|] == params && r.params[|params|] == param
    {
      FormalParams(params + [param])
    }

    /** `NodeSubroutineFormalParams.extend`. */
    function Extend(more: seq<Decl>): (r: FormalParams)
      ensures |r.params| == |params| + |more|
      ensures r.params[..|params|] == params && r.params[|params|..] == more
    {
      FormalParams(params + more)
    }
  }

  /** Extending by a list is appending its elements one at a time. */
  lemma {:induction false} ExtendIsRepeatedAppend(f: FormalParams, more: seq<Decl>)
    ensures f.Extend(more) == AppendAll(f, more)
    decreases |more|
  {
    if |more| > 0 {
      var init := more[..|more| - 1];
      ExtendIsRepeatedAppend(f, init);
      assert more == init + [more[|more| - 1]];
      assert f.params + more == (f.params + init) + [more[|more| - 1]];
    }
  }

  function AppendAll(f: FormalParams, more: seq<Decl>): FormalParams
    decreases |more|
  {
    if |more| == 0 then f else AppendAll(f, more[..|more| - 1]).Append(more[|more| - 1])
  }

  datatype DeclarationPart = DeclarationPart(declarations: seq<Decl>)

  datatype Program = Program(identifier: string, globalDeclaration: DeclarationPart,
                             statementPart: StatementPart)

  /** What `parse` returns: an empty `MainNode` for input that starts at end
      of file, the program node otherwise. */
  datatype ParseTree = MainNode(programType: ProgramType) | ProgramTree(program: Program)

  /** The three symbol classes of the semantic module. */
  datatype SymbolKind = VariableSymbol | TypeSymbol | SubroutineSymbol

  /** Initial use count of a subroutine symbol. */
  const SubroutineInitialCount: int := 0x1_0000_0000 - 1

  /** A `Variable`, `TypeVariable` or `SubroutineVariable`.  `rank` bounds the
      length of the alias chain below the symbol, which makes walking a chain
      terminate. */
  class Symbol {
    const kind: SymbolKind
    const identifier: string
    const ty: Ty
    const isImmutable: bool
    const formalParams: FormalParams
    ghost const rank: nat
    var useCount: int

    constructor (kind: SymbolKind, identifier: string, ty: Ty, isImmutable: bool, formalParams: FormalParams)
      requires TyOK(ty) && ParamsOK(formalParams)
      ensures this.kind == kind && this.identifier == identifier && this.ty == ty
      ensures this.isImmutable == isImmutable && this.formalParams == formalParams
      ensures useCount == (if kind == SubroutineSymbol then SubroutineInitialCount else 0)
      ensures SymOK(this)
    {
      this.kind := kind;
      this.identifier := identifier;
      this.ty := ty;
      this.isImmutable := isImmutable;
      this.formalParams := formalParams;
      this.rank := TySize(ty) + 1;
      useCount := if kind == SubroutineSymbol then SubroutineInitialCount else 0;
    }
  }

  /** Depth of the alias and array nesting of a type. */
  ghost function TySize(t: Ty): nat {
    match t
    case Alias(s) => s.rank
    case Array(a) => 1 + TySize(a.elem)
    case _ => 0
  }

  /** Every alias reachable from `t` sits above the symbols it refers to. */
  ghost predicate TyOK(t: Ty)
    decreases TySize(t)
  {
    match t
    case Alias(s) => s.rank > TySize(s.ty) && TyOK(s.ty)
    case Array(a) => TyOK(a.elem)
    case _ => true
  }

  ghost predicate ParamsOK(f: FormalParams) {
    forall i :: 0 <= i < |f.params| ==> TyOK(f.params[i].ty)
  }

  ghost predicate SymOK(s: Symbol) {
    s.rank > TySize(s.ty) && TyOK(s.ty) && ParamsOK(s.formalParams)
  }

  /** The alias symbols met by `while isinstance(t, TypeVariable): t = t.type`. */
  function AliasChain(t: Ty): (chain: seq<Symbol>)
    requires TyOK(t)
    ensures t.Alias? <==> |chain| > 0
    ensures t.Alias? ==> chain[0] == t.sym
    decreases TySize(t)
  {
    if t.Alias? then [t.sym] + AliasChain(t.sym.ty) else []
  }

  /** The type at the end of the alias chain. */
  function Unwrap(t: Ty): (r: Ty)
    requires TyOK(t)
    ensures !r.Alias? && TyOK(r)
    ensures !t.Alias? ==> r == t
    decreases TySize(t)
  {
    if t.Alias? then Unwrap(t.sym.ty) else t
  }

  /** Symbols further down the chain have smaller rank, so no symbol occurs
      twice in a chain. */
  lemma {:induction false} AliasChainRanks(t: Ty)
    requires TyOK(t)
    ensures forall i :: 0 <= i < |AliasChain(t)| ==> AliasChain(t)[i].rank <= TySize(t)
    ensures forall i, j :: 0 <= i < j < |AliasChain(t)| ==> AliasChain(t)[i].rank > AliasChain(t)[j].rank
    decreases TySize(t)
  {
    if t.Alias? {
      AliasChainRanks(t.sym.ty);
      var chain := AliasChain(t);
      assert chain == [t.sym] + AliasChain(t.sym.ty);
      forall i | 0 <= i < |chain|
        ensures chain[i].rank <= TySize(t)
      {
        if i > 0 { assert chain[i] == AliasChain(t.sym.ty)[i - 1]; }
      }
      forall i, j | 0 <= i < j < |chain|
        ensures chain[i].rank > chain[j].rank
      {
        assert chain[j] == AliasChain(t.sym.ty)[j - 1];
        if i > 0 { assert chain[i] == AliasChain(t.sym.ty)[i - 1]; }
      }
    }
  }

  lemma AliasChainDistinct(t: Ty)
    requires TyOK(t)
    ensures forall i, j :: 0 <= i < j < |AliasChain(t)| ==> AliasChain(t)[i] != AliasChain(t)[j]
  {
    AliasChainRanks(t);
  }

  /** Lower-case hexadecimal digits of `n`, most significant first. */
  function HexDigits(n: nat): (s: string)
    ensures |s| > 0
    decreases n
  {
    var d := "0123456789abcdef"[n % 16];
    if n < 16 then [d] else HexDigits(n / 16) + [d]
  }

  /** `str(t)`: a kind's name, the text itself, an alias's identifier, or the
      array node's address. */
  function TypeStr(t: Ty): string {
    match t
    case Prim(k) => k.Name()
    case Text(s) => s
    case Alias(s) => s.identifier
    case Array(a) => "0x" + HexDigits(a.arrayId)
  }

  /** The type stored in a declaration node: the array node itself, or the
      type's text. */
  function DeclTy(t: Ty): (r: Ty)
    ensures t.Array? ==> r == t
    ensures !t.Array? ==> r.Text? && r.name == TypeStr(t)
  {
    if t.Array? then t else Text(TypeStr(t))
  }
}
