/** The recursive-descent parser as the source writes it: an object holding
    the current token, the scope stack and the semantic module, whose
    methods consume tokens while they build nodes and call the semantic
    checks.  Each method that parses an expression or a statement is proved
    to produce exactly what the matching function of `Grammar` describes,
    with the semantic checks' outcomes taken from the functions of
    `Semantic` over the current table and scope. */
module Parsing {
  import opened Wrappers
  import opened SupportClasses
  import opened SemanticTools
  import opened Nodes
  import opened Lexer
  import opened Semantic
  import opened Grammar

  /** The outcomes of the parser's semantic checks for a table and a scope
      stack: `get_variable` and `get_type` find a symbol, and the four
      checks return what `Semantic` says they return. */
  function EnvOf(table: map<string, Symbol>, scope: seq<string>): Env
    requires TableOK(table)
  {
    Env(
      n => Resolve(table, scope, n, AnySymbol).Some?,
      n => Resolve(table, scope, n, TypesOnly),
      (e, op) => OperationSupportSpec(table, scope, OfExpr(e), op),
      (n, e) => AssignSpec(table, scope, n, e),
      (n, args) => SubroutineCallSpec(table, scope, n, args),
      (n, args) => ArrayAccessSpec(table, scope, n, args))
  }

  /** A literal's operator support depends on its kind only, so the unary
      minus check, which the source makes without a scope, agrees with the
      check at any scope. */
  lemma LiteralSupport(table: map<string, Symbol>, scope: seq<string>, other: seq<string>,
                       v: string, k: PrimitiveType, op: Operator)
    requires TableOK(table)
    ensures OperationSupportSpec(table, scope, OfExpr(Value(v, k)), op)
         == OperationSupportSpec(table, other, OfExpr(Value(v, k)), op)
    ensures OperationSupportSpec(table, scope, OfExpr(Value(v, k)), op).Pass? <==> k.SupportOperation(op)
  {
  }

  /** A parsing method's result and the position it stops at are what the
      grammar function gives: its node and the position after it, or its
      error. */
  ghost predicate Gives<T>(r: Result<T>, g: Result<Parsed<T>>, pos: nat) {
    match g
    case Ok(p) => r == Ok(p.node) && pos == p.next
    case Err(e) => r == Err(e)
  }

  /** A type the semantic module can store: well ranked, and an alias one of
      the table's own symbols. */
  ghost predicate TypeInTable(table: map<string, Symbol>, t: Ty) {
    TyOK(t) && (t.Alias? ==> t.sym in table.Values)
  }

  /** Every entry of `before` is still in `after`, unchanged. */
  ghost predicate Extends(before: map<string, Symbol>, after: map<string, Symbol>) {
    forall k :: k in before ==> k in after && after[k] == before[k]
  }

  /** None of the identifiers' keys at `scope` is taken, in the table or by
      an earlier identifier of the list. */
  predicate FreshKeys(table: map<string, Symbol>, scope: seq<string>, ids: seq<string>) {
    forall i :: 0 <= i < |ids| ==>
      ConvertToName(scope, ids[i]) !in table
      && forall j :: 0 <= j < i ==> ConvertToName(scope, ids[j]) != ConvertToName(scope, ids[i])
  }

  /** `after` is `before` with one new variable symbol per identifier, each
      of type `ty`. */
  ghost predicate DeclaresVariables(before: map<string, Symbol>, after: map<string, Symbol>,
                                    scope: seq<string>, ids: seq<string>, ty: Ty, constant: bool) {
    Extends(before, after)
    && after.Keys == before.Keys + KeySet(scope, ids)
    && forall i :: 0 <= i < |ids| ==>
         ConvertToName(scope, ids[i]) in after
         && var s := after[ConvertToName(scope, ids[i])];
            s.kind == VariableSymbol && s.identifier == ids[i] && s.ty == ty && s.isImmutable == constant
  }

  /** One more identifier whose key is neither in the table nor among the
      earlier identifiers' keys keeps the keys fresh. */
  lemma FreshKeysStep(base: map<string, Symbol>, before: map<string, Symbol>,
                      scope: seq<string>, ids: seq<string>, x: string, ty: Ty, constant: bool)
    requires FreshKeys(base, scope, ids) && DeclaresVariables(base, before, scope, ids, ty, constant)
    requires ConvertToName(scope, x) !in before
    ensures FreshKeys(base, scope, ids + [x])
  {
    var ids' := ids + [x];
    KeySetMembers(scope, ids);
    assert ConvertToName(scope, x) !in KeySet(scope, ids);
    forall i | 0 <= i < |ids'|
      ensures ConvertToName(scope, ids'[i]) !in base
      ensures forall j :: 0 <= j < i ==> ConvertToName(scope, ids'[j]) != ConvertToName(scope, ids'[i])
    {
      if i < |ids| {
        assert ids'[i] == ids[i];
        forall j | 0 <= j < i
          ensures ConvertToName(scope, ids'[j]) != ConvertToName(scope, ids'[i])
        {
          assert ids'[j] == ids[j];
        }
      } else {
        forall j | 0 <= j < i
          ensures ConvertToName(scope, ids'[j]) != ConvertToName(scope, x)
        {
          assert ids'[j] == ids[j];
        }
      }
    }
  }

  /** Adding the next identifier's variable symbol under its key extends
      the declared variables by that identifier. */
  lemma DeclaresVariablesStep(base: map<string, Symbol>, before: map<string, Symbol>, after: map<string, Symbol>,
                              scope: seq<string>, ids: seq<string>, x: string, ty: Ty, constant: bool)
    requires DeclaresVariables(base, before, scope, ids, ty, constant)
    requires var key := ConvertToName(scope, x);
             key !in before && key in after && after == before[key := after[key]]
             && after[key].kind == VariableSymbol && after[key].identifier == x
             && after[key].ty == ty && after[key].isImmutable == constant
    ensures DeclaresVariables(base, after, scope, ids + [x], ty, constant)
  {
    var key := ConvertToName(scope, x);
    var ids' := ids + [x];
    assert ids'[..|ids'| - 1] == ids;
    assert KeySet(scope, ids') == KeySet(scope, ids) + {key};
    KeySetMembers(scope, ids);
    forall i | 0 <= i < |ids'|
      ensures var s := after[ConvertToName(scope, ids'[i])];
              s.kind == VariableSymbol && s.identifier == ids'[i] && s.ty == ty && s.isImmutable == constant
    {
      if i < |ids| {
        assert ids'[i] == ids[i];
        assert ConvertToName(scope, ids[i]) in before;
      }
    }
  }

  /** An identifier whose key is already in the table, either from before
      the clause or from an earlier identifier of it, makes the keys not
      fresh. */
  lemma DeclareStepFail(base: map<string, Symbol>, before: map<string, Symbol>,
                        scope: seq<string>, ids: seq<string>, i: nat, ty: Ty, constant: bool)
    requires i < |ids| && DeclaresVariables(base, before, scope, ids[..i], ty, constant)
    requires ConvertToName(scope, ids[i]) in before
    ensures !FreshKeys(base, scope, ids)
  {
    var key := ConvertToName(scope, ids[i]);
    if key !in base {
      assert key in KeySet(scope, ids[..i]);
      KeySetMembers(scope, ids[..i]);
      var j :| 0 <= j < i && key == ConvertToName(scope, ids[..i][j]);
      assert ids[..i][j] == ids[j];
    }
  }

  /** The declaration nodes of a var clause: one per identifier, in order. */
  function VarDecls(ids: seq<string>, ty: Ty): (r: seq<Decl>)
    ensures |r| == |ids|
    ensures forall i :: 0 <= i < |ids| ==> r[i] == VarDecl(ids[i], ty)
  {
    if |ids| == 0 then [] else [VarDecl(ids[0], ty)] + VarDecls(ids[1..], ty)
  }

  /** The keys the identifiers get at `scope`. */
  function KeySet(scope: seq<string>, ids: seq<string>): set<string>
    decreases |ids|
  {
    if |ids| == 0 then {}
    else KeySet(scope, ids[..|ids| - 1]) + {ConvertToName(scope, ids[|ids| - 1])}
  }

  /** The key set holds exactly the identifiers' keys. */
  lemma {:induction false} KeySetMembers(scope: seq<string>, ids: seq<string>)
    ensures forall i :: 0 <= i < |ids| ==> ConvertToName(scope, ids[i]) in KeySet(scope, ids)
    ensures forall k :: k in KeySet(scope, ids) ==> exists i :: 0 <= i < |ids| && k == ConvertToName(scope, ids[i])
    decreases |ids|
  {
    if |ids| != 0 {
      var init := ids[..|ids| - 1];
      KeySetMembers(scope, init);
      forall i | 0 <= i < |ids| - 1
        ensures ConvertToName(scope, ids[i]) in KeySet(scope, ids)
      {
        assert ids[i] == init[i];
      }
      forall k | k in KeySet(scope, ids)
        ensures exists i :: 0 <= i < |ids| && k == ConvertToName(scope, ids[i])
      {
        if k in KeySet(scope, init) {
          var i :| 0 <= i < |init| && k == ConvertToName(scope, init[i]);
          assert init[i] == ids[i];
        } else {
          assert k == ConvertToName(scope, ids[|ids| - 1]);
        }
      }
    }
  }

  /** The type a type pieces node keeps: the array node with its element
      type replaced by the element's text, or the type's text. */
  function TypeDeclTy(t: Ty): (r: Ty)
    ensures !t.Array? ==> r == DeclTy(t)
    ensures t.Array? ==> r.Array? && r.arr.arrayId == t.arr.arrayId && r.arr.ranges == t.arr.ranges
                         && r.arr.elem == Text(TypeStr(t.arr.elem))
  {
    if t.Array? then Array(ArrayTy(t.arr.arrayId, t.arr.ranges, Text(TypeStr(t.arr.elem))))
    else DeclTy(t)
  }

  /** The type the alias symbol of a type clause ends up with.  The symbol
      and the node share an array node, so the element's replacement by its
      text shows in the symbol too. */
  function AliasTarget(t: Ty): (r: Ty)
    ensures t.Array? ==> r == TypeDeclTy(t)
    ensures !t.Array? ==> r == t
  {
    if t.Array? then TypeDeclTy(t) else t
  }

  /** Every node's identifier is declared in `table` under `scope`. */
  ghost predicate Declared(table: map<string, Symbol>, scope: seq<string>, ds: seq<Decl>) {
    forall i :: 0 <= i < |ds| ==> ConvertToName(scope, ds[i].identifier) in table
  }

  lemma DeclaredGrows(before: map<string, Symbol>, after: map<string, Symbol>, scope: seq<string>, ds: seq<Decl>)
    requires Declared(before, scope, ds) && Extends(before, after)
    ensures Declared(after, scope, ds)
  {
    forall i | 0 <= i < |ds|
      ensures ConvertToName(scope, ds[i].identifier) in after
    {
      assert ConvertToName(scope, ds[i].identifier) in before;
    }
  }

  lemma DeclaredConcat(table: map<string, Symbol>, scope: seq<string>, a: seq<Decl>, b: seq<Decl>)
    requires Declared(table, scope, a) && Declared(table, scope, b)
    ensures Declared(table, scope, a + b)
  {
    forall i | 0 <= i < |a + b|
      ensures ConvertToName(scope, (a + b)[i].identifier) in table
    {
      if i < |a| {
        assert (a + b)[i] == a[i];
      } else {
        assert (a + b)[i] == b[i - |a|];
      }
    }
  }

  /** The nodes of a var clause name the variables it declared. */
  lemma VarDeclsDeclared(before: map<string, Symbol>, after: map<string, Symbol>, scope: seq<string>,
                         ids: seq<string>, ty: Ty, nodeTy: Ty, constant: bool)
    requires DeclaresVariables(before, after, scope, ids, ty, constant)
    ensures Declared(after, scope, VarDecls(ids, nodeTy))
  {
    var ds := VarDecls(ids, nodeTy);
    forall i | 0 <= i < |ds|
      ensures ConvertToName(scope, ds[i].identifier) in after
    {
      assert ds[i].identifier == ids[i];
    }
  }

  lemma Declared1(table: map<string, Symbol>, scope: seq<string>, d: Decl)
    requires ConvertToName(scope, d.identifier) in table
    ensures Declared(table, scope, [d])
  {
  }

  /** `SubroutineType(token)`: the subroutine kind a token names. */
  function SubroutineKind(kind: TokenKind): (r: Option<SubroutineType>)
    ensures r == Some(Procedure) <==> kind == PROCEDURE
    ensures r == Some(Function) <==> kind == FUNCTION
  {
    if kind == PROCEDURE then Some(Procedure)
    else if kind == FUNCTION then Some(Function)
    else None
  }

  // ---------------------------------------------------------------------
  // Declaration traces

  /** One clause, section or subroutine of a declaration list as it was
      parsed: the table before and after it, the array counter it started
      with, where it starts, where its own grammar stops (`next`), where
      the next piece starts (`end`), the declaration nodes it gave, and for
      a section its clauses. */
  datatype Piece = Piece(before: map<string, Symbol>, after: map<string, Symbol>, arrayId: nat,
                         pos: nat, next: nat, end: nat, decls: seq<Decl>, inner: seq<Piece>)

  /** The four lists of var, type and const clauses and of formal
      parameters. */
  datatype ClauseList = VarSection | TypeSection | ConstSection | ParamList

  /** What a piece is: a clause of one of the four lists, or a piece of a
      declaration part. */
  datatype Level = Clause(list: ClauseList) | Part

  /** The pieces follow one another from `pos` and `table` to `end` and
      `after`, each starting where the previous one ended, with the table
      it left, and each is a piece of the level. */
  ghost predicate Traced(level: Level, ps: seq<Piece>, pos: nat, table: map<string, Symbol>,
                         end: nat, after: map<string, Symbol>, scope: seq<string>, toks: seq<Token>)
    decreases ps
  {
    if |ps| == 0 then end == pos && after == table
    else
      var last := ps[|ps| - 1];
      Traced(level, ps[..|ps| - 1], pos, table, last.pos, last.before, scope, toks)
      && end == last.end && after == last.after && PieceGives(level, last, scope, toks)
  }

  /** A clause is as `ClauseGives` says. A piece of a declaration part is a
      section, its keyword then its clauses in order up to a token that is
      not an identifier, or a subroutine and the symbol it enters one
      level up. */
  ghost predicate PieceGives(level: Level, p: Piece, scope: seq<string>, toks: seq<Token>)
    decreases p
  {
    match level
    case Clause(list) => ClauseGives(list, p, scope, toks)
    case Part =>
      p.end == p.next
      && match SectionOf(Kind(toks, p.pos))
         case Some(list) =>
           Traced(Clause(list), p.inner, p.pos + 1, p.before, p.next, p.after, scope, toks)
           && p.decls == Flatten(p.inner) && Kind(toks, p.next) != IDENTIFIER
         case None =>
           |p.decls| == 1 && SubroutineGives(p.before, p.after, p.pos, p.decls[0], scope, toks)
  }

  /** The declaration nodes of the pieces, in order. */
  function Flatten(ps: seq<Piece>): seq<Decl> {
    if |ps| == 0 then [] else Flatten(ps[..|ps| - 1]) + ps[|ps| - 1].decls
  }

  /** The clauses of a list, traced from `pos` and `table` to `end` and
      `after`, give `decls` in source order. */
  ghost predicate ClausesGive(list: ClauseList, clauses: seq<Piece>, pos: nat, table: map<string, Symbol>, end: nat,
                              after: map<string, Symbol>, decls: seq<Decl>, scope: seq<string>, toks: seq<Token>) {
    Traced(Clause(list), clauses, pos, table, end, after, scope, toks) && decls == Flatten(clauses)
  }

  /** The pieces of a declaration part, traced from `pos` and `table` to
      `end` and `after`, give `decls` in source order. */
  ghost predicate PartsGive(parts: seq<Piece>, pos: nat, table: map<string, Symbol>, end: nat,
                            after: map<string, Symbol>, decls: seq<Decl>, scope: seq<string>, toks: seq<Token>) {
    Traced(Part, parts, pos, table, end, after, scope, toks) && decls == Flatten(parts)
  }

  /** A piece that starts where the trace ends extends it. */
  lemma TracedSnoc(level: Level, ps: seq<Piece>, p: Piece, pos: nat, table: map<string, Symbol>,
                   scope: seq<string>, toks: seq<Token>)
    requires Traced(level, ps, pos, table, p.pos, p.before, scope, toks) && PieceGives(level, p, scope, toks)
    ensures Traced(level, ps + [p], pos, table, p.end, p.after, scope, toks)
    ensures Flatten(ps + [p]) == Flatten(ps) + p.decls
  {
    assert (ps + [p])[..|ps|] == ps;
  }

  /** A clause alone is a trace of its list. */
  lemma OneClause(list: ClauseList, p: Piece, scope: seq<string>, toks: seq<Token>)
    requires ClauseGives(list, p, scope, toks)
    ensures Traced(Clause(list), [p], p.pos, p.before, p.end, p.after, scope, toks)
  {
    assert [p][..0] == [];
  }

  /** A clause as the grammar function of its kind gives it at the table in
      force, with the table it leaves; in a section the clause starts at an
      identifier and is closed by `;`, in a parameter list a `;` after it is
      skipped and a `,` is refused. */
  ghost predicate ClauseGives(list: ClauseList, p: Piece, scope: seq<string>, toks: seq<Token>) {
    (if list == ParamList then
       Kind(toks, p.pos) != RPAREN && Kind(toks, p.next) != COMMA
       && p.end == (if Kind(toks, p.next) == SEMICOLON then p.next + 1 else p.next)
     else Kind(toks, p.pos) == IDENTIFIER && Kind(toks, p.next) == SEMICOLON && p.end == p.next + 1)
    && StatementGives(list, p.before, p.after, p.arrayId, p.pos, p.next, p.decls, scope, toks)
  }

  /** The statement of a clause, read from `at` to `next` by the grammar
      function of its kind at the table `before`; the declarations it gives
      and the table `after` it leaves.  Array type nodes are numbered from
      `id`. */
  ghost predicate StatementGives(list: ClauseList, before: map<string, Symbol>, after: map<string, Symbol>, id: nat,
                                 at: nat, next: nat, decls: seq<Decl>, scope: seq<string>, toks: seq<Token>) {
    at <= |toks| && TableOK(before)
    && match list
       case TypeSection =>
         var c := TypeClause(EnvOf(before, scope), toks, at, id);
         c.Ok? && c.value.next == next
         && decls == [TypeDecl(c.value.node.0, TypeDeclTy(c.value.node.1))]
         && var key := ConvertToName(scope, c.value.node.0);
            key !in before && key in after && after == before[key := after[key]]
            && after[key].kind == TypeSymbol && after[key].identifier == c.value.node.0
            && after[key].ty == AliasTarget(c.value.node.1)
       case ConstSection =>
         var c := ConstClause(EnvOf(before, scope), toks, at);
         c.Ok? && c.value.next == next
         && var t := PredictSpec(before, scope, OfExpr(c.value.node.1));
            t.Ok? && decls == [ConstDecl(c.value.node.0, DeclTy(t.value), c.value.node.1)]
            && DeclaresVariables(before, after, scope, [c.value.node.0], t.value, true)
       case _ =>
         var c := VarClause(EnvOf(before, scope), toks, at, id);
         c.Ok? && c.value.next == next
         && decls == VarDecls(c.value.node.0, DeclTy(c.value.node.1))
         && DeclaresVariables(before, after, scope, c.value.node.0, c.value.node.1, false)
  }

  /** What the statement of a clause gives at the table `before`: the
      grammar function of its kind, then the check that its names are not
      yet declared at `scope`, and for a constant the prediction of its
      type; the declarations and where the statement stops, or the error. */
  ghost function StatementOutcome(list: ClauseList, before: map<string, Symbol>, id: nat, at: nat,
                                  scope: seq<string>, toks: seq<Token>): Result<Parsed<seq<Decl>>>
    requires at <= |toks| && TableOK(before)
  {
    match list
    case TypeSection =>
      var c :- TypeClause(EnvOf(before, scope), toks, at, id);
      if ConvertToName(scope, c.node.0) in before then Err(DuplicateName)
      else Ok(Parsed([TypeDecl(c.node.0, TypeDeclTy(c.node.1))], c.next))
    case ConstSection =>
      var c :- ConstClause(EnvOf(before, scope), toks, at);
      var t :- PredictSpec(before, scope, OfExpr(c.node.1));
      if ConvertToName(scope, c.node.0) in before then Err(DuplicateName)
      else Ok(Parsed([ConstDecl(c.node.0, DeclTy(t), c.node.1)], c.next))
    case _ =>
      var c :- VarClause(EnvOf(before, scope), toks, at, id);
      if !FreshKeys(before, scope, c.node.0) then Err(DuplicateName)
      else Ok(Parsed(VarDecls(c.node.0, DeclTy(c.node.1)), c.next))
  }

  /** What a clause gives: its statement, then in a section the `;` that
      must close it, in a parameter list no `,` and an optional `;`. */
  ghost function ClauseOutcome(list: ClauseList, before: map<string, Symbol>, id: nat, at: nat,
                               scope: seq<string>, toks: seq<Token>): Result<Parsed<seq<Decl>>>
    requires at <= |toks| && TableOK(before)
  {
    var s :- StatementOutcome(list, before, id, at, scope, toks);
    if list == ParamList then
      if Kind(toks, s.next) == COMMA then Err(SyntaxError)
      else Ok(Parsed(s.node, if Kind(toks, s.next) == SEMICOLON then s.next + 1 else s.next))
    else if Kind(toks, s.next) != SEMICOLON then Err(SyntaxError)
    else Ok(Parsed(s.node, s.next + 1))
  }

  /** A list of clauses stopped by error `e`: the clauses before the last
      follow one another from `pos` and `table`, and the last starts where
      they end, at a token that opens a clause, and fails there with `e`. */
  ghost predicate FailsAt(list: ClauseList, clauses: seq<Piece>, pos: nat, table: map<string, Symbol>,
                          scope: seq<string>, toks: seq<Token>, e: ErrorKind) {
    |clauses| > 0
    && var last := clauses[|clauses| - 1];
       Traced(Clause(list), clauses[..|clauses| - 1], pos, table, last.pos, last.before, scope, toks)
       && (if list == ParamList then Kind(toks, last.pos) != RPAREN else Kind(toks, last.pos) == IDENTIFIER)
       && last.pos <= |toks| && TableOK(last.before)
       && ClauseOutcome(list, last.before, last.arrayId, last.pos, scope, toks) == Err(e)
  }

  /** A clause that fails where the trace ends stops the list. */
  lemma FailsAtSnoc(list: ClauseList, clauses: seq<Piece>, piece: Piece, at: nat, table: map<string, Symbol>,
                    scope: seq<string>, toks: seq<Token>, e: ErrorKind)
    requires Traced(Clause(list), clauses, at, table, piece.pos, piece.before, scope, toks)
    requires if list == ParamList then Kind(toks, piece.pos) != RPAREN else Kind(toks, piece.pos) == IDENTIFIER
    requires piece.pos <= |toks| && TableOK(piece.before)
    requires ClauseOutcome(list, piece.before, piece.arrayId, piece.pos, scope, toks) == Err(e)
    ensures FailsAt(list, clauses + [piece], at, table, scope, toks, e)
  {
    assert (clauses + [piece])[..|clauses|] == clauses;
  }

  /** A piece of a declaration part that fails with `e`: a section whose
      clauses stop with `e`, a subroutine, or any other token, which is a
      syntax error. */
  ghost predicate PartFails(p: Piece, scope: seq<string>, toks: seq<Token>, e: ErrorKind) {
    match SectionOf(Kind(toks, p.pos))
    case Some(list) => FailsAt(list, p.inner, p.pos + 1, p.before, scope, toks, e)
    case None => Kind(toks, p.pos) == PROCEDURE || Kind(toks, p.pos) == FUNCTION || e == SyntaxError
  }

  /** The list of clauses a keyword opens. */
  function SectionOf(kind: TokenKind): (r: Option<ClauseList>)
    ensures r.Some? ==> r.value != ParamList
  {
    if kind == VAR then Some(VarSection)
    else if kind == TYPE then Some(TypeSection)
    else if kind == CONST then Some(ConstSection)
    else None
  }

  /** A subroutine node parsed from `pos`: its kind and name are the tokens
      there, and it is entered at `scope` under its name with its type and
      parameters. */
  ghost predicate SubroutineGives(before: map<string, Symbol>, after: map<string, Symbol>, pos: nat,
                                  d: Decl, scope: seq<string>, toks: seq<Token>) {
    d.SubroutineDecl? && Extends(before, after)
    && Some(d.subroutineType) == SubroutineKind(Kind(toks, pos))
    && d.identifier == TokenValue(toks, pos + 1)
    && var key := ConvertToName(scope, d.identifier);
       key !in before && key in after
       && after[key].kind == SubroutineSymbol && after[key].identifier == d.identifier
       && after[key].formalParams == d.formalParams && d.ty == DeclTy(after[key].ty)
  }

  /** A section read from its keyword at `at` to `next` is a piece of a
      declaration part. */
  lemma SectionPart(list: ClauseList, before: map<string, Symbol>, after: map<string, Symbol>, at: nat, next: nat,
                    clauses: seq<Piece>, scope: seq<string>, toks: seq<Token>)
    requires SectionOf(Kind(toks, at)) == Some(list) && Kind(toks, next) != IDENTIFIER
    requires Traced(Clause(list), clauses, at + 1, before, next, after, scope, toks)
    ensures PieceGives(Part, Piece(before, after, 0, at, next, next, Flatten(clauses), clauses), scope, toks)
  {
    var p := Piece(before, after, 0, at, next, next, Flatten(clauses), clauses);
    assert p.inner == clauses && p.pos == at && p.before == before && p.next == next && p.after == after;
    assert SectionOf(Kind(toks, p.pos)) == Some(list);
  }

  /** A subroutine read from `at` to `next` is a piece of a declaration
      part. */
  lemma SubroutinePart(before: map<string, Symbol>, after: map<string, Symbol>, at: nat, next: nat,
                       d: Decl, scope: seq<string>, toks: seq<Token>)
    requires SectionOf(Kind(toks, at)).None? && SubroutineGives(before, after, at, d, scope, toks)
    ensures PieceGives(Part, Piece(before, after, 0, at, next, next, [d], []), scope, toks)
  {
  }

  /** A parameter list read from `params.pos` up to the `)` at
      `params.next`: its clauses in order, and the parameters they give. */
  ghost predicate ParamsGive(params: Piece, scope: seq<string>, toks: seq<Token>, f: FormalParams) {
    Kind(toks, params.next) == RPAREN
    && Traced(Clause(ParamList), params.inner, params.pos, params.before, params.next, params.after, scope, toks)
    && f.params == Flatten(params.inner)
  }

  /** A body read from `body.pos`: a declaration part, its pieces in order
      up to the `begin` at `body.next`, then the statement block parsed
      there at the table the declarations left, which stops at `body.end`. */
  ghost predicate BodyGives(body: Piece, declScope: seq<string>, blockScope: seq<string>, toks: seq<Token>,
                            dp: DeclarationPart, sp: StatementPart) {
    Traced(Part, body.inner, body.pos, body.before, body.next, body.after, declScope, toks)
    && dp.declarations == Flatten(body.inner)
    && Kind(toks, body.next) == BEGIN && body.next <= |toks| && TableOK(body.after)
    && StatementBlock(EnvOf(body.after, blockScope), toks, body.next) == Ok(Parsed(sp, body.end))
  }

  /** The body assembled from a declaration part's trace and the block
      that follows it. */
  lemma BodyOf(parts: seq<Piece>, at: nat, before: map<string, Symbol>, begin: nat, after: map<string, Symbol>, end: nat,
               declScope: seq<string>, blockScope: seq<string>, toks: seq<Token>, dp: DeclarationPart, sp: StatementPart)
    requires Traced(Part, parts, at, before, begin, after, declScope, toks) && dp.declarations == Flatten(parts)
    requires Kind(toks, begin) == BEGIN && begin <= |toks| && TableOK(after)
    requires Gives(Ok(sp), StatementBlock(EnvOf(after, blockScope), toks, begin), end)
    ensures BodyGives(Piece(before, after, 0, at, begin, end, dp.declarations, parts), declScope, blockScope, toks, dp, sp)
  {
  }

  /** The bracketed ranges of an array type: `[`, then the ranges. */
  function ArrayBoundsSpec(env: Env, toks: seq<Token>, pos: nat): (r: Result<Parsed<seq<ArrayRange>>>)
    requires pos <= |toks|
    ensures r.Ok? ==> pos < r.value.next <= |toks|
  {
    if Kind(toks, pos) != LBR then Err(SyntaxError) else ArrayRanges(env, toks, [], pos + 1)
  }

  /** The element of an array type: `of`, then a type whose first array
      node is numbered `id`. */
  function ArrayElementSpec(env: Env, toks: seq<Token>, pos: nat, id: nat): (r: Result<Parsed<Ty>>)
    requires pos <= |toks|
    ensures r.Ok? ==> pos < r.value.next <= |toks|
  {
    if Kind(toks, pos) != OF then Err(SyntaxError) else TypeSpec(env, toks, pos + 1, id)
  }

  /** One unfolding of an array type: its bounds, then its element, the
      first failure being the array type's. */
  lemma ArrayTypeSpecSteps(env: Env, toks: seq<Token>, pos: nat, id: nat)
    requires pos <= |toks|
    ensures var bounds := ArrayBoundsSpec(env, toks, pos);
            ArrayTypeSpec(env, toks, pos, id) ==
              if bounds.Err? then Err(bounds.error)
              else
                var elem := ArrayElementSpec(env, toks, bounds.value.next, id + 1);
                if elem.Err? then Err(elem.error)
                else Ok(Parsed(Array(ArrayTy(id, bounds.value.node, elem.value.node)), elem.value.next))
  {
  }

  /** A const clause is its condition's outcome after `name =`. */
  lemma ConstClauseSteps(env: Env, toks: seq<Token>, pos: nat)
    requires pos <= |toks|
    ensures Kind(toks, pos) != IDENTIFIER ==> ConstClause(env, toks, pos) == Err(SyntaxError)
    ensures Kind(toks, pos) == IDENTIFIER ==>
              ConstClause(env, toks, pos) ==
                if Kind(toks, pos + 1) != EQUALITY then Err(SyntaxError)
                else match Condition(env, toks, pos + 2)
                  case Err(e) => Err(e)
                  case Ok(e) => Ok(Parsed((TokenValue(toks, pos), e.node), e.next))
  {
  }

  /** The loop of `__parse_IDENTIFIER_STATEMENT` that follows `.left` from
      an assigned node down to its variable; a node without `.left` fails. */
  method FindRootVariable(e: Expr) returns (r: Result<string>)
    ensures r == RootVariable(e)
  {
    var variable := e;
    while !variable.Variable?
      invariant RootVariable(variable) == RootVariable(e)
      decreases variable
    {
      if !(variable.Binary? || variable.Unary?) {
        return Err(RuntimeCrash);
      }
      variable := variable.left;
    }
    return Ok(variable.identifier);
  }

  class Parser {
    /** The token stream the lexer hands out; `pos` is the current token. */
    const toks: seq<Token>
    var pos: nat
    var scope: seq<string>
    /** The id the next array type node gets. */
    var nextArrayId: nat
    const sem: SemanticModule

    ghost predicate Valid()
      reads this, sem
    {
      pos <= |toks| && sem.Valid()
    }

    /** The parser over a token stream, with its semantic module set. */
    constructor (toks: seq<Token>, sem: SemanticModule)
      requires sem.Valid()
      ensures Valid() && this.toks == toks && this.sem == sem
      ensures pos == 0 && scope == [] && nextArrayId == 0
    {
      this.toks := toks;
      this.sem := sem;
      pos := 0;
      scope := [];
      nextArrayId := 0;
    }

    // -------------------------------------------------------------------
    // Expressions

    /** `__parse_CONDITION`. */
    method ParseCondition() returns (r: Result<Expr>)
      requires Valid()
      modifies this`pos, sem`useCountScore, sem.table.Values
      ensures Valid()
      ensures Gives(r, Condition(EnvOf(sem.table, scope), toks, old(pos)), pos)
      ensures r.Ok? ==> sem.useCountScore == old(sem.useCountScore)
      decreases |toks| - pos, 7, 0
    {
      ghost var env := EnvOf(sem.table, scope);
      ghost var p0 := pos;
      var left := ParseExpression();
      if left.Err? {
        return Err(left.error);
      }
      ConditionUnfold(env, toks, p0, Parsed(left.value, pos));
      r := ParseConditionTail(left.value);
    }

    /** The operator loop of `__parse_CONDITION`, after the left operand. */
    method ParseConditionTail(left: Expr) returns (r: Result<Expr>)
      requires Valid()
      modifies this`pos, sem`useCountScore, sem.table.Values
      ensures Valid()
      ensures Gives(r, ConditionTail(EnvOf(sem.table, scope), toks, left, old(pos)), pos)
      ensures r.Ok? ==> sem.useCountScore == old(sem.useCountScore)
      decreases |toks| - pos, 7, 0
    {
      ghost var env := EnvOf(sem.table, scope);
      var node := left;
      while ConditionOperator(Kind(toks, pos)).Some?
        invariant Valid() && old(pos) <= pos <= |toks|
        invariant ConditionTail(env, toks, left, old(pos)) == ConditionTail(env, toks, node, pos)
        invariant sem.useCountScore == old(sem.useCountScore)
        decreases |toks| - pos
      {
        var op := ConditionOperator(Kind(toks, pos)).value;
        ghost var at := pos;
        pos := pos + 1;
        var right := ParseExpression();
        if right.Err? {
          return Err(right.error);
        }
        ConditionTailUnfold(env, toks, node, at, Parsed(right.value, pos));
        node := Binary(node, right.value, op);
      }
      return Ok(node);
    }

    /** `__parse_EXPRESSION`. */
    method ParseExpression() returns (r: Result<Expr>)
      requires Valid()
      modifies this`pos, sem`useCountScore, sem.table.Values
      ensures Valid()
      ensures Gives(r, Expression(EnvOf(sem.table, scope), toks, old(pos)), pos)
      ensures r.Ok? ==> sem.useCountScore == old(sem.useCountScore)
      decreases |toks| - pos, 6, 0
    {
      ghost var env := EnvOf(sem.table, scope);
      ghost var p0 := pos;
      var left := ParseTerm();
      if left.Err? {
        return Err(left.error);
      }
      ExpressionUnfold(env, toks, p0, Parsed(left.value, pos));
      r := ParseExpressionTail(left.value);
    }

    /** The operator loop of `__parse_EXPRESSION`, after the left operand. */
    method ParseExpressionTail(left: Expr) returns (r: Result<Expr>)
      requires Valid()
      modifies this`pos, sem`useCountScore, sem.table.Values
      ensures Valid()
      ensures Gives(r, ExpressionTail(EnvOf(sem.table, scope), toks, left, old(pos)), pos)
      ensures r.Ok? ==> sem.useCountScore == old(sem.useCountScore)
      decreases |toks| - pos, 6, 0
    {
      ghost var env := EnvOf(sem.table, scope);
      var node := left;
      while AdditiveOperator(Kind(toks, pos)).Some?
        invariant Valid() && old(pos) <= pos <= |toks|
        invariant ExpressionTail(env, toks, left, old(pos)) == ExpressionTail(env, toks, node, pos)
        invariant sem.useCountScore == old(sem.useCountScore)
        decreases |toks| - pos
      {
        var op := AdditiveOperator(Kind(toks, pos)).value;
        ghost var at := pos;
        pos := pos + 1;
        var right := ParseTerm();
        if right.Err? {
          return Err(right.error);
        }
        ExpressionTailUnfold(env, toks, node, at, Parsed(right.value, pos));
        node := Binary(node, right.value, op);
      }
      return Ok(node);
    }

    /** `__parse_TERM`. */
    method ParseTerm() returns (r: Result<Expr>)
      requires Valid()
      modifies this`pos, sem`useCountScore, sem.table.Values
      ensures Valid()
      ensures Gives(r, Term(EnvOf(sem.table, scope), toks, old(pos)), pos)
      ensures r.Ok? ==> sem.useCountScore == old(sem.useCountScore)
      decreases |toks| - pos, 5, 0
    {
      ghost var env := EnvOf(sem.table, scope);
      ghost var p0 := pos;
      var left := ParseFactor();
      if left.Err? {
        return Err(left.error);
      }
      TermUnfold(env, toks, p0, Parsed(left.value, pos));
      r := ParseTermTail(left.value);
    }

    /** The operator loop of `__parse_TERM`, after the left operand. */
    method ParseTermTail(left: Expr) returns (r: Result<Expr>)
      requires Valid()
      modifies this`pos, sem`useCountScore, sem.table.Values
      ensures Valid()
      ensures Gives(r, TermTail(EnvOf(sem.table, scope), toks, left, old(pos)), pos)
      ensures r.Ok? ==> sem.useCountScore == old(sem.useCountScore)
      decreases |toks| - pos, 5, 0
    {
      ghost var env := EnvOf(sem.table, scope);
      var node := left;
      while MultiplicativeOperator(Kind(toks, pos)).Some?
        invariant Valid() && old(pos) <= pos <= |toks|
        invariant TermTail(env, toks, left, old(pos)) == TermTail(env, toks, node, pos)
        invariant sem.useCountScore == old(sem.useCountScore)
        decreases |toks| - pos
      {
        var op := MultiplicativeOperator(Kind(toks, pos)).value;
        ghost var at := pos;
        pos := pos + 1;
        var right := ParseFactor();
        if right.Err? {
          return Err(right.error);
        }
        TermTailUnfold(env, toks, node, at, Parsed(right.value, pos));
        node := Binary(node, right.value, op);
      }
      return Ok(node);
    }

    /** `__parse_FACTOR`: a literal typed by its text, a parenthesised
        condition, a unary operator, or an identifier statement. */
    method ParseFactor() returns (r: Result<Expr>)
      requires Valid()
      modifies this`pos, sem`useCountScore, sem.table.Values
      ensures Valid()
      ensures Gives(r, Factor(EnvOf(sem.table, scope), toks, old(pos)), pos)
      ensures r.Ok? ==> sem.useCountScore == old(sem.useCountScore)
      decreases |toks| - pos, 4, 0
    {
      var kind := Kind(toks, pos);
      if kind == NUMBER {
        var possibleNumber := TokenValue(toks, pos);
        pos := pos + 1;
        var t := GetValueType(possibleNumber);
        if t.Err? {
          return Err(t.error);
        }
        return Ok(Value(possibleNumber, t.value));
      } else if kind == STRING_VAL {
        r := Ok(Value(TokenValue(toks, pos), String));
        pos := pos + 1;
      } else if kind == CHAR_VAL {
        r := Ok(Value(TokenValue(toks, pos), Char));
        pos := pos + 1;
      } else if kind == TRUE || kind == FALSE {
        r := Ok(Value(TokenValue(toks, pos), Boolean));
        pos := pos + 1;
      } else if kind == LPAREN {
        pos := pos + 1;
        var condition := ParseCondition();
        if condition.Err? {
          return condition;
        }
        if Kind(toks, pos) != RPAREN {
          return Err(SyntaxError);
        }
        pos := pos + 1;
        return condition;
      } else if kind == MINUS || kind == PLUS || kind == NOT {
        r := ParseUnaryOperator();
      } else {
        r := ParseIdentifierStatement();
      }
    }

    /** `__parse_UNARY_OPERATOR`: the operator, the factor after it, then
        the operator's check and folding. */
    method ParseUnaryOperator() returns (r: Result<Expr>)
      requires Valid()
      modifies this`pos, sem`useCountScore, sem.table.Values
      ensures Valid()
      ensures Gives(r, UnaryOperator(EnvOf(sem.table, scope), toks, old(pos)), pos)
      ensures r.Ok? ==> sem.useCountScore == old(sem.useCountScore)
      decreases |toks| - pos, 2, 0
    {
      ghost var env := EnvOf(sem.table, scope);
      var kind := Kind(toks, pos);
      if kind != PLUS && kind != MINUS && kind != NOT {
        return Err(RuntimeCrash);
      }
      pos := pos + 1;
      var factor := ParseFactor();
      if factor.Err? {
        return factor;
      }
      var f := factor.value;
      if kind == PLUS {
        var supported := sem.CheckTypeOperationSupport(OfExpr(f), UnaryPlus, scope);
        if supported.Fail? {
          return Err(supported.error);
        }
        r := factor;
      } else if kind == MINUS {
        if f.Value? {
          var supported := sem.CheckTypeOperationSupport(OfExpr(f), UnaryMinus, []);
          LiteralSupport(sem.table, scope, [], f.value, f.kind, UnaryMinus);
          if supported.Fail? {
            return Err(supported.error);
          }
          var v := "-" + f.value;
          var t := GetValueType(v);
          if t.Err? {
            return Err(t.error);
          }
          r := Ok(Value(v, t.value));
        } else {
          r := Ok(Unary(f, UnaryMinus));
        }
      } else {
        if f.Value? {
          var b := ConvertValueToBoolean(f.value);
          if b.Err? {
            return Err(b.error);
          }
          r := Ok(Value(if !b.value then "True" else "False", Boolean));
        } else {
          r := Ok(Unary(f, Not));
        }
      }
    }

    /** `__parse_IDENTIFIER_STATEMENT`: the variable is looked up, then
        suffixes are parsed while the current token starts one. */
    method ParseIdentifierStatement() returns (r: Result<Expr>)
      requires Valid()
      modifies this`pos, sem`useCountScore, sem.table.Values
      ensures Valid()
      ensures Gives(r, IdentifierStatement(EnvOf(sem.table, scope), toks, old(pos)), pos)
      ensures r.Ok? ==> sem.useCountScore == old(sem.useCountScore)
      decreases |toks| - pos, 2, 0
    {
      ghost var env := EnvOf(sem.table, scope);
      ghost var p0 := pos;
      if Kind(toks, pos) != IDENTIFIER {
        return Err(SyntaxError);
      }
      var name := TokenValue(toks, pos);
      pos := pos + 1;
      var found := sem.GetVariable(scope, name);
      if found.Err? {
        return Err(found.error);
      }
      var left := Variable(name);
      while SuffixKind(Kind(toks, pos))
        invariant Valid() && p0 < pos <= |toks|
        invariant IdentifierStatement(env, toks, p0) == IdentifierTail(env, toks, left, pos)
        invariant sem.useCountScore == old(sem.useCountScore)
        decreases |toks| - pos
      {
        var next := ParseSuffix(left);
        if next.Err? {
          return next;
        }
        left := next.value;
      }
      return Ok(left);
    }

    /** One round of the loop of `__parse_IDENTIFIER_STATEMENT`, chosen by
        the current token. */
    method ParseSuffix(left: Expr) returns (r: Result<Expr>)
      requires Valid() && SuffixKind(Kind(toks, pos))
      modifies this`pos, sem`useCountScore, sem.table.Values
      ensures Valid()
      ensures Gives(r, Suffix(EnvOf(sem.table, scope), toks, left, old(pos)), pos)
      ensures r.Ok? ==> sem.useCountScore == old(sem.useCountScore)
      decreases |toks| - pos, 0, 1
    {
      var kind := Kind(toks, pos);
      if kind == ASSIGN {
        r := ParseAssignment(left);
      } else if kind == LPAREN {
        r := ParseCall(left);
      } else if kind == LBR {
        r := ParseIndexing(left);
      } else {
        r := Err(NotImplemented);
      }
    }

    /** The `ASSIGN` case: the condition on the right is parsed with the
        use-count score raised by one, then the assignment is checked
        against the variable at the root of the left side. */
    method ParseAssignment(left: Expr) returns (r: Result<Expr>)
      requires Valid() && Kind(toks, pos) == ASSIGN
      modifies this`pos, sem`useCountScore, sem.table.Values
      ensures Valid()
      ensures Gives(r, Suffix(EnvOf(sem.table, scope), toks, left, old(pos)), pos)
      ensures r.Ok? ==> sem.useCountScore == old(sem.useCountScore)
      decreases |toks| - pos, 0, 0
    {
      pos := pos + 1;
      sem.useCountScore := sem.useCountScore + 1;
      var right := ParseCondition();
      if right.Err? {
        return right;
      }
      sem.useCountScore := sem.useCountScore - 1;
      var variable := FindRootVariable(left);
      if variable.Err? {
        return Err(variable.error);
      }
      var checked := sem.CheckAssign(scope, variable.value, right.value);
      if checked.Fail? {
        return Err(checked.error);
      }
      r := Ok(Binary(left, right.value, Assign));
    }

    /** The `LPAREN` case: the argument list, then the call check, which
        needs a bare variable on the left. */
    method ParseCall(left: Expr) returns (r: Result<Expr>)
      requires Valid() && Kind(toks, pos) == LPAREN
      modifies this`pos, sem`useCountScore, sem.table.Values
      ensures Valid()
      ensures Gives(r, Suffix(EnvOf(sem.table, scope), toks, left, old(pos)), pos)
      ensures r.Ok? ==> sem.useCountScore == old(sem.useCountScore)
      decreases |toks| - pos, 0, 0
    {
      pos := pos + 1;
      sem.useCountScore := sem.useCountScore + 1;
      var right := ParseCallParams();
      if right.Err? {
        return Err(right.error);
      }
      sem.useCountScore := sem.useCountScore - 1;
      if !left.Variable? {
        return Err(RuntimeCrash);
      }
      var checked := sem.CheckSubroutineCall(scope, left.identifier, right.value);
      if checked.Fail? {
        return Err(checked.error);
      }
      r := Ok(Binary(left, CallParams(right.value), SubroutineCall));
    }

    /** The `LBR` case: the index list, then the array access check. */
    method ParseIndexing(left: Expr) returns (r: Result<Expr>)
      requires Valid() && Kind(toks, pos) == LBR
      modifies this`pos, sem`useCountScore, sem.table.Values
      ensures Valid()
      ensures Gives(r, Suffix(EnvOf(sem.table, scope), toks, left, old(pos)), pos)
      ensures r.Ok? ==> sem.useCountScore == old(sem.useCountScore)
      decreases |toks| - pos, 0, 0
    {
      pos := pos + 1;
      sem.useCountScore := sem.useCountScore + 1;
      var right := ParseArrayCall();
      if right.Err? {
        return Err(right.error);
      }
      sem.useCountScore := sem.useCountScore - 1;
      if !left.Variable? {
        return Err(RuntimeCrash);
      }
      var checked := sem.CheckArrayAccess(scope, left.identifier, right.value);
      if checked.Fail? {
        return Err(checked.error);
      }
      r := Ok(Binary(left, CallParams(right.value), ArrayCall));
    }

    /** `__parse_SUBROUTINE_CALL_PARAMS` (after the opening parenthesis). */
    method ParseCallParams() returns (r: Result<seq<Expr>>)
      requires Valid()
      modifies this`pos, sem`useCountScore, sem.table.Values
      ensures Valid()
      ensures Gives(r, CallArguments(EnvOf(sem.table, scope), toks, [], old(pos)), pos)
      ensures r.Ok? ==> sem.useCountScore == old(sem.useCountScore)
      decreases |toks| - pos, 8, 0
    {
      ghost var env := EnvOf(sem.table, scope);
      ghost var p0 := pos;
      var params: seq<Expr> := [];
      sem.useCountScore := sem.useCountScore + 1;
      while Kind(toks, pos) != RPAREN
        invariant Valid() && p0 <= pos <= |toks|
        invariant CallArguments(env, toks, [], p0) == CallArguments(env, toks, params, pos)
        invariant sem.useCountScore == old(sem.useCountScore) + 1
        decreases |toks| - pos
      {
        var condition := ParseCondition();
        if condition.Err? {
          return Err(condition.error);
        }
        params := params + [condition.value];
        if Kind(toks, pos) == COMMA {
          pos := pos + 1;
        }
      }
      sem.useCountScore := sem.useCountScore - 1;
      pos := pos + 1;
      return Ok(params);
    }

    /** `__parse_ARRAY_CALL` (after the opening bracket). */
    method ParseArrayCall() returns (r: Result<seq<Expr>>)
      requires Valid()
      modifies this`pos, sem`useCountScore, sem.table.Values
      ensures Valid()
      ensures Gives(r, ArrayIndexes(EnvOf(sem.table, scope), toks, [], old(pos)), pos)
      ensures r.Ok? ==> sem.useCountScore == old(sem.useCountScore)
      decreases |toks| - pos, 8, 0
    {
      ghost var env := EnvOf(sem.table, scope);
      ghost var p0 := pos;
      var params: seq<Expr> := [];
      sem.useCountScore := sem.useCountScore + 1;
      while Kind(toks, pos) != RBR
        invariant Valid() && p0 <= pos <= |toks|
        invariant ArrayIndexes(env, toks, [], p0) == ArrayIndexes(env, toks, params, pos)
        invariant sem.useCountScore == old(sem.useCountScore) + 1
        decreases |toks| - pos
      {
        var expression := ParseExpression();
        if expression.Err? {
          return Err(expression.error);
        }
        params := params + [expression.value];
        if Kind(toks, pos) == COMMA {
          pos := pos + 1;
        }
      }
      sem.useCountScore := sem.useCountScore - 1;
      pos := pos + 1;
      return Ok(params);
    }

    // -------------------------------------------------------------------
    // Statements

    /** `__parse_STATEMENT_BLOCK`: a `begin` block, whose statements must
        each be followed by `;` or by `end`, or one statement. */
    method ParseStatementBlock() returns (r: Result<StatementPart>)
      requires Valid()
      modifies this`pos, sem`useCountScore, sem.table.Values
      ensures Valid()
      ensures Gives(r, StatementBlock(EnvOf(sem.table, scope), toks, old(pos)), pos)
      ensures r.Ok? ==> sem.useCountScore == old(sem.useCountScore)
      decreases |toks| - pos, 11, 0
    {
      ghost var env := EnvOf(sem.table, scope);
      ghost var p0 := pos;
      if Kind(toks, pos) != BEGIN {
        var s := ParseStatement();
        StatementBlockSingle(env, toks, p0, Statement(env, toks, p0));
        if s.Err? {
          return Err(s.error);
        }
        return Ok(StatementPart([s.value]));
      }
      pos := pos + 1;
      r := ParseBlockStatements();
    }

    /** The loop of a `begin` block, after the `begin`. */
    method ParseBlockStatements() returns (r: Result<StatementPart>)
      requires Valid()
      modifies this`pos, sem`useCountScore, sem.table.Values
      ensures Valid()
      ensures Gives(r, BlockStatements(EnvOf(sem.table, scope), toks, [], old(pos)), pos)
      ensures r.Ok? ==> sem.useCountScore == old(sem.useCountScore)
      decreases |toks| - pos, 10, 1
    {
      ghost var env := EnvOf(sem.table, scope);
      var statements: seq<Stmt> := [];
      while Kind(toks, pos) != END
        invariant Valid() && old(pos) <= pos <= |toks|
        invariant BlockStatements(env, toks, [], old(pos)) == BlockStatements(env, toks, statements, pos)
        invariant sem.useCountScore == old(sem.useCountScore)
        decreases |toks| - pos
      {
        var s := ParseBlockStatement(statements);
        if s.Err? {
          return Err(s.error);
        }
        statements := statements + [s.value];
      }
      pos := pos + 1;
      return Ok(StatementPart(statements));
    }

    /** One turn of the loop of a `begin` block: a statement and the `;`
        that may follow it, or the `end` that must. */
    method ParseBlockStatement(ghost statements: seq<Stmt>) returns (r: Result<Stmt>)
      requires Valid() && Kind(toks, pos) != END
      modifies this`pos, sem`useCountScore, sem.table.Values
      ensures Valid()
      ensures r.Err? ==> BlockStatements(EnvOf(sem.table, scope), toks, statements, old(pos)) == Err(r.error)
      ensures r.Ok? ==> old(pos) < pos <= |toks| && sem.useCountScore == old(sem.useCountScore)
                        && BlockStatements(EnvOf(sem.table, scope), toks, statements, old(pos))
                           == BlockStatements(EnvOf(sem.table, scope), toks, statements + [r.value], pos)
      decreases |toks| - pos, 10, 0
    {
      ghost var env := EnvOf(sem.table, scope);
      var s := ParseStatement();
      BlockStatementsRound(env, toks, statements, old(pos), Statement(env, toks, old(pos)));
      if s.Err? {
        return s;
      }
      if Kind(toks, pos) == SEMICOLON {
        pos := pos + 1;
      } else if Kind(toks, pos) != END {
        return Err(SyntaxError);
      }
      r := s;
    }

    /** `__parse_STATEMENT`, chosen by the current token. */
    method ParseStatement() returns (r: Result<Stmt>)
      requires Valid()
      modifies this`pos, sem`useCountScore, sem.table.Values
      ensures Valid()
      ensures Gives(r, Statement(EnvOf(sem.table, scope), toks, old(pos)), pos)
      ensures r.Ok? ==> sem.useCountScore == old(sem.useCountScore)
      decreases |toks| - pos, 9, 0
    {
      var kind := Kind(toks, pos);
      if kind == LCOM {
        pos := pos + 1;
        r := Err(RuntimeCrash);
      } else if kind == IF {
        pos := pos + 1;
        r := ParseIfStatement();
      } else if kind == CASE {
        pos := pos + 1;
        r := ParseCaseStatement();
      } else if kind == FOR {
        pos := pos + 1;
        r := ParseForStatement();
      } else if kind == WHILE {
        pos := pos + 1;
        r := ParseWhileStatement();
      } else if kind == REPEAT {
        pos := pos + 1;
        r := ParseRepeatStatement();
      } else {
        var e := ParseIdentifierStatement();
        if e.Err? {
          return Err(e.error);
        }
        r := Ok(Simple(e.value));
      }
    }

    /** `__parse_IF_STATEMENT` (after `if`): the condition and `then` are
        read with the use-count score raised by one. */
    method ParseIfStatement() returns (r: Result<Stmt>)
      requires Valid()
      modifies this`pos, sem`useCountScore, sem.table.Values
      ensures Valid()
      ensures Gives(r, IfStatement(EnvOf(sem.table, scope), toks, old(pos)), pos)
      ensures r.Ok? ==> sem.useCountScore == old(sem.useCountScore)
      decreases |toks| - pos, 8, 1
    {
      ghost var env := EnvOf(sem.table, scope);
      var condition := ParseIfHead();
      if condition.Err? {
        return Err(condition.error);
      }
      var thenPart := ParseStatementBlock();
      if thenPart.Err? {
        return Err(thenPart.error);
      }
      var elsePart := ParseElsePart();
      if elsePart.Err? {
        return Err(elsePart.error);
      }
      r := Ok(If(condition.value, thenPart.value, elsePart.value));
    }

    /** The optional `else` block of an `if`; without one the else part is
        empty. */
    method ParseElsePart() returns (r: Result<StatementPart>)
      requires Valid()
      modifies this`pos, sem`useCountScore, sem.table.Values
      ensures Valid()
      ensures Kind(toks, old(pos)) != ELSE ==> r == Ok(StatementPart([])) && pos == old(pos)
      ensures Kind(toks, old(pos)) == ELSE ==> Gives(r, StatementBlock(EnvOf(sem.table, scope), toks, old(pos) + 1), pos)
      ensures r.Ok? ==> sem.useCountScore == old(sem.useCountScore)
      decreases |toks| - pos, 12, 0
    {
      if Kind(toks, pos) != ELSE {
        return Ok(StatementPart([]));
      }
      pos := pos + 1;
      r := ParseStatementBlock();
    }

    /** The condition of an `if` and its `then`, read with the use-count
        score raised by one. */
    method ParseIfHead() returns (r: Result<Expr>)
      requires Valid()
      modifies this`pos, sem`useCountScore, sem.table.Values
      ensures Valid()
      ensures var c := Condition(EnvOf(sem.table, scope), toks, old(pos));
              if c.Err? then r == Err(c.error)
              else if Kind(toks, c.value.next) != THEN then r == Err(SyntaxError)
              else r == Ok(c.value.node) && pos == c.value.next + 1
      ensures r.Ok? ==> sem.useCountScore == old(sem.useCountScore)
      decreases |toks| - pos, 8, 0
    {
      sem.useCountScore := sem.useCountScore + 1;
      var condition := ParseCondition();
      if condition.Err? {
        return Err(condition.error);
      }
      if Kind(toks, pos) != THEN {
        return Err(SyntaxError);
      }
      pos := pos + 1;
      sem.useCountScore := sem.useCountScore - 1;
      r := condition;
    }

    /** `__parse_CASE_STATEMENT` (after `case`). */
    method ParseCaseStatement() returns (r: Result<Stmt>)
      requires Valid()
      modifies this`pos, sem`useCountScore, sem.table.Values
      ensures Valid()
      ensures Gives(r, CaseStatement(EnvOf(sem.table, scope), toks, old(pos)), pos)
      ensures r.Ok? ==> sem.useCountScore == old(sem.useCountScore)
      decreases |toks| - pos, 8, 0
    {
      ghost var env := EnvOf(sem.table, scope);
      ghost var p0 := pos;
      if Kind(toks, pos) != IDENTIFIER {
        return Err(SyntaxError);
      }
      var variable := TokenValue(toks, pos);
      pos := pos + 1;
      if Kind(toks, pos) != OF {
        return Err(SyntaxError);
      }
      pos := pos + 1;
      var blocks: seq<CaseBlock> := [];
      var default: Option<StatementPart> := None;
      var last: Option<CaseBlock> := None;
      while Kind(toks, pos) != END
        invariant Valid() && p0 < pos <= |toks|
        invariant CaseStatement(env, toks, p0) == CaseBlocks(env, toks, variable, blocks, default, last, pos)
        invariant sem.useCountScore == old(sem.useCountScore)
        decreases |toks| - pos
      {
        var round := ParseCaseRound(variable, blocks, default, last);
        if round.Err? {
          return Err(round.error);
        }
        blocks, default, last := round.value.0, round.value.1, round.value.2;
      }
      pos := pos + 1;
      return Ok(Switch(variable, blocks, default));
    }

    /** One turn of the case loop: a default block after `else`, or a case
        block; the blocks, the default and the last case block so far go
        in and their new values come out. */
    method ParseCaseRound(variable: string, blocks: seq<CaseBlock>, default: Option<StatementPart>, last: Option<CaseBlock>)
      returns (r: Result<(seq<CaseBlock>, Option<StatementPart>, Option<CaseBlock>)>)
      requires Valid() && Kind(toks, pos) != END
      modifies this`pos, sem`useCountScore, sem.table.Values
      ensures Valid()
      ensures r.Err? ==> CaseBlocks(EnvOf(sem.table, scope), toks, variable, blocks, default, last, old(pos)) == Err(r.error)
      ensures r.Ok? ==> old(pos) < pos <= |toks| && sem.useCountScore == old(sem.useCountScore)
                        && CaseBlocks(EnvOf(sem.table, scope), toks, variable, blocks, default, last, old(pos))
                           == CaseBlocks(EnvOf(sem.table, scope), toks, variable, r.value.0, r.value.1, r.value.2, pos)
      decreases |toks| - pos, 7, 0
    {
      if Kind(toks, pos) == ELSE {
        pos := pos + 1;
        var defaultBlock := ParseDefaultBlock();
        if defaultBlock.Err? {
          return Err(defaultBlock.error);
        }
        if last.None? {
          return Err(RuntimeCrash);
        }
        r := Ok((blocks + [last.value], Some(defaultBlock.value), last));
      } else {
        var block := ParseCaseBlock();
        if block.Err? {
          return Err(block.error);
        }
        r := Ok((blocks + [block.value], default, Some(block.value)));
      }
    }

    /** The `else` branch of the case loop: the default block and its `;`. */
    method ParseDefaultBlock() returns (r: Result<StatementPart>)
      requires Valid()
      modifies this`pos, sem`useCountScore, sem.table.Values
      ensures Valid()
      ensures Gives(r, DefaultBlock(EnvOf(sem.table, scope), toks, old(pos)), pos)
      ensures r.Ok? ==> sem.useCountScore == old(sem.useCountScore)
      decreases |toks| - pos, 12, 0
    {
      var block := ParseStatementBlock();
      if block.Err? {
        return block;
      }
      if Kind(toks, pos) != SEMICOLON {
        return Err(SyntaxError);
      }
      pos := pos + 1;
      r := block;
    }

    /** The other branch of the case loop: one case block and its `;`. */
    method ParseCaseBlock() returns (r: Result<CaseBlock>)
      requires Valid()
      modifies this`pos, sem`useCountScore, sem.table.Values
      ensures Valid()
      ensures Gives(r, CaseBlockItem(EnvOf(sem.table, scope), toks, old(pos)), pos)
      ensures r.Ok? ==> sem.useCountScore == old(sem.useCountScore)
      decreases |toks| - pos, 6, 0
    {
      var labels := ParseCaseLabels();
      if labels.Err? {
        return Err(labels.error);
      }
      var body := ParseStatementBlock();
      if body.Err? {
        return Err(body.error);
      }
      if Kind(toks, pos) != SEMICOLON {
        return Err(SyntaxError);
      }
      pos := pos + 1;
      r := Ok(CaseBlock(labels.value, body.value));
    }

    /** The labels of one case block, up to and including the colon. */
    method ParseCaseLabels() returns (r: Result<seq<Expr>>)
      requires Valid()
      modifies this`pos, sem`useCountScore, sem.table.Values
      ensures Valid()
      ensures Gives(r, CaseLabels(EnvOf(sem.table, scope), toks, [], old(pos)), pos)
      ensures r.Ok? ==> sem.useCountScore == old(sem.useCountScore)
    {
      ghost var env := EnvOf(sem.table, scope);
      ghost var p0 := pos;
      var cases: seq<Expr> := [];
      while Kind(toks, pos) != COLON
        invariant Valid() && p0 <= pos <= |toks|
        invariant CaseLabels(env, toks, [], p0) == CaseLabels(env, toks, cases, pos)
        invariant sem.useCountScore == old(sem.useCountScore)
        decreases |toks| - pos
      {
        var expression := ParseExpression();
        if expression.Err? {
          return Err(expression.error);
        }
        cases := cases + [expression.value];
        if Kind(toks, pos) == COMMA {
          pos := pos + 1;
        }
      }
      pos := pos + 1;
      return Ok(cases);
    }

    /** `__parse_FOR_STATEMENT` (after `for`): the counter, its optional
        start and the end expression are read with the use-count score
        raised by one. */
    method ParseForStatement() returns (r: Result<Stmt>)
      requires Valid()
      modifies this`pos, sem`useCountScore, sem.table.Values
      ensures Valid()
      ensures Gives(r, ForStatement(EnvOf(sem.table, scope), toks, old(pos)), pos)
      ensures r.Ok? ==> sem.useCountScore == old(sem.useCountScore)
      decreases |toks| - pos, 8, 0
    {
      sem.useCountScore := sem.useCountScore + 1;
      var counter := ParseForCounter();
      if counter.Err? {
        return Err(counter.error);
      }
      var name := counter.value;
      var initial := ParseForInitial(name);
      if initial.Err? {
        return Err(initial.error);
      }
      r := ParseForRange(name, initial.value);
    }

    /** The counter of a for statement, which must be a declared name. */
    method ParseForCounter() returns (r: Result<string>)
      requires Valid()
      modifies this`pos, sem.table.Values
      ensures Valid()
      ensures Kind(toks, old(pos)) != IDENTIFIER ==> r == Err(SyntaxError)
      ensures Kind(toks, old(pos)) == IDENTIFIER ==>
                var name := TokenValue(toks, old(pos));
                if EnvOf(sem.table, scope).declared(name) then r == Ok(name) && pos == old(pos) + 1
                else r == Err(Undeclared)
    {
      if Kind(toks, pos) != IDENTIFIER {
        return Err(SyntaxError);
      }
      var name := TokenValue(toks, pos);
      pos := pos + 1;
      var found := sem.GetVariable(scope, name);
      if found.Err? {
        return Err(found.error);
      }
      r := Ok(name);
    }

    /** The rest of a for statement; the use-count score, raised on entry to
        the statement, is lowered after the end expression. */
    method ParseForRange(counter: string, initial: Option<Expr>) returns (r: Result<Stmt>)
      requires Valid()
      modifies this`pos, sem`useCountScore, sem.table.Values
      ensures Valid()
      ensures Gives(r, ForRange(EnvOf(sem.table, scope), toks, counter, initial, old(pos)), pos)
      ensures r.Ok? ==> sem.useCountScore == old(sem.useCountScore) - 1
      decreases |toks| - pos, 8, 1
    {
      var end := ParseForEnd();
      if end.Err? {
        return Err(end.error);
      }
      var body := ParseStatementBlock();
      if body.Err? {
        return Err(body.error);
      }
      r := Ok(For(counter, initial, end.value, body.value, false));
    }

    /** The `to`, end expression and `do` of a for statement; the use-count
        score is lowered after the end expression. */
    method ParseForEnd() returns (r: Result<Expr>)
      requires Valid()
      modifies this`pos, sem`useCountScore, sem.table.Values
      ensures Valid()
      ensures Kind(toks, old(pos)) != TO ==> r == Err(SyntaxError)
      ensures Kind(toks, old(pos)) == TO ==>
                var e := Expression(EnvOf(sem.table, scope), toks, old(pos) + 1);
                if e.Err? then r == Err(e.error)
                else if Kind(toks, e.value.next) != DO then r == Err(SyntaxError)
                else r == Ok(e.value.node) && pos == e.value.next + 1
      ensures r.Ok? ==> sem.useCountScore == old(sem.useCountScore) - 1
      decreases |toks| - pos, 8, 0
    {
      if Kind(toks, pos) != TO {
        return Err(SyntaxError);
      }
      pos := pos + 1;
      var end := ParseExpression();
      if end.Err? {
        return Err(end.error);
      }
      sem.useCountScore := sem.useCountScore - 1;
      if Kind(toks, pos) != DO {
        return Err(SyntaxError);
      }
      pos := pos + 1;
      r := end;
    }

    /** The optional `:= expression` of a for statement, which is checked as
        an assignment to the counter. */
    method ParseForInitial(counter: string) returns (r: Result<Option<Expr>>)
      requires Valid()
      modifies this`pos, sem`useCountScore, sem.table.Values
      ensures Valid()
      ensures Gives(r, ForInitial(EnvOf(sem.table, scope), toks, counter, old(pos)), pos)
      ensures r.Ok? ==> sem.useCountScore == old(sem.useCountScore)
    {
      ghost var env := EnvOf(sem.table, scope);
      if Kind(toks, pos) != ASSIGN {
        return Ok(None);
      }
      pos := pos + 1;
      var expression := ParseExpression();
      if expression.Err? {
        return Err(expression.error);
      }
      var checked := sem.CheckAssign(scope, counter, expression.value);
      assert checked == env.assign(counter, expression.value);
      if checked.Fail? {
        return Err(checked.error);
      }
      r := Ok(Some(expression.value));
    }

    /** `__parse_WHILE_STATEMENT` (after `while`): the condition is read with
        the use-count score raised by one. */
    method ParseWhileStatement() returns (r: Result<Stmt>)
      requires Valid()
      modifies this`pos, sem`useCountScore, sem.table.Values
      ensures Valid()
      ensures Gives(r, WhileStatement(EnvOf(sem.table, scope), toks, old(pos)), pos)
      ensures r.Ok? ==> sem.useCountScore == old(sem.useCountScore)
      decreases |toks| - pos, 8, 0
    {
      sem.useCountScore := sem.useCountScore + 1;
      var condition := ParseCondition();
      if condition.Err? {
        return Err(condition.error);
      }
      sem.useCountScore := sem.useCountScore - 1;
      if Kind(toks, pos) != DO {
        return Err(SyntaxError);
      }
      pos := pos + 1;
      var body := ParseStatementBlock();
      if body.Err? {
        return Err(body.error);
      }
      r := Ok(While(condition.value, body.value));
    }

    /** `__parse_REPEAT_STATEMENT` (after `repeat`): statements, each
        followed by `;`, up to `until`, then the condition, read with the
        use-count score raised by one. */
    method ParseRepeatStatement() returns (r: Result<Stmt>)
      requires Valid()
      modifies this`pos, sem`useCountScore, sem.table.Values
      ensures Valid()
      ensures Gives(r, RepeatStatements(EnvOf(sem.table, scope), toks, [], old(pos)), pos)
      ensures r.Ok? ==> sem.useCountScore == old(sem.useCountScore)
      decreases |toks| - pos, 10, 1
    {
      var statements := ParseRepeatBody();
      if statements.Err? {
        return Err(statements.error);
      }
      pos := pos + 1;
      sem.useCountScore := sem.useCountScore + 1;
      var condition := ParseCondition();
      if condition.Err? {
        return Err(condition.error);
      }
      sem.useCountScore := sem.useCountScore - 1;
      r := Ok(RepeatUntil(condition.value, StatementPart(statements.value)));
    }

    /** The statements of a `repeat` loop, each closed by `;`, up to
        `until`. */
    method ParseRepeatBody() returns (r: Result<seq<Stmt>>)
      requires Valid()
      modifies this`pos, sem`useCountScore, sem.table.Values
      ensures Valid()
      ensures r.Ok? ==> Kind(toks, pos) == UNTIL && pos <= |toks|
                        && RepeatStatements(EnvOf(sem.table, scope), toks, [], old(pos))
                           == RepeatStatements(EnvOf(sem.table, scope), toks, r.value, pos)
      ensures r.Err? ==> RepeatStatements(EnvOf(sem.table, scope), toks, [], old(pos)) == Err(r.error)
      ensures r.Ok? ==> sem.useCountScore == old(sem.useCountScore)
      decreases |toks| - pos, 10, 0
    {
      ghost var env := EnvOf(sem.table, scope);
      ghost var p0 := pos;
      var statements: seq<Stmt> := [];
      while Kind(toks, pos) != UNTIL
        invariant Valid() && p0 <= pos <= |toks|
        invariant RepeatStatements(env, toks, [], p0) == RepeatStatements(env, toks, statements, pos)
        invariant sem.useCountScore == old(sem.useCountScore)
        decreases |toks| - pos
      {
        var statement := ParseStatement();
        if statement.Err? {
          return Err(statement.error);
        }
        if Kind(toks, pos) != SEMICOLON {
          return Err(SyntaxError);
        }
        pos := pos + 1;
        statements := statements + [statement.value];
      }
      r := Ok(statements);
    }

    // -------------------------------------------------------------------
    // Types

    /** `__parse_type`: an array type, a primitive kind, or the name of a
        type alias, looked up among the types. */
    method ParseType() returns (r: Result<Ty>)
      requires Valid()
      modifies this`pos, this`nextArrayId, sem`useCountScore, sem.table.Values
      ensures Valid()
      ensures Gives(r, TypeSpec(EnvOf(sem.table, scope), toks, old(pos), old(nextArrayId)), pos)
      ensures r.Ok? ==> nextArrayId == old(nextArrayId) + ArrayCount(r.value)
      ensures r.Ok? ==> TypeInTable(sem.table, r.value)
      ensures r.Ok? ==> sem.useCountScore == old(sem.useCountScore)
      decreases |toks| - pos, 1, 0
    {
      var kind := Kind(toks, pos);
      if kind == ARRAY {
        pos := pos + 1;
        r := ParseArrayType();
      } else if kind == RECORD {
        pos := pos + 1;
        r := Err(NotImplemented);
      } else if PrimitiveKind(kind).Some? {
        pos := pos + 1;
        r := Ok(Prim(PrimitiveKind(kind).value));
      } else if kind != IDENTIFIER {
        r := Err(SyntaxError);
      } else {
        var name := TokenValue(toks, pos);
        pos := pos + 1;
        var alias := sem.GetType(scope, name);
        if alias.Err? {
          return Err(alias.error);
        }
        r := Ok(Alias(alias.value));
      }
    }

    /** `__parse_ARRAY_TYPE` (after `array`): the bracketed ranges, `of`, and
        the element type.  The node takes the next id before its element
        type is read. */
    method ParseArrayType() returns (r: Result<Ty>)
      requires Valid()
      modifies this`pos, this`nextArrayId, sem`useCountScore, sem.table.Values
      ensures Valid()
      ensures Gives(r, ArrayTypeSpec(EnvOf(sem.table, scope), toks, old(pos), old(nextArrayId)), pos)
      ensures r.Ok? ==> nextArrayId == old(nextArrayId) + ArrayCount(r.value)
      ensures r.Ok? ==> TypeInTable(sem.table, r.value)
      ensures r.Ok? ==> sem.useCountScore == old(sem.useCountScore)
      decreases |toks| - pos, 0, 0
    {
      ghost var env := EnvOf(sem.table, scope);
      ghost var p0 := pos;
      var id := nextArrayId;
      nextArrayId := nextArrayId + 1;
      var ranges := ParseArrayBounds();
      assert EnvOf(sem.table, scope) == env;
      ArrayTypeSpecSteps(env, toks, p0, id);
      if ranges.Err? {
        return Err(ranges.error);
      }
      var elem := ParseArrayElement();
      assert EnvOf(sem.table, scope) == env;
      if elem.Err? {
        return Err(elem.error);
      }
      r := Ok(Array(ArrayTy(id, ranges.value, elem.value)));
    }

    /** The bracketed ranges of an array type. */
    method ParseArrayBounds() returns (r: Result<seq<ArrayRange>>)
      requires Valid()
      modifies this`pos, sem`useCountScore, sem.table.Values
      ensures Valid()
      ensures Gives(r, ArrayBoundsSpec(EnvOf(sem.table, scope), toks, old(pos)), pos)
      ensures r.Ok? ==> sem.useCountScore == old(sem.useCountScore)
    {
      if Kind(toks, pos) != LBR {
        return Err(SyntaxError);
      }
      pos := pos + 1;
      r := ParseArrayRanges();
    }

    /** The `of` of an array type and its element type. */
    method ParseArrayElement() returns (r: Result<Ty>)
      requires Valid()
      modifies this`pos, this`nextArrayId, sem`useCountScore, sem.table.Values
      ensures Valid()
      ensures Gives(r, ArrayElementSpec(EnvOf(sem.table, scope), toks, old(pos), old(nextArrayId)), pos)
      ensures r.Ok? ==> nextArrayId == old(nextArrayId) + ArrayCount(r.value)
      ensures r.Ok? ==> TypeInTable(sem.table, r.value)
      ensures r.Ok? ==> sem.useCountScore == old(sem.useCountScore)
      decreases |toks| - pos, 0, 0
    {
      if Kind(toks, pos) != OF {
        return Err(SyntaxError);
      }
      pos := pos + 1;
      r := ParseType();
    }

    /** The range loop of `__parse_ARRAY_TYPE`: `factor .. factor`, each
        optionally followed by `,`, up to and including the closing bracket. */
    method ParseArrayRanges() returns (r: Result<seq<ArrayRange>>)
      requires Valid()
      modifies this`pos, sem`useCountScore, sem.table.Values
      ensures Valid()
      ensures Gives(r, ArrayRanges(EnvOf(sem.table, scope), toks, [], old(pos)), pos)
      ensures r.Ok? ==> sem.useCountScore == old(sem.useCountScore)
    {
      ghost var env := EnvOf(sem.table, scope);
      ghost var p0 := pos;
      var ranges: seq<ArrayRange> := [];
      while Kind(toks, pos) != RBR
        invariant Valid() && p0 <= pos <= |toks|
        invariant ArrayRanges(env, toks, [], p0) == ArrayRanges(env, toks, ranges, pos)
        invariant sem.useCountScore == old(sem.useCountScore)
        decreases |toks| - pos
      {
        var range := ParseArrayRange();
        if range.Err? {
          return Err(range.error);
        }
        ranges := ranges + [range.value];
      }
      pos := pos + 1;
      r := Ok(ranges);
    }

    /** One `NodeArrayRange`: two factors around `..`, and a comma if one
        follows. */
    method ParseArrayRange() returns (r: Result<ArrayRange>)
      requires Valid()
      modifies this`pos, sem`useCountScore, sem.table.Values
      ensures Valid()
      ensures Gives(r, ArrayRangeSpec(EnvOf(sem.table, scope), toks, old(pos)), pos)
      ensures r.Ok? ==> sem.useCountScore == old(sem.useCountScore)
    {
      var left := ParseFactor();
      if left.Err? {
        return Err(left.error);
      }
      if Kind(toks, pos) != ARRDOT {
        return Err(SyntaxError);
      }
      pos := pos + 1;
      var right := ParseFactor();
      if right.Err? {
        return Err(right.error);
      }
      if Kind(toks, pos) == COMMA {
        pos := pos + 1;
      }
      r := Ok(ArrayRange(left.value, right.value));
    }

    // -------------------------------------------------------------------
    // Declarations

    /** The symbols of the table are those it held on entry and new ones. */
    twostate predicate TableGrown()
      reads this, sem
    {
      forall s :: s in sem.table.Values ==> s in old(sem.table.Values) || fresh(s)
    }

    /** The identifier loop of `__parse_VAR_statement`, up to and including
        the colon. */
    method ParseVarIdentifiers() returns (r: Result<seq<string>>)
      requires Valid()
      modifies this`pos
      ensures Valid()
      ensures Gives(r, VarIdentifiers(toks, [], old(pos)), pos)
    {
      ghost var p0 := pos;
      var ids: seq<string> := [];
      while Kind(toks, pos) != COLON
        invariant p0 <= pos <= |toks|
        invariant VarIdentifiers(toks, [], p0) == VarIdentifiers(toks, ids, pos)
        decreases |toks| - pos
      {
        if Kind(toks, pos) != IDENTIFIER {
          return Err(SyntaxError);
        }
        ids := ids + [TokenValue(toks, pos)];
        pos := pos + 1;
        if Kind(toks, pos) == COMMA {
          pos := pos + 1;
        }
      }
      pos := pos + 1;
      r := Ok(ids);
    }

    /** The loop of `__parse_VAR_statement` that enters every identifier as a
        variable of type `ty`; the first key already taken fails. */
    method DeclareVariables(ids: seq<string>, ty: Ty) returns (r: Outcome)
      requires Valid() && TypeInTable(sem.table, ty)
      modifies sem, sem.table.Values
      ensures TableGrown()
      ensures Valid() && sem.useCountScore == old(sem.useCountScore) && Extends(old(sem.table), sem.table)
      ensures r.Pass? <==> FreshKeys(old(sem.table), scope, ids)
      ensures r.Pass? ==> DeclaresVariables(old(sem.table), sem.table, scope, ids, ty, false)
      ensures r.Fail? ==> r.error == DuplicateName
    {
      var i := 0;
      while i < |ids|
        invariant 0 <= i <= |ids|
        invariant Valid() && sem.useCountScore == old(sem.useCountScore)
        invariant TypeInTable(sem.table, ty)
        invariant FreshKeys(old(sem.table), scope, ids[..i]) && TableGrown()
        invariant DeclaresVariables(old(sem.table), sem.table, scope, ids[..i], ty, false)
      {
        var added := DeclareVariable(old(sem.table), ids, i, ty);
        if added.Fail? {
          return added;
        }
        i := i + 1;
      }
      assert ids[..i] == ids;
      r := Pass;
    }

    /** One turn of the loop of `DeclareVariables`: the `i`-th identifier is
        entered, or its key is found taken. */
    method DeclareVariable(ghost base: map<string, Symbol>, ids: seq<string>, i: nat, ty: Ty) returns (r: Outcome)
      requires Valid() && i < |ids| && TypeInTable(sem.table, ty)
      requires FreshKeys(base, scope, ids[..i]) && DeclaresVariables(base, sem.table, scope, ids[..i], ty, false)
      modifies sem, sem.table.Values
      ensures TableGrown()
      ensures Valid() && sem.useCountScore == old(sem.useCountScore) && TypeInTable(sem.table, ty)
      ensures r.Fail? ==> r.error == DuplicateName && !FreshKeys(base, scope, ids) && sem.table == old(sem.table)
      ensures r.Pass? ==> FreshKeys(base, scope, ids[..i + 1]) && DeclaresVariables(base, sem.table, scope, ids[..i + 1], ty, false)
    {
      var added := sem.AddVariable(scope, ids[i], ty, false);
      if added.Fail? {
        DeclareStepFail(base, old(sem.table), scope, ids, i, ty, false);
        return added;
      }
      FreshKeysStep(base, old(sem.table), scope, ids[..i], ids[i], ty, false);
      DeclaresVariablesStep(base, old(sem.table), sem.table, scope, ids[..i], ids[i], ty, false);
      assert ids[..i + 1] == ids[..i] + [ids[i]];
      r := Pass;
    }

    /** `__parse_VAR_statement`: the identifiers, then the type; every
        identifier is entered as a variable of that type, and the nodes keep
        the type's text unless it is an array. */
    method ParseVarStatement() returns (r: Result<seq<Decl>>)
      requires Valid()
      modifies this`pos, this`nextArrayId, sem, sem.table.Values
      ensures TableGrown()
      ensures Valid() && Extends(old(sem.table), sem.table)
      ensures r.Ok? ==> sem.useCountScore == old(sem.useCountScore)
      ensures var c := VarClause(EnvOf(old(sem.table), scope), toks, old(pos), old(nextArrayId));
              (c.Err? ==> r == Err(c.error))
              && (c.Ok? ==> (r.Ok? <==> FreshKeys(old(sem.table), scope, c.value.node.0))
                            && (r.Err? ==> r.error == DuplicateName))
      ensures var c := VarClause(EnvOf(old(sem.table), scope), toks, old(pos), old(nextArrayId));
              r.Ok? ==> c.Ok? && pos == c.value.next
                        && r.value == VarDecls(c.value.node.0, DeclTy(c.value.node.1))
                        && DeclaresVariables(old(sem.table), sem.table, scope, c.value.node.0, c.value.node.1, false)
      ensures r.Ok? ==> old(pos) < pos && forall i :: 0 <= i < |r.value| ==> TyOK(r.value[i].ty)
      ensures r.Ok? ==> Declared(sem.table, scope, r.value)
    {
      var ids := ParseVarIdentifiers();
      if ids.Err? {
        return Err(ids.error);
      }
      var t := ParseType();
      if t.Err? {
        return Err(t.error);
      }
      if Kind(toks, pos) == ASSIGN {
        return Err(NotImplemented);
      }
      var declared := DeclareVariables(ids.value, t.value);
      if declared.Fail? {
        return Err(declared.error);
      }
      VarDeclsDeclared(old(sem.table), sem.table, scope, ids.value, t.value, DeclTy(t.value), false);
      r := Ok(VarDecls(ids.value, DeclTy(t.value)));
    }

    /** The semantic half of `__parse_CONST_statement`: the constant's type
        is the predicted type of its expression, and it is entered as an
        immutable variable of that type. */
    method DeclareConstant(name: string, e: Expr) returns (r: Result<Ty>)
      requires Valid()
      modifies sem, sem.table.Values
      ensures TableGrown()
      ensures Valid() && Extends(old(sem.table), sem.table)
      ensures sem.useCountScore == old(sem.useCountScore)
      ensures var t := PredictSpec(old(sem.table), scope, OfExpr(e));
              var key := ConvertToName(scope, name);
              (t.Err? ==> r == Err(t.error))
              && (t.Ok? ==> (r.Ok? <==> key !in old(sem.table)) && (r.Err? ==> r.error == DuplicateName))
      ensures r.Ok? ==> r == PredictSpec(old(sem.table), scope, OfExpr(e))
                        && DeclaresVariables(old(sem.table), sem.table, scope, [name], r.value, true)
    {
      var predicted := sem.PredictConditionType(OfExpr(e), scope);
      if predicted.Err? {
        return Err(predicted.error);
      }
      PredictExprIsPrimitiveLike(sem.table, scope, e);
      var key := ConvertToName(scope, name);
      var added := sem.AddVariable(scope, name, predicted.value, true);
      if added.Fail? {
        return Err(added.error);
      }
      assert KeySet(scope, [name]) == {key};
      r := predicted;
    }

    /** `__parse_CONST_statement`: `name = condition`, then the constant is
        declared with its expression's predicted type. */
    method ParseConstStatement() returns (r: Result<Decl>)
      requires Valid()
      modifies this`pos, sem, sem.table.Values
      ensures TableGrown()
      ensures Valid() && Extends(old(sem.table), sem.table)
      ensures r.Ok? ==> sem.useCountScore == old(sem.useCountScore)
      ensures var c := ConstClause(EnvOf(old(sem.table), scope), toks, old(pos));
              c.Err? ==> r == Err(c.error)
      ensures var c := ConstClause(EnvOf(old(sem.table), scope), toks, old(pos));
              c.Ok? ==>
                var t := PredictSpec(old(sem.table), scope, OfExpr(c.value.node.1));
                var key := ConvertToName(scope, c.value.node.0);
                (t.Err? ==> r == Err(t.error))
                && (t.Ok? ==> (r.Ok? <==> key !in old(sem.table)) && (r.Err? ==> r.error == DuplicateName))
      ensures var c := ConstClause(EnvOf(old(sem.table), scope), toks, old(pos));
              r.Ok? ==> (c.Ok? && pos == c.value.next
                         && var t := PredictSpec(old(sem.table), scope, OfExpr(c.value.node.1));
                            t.Ok? && r.value == ConstDecl(c.value.node.0, DeclTy(t.value), c.value.node.1)
                            && DeclaresVariables(old(sem.table), sem.table, scope, [c.value.node.0], t.value, true))
      ensures r.Ok? ==> old(pos) < pos && Declared(sem.table, scope, [r.value])
    {
      ghost var env := EnvOf(sem.table, scope);
      ghost var p0 := pos;
      var named := ParseNameEquals();
      if named.Err? {
        ConstClauseSteps(env, toks, p0);
        return Err(named.error);
      }
      var name := named.value;
      var expression := ParseCondition();
      ConstClauseSteps(env, toks, p0);
      if expression.Err? {
        return Err(expression.error);
      }
      var ty := DeclareConstant(name, expression.value);
      if ty.Err? {
        return Err(ty.error);
      }
      r := Ok(ConstDecl(name, DeclTy(ty.value), expression.value));
    }

    /** The `name =` that opens a type or const clause. */
    method ParseNameEquals() returns (r: Result<string>)
      requires Valid()
      modifies this`pos
      ensures Valid()
      ensures if Kind(toks, old(pos)) == IDENTIFIER && Kind(toks, old(pos) + 1) == EQUALITY
              then r == Ok(TokenValue(toks, old(pos))) && pos == old(pos) + 2
              else r == Err(SyntaxError)
    {
      if Kind(toks, pos) != IDENTIFIER {
        return Err(SyntaxError);
      }
      var name := TokenValue(toks, pos);
      pos := pos + 1;
      if Kind(toks, pos) != EQUALITY {
        return Err(SyntaxError);
      }
      pos := pos + 1;
      r := Ok(name);
    }

    /** `__parse_TYPE_statement`: the alias is entered with the parsed type;
        the node keeps the type's text, or for an array the node with its
        element type's text. */
    method ParseTypeStatement() returns (r: Result<Decl>)
      requires Valid()
      modifies this`pos, this`nextArrayId, sem, sem.table.Values
      ensures TableGrown()
      ensures Valid() && Extends(old(sem.table), sem.table)
      ensures r.Ok? ==> sem.useCountScore == old(sem.useCountScore)
      ensures var c := TypeClause(EnvOf(old(sem.table), scope), toks, old(pos), old(nextArrayId));
              (c.Err? ==> r == Err(c.error))
              && (c.Ok? ==> var key := ConvertToName(scope, c.value.node.0);
                            (r.Ok? <==> key !in old(sem.table)) && (r.Err? ==> r.error == DuplicateName))
      ensures var c := TypeClause(EnvOf(old(sem.table), scope), toks, old(pos), old(nextArrayId));
              r.Ok? ==> (c.Ok? && pos == c.value.next
                         && r.value == TypeDecl(c.value.node.0, TypeDeclTy(c.value.node.1))
                         && var key := ConvertToName(scope, c.value.node.0);
                            key in sem.table && sem.table == old(sem.table)[key := sem.table[key]]
                            && sem.table[key].kind == TypeSymbol && sem.table[key].identifier == c.value.node.0
                            && sem.table[key].ty == AliasTarget(c.value.node.1))
      ensures r.Ok? ==> old(pos) < pos && Declared(sem.table, scope, [r.value])
    {
      ghost var env := EnvOf(sem.table, scope);
      var named := ParseNameEquals();
      if named.Err? {
        return Err(named.error);
      }
      var name := named.value;
      var t := ParseType();
      assert EnvOf(sem.table, scope) == env;
      if t.Err? {
        return Err(t.error);
      }
      var added := sem.AddType(scope, name, AliasTarget(t.value));
      if added.Fail? {
        return Err(added.error);
      }
      r := Ok(TypeDecl(name, TypeDeclTy(t.value)));
    }

    /** `__parse_SUBROUTINE_FORMAL_PARAMS`: var clauses up to the closing
        parenthesis, each optionally followed by `;`.  A `,` after a clause
        is met by an expectation of the closing parenthesis, which fails. */
    method ParseFormalParams() returns (r: Result<FormalParams>, ghost clauses: seq<Piece>)
      requires Valid()
      modifies this`pos, this`nextArrayId, sem, sem.table.Values
      ensures TableGrown()
      ensures Valid() && Extends(old(sem.table), sem.table)
      ensures r.Ok? ==> sem.useCountScore == old(sem.useCountScore)
      ensures r.Ok? ==> old(pos) <= pos && Kind(toks, pos) == RPAREN && ParamsOK(r.value)
      ensures r.Ok? ==> Declared(sem.table, scope, r.value.params)
      ensures r.Ok? ==> ClausesGive(ParamList, clauses, old(pos), old(sem.table), pos, sem.table, r.value.params, scope, toks)
      ensures r.Err? ==> FailsAt(ParamList, clauses, old(pos), old(sem.table), scope, toks, r.error)
    {
      var params := FormalParams([]);
      clauses := [];
      while Kind(toks, pos) != RPAREN
        invariant Valid() && old(pos) <= pos <= |toks| && Extends(old(sem.table), sem.table)
        invariant ParamsOK(params) && TableGrown() && Declared(sem.table, scope, params.params)
        invariant sem.useCountScore == old(sem.useCountScore)
        invariant ClausesGive(ParamList, clauses, old(pos), old(sem.table), pos, sem.table, params.params, scope, toks)
        decreases |toks| - pos
      {
        var more;
        more, clauses := ParseParamClause(old(pos), old(sem.table), params, clauses);
        if more.Err? {
          return Err(more.error), clauses;
        }
        params := more.value;
      }
      r := Ok(params);
    }

    /** One turn of the loop of `__parse_SUBROUTINE_FORMAL_PARAMS`: the
        clause is appended to the parameters and to the trace. */
    method ParseParamClause(ghost at: nat, ghost table: map<string, Symbol>, params: FormalParams, ghost clauses: seq<Piece>)
      returns (r: Result<FormalParams>, ghost more: seq<Piece>)
      requires Valid() && Kind(toks, pos) != RPAREN
      requires ParamsOK(params) && Declared(sem.table, scope, params.params)
      requires ClausesGive(ParamList, clauses, at, table, pos, sem.table, params.params, scope, toks)
      modifies this`pos, this`nextArrayId, sem, sem.table.Values
      ensures TableGrown()
      ensures Valid() && Extends(old(sem.table), sem.table)
      ensures r.Ok? ==> sem.useCountScore == old(sem.useCountScore)
      ensures r.Ok? ==> old(pos) < pos && ParamsOK(r.value) && Declared(sem.table, scope, r.value.params)
      ensures r.Ok? ==> ClausesGive(ParamList, more, at, table, pos, sem.table, r.value.params, scope, toks)
      ensures r.Err? ==> FailsAt(ParamList, more, at, table, scope, toks, r.error)
    {
      var clause, piece := ParseClause(ParamList);
      if clause.Err? {
        FailsAtSnoc(ParamList, clauses, piece, at, table, scope, toks, clause.error);
        return Err(clause.error), clauses + [piece];
      }
      DeclaredGrows(piece.before, sem.table, scope, params.params);
      DeclaredConcat(sem.table, scope, params.params, clause.value);
      TracedSnoc(Clause(ParamList), clauses, piece, at, table, scope, toks);
      assert params.Extend(clause.value).params == params.params + clause.value;
      r := Ok(params.Extend(clause.value));
      more := clauses + [piece];
    }

    /** One clause of a list: for a section the statement of its kind and
        the `;` that must close it, for a parameter list a var clause, which
        a `,` may not follow and a `;` may. */
    method ParseClause(list: ClauseList) returns (r: Result<seq<Decl>>, ghost piece: Piece)
      requires Valid()
      requires if list == ParamList then Kind(toks, pos) != RPAREN else Kind(toks, pos) == IDENTIFIER
      modifies this`pos, this`nextArrayId, sem, sem.table.Values
      ensures TableGrown()
      ensures Valid() && Extends(old(sem.table), sem.table)
      ensures r.Ok? ==> sem.useCountScore == old(sem.useCountScore)
      ensures r.Ok? ==> old(pos) < pos && r.value == piece.decls
                        && Traced(Clause(list), [piece], old(pos), old(sem.table), pos, sem.table, scope, toks)
                        && piece.before == old(sem.table) && piece.after == sem.table
                        && piece.pos == old(pos) && piece.end == pos && piece.inner == []
      ensures piece.pos == old(pos) && piece.before == old(sem.table) && piece.arrayId == old(nextArrayId)
      ensures Gives(r, ClauseOutcome(list, old(sem.table), old(nextArrayId), old(pos), scope, toks), pos)
      ensures r.Ok? ==> Declared(sem.table, scope, r.value)
      ensures r.Ok? && list == ParamList ==> forall i :: 0 <= i < |r.value| ==> TyOK(r.value[i].ty)
    {
      ghost var id := nextArrayId;
      piece := Piece(sem.table, map[], id, pos, 0, 0, [], []);
      r := ParseClauseStatement(list);
      if r.Err? {
        return r, piece;
      }
      var next := pos;
      if list == ParamList {
        if Kind(toks, pos) == COMMA {
          return Err(SyntaxError), piece;
        }
        if Kind(toks, pos) == SEMICOLON {
          pos := pos + 1;
        }
      } else {
        if Kind(toks, pos) != SEMICOLON {
          return Err(SyntaxError), piece;
        }
        pos := pos + 1;
      }
      piece := Piece(old(sem.table), sem.table, id, old(pos), next, pos, r.value, []);
      OneClause(list, piece, scope, toks);
    }

    /** The statement of a clause: a type, const or var statement. */
    method ParseClauseStatement(list: ClauseList) returns (r: Result<seq<Decl>>)
      requires Valid()
      requires if list == ParamList then Kind(toks, pos) != RPAREN else Kind(toks, pos) == IDENTIFIER
      modifies this`pos, this`nextArrayId, sem, sem.table.Values
      ensures TableGrown()
      ensures Valid() && Extends(old(sem.table), sem.table)
      ensures r.Ok? ==> sem.useCountScore == old(sem.useCountScore)
      ensures r.Ok? ==> old(pos) < pos
                        && StatementGives(list, old(sem.table), sem.table, old(nextArrayId), old(pos), pos, r.value, scope, toks)
      ensures Gives(r, StatementOutcome(list, old(sem.table), old(nextArrayId), old(pos), scope, toks), pos)
      ensures r.Ok? ==> Declared(sem.table, scope, r.value)
      ensures r.Ok? && list == ParamList ==> forall i :: 0 <= i < |r.value| ==> TyOK(r.value[i].ty)
    {
      if list == TypeSection {
        var clause := ParseTypeStatement();
        if clause.Err? {
          return Err(clause.error);
        }
        r := Ok([clause.value]);
      } else if list == ConstSection {
        var clause := ParseConstStatement();
        if clause.Err? {
          return Err(clause.error);
        }
        r := Ok([clause.value]);
      } else {
        r := ParseVarStatement();
      }
    }

    // -------------------------------------------------------------------
    // Declaration part and program

    /** The `VAR`, `TYPE` and `CONST` cases of `_parse_declaration_part`:
        clauses of the section's kind while an identifier follows, each
        closed by `;`. */
    method ParseSection(list: ClauseList) returns (r: Result<seq<Decl>>, ghost clauses: seq<Piece>)
      requires Valid() && list != ParamList
      modifies this`pos, this`nextArrayId, sem, sem.table.Values
      ensures TableGrown()
      ensures Valid() && Extends(old(sem.table), sem.table)
      ensures r.Ok? ==> sem.useCountScore == old(sem.useCountScore)
      ensures r.Ok? ==> old(pos) <= pos && Kind(toks, pos) != IDENTIFIER && Declared(sem.table, scope, r.value)
      ensures r.Ok? ==> ClausesGive(list, clauses, old(pos), old(sem.table), pos, sem.table, r.value, scope, toks)
      ensures r.Err? ==> FailsAt(list, clauses, old(pos), old(sem.table), scope, toks, r.error)
    {
      var declarations: seq<Decl> := [];
      clauses := [];
      while Kind(toks, pos) == IDENTIFIER
        invariant Valid() && old(pos) <= pos <= |toks|
        invariant Extends(old(sem.table), sem.table) && TableGrown()
        invariant Declared(sem.table, scope, declarations)
        invariant sem.useCountScore == old(sem.useCountScore)
        invariant ClausesGive(list, clauses, old(pos), old(sem.table), pos, sem.table, declarations, scope, toks)
        decreases |toks| - pos
      {
        var more;
        more, clauses := ParseSectionClause(list, old(pos), old(sem.table), declarations, clauses);
        if more.Err? {
          return Err(more.error), clauses;
        }
        declarations := more.value;
      }
      r := Ok(declarations);
    }

    /** One turn of the loop of a section: the clause's declarations are
        appended to the section's and the clause to the trace. */
    method ParseSectionClause(list: ClauseList, ghost at: nat, ghost table: map<string, Symbol>,
                              declarations: seq<Decl>, ghost clauses: seq<Piece>)
      returns (r: Result<seq<Decl>>, ghost more: seq<Piece>)
      requires Valid() && list != ParamList && Kind(toks, pos) == IDENTIFIER
      requires Declared(sem.table, scope, declarations)
      requires ClausesGive(list, clauses, at, table, pos, sem.table, declarations, scope, toks)
      modifies this`pos, this`nextArrayId, sem, sem.table.Values
      ensures TableGrown()
      ensures Valid() && Extends(old(sem.table), sem.table)
      ensures r.Ok? ==> sem.useCountScore == old(sem.useCountScore)
      ensures r.Ok? ==> old(pos) < pos && Declared(sem.table, scope, r.value)
      ensures r.Ok? ==> ClausesGive(list, more, at, table, pos, sem.table, r.value, scope, toks)
      ensures r.Err? ==> FailsAt(list, more, at, table, scope, toks, r.error)
    {
      var clause, piece := ParseClause(list);
      if clause.Err? {
        FailsAtSnoc(list, clauses, piece, at, table, scope, toks, clause.error);
        return Err(clause.error), clauses + [piece];
      }
      DeclaredGrows(piece.before, sem.table, scope, declarations);
      DeclaredConcat(sem.table, scope, declarations, clause.value);
      TracedSnoc(Clause(list), clauses, piece, at, table, scope, toks);
      more := clauses + [piece];
      r := Ok(declarations + clause.value);
    }

    /** The signature part of `__parse_SUBROUTINE`: the kind, the name, the
        formal parameters and (for a function) the result type, parsed
        inside the subroutine's own scope level, which stays pushed. */
    method ParseSubroutineSignature() returns (r: Result<(SubroutineType, string, Ty, FormalParams)>, ghost params: Piece)
      requires Valid()
      modifies this`pos, this`scope, this`nextArrayId, sem, sem.table.Values
      ensures TableGrown()
      ensures Valid() && Extends(old(sem.table), sem.table)
      ensures r.Ok? ==> sem.useCountScore == old(sem.useCountScore)
      ensures SubroutineKind(Kind(toks, old(pos))).None? ==> r == Err(RuntimeCrash)
      ensures (SubroutineKind(Kind(toks, old(pos))).Some?
               && (Kind(toks, old(pos) + 1) != IDENTIFIER || Kind(toks, old(pos) + 2) != LPAREN)) ==> r == Err(SyntaxError)
      ensures r.Ok? ==> old(pos) < pos && scope == old(scope) + [r.value.1]
                        && Some(r.value.0) == SubroutineKind(Kind(toks, old(pos)))
                        && r.value.1 == TokenValue(toks, old(pos) + 1)
                        && (r.value.0 == Procedure ==> r.value.2 == Prim(Undefined))
      ensures r.Ok? ==> TypeInTable(sem.table, r.value.2) && ParamsOK(r.value.3)
                        && Declared(sem.table, scope, r.value.3.params)
      ensures r.Ok? ==> params.pos == old(pos) + 3 && params.before == old(sem.table)
                        && ParamsGive(params, scope, toks, r.value.3)
    {
      params := Piece(map[], map[], 0, 0, 0, 0, [], []);
      var head := ParseSubroutineHead();
      if head.Err? {
        return Err(head.error), params;
      }
      var (kind, name) := head.value;
      ghost var at, before := pos, sem.table;
      var formal, clauses := ParseFormalParams();
      if formal.Err? {
        return Err(formal.error), params;
      }
      params := Piece(before, sem.table, 0, at, pos, pos, formal.value.params, clauses);
      pos := pos + 1;
      var t := ParseResultType(kind);
      if t.Err? {
        return Err(t.error), params;
      }
      r := Ok((kind, name, t.value, formal.value));
    }

    /** The start of `__parse_SUBROUTINE`: the kind token, the name and
        `(`; the name is pushed onto the scope stack. */
    method ParseSubroutineHead() returns (r: Result<(SubroutineType, string)>)
      requires Valid()
      modifies this`pos, this`scope
      ensures Valid()
      ensures SubroutineKind(Kind(toks, old(pos))).None? ==> r == Err(RuntimeCrash)
      ensures SubroutineKind(Kind(toks, old(pos))).Some? ==>
                if Kind(toks, old(pos) + 1) == IDENTIFIER && Kind(toks, old(pos) + 2) == LPAREN
                then r == Ok((SubroutineKind(Kind(toks, old(pos))).value, TokenValue(toks, old(pos) + 1)))
                     && pos == old(pos) + 3 && scope == old(scope) + [r.value.1]
                else r == Err(SyntaxError)
    {
      var kind := SubroutineKind(Kind(toks, pos));
      if kind.None? {
        return Err(RuntimeCrash);
      }
      pos := pos + 1;
      if Kind(toks, pos) != IDENTIFIER {
        return Err(SyntaxError);
      }
      var name := TokenValue(toks, pos);
      pos := pos + 1;
      if Kind(toks, pos) != LPAREN {
        return Err(SyntaxError);
      }
      pos := pos + 1;
      scope := scope + [name];
      r := Ok((kind.value, name));
    }

    /** The end of a subroutine's signature: a procedure's type is
        `UNDEFINED`; a function's is the type after `:`. */
    method ParseResultType(kind: SubroutineType) returns (r: Result<Ty>)
      requires Valid()
      modifies this`pos, this`nextArrayId, sem`useCountScore, sem.table.Values
      ensures Valid()
      ensures r.Ok? ==> sem.useCountScore == old(sem.useCountScore)
      ensures kind == Procedure ==> r == Ok(Prim(Undefined)) && pos == old(pos)
      ensures kind == Function && Kind(toks, old(pos)) != COLON ==> r == Err(SyntaxError)
      ensures kind == Function && Kind(toks, old(pos)) == COLON ==>
                Gives(r, TypeSpec(EnvOf(sem.table, scope), toks, old(pos) + 1, old(nextArrayId)), pos)
      ensures r.Ok? ==> TypeInTable(sem.table, r.value)
    {
      if kind == Procedure {
        return Ok(Prim(Undefined));
      }
      if Kind(toks, pos) != COLON {
        return Err(SyntaxError);
      }
      pos := pos + 1;
      r := ParseType();
    }

    /** The header of `__parse_SUBROUTINE`, up to the entry of the
        subroutine one scope level up. */
    method ParseSubroutineHeader() returns (r: Result<(SubroutineType, string, Ty, FormalParams)>, ghost params: Piece)
      requires Valid()
      modifies this`pos, this`scope, this`nextArrayId, sem, sem.table.Values
      ensures TableGrown()
      ensures Valid() && Extends(old(sem.table), sem.table)
      ensures r.Ok? ==> sem.useCountScore == old(sem.useCountScore)
      ensures SubroutineKind(Kind(toks, old(pos))).None? ==> r == Err(RuntimeCrash)
      ensures (SubroutineKind(Kind(toks, old(pos))).Some?
               && (Kind(toks, old(pos) + 1) != IDENTIFIER || Kind(toks, old(pos) + 2) != LPAREN)) ==> r == Err(SyntaxError)
      ensures r.Ok? ==> old(pos) < pos && scope == old(scope) + [r.value.1]
                        && Some(r.value.0) == SubroutineKind(Kind(toks, old(pos)))
                        && r.value.1 == TokenValue(toks, old(pos) + 1)
                        && (r.value.0 == Procedure ==> r.value.2 == Prim(Undefined))
      ensures r.Ok? ==> var key := ConvertToName(old(scope), r.value.1);
                        key !in old(sem.table) && key in sem.table
                        && sem.table[key].kind == SubroutineSymbol && sem.table[key].identifier == r.value.1
                        && sem.table[key].ty == r.value.2 && sem.table[key].formalParams == r.value.3
      ensures r.Ok? ==> Declared(sem.table, scope, r.value.3.params)
      ensures r.Ok? ==> params.pos == old(pos) + 3 && params.before == old(sem.table)
                        && ParamsGive(params, scope, toks, r.value.3)
    {
      ghost var outer := scope;
      var signature;
      signature, params := ParseSubroutineSignature();
      if signature.Err? {
        return Err(signature.error), params;
      }
      var (kind, name, ty, formal) := signature.value;
      ghost var before := sem.table;
      assert scope[..|scope| - 1] == outer;
      var added := sem.AddSubroutine(scope[..|scope| - 1], name, ty, formal);
      if added.Fail? {
        return Err(added.error), params;
      }
      ghost var key := ConvertToName(outer, name);
      assert sem.table == before[key := sem.table[key]] && key !in before;
      assert Extends(before, sem.table);
      DeclaredGrows(before, sem.table, scope, formal.params);
      r := signature;
    }

    /** `__parse_SUBROUTINE`: after the header and `;`, a body follows
        unless the header ends with `forward`; the subroutine's scope level
        is then popped. */
    method ParseSubroutine() returns (r: Result<Decl>, ghost params: Piece, ghost body: Piece)
      requires Valid()
      modifies this`pos, this`scope, this`nextArrayId, sem, sem.table.Values
      ensures TableGrown()
      ensures Valid() && Extends(old(sem.table), sem.table)
      ensures r.Ok? ==> sem.useCountScore == old(sem.useCountScore)
      ensures SubroutineKind(Kind(toks, old(pos))).None? ==> r == Err(RuntimeCrash)
      ensures (SubroutineKind(Kind(toks, old(pos))).Some?
               && (Kind(toks, old(pos) + 1) != IDENTIFIER || Kind(toks, old(pos) + 2) != LPAREN)) ==> r == Err(SyntaxError)
      ensures r.Ok? ==> scope == old(scope) && old(pos) < pos && r.value.SubroutineDecl?
                        && Some(r.value.subroutineType) == SubroutineKind(Kind(toks, old(pos)))
                        && r.value.identifier == TokenValue(toks, old(pos) + 1)
      ensures r.Ok? ==> var key := ConvertToName(old(scope), r.value.identifier);
                        key !in old(sem.table) && key in sem.table
                        && sem.table[key].kind == SubroutineSymbol
                        && sem.table[key].identifier == r.value.identifier
                        && sem.table[key].formalParams == r.value.formalParams
                        && r.value.ty == DeclTy(sem.table[key].ty)
                        && (r.value.subroutineType == Procedure ==> sem.table[key].ty == Prim(Undefined))
      ensures r.Ok? ==> Declared(sem.table, old(scope) + [r.value.identifier], r.value.formalParams.params)
      ensures r.Ok? && r.value.isForward ==>
                r.value.declarationPart == DeclarationPart([]) && r.value.statementPart == StatementPart([])
      ensures r.Ok? ==> params.pos == old(pos) + 3 && params.before == old(sem.table)
                        && ParamsGive(params, old(scope) + [r.value.identifier], toks, r.value.formalParams)
      ensures r.Ok? && !r.value.isForward ==>
                old(pos) < body.pos && body.after == sem.table && Kind(toks, body.end) == SEMICOLON && pos == body.end + 1
                && var inner := old(scope) + [r.value.identifier];
                   BodyGives(body, inner, inner, toks, r.value.declarationPart, r.value.statementPart)
      decreases |toks| - pos, 13, 0
    {
      body := Piece(map[], map[], 0, 0, 0, 0, [], []);
      var header;
      header, params := ParseSubroutineHeader();
      if header.Err? {
        return Err(header.error), params, body;
      }
      var (kind, name, ty, formal) := header.value;
      var tail;
      tail, body := ParseSubroutineTail(formal.params);
      if tail.Err? {
        return Err(tail.error), params, body;
      }
      var (declarationPart, statementPart, isForward) := tail.value;
      r := Ok(SubroutineDecl(kind, name, DeclTy(ty), formal, declarationPart, statementPart, isForward));
    }

    /** What follows a subroutine's header: `;`, then `forward` or a body,
        read inside the subroutine's scope level, which is popped at the
        end.  The declarations `ds` made before stay declared. */
    method ParseSubroutineTail(ghost ds: seq<Decl>) returns (r: Result<(DeclarationPart, StatementPart, bool)>, ghost body: Piece)
      requires Valid() && |scope| > 0 && Declared(sem.table, scope, ds)
      modifies this`pos, this`scope, this`nextArrayId, sem, sem.table.Values
      ensures TableGrown()
      ensures Valid() && Extends(old(sem.table), sem.table)
      ensures r.Ok? ==> sem.useCountScore == old(sem.useCountScore)
      ensures Kind(toks, old(pos)) != SEMICOLON ==> r == Err(SyntaxError)
      ensures r.Ok? ==> scope == old(scope)[..|old(scope)| - 1] && old(pos) + 1 < pos && Declared(sem.table, old(scope), ds)
                        && (r.value.2 <==> Kind(toks, old(pos) + 1) == FORWARD)
      ensures r.Ok? && r.value.2 ==> r.value.0 == DeclarationPart([]) && r.value.1 == StatementPart([])
      ensures r.Ok? && !r.value.2 ==>
                body.pos == old(pos) + 1 && body.after == sem.table && Kind(toks, body.end) == SEMICOLON && pos == body.end + 1
                && BodyGives(body, old(scope), old(scope), toks, r.value.0, r.value.1)
      decreases |toks| - pos, 17, 1
    {
      body := Piece(map[], map[], 0, 0, 0, 0, [], []);
      if Kind(toks, pos) != SEMICOLON {
        return Err(SyntaxError), body;
      }
      pos := pos + 1;
      if Kind(toks, pos) == FORWARD {
        pos := pos + 1;
        r := Ok((DeclarationPart([]), StatementPart([]), true));
      } else {
        var parsed;
        parsed, body := ParseSubroutineBody();
        if parsed.Err? {
          return Err(parsed.error), body;
        }
        DeclaredGrows(body.before, sem.table, scope, ds);
        r := Ok((parsed.value.0, parsed.value.1, false));
      }
      scope := scope[..|scope| - 1];
    }

    /** The body of a subroutine that is not `forward`: its declaration
        part, the statement block at the `begin` that ends it, and the `;`
        after the block. */
    method ParseSubroutineBody() returns (r: Result<(DeclarationPart, StatementPart)>, ghost body: Piece)
      requires Valid()
      modifies this`pos, this`scope, this`nextArrayId, sem, sem.table.Values
      ensures TableGrown()
      ensures Valid() && Extends(old(sem.table), sem.table)
      ensures r.Ok? ==> sem.useCountScore == old(sem.useCountScore)
      ensures r.Ok? ==> scope == old(scope) && old(pos) < pos && body.pos == old(pos) && body.before == old(sem.table) && body.after == sem.table
                        && Kind(toks, body.end) == SEMICOLON && pos == body.end + 1
                        && BodyGives(body, scope, scope, toks, r.value.0, r.value.1)
      decreases |toks| - pos, 17, 0
    {
      body := Piece(map[], map[], 0, 0, 0, 0, [], []);
      ghost var at := pos;
      var declared, parts := ParseDeclarationPart();
      if declared.Err? {
        return Err(declared.error), body;
      }
      // the declaration part stops only at `begin`, which the statement
      // block then reads
      ghost var begin := pos;
      var block := ParseStatementBlock();
      if block.Err? {
        return Err(block.error), body;
      }
      body := Piece(old(sem.table), sem.table, 0, at, begin, pos, declared.value.declarations, parts);
      BodyOf(parts, at, old(sem.table), begin, sem.table, pos, scope, scope, toks, declared.value, block.value);
      if Kind(toks, pos) != SEMICOLON {
        return Err(SyntaxError), body;
      }
      pos := pos + 1;
      r := Ok((declared.value, block.value));
    }

    /** `_parse_declaration_part`: sections and subroutines up to `begin`;
        any other token fails. */
    method ParseDeclarationPart() returns (r: Result<DeclarationPart>, ghost parts: seq<Piece>)
      requires Valid()
      modifies this`pos, this`scope, this`nextArrayId, sem, sem.table.Values
      ensures TableGrown()
      ensures Valid() && Extends(old(sem.table), sem.table)
      ensures r.Ok? ==> sem.useCountScore == old(sem.useCountScore)
      ensures r.Ok? ==> old(pos) <= pos && scope == old(scope) && Kind(toks, pos) == BEGIN
                        && Declared(sem.table, scope, r.value.declarations)
      ensures r.Ok? ==> PartsGive(parts, old(pos), old(sem.table), pos, sem.table, r.value.declarations, scope, toks)
      ensures r.Err? ==> |parts| > 0
                         && var last := parts[|parts| - 1];
                            Traced(Part, parts[..|parts| - 1], old(pos), old(sem.table), last.pos, last.before, old(scope), toks)
                            && Kind(toks, last.pos) != BEGIN && PartFails(last, old(scope), toks, r.error)
      decreases |toks| - pos, 16, 0
    {
      var declarations: seq<Decl> := [];
      parts := [];
      while Kind(toks, pos) != BEGIN
        invariant Valid() && old(pos) <= pos <= |toks| && scope == old(scope)
        invariant Extends(old(sem.table), sem.table) && TableGrown()
        invariant Declared(sem.table, scope, declarations)
        invariant sem.useCountScore == old(sem.useCountScore)
        invariant PartsGive(parts, old(pos), old(sem.table), pos, sem.table, declarations, scope, toks)
        decreases |toks| - pos
      {
        ghost var before := sem.table;
        var part, piece := ParseDeclarationPiece();
        if part.Err? {
          assert (parts + [piece])[..|parts|] == parts;
          return Err(part.error), parts + [piece];
        }
        DeclaredGrows(before, sem.table, scope, declarations);
        DeclaredConcat(sem.table, scope, declarations, part.value);
        TracedSnoc(Part, parts, piece, old(pos), old(sem.table), scope, toks);
        parts := parts + [piece];
        declarations := declarations + part.value;
      }
      r := Ok(DeclarationPart(declarations));
    }

    /** One pass of `_parse_declaration_part`'s loop: a section after its
        keyword, or a subroutine. */
    method ParseDeclarationPiece() returns (r: Result<seq<Decl>>, ghost piece: Piece)
      requires Valid()
      modifies this`pos, this`scope, this`nextArrayId, sem, sem.table.Values
      ensures TableGrown()
      ensures Valid() && Extends(old(sem.table), sem.table)
      ensures r.Ok? ==> sem.useCountScore == old(sem.useCountScore)
      ensures r.Ok? ==> old(pos) < pos && scope == old(scope) && Declared(sem.table, scope, r.value)
                        && PieceGives(Part, piece, scope, toks) && r.value == piece.decls
                        && piece.before == old(sem.table) && piece.after == sem.table
                        && piece.pos == old(pos) && piece.end == pos
      ensures r.Err? ==> piece.pos == old(pos) && piece.before == old(sem.table) && PartFails(piece, old(scope), toks, r.error)
      decreases |toks| - pos, 15, 0
    {
      var kind := Kind(toks, pos);
      if kind == PROCEDURE || kind == FUNCTION {
        r, piece := ParseSubroutinePart();
      } else if SectionOf(kind).Some? {
        r, piece := ParseSectionPart();
      } else {
        r, piece := Err(SyntaxError), Piece(sem.table, sem.table, 0, pos, pos, pos, [], []);
      }
    }

    /** The `PROCEDURE` and `FUNCTION` cases of `_parse_declaration_part`. */
    method ParseSubroutinePart() returns (r: Result<seq<Decl>>, ghost piece: Piece)
      requires Valid() && (Kind(toks, pos) == PROCEDURE || Kind(toks, pos) == FUNCTION)
      modifies this`pos, this`scope, this`nextArrayId, sem, sem.table.Values
      ensures TableGrown()
      ensures Valid() && Extends(old(sem.table), sem.table)
      ensures r.Ok? ==> sem.useCountScore == old(sem.useCountScore)
      ensures r.Ok? ==> old(pos) < pos && scope == old(scope) && Declared(sem.table, scope, r.value)
                        && PieceGives(Part, piece, scope, toks) && r.value == piece.decls
                        && piece.before == old(sem.table) && piece.after == sem.table
                        && piece.pos == old(pos) && piece.end == pos
      ensures r.Err? ==> piece.pos == old(pos) && piece.before == old(sem.table) && PartFails(piece, old(scope), toks, r.error)
      decreases |toks| - pos, 14, 0
    {
      ghost var at := pos;
      var subroutine, _, _ := ParseSubroutine();
      if subroutine.Err? {
        return Err(subroutine.error), Piece(old(sem.table), sem.table, 0, at, pos, pos, [], []);
      }
      Declared1(sem.table, scope, subroutine.value);
      SubroutinePart(old(sem.table), sem.table, at, pos, subroutine.value, scope, toks);
      r, piece := Ok([subroutine.value]), Piece(old(sem.table), sem.table, 0, at, pos, pos, [subroutine.value], []);
    }

    /** The `VAR`, `TYPE` and `CONST` cases of `_parse_declaration_part`:
        the keyword, then the section. */
    method ParseSectionPart() returns (r: Result<seq<Decl>>, ghost piece: Piece)
      requires Valid() && SectionOf(Kind(toks, pos)).Some?
      modifies this`pos, this`nextArrayId, sem, sem.table.Values
      ensures TableGrown()
      ensures Valid() && Extends(old(sem.table), sem.table)
      ensures r.Ok? ==> sem.useCountScore == old(sem.useCountScore)
      ensures r.Ok? ==> old(pos) < pos && Declared(sem.table, scope, r.value)
                        && PieceGives(Part, piece, scope, toks) && r.value == piece.decls
                        && piece.before == old(sem.table) && piece.after == sem.table
                        && piece.pos == old(pos) && piece.end == pos
      ensures r.Err? ==> piece.pos == old(pos) && piece.before == old(sem.table) && PartFails(piece, old(scope), toks, r.error)
    {
      ghost var at := pos;
      var list := SectionOf(Kind(toks, pos)).value;
      pos := pos + 1;
      var section, clauses := ParseSection(list);
      if section.Err? {
        return section, Piece(old(sem.table), sem.table, 0, at, pos, pos, [], clauses);
      }
      SectionPart(list, old(sem.table), sem.table, at, pos, clauses, scope, toks);
      r, piece := section, Piece(old(sem.table), sem.table, 0, at, pos, pos, section.value, clauses);
    }

    /** The optional `program <name>;` heading: the name it gives, or the
        empty name when the program has none. */
    method ParseProgramHeading() returns (r: Result<string>)
      requires Valid()
      modifies this`pos
      ensures Valid()
      ensures Kind(toks, old(pos)) == PROGRAM ==>
                if Kind(toks, Advance(toks, old(pos) + 1)) == SEMICOLON
                then r == Ok(TokenValue(toks, old(pos) + 1)) && pos == Advance(toks, old(pos) + 1) + 1
                else r == Err(SyntaxError)
      ensures Kind(toks, old(pos)) != PROGRAM ==> r == Ok("") && pos == old(pos)
    {
      if Kind(toks, pos) == PROGRAM {
        pos := pos + 1;
        var identifier := TokenValue(toks, pos);
        pos := Advance(toks, pos);
        if Kind(toks, pos) != SEMICOLON {
          return Err(SyntaxError);
        }
        pos := pos + 1;
        return Ok(identifier);
      }
      return Ok("");
    }

    /** `_parse_prog`: an optional `program name;` header, the global
        declarations, then the main block inside the program's scope level
        and the closing `.`. */
    method ParseProg() returns (r: Result<Program>, ghost global: Piece)
      requires Valid()
      modifies this`pos, this`scope, this`nextArrayId, sem, sem.table.Values
      ensures TableGrown()
      ensures Valid() && Extends(old(sem.table), sem.table)
      ensures r.Ok? ==> sem.useCountScore == old(sem.useCountScore)
      ensures r.Ok? ==> scope == old(scope) + [r.value.identifier]
                        && r.value.identifier == (if Kind(toks, old(pos)) == PROGRAM then TokenValue(toks, old(pos) + 1) else "")
                        && Declared(sem.table, old(scope), r.value.globalDeclaration.declarations)
      ensures r.Ok? ==> 0 < pos && Kind(toks, pos - 1) == DOT
      ensures Kind(toks, old(pos)) == PROGRAM && Kind(toks, Advance(toks, old(pos) + 1)) != SEMICOLON ==> r == Err(SyntaxError)
      ensures r.Ok? ==> global.pos == (if Kind(toks, old(pos)) == PROGRAM then Advance(toks, old(pos) + 1) + 1 else old(pos))
                        && global.before == old(sem.table) && global.after == sem.table && pos == global.end + 1
                        && BodyGives(global, old(scope), scope, toks, r.value.globalDeclaration, r.value.statementPart)
    {
      global := Piece(map[], map[], 0, 0, 0, 0, [], []);
      var heading := ParseProgramHeading();
      if heading.Err? {
        return Err(heading.error), global;
      }
      var identifier := heading.value;
      var body;
      body, global := ParseProgramBody(identifier);
      if body.Err? {
        return Err(body.error), global;
      }
      if Kind(toks, pos) != DOT {
        return Err(SyntaxError), global;
      }
      pos := pos + 1;
      r := Ok(Program(identifier, body.value.0, body.value.1));
    }

    /** The global declarations of `_parse_prog`, then its main block, which
        is parsed inside the program's scope level. */
    method ParseProgramBody(identifier: string) returns (r: Result<(DeclarationPart, StatementPart)>, ghost global: Piece)
      requires Valid()
      modifies this`pos, this`scope, this`nextArrayId, sem, sem.table.Values
      ensures TableGrown()
      ensures Valid() && Extends(old(sem.table), sem.table)
      ensures r.Ok? ==> sem.useCountScore == old(sem.useCountScore)
      ensures r.Ok? ==> scope == old(scope) + [identifier] && Declared(sem.table, old(scope), r.value.0.declarations)
      ensures r.Ok? ==> global.pos == old(pos) && global.before == old(sem.table) && global.after == sem.table
                        && pos == global.end
                        && BodyGives(global, old(scope), scope, toks, r.value.0, r.value.1)
    {
      global := Piece(map[], map[], 0, 0, 0, 0, [], []);
      var declared, parts := ParseDeclarationPart();
      if declared.Err? {
        return Err(declared.error), global;
      }
      scope := scope + [identifier];
      ghost var begin := pos;
      var block := ParseStatementBlock();
      if block.Err? {
        return Err(block.error), global;
      }
      global := Piece(old(sem.table), sem.table, 0, old(pos), begin, pos, declared.value.declarations, parts);
      BodyOf(parts, old(pos), old(sem.table), begin, sem.table, pos, old(scope), scope, toks, declared.value, block.value);
      r := Ok((declared.value, block.value));
    }

    /** `parse`: an input that starts at end of file gives the empty main
        node; anything else is a program. */
    method Parse() returns (r: Result<ParseTree>, ghost global: Piece)
      requires Valid()
      modifies this`pos, this`scope, this`nextArrayId, sem, sem.table.Values
      ensures TableGrown()
      ensures Valid() && Extends(old(sem.table), sem.table)
      ensures r.Ok? ==> sem.useCountScore == old(sem.useCountScore)
      ensures Kind(toks, old(pos)) == EOF ==> r == Ok(MainNode(ProgramUnit)) && pos == old(pos)
      ensures Kind(toks, old(pos)) == PROGRAM && Kind(toks, Advance(toks, old(pos) + 1)) != SEMICOLON ==> r == Err(SyntaxError)
      ensures Kind(toks, old(pos)) != EOF && r.Ok? ==>
                r.value.ProgramTree? && scope == old(scope) + [r.value.program.identifier]
                && Declared(sem.table, old(scope), r.value.program.globalDeclaration.declarations)
      ensures Kind(toks, old(pos)) != EOF && r.Ok? ==>
                global.before == old(sem.table) && global.after == sem.table && pos == global.end + 1
                && BodyGives(global, old(scope), scope, toks, r.value.program.globalDeclaration, r.value.program.statementPart)
    {
      global := Piece(map[], map[], 0, 0, 0, 0, [], []);
      if Kind(toks, pos) == EOF {
        return Ok(MainNode(ProgramUnit)), global;
      }
      var program;
      program, global := ParseProg();
      if program.Err? {
        return Err(program.error), global;
      }
      r := Ok(ProgramTree(program.value));
    }
  }
}
