/** The dead-variable optimizer, the one kind of link in the optimization
    chain: it repeatedly removes the declarations of symbols nobody uses and
    the assignments to them, lowering the use counts those assignments
    contributed, until every symbol left in its working table is used. */
module Optimizer {
  import opened Wrappers
  import opened SupportClasses
  import opened Nodes
  import opened Semantic

  /** Use counts, one per symbol object. */
  type Counts = map<Symbol, int>

  /** Every symbol of the working table has a count. */
  predicate Covers(work: map<string, Symbol>, count: Counts) {
    forall k :: k in work ==> work[k] in count
  }

  /** Every symbol of the working table, and every alias on its type's
      chain, has a count. */
  ghost predicate WorkOK(work: map<string, Symbol>, count: Counts) {
    forall k :: k in work ==>
      (work[k] in count && TyOK(work[k].ty) && forall c :: c in AliasChain(work[k].ty) ==> c in count)
  }

  /** What one pruning pass consults: the bare identifiers of the unused
      symbols, and the working table whose counts dead stores lower. */
  datatype Pruning = Pruning(names: set<string>, work: map<string, Symbol>)

  // ---------------------------------------------------------------------
  // The dead-store test of one statement

  /** The qualified names of the variables met walking down `left` and
      `right`, in post-order; argument and index lists are not entered. */
  function Occurrences(scope: seq<string>, e: Expr): seq<string> {
    match e
    case Variable(id) => [ConvertToName(scope, id)]
    case Unary(l, _) => Occurrences(scope, l)
    case Binary(l, r, _) => Occurrences(scope, l) + Occurrences(scope, r)
    case _ => []
  }

  /** The variable an assignment's target expression names, found by
      following `left`; a node without `left` on the way crashes. */
  function AssignTarget(e: Expr): (r: Result<string>)
    ensures r.Err? ==> r.error == RuntimeCrash
    ensures r.Ok? && e.Variable? ==> r.value == e.identifier
  {
    match e
    case Variable(id) => Ok(id)
    case Unary(l, _) => AssignTarget(l)
    case Binary(l, _, _) => AssignTarget(l)
    case _ => Err(RuntimeCrash)
  }

  /** The identifier the walk leaves in `assign_variable_name`: the target
      of the assignment node met last, none when there is no assignment.
      Finishing a unary node crashes (it appends to a list that does not
      exist), and so does an assignment whose target has no variable. */
  function StoreTarget(e: Expr): (r: Result<Option<string>>)
    ensures r.Err? ==> r.error == RuntimeCrash
    ensures r.Ok? && e.Binary? && e.operationType == Assign ==>
              AssignTarget(e.left).Ok? && r == Ok(Some(AssignTarget(e.left).value))
  {
    match e
    case Unary(_, _) => Err(RuntimeCrash)
    case Binary(l, r, op) =>
      var tl :- StoreTarget(l);
      var tr :- StoreTarget(r);
      if op == Assign then
        var t :- AssignTarget(l);
        Ok(Some(t))
      else Ok(if tr.Some? then tr else tl)
    case _ => Ok(None)
  }

  /** `use_count -= 1` for the symbol under each key, in order; a key
      missing from the working table crashes. */
  function Decrease(work: map<string, Symbol>, count: Counts, keys: seq<string>): (r: Result<Counts>)
    requires Covers(work, count)
    ensures r.Ok? ==> r.value.Keys == count.Keys
    ensures r.Err? ==> r.error == RuntimeCrash
    decreases |keys|
  {
    if |keys| == 0 then Ok(count)
    else
      var c :- Decrease(work, count, keys[..|keys| - 1]);
      var k := keys[|keys| - 1];
      if k in work then Ok(c[work[k] := c[work[k]] - 1]) else Err(RuntimeCrash)
  }

  /** The dead-store test: the qualified name of the target, or the empty
      name when there is no assignment, is among the unused names. */
  predicate IsDead(names: set<string>, scope: seq<string>, target: Option<string>) {
    TargetName(scope, target) in names
  }

  /** `assign_variable_name`: the qualified name of the target, "" when
      there is none. */
  function TargetName(scope: seq<string>, target: Option<string>): string {
    if target.Some? then ConvertToName(scope, target.value) else ""
  }

  /** `__make_post_order_traversal`: whether the statement stays.  It is
      dead when the qualified name of its assignment target is unused; a
      dead statement lowers the count of every variable occurrence in it. */
  function DeadStore(p: Pruning, scope: seq<string>, e: Expr, count: Counts): (r: Result<(bool, Counts)>)
    requires Covers(p.work, count)
    ensures r.Ok? ==> r.value.1.Keys == count.Keys
    ensures r.Ok? && r.value.0 ==> r.value.1 == count
  {
    var t :- StoreTarget(e);
    if IsDead(p.names, scope, t) then
      var c :- Decrease(p.work, count, Occurrences(scope, e));
      Ok((false, c))
    else Ok((true, count))
  }

  // ---------------------------------------------------------------------
  // Pruning statements and declarations

  /** `__cut_statement_part`, statement by statement. */
  function StatementsCut(p: Pruning, scope: seq<string>, stmts: seq<Stmt>, count: Counts): (r: Result<(seq<Stmt>, Counts)>)
    requires Covers(p.work, count)
    ensures r.Ok? ==> r.value.1.Keys == count.Keys
    decreases stmts
  {
    if |stmts| == 0 then Ok(([], count))
    else
      var front :- StatementsCut(p, scope, stmts[..|stmts| - 1], count);
      var last :- StatementCut(p, scope, stmts[|stmts| - 1], front.1);
      Ok((front.0 + last.0, last.1))
  }

  /** One statement of `__cut_statement_part`: the compound statements stay
      with their bodies pruned, an operator statement stays unless it is a
      dead store, and no other statement is copied. */
  function StatementCut(p: Pruning, scope: seq<string>, s: Stmt, count: Counts): (r: Result<(seq<Stmt>, Counts)>)
    requires Covers(p.work, count)
    ensures r.Ok? ==> r.value.1.Keys == count.Keys && |r.value.0| <= 1
    decreases s
  {
    match s
    case If(c, th, el) =>
      var t :- StatementsCut(p, scope, th.statements, count);
      var e :- StatementsCut(p, scope, el.statements, t.1);
      Ok(([If(c, StatementPart(t.0), StatementPart(e.0))], e.1))
    case While(c, b) =>
      var t :- StatementsCut(p, scope, b.statements, count);
      Ok(([While(c, StatementPart(t.0))], t.1))
    case RepeatUntil(c, b) =>
      var t :- StatementsCut(p, scope, b.statements, count);
      Ok(([RepeatUntil(c, StatementPart(t.0))], t.1))
    case For(v, init, end, b, up) =>
      var t :- StatementsCut(p, scope, b.statements, count);
      Ok(([For(v, init, end, StatementPart(t.0), up)], t.1))
    case Simple(e) =>
      if e.Binary? || e.Unary? then
        var d :- DeadStore(p, scope, e, count);
        Ok((if d.0 then [s] else [], d.1))
      else Ok(([], count))
    case Switch(_, _, _) => Ok(([], count))
  }

  /** `__cut_declarations`: subroutines stay with their parts pruned inside
      their own scope level; any other declaration stays unless its
      qualified name is among the unused names. */
  function DeclarationsCut(p: Pruning, scope: seq<string>, decls: seq<Decl>, count: Counts): (r: Result<(seq<Decl>, Counts)>)
    requires Covers(p.work, count)
    ensures r.Ok? ==> r.value.1.Keys == count.Keys
    decreases decls
  {
    if |decls| == 0 then Ok(([], count))
    else
      var front :- DeclarationsCut(p, scope, decls[..|decls| - 1], count);
      var d := decls[|decls| - 1];
      if d.SubroutineDecl? then
        var sub :- SubroutineCut(p, scope + [d.identifier], d, front.1);
        Ok((front.0 + [sub.0], sub.1))
      else if ConvertToName(scope, d.identifier) in p.names then Ok(front)
      else Ok((front.0 + [d], front.1))
  }

  /** `__cut_subroutine`: the declaration part, then the statement part. */
  function SubroutineCut(p: Pruning, scope: seq<string>, d: Decl, count: Counts): (r: Result<(Decl, Counts)>)
    requires Covers(p.work, count) && d.SubroutineDecl?
    ensures r.Ok? ==> r.value.1.Keys == count.Keys
    ensures r.Ok? ==> r.value.0.SubroutineDecl? && r.value.0 == d.(declarationPart := r.value.0.declarationPart, statementPart := r.value.0.statementPart)
    decreases d
  {
    var dp :- DeclarationsCut(p, scope, d.declarationPart.declarations, count);
    var sp :- StatementsCut(p, scope, d.statementPart.statements, dp.1);
    Ok((d.(declarationPart := DeclarationPart(dp.0), statementPart := StatementPart(sp.0)), sp.1))
  }

  // ---------------------------------------------------------------------
  // The fixpoint

  /** The keys of the working table whose symbol has count zero. */
  function Unused(work: map<string, Symbol>, count: Counts): (u: set<string>)
    requires Covers(work, count)
    ensures u <= work.Keys
    ensures forall k :: k in work ==> (k in u <==> count[work[k]] == 0)
  {
    set k | k in work && count[work[k]] == 0
  }

  /** The bare identifiers of the given entries. */
  function Identifiers(work: map<string, Symbol>, keys: set<string>): set<string>
    requires keys <= work.Keys
  {
    set k | k in keys :: work[k].identifier
  }

  /** Every entry's type has a well-founded alias chain. */
  ghost predicate ChainsOK(work: map<string, Symbol>) {
    forall k :: k in work ==> TyOK(work[k].ty)
  }

  /** How many of the given entries have `s` on their type's alias chain. */
  ghost function ChainHits(work: map<string, Symbol>, keys: set<string>, s: Symbol): nat
    requires ChainsOK(work)
  {
    |HitKeys(work, keys, s)|
  }

  /** The given entries that have `s` on their type's alias chain. */
  ghost function HitKeys(work: map<string, Symbol>, keys: set<string>, s: Symbol): (r: set<string>)
    requires ChainsOK(work)
    ensures r <= keys
  {
    set k | k in keys && k in work && s in AliasChain(work[k].ty)
  }

  /** The counts after every given entry has lowered by one each alias on
      its type's chain. */
  ghost function ChainDrop(work: map<string, Symbol>, count: Counts, keys: set<string>): (r: Counts)
    requires ChainsOK(work)
    ensures r.Keys == count.Keys
  {
    map s | s in count :: count[s] - ChainHits(work, keys, s)
  }

  /** `_optimize` from the working table and the counts: rounds of pruning
      with the identifiers of the zero-count entries, each followed by the
      alias decrements and the removal of those entries, until no entry has
      count zero.  The result is the pruned program, the working table left
      and the counts. */
  ghost function Pruned(program: Program, work: map<string, Symbol>, count: Counts): (r: Result<(Program, map<string, Symbol>, Counts)>)
    requires WorkOK(work, count)
    ensures r.Ok? ==> r.value.2.Keys == count.Keys
    ensures r.Ok? ==> r.value.1.Keys <= work.Keys && forall k :: k in r.value.1 ==> r.value.1[k] == work[k]
    ensures r.Ok? ==> forall k :: k in r.value.1 ==> r.value.2[r.value.1[k]] != 0
    decreases |work|
  {
    var unused := Unused(work, count);
    if unused == {} then Ok((program, work, count))
    else
      var next :- Round(program, work, count);
      Shrinks(work, unused);
      Pruned(next.0, work - unused, next.1)
  }

  /** One round with some zero-count entry: the declarations and then the
      statements are cut with the identifiers of those entries, and their
      chains are lowered. */
  ghost function Round(program: Program, work: map<string, Symbol>, count: Counts): (r: Result<(Program, Counts)>)
    requires WorkOK(work, count)
    ensures r.Ok? ==> r.value.1.Keys == count.Keys
  {
    var unused := Unused(work, count);
    var p := Pruning(Identifiers(work, unused), work);
    var decls :- DeclarationsCut(p, [], program.globalDeclaration.declarations, count);
    var stmts :- StatementsCut(p, [], program.statementPart.statements, decls.1);
    Ok((program.(globalDeclaration := DeclarationPart(decls.0), statementPart := StatementPart(stmts.0)),
        ChainDrop(work, stmts.1, unused)))
  }

  /** A round leads to the rest of the fixpoint, or fails it. */
  lemma PrunedStep(program: Program, work: map<string, Symbol>, count: Counts)
    requires WorkOK(work, count) && Unused(work, count) != {}
    ensures Round(program, work, count).Err? ==> Pruned(program, work, count).Err?
    ensures Round(program, work, count).Ok? ==>
              var next := Round(program, work, count).value;
              WorkOK(work - Unused(work, count), next.1) &&
              |work - Unused(work, count)| < |work| &&
              Pruned(program, work, count) == Pruned(next.0, work - Unused(work, count), next.1)
  {
    Shrinks(work, Unused(work, count));
  }

  /** Removing a non-empty set of keys shrinks the table. */
  lemma Shrinks(work: map<string, Symbol>, keys: set<string>)
    requires keys != {} && keys <= work.Keys
    ensures (work - keys).Keys == work.Keys - keys
    ensures |work - keys| < |work|
  {
    var k :| k in keys;
    assert (work - keys).Keys == work.Keys - keys;
    assert (work - keys).Keys < work.Keys;
    assert |(work - keys).Keys| < |work.Keys|;
  }

  // ---------------------------------------------------------------------
  // Properties

  /** How many of the keys name `s` in the working table. */
  function KeyHits(work: map<string, Symbol>, keys: seq<string>, s: Symbol): nat
    decreases |keys|
  {
    if |keys| == 0 then 0
    else KeyHits(work, keys[..|keys| - 1], s) + (if keys[|keys| - 1] in work && work[keys[|keys| - 1]] == s then 1 else 0)
  }

  /** The decrements succeed exactly when every key is in the working
      table, and then lower each symbol once per key that names it. */
  lemma {:induction false} DecreaseCounts(work: map<string, Symbol>, count: Counts, keys: seq<string>)
    requires Covers(work, count)
    ensures Decrease(work, count, keys).Ok? <==> forall i :: 0 <= i < |keys| ==> keys[i] in work
    ensures Decrease(work, count, keys).Ok? ==>
              forall s :: s in count ==> Decrease(work, count, keys).value[s] == count[s] - KeyHits(work, keys, s)
    decreases |keys|
  {
    if |keys| > 0 {
      var front := keys[..|keys| - 1];
      DecreaseCounts(work, count, front);
      assert forall i :: 0 <= i < |front| ==> front[i] == keys[i];
    }
  }

  /** Decrementing along two lists is decrementing along the first, then
      along the second. */
  lemma {:induction false} DecreaseConcat(work: map<string, Symbol>, count: Counts, a: seq<string>, b: seq<string>)
    requires Covers(work, count)
    ensures Decrease(work, count, a + b) ==
            (match Decrease(work, count, a)
             case Err(e) => Err(e)
             case Ok(c) => Decrease(work, c, b))
    decreases |b|
  {
    if |b| == 0 {
      assert a + b == a;
    } else {
      var front := b[..|b| - 1];
      DecreaseConcat(work, count, a, front);
      assert (a + b)[..|a + b| - 1] == a + front;
      assert (a + b)[|a + b| - 1] == b[|b| - 1];
    }
  }

  /** The statements that stay, independent of the counts. */
  function KeptStatements(names: set<string>, scope: seq<string>, stmts: seq<Stmt>): Result<seq<Stmt>>
    decreases stmts
  {
    if |stmts| == 0 then Ok([])
    else
      var front :- KeptStatements(names, scope, stmts[..|stmts| - 1]);
      var last :- KeptStatement(names, scope, stmts[|stmts| - 1]);
      Ok(front + last)
  }

  /** What becomes of one statement: a compound statement stays, with its
      bodies pruned; an operator statement stays unchanged when it is not a
      dead store and goes when it is; every other statement goes. */
  function KeptStatement(names: set<string>, scope: seq<string>, s: Stmt): (r: Result<seq<Stmt>>)
    ensures r.Ok? && (s.Switch? || (s.Simple? && !s.expr.Binary? && !s.expr.Unary?)) ==> r.value == []
    ensures r.Ok? && (s.If? || s.While? || s.RepeatUntil? || s.For?) ==> |r.value| == 1
    ensures s.Simple? && (s.expr.Binary? || s.expr.Unary?) ==>
              (r.Ok? <==> StoreTarget(s.expr).Ok?) &&
              (r.Ok? ==> r.value == if IsDead(names, scope, StoreTarget(s.expr).value) then [] else [s])
    decreases s
  {
    match s
    case If(c, th, el) =>
      var t :- KeptStatements(names, scope, th.statements);
      var e :- KeptStatements(names, scope, el.statements);
      Ok([If(c, StatementPart(t), StatementPart(e))])
    case While(c, b) =>
      var t :- KeptStatements(names, scope, b.statements);
      Ok([While(c, StatementPart(t))])
    case RepeatUntil(c, b) =>
      var t :- KeptStatements(names, scope, b.statements);
      Ok([RepeatUntil(c, StatementPart(t))])
    case For(v, init, end, b, up) =>
      var t :- KeptStatements(names, scope, b.statements);
      Ok([For(v, init, end, StatementPart(t), up)])
    case Simple(e) =>
      if e.Binary? || e.Unary? then
        var t :- StoreTarget(e);
        Ok(if IsDead(names, scope, t) then [] else [s])
      else Ok([])
    case Switch(_, _, _) => Ok([])
  }

  /** The variable occurrences of the dead stores, in order. */
  function DeadOccurrences(names: set<string>, scope: seq<string>, stmts: seq<Stmt>): seq<string>
    decreases stmts
  {
    if |stmts| == 0 then []
    else DeadOccurrences(names, scope, stmts[..|stmts| - 1]) + DeadOccurrence(names, scope, stmts[|stmts| - 1])
  }

  function DeadOccurrence(names: set<string>, scope: seq<string>, s: Stmt): seq<string>
    decreases s
  {
    match s
    case If(_, th, el) => DeadOccurrences(names, scope, th.statements) + DeadOccurrences(names, scope, el.statements)
    case While(_, b) => DeadOccurrences(names, scope, b.statements)
    case RepeatUntil(_, b) => DeadOccurrences(names, scope, b.statements)
    case For(_, _, _, b, _) => DeadOccurrences(names, scope, b.statements)
    case Simple(e) =>
      var t := StoreTarget(e);
      if (e.Binary? || e.Unary?) && t.Ok? && IsDead(names, scope, t.value) then Occurrences(scope, e) else []
    case Switch(_, _, _) => []
  }

  /** Pruning a statement list keeps what `KeptStatements` keeps, whatever
      the counts, and changes the counts by exactly the decrements for the
      occurrences in the dropped statements. */
  lemma {:induction false} StatementsCutSplit(p: Pruning, scope: seq<string>, stmts: seq<Stmt>, count: Counts)
    requires Covers(p.work, count)
    ensures var r := StatementsCut(p, scope, stmts, count);
            r.Ok? ==> KeptStatements(p.names, scope, stmts) == Ok(r.value.0) &&
                      Decrease(p.work, count, DeadOccurrences(p.names, scope, stmts)) == Ok(r.value.1)
    decreases stmts
  {
    var r := StatementsCut(p, scope, stmts, count);
    if |stmts| > 0 && r.Ok? {
      var front := StatementsCut(p, scope, stmts[..|stmts| - 1], count).value;
      StatementsCutSplit(p, scope, stmts[..|stmts| - 1], count);
      StatementCutSplit(p, scope, stmts[|stmts| - 1], front.1);
      DecreaseConcat(p.work, count, DeadOccurrences(p.names, scope, stmts[..|stmts| - 1]),
                     DeadOccurrence(p.names, scope, stmts[|stmts| - 1]));
    }
  }

  lemma {:induction false} StatementCutSplit(p: Pruning, scope: seq<string>, s: Stmt, count: Counts)
    requires Covers(p.work, count)
    ensures var r := StatementCut(p, scope, s, count);
            r.Ok? ==> KeptStatement(p.names, scope, s) == Ok(r.value.0) &&
                      Decrease(p.work, count, DeadOccurrence(p.names, scope, s)) == Ok(r.value.1)
    decreases s
  {
    var r := StatementCut(p, scope, s, count);
    if r.Ok? {
      match s
      case If(c, th, el) =>
        StatementsCutSplit(p, scope, th.statements, count);
        var t := StatementsCut(p, scope, th.statements, count).value;
        StatementsCutSplit(p, scope, el.statements, t.1);
        DecreaseConcat(p.work, count, DeadOccurrences(p.names, scope, th.statements),
                       DeadOccurrences(p.names, scope, el.statements));
      case While(c, b) =>
        StatementsCutSplit(p, scope, b.statements, count);
      case RepeatUntil(c, b) =>
        StatementsCutSplit(p, scope, b.statements, count);
      case For(v, init, end, b, up) =>
        StatementsCutSplit(p, scope, b.statements, count);
      case Simple(e) =>
      case Switch(_, _, _) =>
    }
  }

  /** The declarations that stay: every subroutine, and every other
      declaration whose qualified name is not unused, in their order. */
  function KeptDeclarations(names: set<string>, scope: seq<string>, decls: seq<Decl>): seq<Decl>
    decreases |decls|
  {
    if |decls| == 0 then []
    else
      var d := decls[|decls| - 1];
      KeptDeclarations(names, scope, decls[..|decls| - 1]) +
        (if d.SubroutineDecl? || ConvertToName(scope, d.identifier) !in names then [d] else [])
  }

  /** A pruned declaration is the original one, a subroutine up to its
      declaration and statement parts. */
  predicate SameHead(a: Decl, b: Decl) {
    if b.SubroutineDecl? then a.SubroutineDecl? && a == b.(declarationPart := a.declarationPart, statementPart := a.statementPart)
    else a == b
  }

  /** Pruning a declaration list keeps exactly the declarations
      `KeptDeclarations` keeps, in order. */
  lemma {:induction false} DeclarationsCutKeeps(p: Pruning, scope: seq<string>, decls: seq<Decl>, count: Counts)
    requires Covers(p.work, count)
    ensures var r := DeclarationsCut(p, scope, decls, count);
            var kept := KeptDeclarations(p.names, scope, decls);
            r.Ok? ==> |r.value.0| == |kept| && forall i :: 0 <= i < |kept| ==> SameHead(r.value.0[i], kept[i])
    decreases |decls|
  {
    if |decls| > 0 && DeclarationsCut(p, scope, decls, count).Ok? {
      DeclarationsCutKeeps(p, scope, decls[..|decls| - 1], count);
    }
  }

  /** Below the top level a qualified name has a dot, and identifiers have
      none, so nothing declared inside a subroutine is ever dropped. */
  lemma {:induction false} NestedDeclarationsKept(names: set<string>, scope: seq<string>, decls: seq<Decl>)
    requires |scope| > 0 && forall n :: n in names ==> DotFree(n)
    ensures KeptDeclarations(names, scope, decls) == decls
    decreases |decls|
  {
    if |decls| > 0 {
      NestedDeclarationsKept(names, scope, decls[..|decls| - 1]);
      var qualified := ConvertToName(scope, decls[|decls| - 1].identifier);
      assert qualified[|JoinDots(scope)|] == '.';
      assert decls[..|decls| - 1] + [decls[|decls| - 1]] == decls;
    }
  }

  /** At the top level a declaration other than a subroutine goes exactly
      when its identifier is among the unused names. */
  lemma {:induction false} TopDeclarationsKept(names: set<string>, decls: seq<Decl>)
    ensures forall d :: d in KeptDeclarations(names, [], decls) ==> d in decls
    ensures forall d :: d in decls && !d.SubroutineDecl? ==> (d in KeptDeclarations(names, [], decls) <==> d.identifier !in names)
    decreases |decls|
  {
    if |decls| > 0 {
      var front := decls[..|decls| - 1];
      TopDeclarationsKept(names, front);
      assert decls == front + [decls[|decls| - 1]];
    }
  }

  /** A cut that fails on a prefix of the list fails on the whole list. */
  lemma {:induction false} StatementsCutPrefixErr(p: Pruning, scope: seq<string>, stmts: seq<Stmt>, i: nat, count: Counts)
    requires Covers(p.work, count) && i <= |stmts|
    requires StatementsCut(p, scope, stmts[..i], count).Err?
    ensures StatementsCut(p, scope, stmts, count).Err?
    decreases |stmts|
  {
    if i < |stmts| {
      var front := stmts[..|stmts| - 1];
      assert front[..i] == stmts[..i];
      StatementsCutPrefixErr(p, scope, front, i, count);
    } else {
      assert stmts[..i] == stmts;
    }
  }

  /** One more statement of a cut. */
  lemma StatementsCutStep(p: Pruning, scope: seq<string>, stmts: seq<Stmt>, i: nat, count: Counts,
                          filtered: seq<Stmt>, mid: Counts)
    requires Covers(p.work, count) && i < |stmts|
    requires StatementsCut(p, scope, stmts[..i], count) == Ok((filtered, mid))
    ensures Covers(p.work, mid)
    ensures var c := StatementCut(p, scope, stmts[i], mid);
            c.Ok? ==> StatementsCut(p, scope, stmts[..i + 1], count) == Ok((filtered + c.value.0, c.value.1))
    ensures StatementCut(p, scope, stmts[i], mid).Err? ==> StatementsCut(p, scope, stmts[..i + 1], count).Err?
  {
    assert stmts[..i + 1][..i] == stmts[..i];
  }

  /** One more declaration of a cut. */
  lemma DeclarationsCutStep(p: Pruning, scope: seq<string>, decls: seq<Decl>, i: nat, count: Counts,
                            filtered: seq<Decl>, mid: Counts)
    requires Covers(p.work, count) && i < |decls|
    requires DeclarationsCut(p, scope, decls[..i], count) == Ok((filtered, mid))
    ensures Covers(p.work, mid)
    ensures var d := decls[i];
            d.SubroutineDecl? ==>
              var c := SubroutineCut(p, scope + [d.identifier], d, mid);
              (c.Ok? ==> DeclarationsCut(p, scope, decls[..i + 1], count) == Ok((filtered + [c.value.0], c.value.1))) &&
              (c.Err? ==> DeclarationsCut(p, scope, decls[..i + 1], count).Err?)
    ensures var d := decls[i];
            !d.SubroutineDecl? ==>
              DeclarationsCut(p, scope, decls[..i + 1], count) ==
              Ok((if ConvertToName(scope, d.identifier) in p.names then filtered else filtered + [d], mid))
  {
    assert decls[..i + 1][..i] == decls[..i];
  }

  lemma {:induction false} DeclarationsCutPrefixErr(p: Pruning, scope: seq<string>, decls: seq<Decl>, i: nat, count: Counts)
    requires Covers(p.work, count) && i <= |decls|
    requires DeclarationsCut(p, scope, decls[..i], count).Err?
    ensures DeclarationsCut(p, scope, decls, count).Err?
    decreases |decls|
  {
    if i < |decls| {
      var front := decls[..|decls| - 1];
      assert front[..i] == decls[..i];
      DeclarationsCutPrefixErr(p, scope, front, i, count);
    } else {
      assert decls[..i] == decls;
    }
  }

  // ---------------------------------------------------------------------
  // Where a crash leaves the scope

  /** The scope a failing `__cut_declarations` leaves behind: the
      identifier pushed before `__cut_subroutine` is popped only after it
      returns, so a crash inside a subroutine leaves the names of every
      subroutine it was nested in on the scope. */
  function DeclarationsCrashScope(p: Pruning, scope: seq<string>, decls: seq<Decl>, count: Counts): (r: seq<string>)
    requires Covers(p.work, count) && DeclarationsCut(p, scope, decls, count).Err?
    ensures scope <= r
    decreases decls
  {
    var front := DeclarationsCut(p, scope, decls[..|decls| - 1], count);
    var d := decls[|decls| - 1];
    if front.Err? then DeclarationsCrashScope(p, scope, decls[..|decls| - 1], count)
    else if d.SubroutineDecl? then
      var r := SubroutineCrashScope(p, scope + [d.identifier], d, front.value.1);
      assert scope <= scope + [d.identifier] <= r;
      r
    else scope
  }

  /** The scope a failing `__cut_subroutine` leaves behind: the one its
      declaration part leaves, or the scope it started in when the
      statement part fails. */
  function SubroutineCrashScope(p: Pruning, scope: seq<string>, d: Decl, count: Counts): (r: seq<string>)
    requires Covers(p.work, count) && d.SubroutineDecl? && SubroutineCut(p, scope, d, count).Err?
    ensures scope <= r
    decreases d
  {
    if DeclarationsCut(p, scope, d.declarationPart.declarations, count).Err? then
      DeclarationsCrashScope(p, scope, d.declarationPart.declarations, count)
    else scope
  }

  /** A failure on a prefix of the declarations leaves the scope where
      the failure on the whole list does. */
  lemma {:induction false} DeclarationsCrashPrefix(p: Pruning, scope: seq<string>, decls: seq<Decl>, i: nat, count: Counts)
    requires Covers(p.work, count) && i <= |decls|
    requires DeclarationsCut(p, scope, decls[..i], count).Err?
    ensures DeclarationsCut(p, scope, decls, count).Err?
    ensures DeclarationsCrashScope(p, scope, decls, count) == DeclarationsCrashScope(p, scope, decls[..i], count)
    decreases |decls|
  {
    DeclarationsCutPrefixErr(p, scope, decls, i, count);
    if i < |decls| {
      var front := decls[..|decls| - 1];
      assert front[..i] == decls[..i];
      DeclarationsCrashPrefix(p, scope, front, i, count);
    } else {
      assert decls[..i] == decls;
    }
  }

  /** A subroutine whose cut fails after the declarations before it were
      cut leaves the scope where the cut of the whole list does. */
  lemma DeclarationsCrashStep(p: Pruning, scope: seq<string>, decls: seq<Decl>, i: nat, count: Counts,
                              filtered: seq<Decl>, mid: Counts)
    requires Covers(p.work, count) && i < |decls| && decls[i].SubroutineDecl?
    requires DeclarationsCut(p, scope, decls[..i], count) == Ok((filtered, mid))
    requires Covers(p.work, mid) && SubroutineCut(p, scope + [decls[i].identifier], decls[i], mid).Err?
    ensures DeclarationsCut(p, scope, decls, count).Err?
    ensures DeclarationsCrashScope(p, scope, decls, count) == SubroutineCrashScope(p, scope + [decls[i].identifier], decls[i], mid)
  {
    var upto := decls[..i + 1];
    assert upto[..|upto| - 1] == decls[..i];
    DeclarationsCrashPrefix(p, scope, decls, i + 1, count);
  }

  // ---------------------------------------------------------------------
  // The walk's explicit stack

  /** The occurrences a frame still owes the walk. */
  function FrameOcc(scope: seq<string>, f: Frame): seq<string> {
    match f
    case Visit(e) => Occurrences(scope, e)
    case Done(_) => []
  }

  /** The occurrences owed by the whole stack, top (last element) first. */
  function PendingOcc(scope: seq<string>, stack: seq<Frame>): seq<string>
    decreases |stack|
  {
    if |stack| == 0 then [] else FrameOcc(scope, stack[|stack| - 1]) + PendingOcc(scope, stack[..|stack| - 1])
  }

  /** Meeting an operator node: an assignment sets the target. */
  function AssignEvent(e: Expr, cur: Option<string>): Result<Option<string>> {
    if e.Binary? && e.operationType == Assign then
      var t :- AssignTarget(e.left);
      Ok(Some(t))
    else Ok(cur)
  }

  /** The target after the walk has worked off one frame: a whole subtree
      leaves its own last target, if it has one; an operator met again
      repeats its assignment, and a unary node met again crashes. */
  function FrameRun(f: Frame, cur: Option<string>): Result<Option<string>> {
    match f
    case Visit(e) =>
      var t :- StoreTarget(e);
      Ok(if t.Some? then t else cur)
    case Done(e) => if e.Unary? then Err(RuntimeCrash) else AssignEvent(e, cur)
  }

  function FrameStep(f: Frame, cur: Result<Option<string>>): Result<Option<string>> {
    if cur.Err? then cur else FrameRun(f, cur.value)
  }

  /** The target after the walk has worked off the whole stack. */
  function RunFrom(stack: seq<Frame>, cur: Result<Option<string>>): Result<Option<string>>
    decreases |stack|
  {
    if |stack| == 0 then cur else RunFrom(stack[..|stack| - 1], FrameStep(stack[|stack| - 1], cur))
  }

  lemma PushOcc(scope: seq<string>, stack: seq<Frame>, f: Frame)
    ensures PendingOcc(scope, stack + [f]) == FrameOcc(scope, f) + PendingOcc(scope, stack)
  {
    assert (stack + [f])[..|stack|] == stack;
  }

  lemma PushRun(stack: seq<Frame>, f: Frame, cur: Result<Option<string>>)
    ensures RunFrom(stack + [f], cur) == RunFrom(stack, FrameStep(f, cur))
  {
    assert (stack + [f])[..|stack|] == stack;
  }

  /** A crashed walk stays crashed. */
  lemma {:induction false} RunFromErr(stack: seq<Frame>, cur: Result<Option<string>>)
    requires cur.Err?
    ensures RunFrom(stack, cur) == cur
    decreases |stack|
  {
    if |stack| > 0 {
      RunFromErr(stack[..|stack| - 1], cur);
    }
  }

  /** Working off a binary node's operands and its second meeting, after
      its first meeting, is working off the node. */
  lemma BinaryRun(e: Expr, cur: Option<string>)
    requires e.Binary?
    ensures FrameStep(Done(e), FrameStep(Visit(e.right), FrameStep(Visit(e.left), AssignEvent(e, cur)))) == FrameRun(Visit(e), cur)
  {
  }

  lemma UnaryRun(e: Expr, cur: Option<string>)
    requires e.Unary?
    ensures FrameStep(Done(e), FrameStep(Visit(e.left), Ok(cur))) == FrameRun(Visit(e), cur)
  {
  }

  // The steps of the walk.  Each keeps the collected occurrences followed
  // by the owed ones equal to the whole, and the target the stack leads to
  // equal to the statement's.

  /** A binary node met for the first time becomes its second meeting and
      its two operands. */
  lemma StepBinaryVisit(scope: seq<string>, done: seq<string>, stack: seq<Frame>, e: Expr, cur: Option<string>,
                        whole: seq<string>, target: Result<Option<string>>)
    requires e.Binary?
    requires done + PendingOcc(scope, stack + [Visit(e)]) == whole
    requires RunFrom(stack + [Visit(e)], Ok(cur)) == target
    ensures done + PendingOcc(scope, stack + [Done(e), Visit(e.right), Visit(e.left)]) == whole
    ensures RunFrom(stack + [Done(e), Visit(e.right), Visit(e.left)], AssignEvent(e, cur)) == target
  {
    BinaryVisitOcc(scope, stack, e);
    BinaryVisitRun(stack, e, cur);
  }

  lemma BinaryVisitOcc(scope: seq<string>, stack: seq<Frame>, e: Expr)
    requires e.Binary?
    ensures PendingOcc(scope, stack + [Done(e), Visit(e.right), Visit(e.left)]) == PendingOcc(scope, stack + [Visit(e)])
  {
    var s1 := stack + [Done(e)];
    var s2 := s1 + [Visit(e.right)];
    assert s2 + [Visit(e.left)] == stack + [Done(e), Visit(e.right), Visit(e.left)];
    PushOcc(scope, stack, Visit(e));
    PushOcc(scope, stack, Done(e));
    PushOcc(scope, s1, Visit(e.right));
    PushOcc(scope, s2, Visit(e.left));
    AppendAssoc(Occurrences(scope, e.left), Occurrences(scope, e.right), PendingOcc(scope, stack));
  }

  lemma BinaryVisitRun(stack: seq<Frame>, e: Expr, cur: Option<string>)
    requires e.Binary?
    ensures RunFrom(stack + [Done(e), Visit(e.right), Visit(e.left)], AssignEvent(e, cur)) == RunFrom(stack + [Visit(e)], Ok(cur))
  {
    var s1 := stack + [Done(e)];
    var s2 := s1 + [Visit(e.right)];
    assert s2 + [Visit(e.left)] == stack + [Done(e), Visit(e.right), Visit(e.left)];
    var c0 := AssignEvent(e, cur);
    PushRun(stack, Visit(e), Ok(cur));
    PushRun(stack, Done(e), FrameStep(Visit(e.right), FrameStep(Visit(e.left), c0)));
    PushRun(s1, Visit(e.right), FrameStep(Visit(e.left), c0));
    PushRun(s2, Visit(e.left), c0);
    BinaryRun(e, cur);
  }

  /** A unary node met for the first time becomes its second meeting and
      its operand. */
  lemma StepUnaryVisit(scope: seq<string>, done: seq<string>, stack: seq<Frame>, e: Expr, cur: Option<string>,
                       whole: seq<string>, target: Result<Option<string>>)
    requires e.Unary?
    requires done + PendingOcc(scope, stack + [Visit(e)]) == whole
    requires RunFrom(stack + [Visit(e)], Ok(cur)) == target
    ensures done + PendingOcc(scope, stack + [Done(e), Visit(e.left)]) == whole
    ensures RunFrom(stack + [Done(e), Visit(e.left)], Ok(cur)) == target
  {
    var s1 := stack + [Done(e)];
    assert s1 + [Visit(e.left)] == stack + [Done(e), Visit(e.left)];
    PushOcc(scope, stack, Visit(e));
    PushOcc(scope, stack, Done(e));
    PushOcc(scope, s1, Visit(e.left));
    PushRun(stack, Visit(e), Ok(cur));
    PushRun(stack, Done(e), FrameStep(Visit(e.left), Ok(cur)));
    PushRun(s1, Visit(e.left), Ok(cur));
    UnaryRun(e, cur);
  }

  /** The first meeting of an assignment whose target has no variable
      crashes the walk. */
  lemma StepAssignCrash(stack: seq<Frame>, f: Frame, cur: Option<string>, target: Result<Option<string>>)
    requires f.e.Binary? && f.e.operationType == Assign && AssignTarget(f.e.left).Err?
    requires RunFrom(stack + [f], Ok(cur)) == target
    ensures target.Err?
  {
    PushRun(stack, f, Ok(cur));
    RunFromErr(stack, FrameStep(f, Ok(cur)));
  }

  /** A binary node met again repeats its assignment. */
  lemma StepBinaryDone(scope: seq<string>, done: seq<string>, stack: seq<Frame>, e: Expr, cur: Option<string>,
                       whole: seq<string>, target: Result<Option<string>>)
    requires e.Binary?
    requires done + PendingOcc(scope, stack + [Done(e)]) == whole
    requires RunFrom(stack + [Done(e)], Ok(cur)) == target
    ensures done + PendingOcc(scope, stack) == whole
    ensures RunFrom(stack, AssignEvent(e, cur)) == target
  {
    PushOcc(scope, stack, Done(e));
    assert [] + PendingOcc(scope, stack) == PendingOcc(scope, stack);
    PushRun(stack, Done(e), Ok(cur));
  }

  /** A unary node met again crashes the walk. */
  lemma StepUnaryDone(stack: seq<Frame>, e: Expr, cur: Option<string>, target: Result<Option<string>>)
    requires e.Unary?
    requires RunFrom(stack + [Done(e)], Ok(cur)) == target
    ensures target.Err?
  {
    PushRun(stack, Done(e), Ok(cur));
    RunFromErr(stack, FrameStep(Done(e), Ok(cur)));
  }

  /** Any other node is a leaf: a variable is collected. */
  lemma StepLeaf(scope: seq<string>, done: seq<string>, stack: seq<Frame>, f: Frame, cur: Option<string>,
                 whole: seq<string>, target: Result<Option<string>>)
    requires !f.e.Binary? && !f.e.Unary?
    requires done + PendingOcc(scope, stack + [f]) == whole
    requires RunFrom(stack + [f], Ok(cur)) == target
    ensures (if f.Visit? && f.e.Variable? then done + [ConvertToName(scope, f.e.identifier)] else done) + PendingOcc(scope, stack) == whole
    ensures RunFrom(stack, Ok(cur)) == target
  {
    PushOcc(scope, stack, f);
    AppendAssoc(done, FrameOcc(scope, f), PendingOcc(scope, stack));
    PushRun(stack, f, Ok(cur));
  }

  // ---------------------------------------------------------------------
  // The optimizer object

  /** The use counts the heap holds for the given symbols. */
  ghost function CountsOf(syms: set<Symbol>): (c: Counts)
    reads syms
    ensures c.Keys == syms
  {
    map s | s in syms :: s.useCount
  }

  /** The heap holds the counts `count` for exactly the symbols `syms`. */
  ghost predicate Holds(syms: set<Symbol>, count: Counts)
    reads syms
  {
    count.Keys == syms && forall s :: s in syms ==> s.useCount == count[s]
  }

  /** Every entry of `work` is the entry of `table` under the same key. */
  predicate SubTable(work: map<string, Symbol>, table: map<string, Symbol>) {
    forall k :: k in work ==> k in table && table[k] == work[k]
  }

  /** A part of a well-formed table, with a count for each of the table's
      symbols, is a valid working table. */
  lemma WorkInTable(work: map<string, Symbol>, table: map<string, Symbol>, count: Counts)
    requires TableOK(table) && SubTable(work, table) && count.Keys == table.Values
    ensures WorkOK(work, count)
  {
    forall k | k in work
      ensures work[k] in count && TyOK(work[k].ty) && forall c :: c in AliasChain(work[k].ty) ==> c in count
    {
      assert work[k] in table.Values;
      ChainInTable(table, work[k].ty);
    }
  }

  /** `_optimize` on a whole table. */
  ghost function PrunedTable(program: Program, table: map<string, Symbol>, count: Counts): Result<(Program, map<string, Symbol>, Counts)>
    requires TableOK(table) && count.Keys == table.Values
  {
    WorkInTable(table, table, count);
    Pruned(program, table, count)
  }

  /** The scope a failing round leaves: the one the global declarations
      leave when they fail, the empty scope when the main statements fail. */
  ghost function RoundCrashScope(program: Program, work: map<string, Symbol>, count: Counts): seq<string>
    requires WorkOK(work, count) && Round(program, work, count).Err?
  {
    var p := Pruning(Identifiers(work, Unused(work, count)), work);
    var decls := program.globalDeclaration.declarations;
    if DeclarationsCut(p, [], decls, count).Err? then DeclarationsCrashScope(p, [], decls, count) else []
  }

  /** The scope a failing `_optimize` leaves: the one its failing round
      leaves. */
  ghost function PrunedCrashScope(program: Program, work: map<string, Symbol>, count: Counts): seq<string>
    requires WorkOK(work, count) && Pruned(program, work, count).Err?
    decreases |work|
  {
    var unused := Unused(work, count);
    var next := Round(program, work, count);
    if next.Err? then RoundCrashScope(program, work, count)
    else
      Shrinks(work, unused);
      PrunedCrashScope(next.value.0, work - unused, next.value.1)
  }

  /** `PrunedCrashScope` on a whole table. */
  ghost function PrunedTableCrashScope(program: Program, table: map<string, Symbol>, count: Counts): seq<string>
    requires TableOK(table) && count.Keys == table.Values && PrunedTable(program, table, count).Err?
  {
    WorkInTable(table, table, count);
    PrunedCrashScope(program, table, count)
  }

  /** One more entry lowers a symbol once more exactly when the symbol is on
      the entry's chain. */
  lemma ChainHitsAdd(work: map<string, Symbol>, keys: set<string>, k: string, s: Symbol)
    requires ChainsOK(work)
    requires k !in keys
    ensures ChainHits(work, keys + {k}, s) == ChainHits(work, keys, s) + (if k in work && s in AliasChain(work[k].ty) then 1 else 0)
  {
    var a := HitKeys(work, keys, s);
    var b := HitKeys(work, keys + {k}, s);
    if k in work && s in AliasChain(work[k].ty) {
      assert b == a + {k};
    } else {
      assert b == a;
    }
  }

  /** The counts with one use less of every alias on the chain. */
  function Lowered(count: Counts, chain: seq<Symbol>): (r: Counts)
    ensures r.Keys == count.Keys
  {
    map s | s in count :: count[s] - (if s in chain then 1 else 0)
  }

  lemma ChainDropNone(work: map<string, Symbol>, count: Counts)
    requires ChainsOK(work)
    ensures ChainDrop(work, count, {}) == count
  {
    forall s | s in count
      ensures ChainHits(work, {}, s) == 0
    {
      assert HitKeys(work, {}, s) == {};
    }
  }

  /** Dropping one more entry lowers its chain once more. */
  lemma ChainDropAdd(work: map<string, Symbol>, count: Counts, keys: set<string>, k: string)
    requires ChainsOK(work) && k in work && k !in keys
    ensures ChainDrop(work, count, keys + {k}) == Lowered(ChainDrop(work, count, keys), AliasChain(work[k].ty))
  {
    var after := ChainDrop(work, count, keys + {k});
    var before := ChainDrop(work, count, keys);
    var lowered := Lowered(before, AliasChain(work[k].ty));
    forall s | s in count
      ensures after[s] == lowered[s]
    {
      ChainHitsAdd(work, keys, k, s);
      assert after[s] == count[s] - ChainHits(work, keys + {k}, s);
      assert before[s] == count[s] - ChainHits(work, keys, s);
    }
    assert after.Keys == lowered.Keys;
  }

  lemma SubTableChains(work: map<string, Symbol>, table: map<string, Symbol>)
    requires TableOK(table) && SubTable(work, table)
    ensures ChainsOK(work)
  {
    forall k | k in work
      ensures TyOK(work[k].ty)
    {
      assert work[k] in table.Values;
    }
  }

  lemma SubTableMinus(work: map<string, Symbol>, table: map<string, Symbol>, keys: set<string>)
    requires SubTable(work, table)
    ensures SubTable(work - keys, table)
  {
  }

  // ---------------------------------------------------------------------
  // The chain of links

  /** What one link's `_optimize` gives for `program`: a crash without a
      semantic module, else the pruned program or a crash. */
  ghost function OptimizeResult(program: Program, sm: SemanticModule?): Result<Program>
    requires sm != null ==> sm.Valid()
    reads sm, if sm != null then sm.table.Values else {}
  {
    if sm == null then Err(RuntimeCrash)
    else
      var goal := PrunedTable(program, sm.table, CountsOf(sm.table.Values));
      if goal.Ok? then Ok(goal.value.0) else Err(RuntimeCrash)
  }

  /** The objects of a chain. */
  ghost function Links(chain: seq<NotUsedVariableOptimize>): set<NotUsedVariableOptimize> {
    set i | 0 <= i < |chain| :: chain[i]
  }

  /** The semantic modules the links of a chain hold. */
  ghost function Modules(chain: seq<NotUsedVariableOptimize>): set<SemanticModule>
    reads Links(chain)`semanticModule
  {
    set i | 0 <= i < |chain| && chain[i].semanticModule != null :: chain[i].semanticModule
  }

  /** The rest of a chain has no links and no modules the chain does not. */
  lemma ChainSplit(chain: seq<NotUsedVariableOptimize>)
    requires |chain| > 0
    ensures Links(chain[1..]) <= Links(chain) && Modules(chain[1..]) <= Modules(chain)
  {
    var rest := chain[1..];
    forall l | l in Links(rest)
      ensures l in Links(chain)
    {
      var i :| 0 <= i < |rest| && rest[i] == l;
      assert chain[i + 1] == l;
    }
    forall m | m in Modules(rest)
      ensures m in Modules(chain)
    {
      var i :| 0 <= i < |rest| && rest[i].semanticModule != null && rest[i].semanticModule == m;
      assert chain[i + 1] == rest[i];
    }
  }

  /** The table of each link's module, in chain order; none for a link
      without a module. */
  ghost function Tables(chain: seq<NotUsedVariableOptimize>): (r: seq<Option<map<string, Symbol>>>)
    reads (set i | 0 <= i < |chain| :: chain[i])`semanticModule
    reads (set i | 0 <= i < |chain| && chain[i].semanticModule != null :: chain[i].semanticModule)`table
    ensures |r| == |chain|
    decreases |chain|
  {
    if |chain| == 0 then []
    else
      assert forall i :: 0 <= i < |chain[1..]| ==> chain[1..][i] == chain[i + 1];
      var head := if chain[0].semanticModule == null then None else Some(chain[0].semanticModule.table);
      [head] + Tables(chain[1..])
  }

  /** Each table is the one of the link at the same place. */
  lemma {:induction false} TablesAt(chain: seq<NotUsedVariableOptimize>)
    ensures forall i :: 0 <= i < |chain| ==>
              Tables(chain)[i] == if chain[i].semanticModule == null then None else Some(chain[i].semanticModule.table)
    decreases |chain|
  {
    if |chain| > 0 {
      TablesAt(chain[1..]);
      assert forall i :: 0 < i < |chain| ==> Tables(chain)[i] == Tables(chain[1..])[i - 1];
    }
  }

  /** The symbols whose use counts the links of a chain may lower. */
  ghost function ChainSymbols(chain: seq<NotUsedVariableOptimize>): set<Symbol>
    reads Links(chain)`semanticModule, Modules(chain)`table
  {
    TableSymbols(Tables(chain))
  }

  /** A chain's symbols are its first link's and the rest's. */
  lemma ChainSymbolsSplit(chain: seq<NotUsedVariableOptimize>)
    requires |chain| > 0
    ensures Links(chain[1..]) <= Links(chain) && Modules(chain[1..]) <= Modules(chain)
    ensures Tables(chain)[1..] == Tables(chain[1..])
    ensures ChainSymbols(chain) == HeadSymbols(Tables(chain)) + ChainSymbols(chain[1..])
    ensures Tables(chain)[0] == if chain[0].semanticModule == null then None else Some(chain[0].semanticModule.table)
  {
    ChainSplit(chain);
    TablesSplit(Tables(chain));
  }

  /** The tables of joined chains are the tables of the parts, joined. */
  lemma {:induction false} TablesJoinChain(a: seq<NotUsedVariableOptimize>, b: seq<NotUsedVariableOptimize>)
    ensures Tables(a + b) == Tables(a) + Tables(b)
    decreases |a|
  {
    if |a| > 0 {
      TablesJoinChain(a[1..], b);
      assert (a + b)[0] == a[0];
      assert (a + b)[1..] == a[1..] + b;
    } else {
      assert a + b == b;
    }
  }

  /** The symbols of the tables. */
  ghost function TableSymbols(tables: seq<Option<map<string, Symbol>>>): set<Symbol> {
    set i, s | 0 <= i < |tables| && tables[i].Some? && s in tables[i].value.Values :: s
  }

  /** Every table is well formed. */
  ghost predicate TablesOK(tables: seq<Option<map<string, Symbol>>>) {
    forall i :: 0 <= i < |tables| && tables[i].Some? ==> TableOK(tables[i].value)
  }

  /** The symbols of the first table, if there is one. */
  function HeadSymbols(tables: seq<Option<map<string, Symbol>>>): set<Symbol>
    requires |tables| > 0
  {
    if tables[0].None? then {} else tables[0].value.Values
  }

  /** The symbols and the validity of the tables are the first table's and
      the rest's. */
  lemma TablesSplit(tables: seq<Option<map<string, Symbol>>>)
    requires |tables| > 0
    ensures TableSymbols(tables) == HeadSymbols(tables) + TableSymbols(tables[1..])
    ensures TablesOK(tables) <==> (tables[0].Some? ==> TableOK(tables[0].value)) && TablesOK(tables[1..])
  {
    var rest := tables[1..];
    assert forall i :: 0 <= i < |rest| ==> rest[i] == tables[i + 1];
    forall x | x in TableSymbols(tables)
      ensures x in HeadSymbols(tables) + TableSymbols(rest)
    {
      var i :| 0 <= i < |tables| && tables[i].Some? && x in tables[i].value.Values;
      if i > 0 {
        assert rest[i - 1] == tables[i];
      }
    }
  }

  /** The tables of idle links are well formed. */
  lemma IdleTables(chain: seq<NotUsedVariableOptimize>)
    requires AllIdle(chain)
    ensures TablesOK(Tables(chain))
  {
    var tables := Tables(chain);
    TablesAt(chain);
    forall i | 0 <= i < |tables| && tables[i].Some?
      ensures TableOK(tables[i].value)
    {
      assert chain[i].Idle();
    }
  }

  /** The counts of `count` for the symbols `syms`. */
  function Restrict(count: Counts, syms: set<Symbol>): (r: Counts)
    requires syms <= count.Keys
    ensures r.Keys == syms && forall s :: s in syms ==> r[s] == count[s]
  {
    map s | s in syms :: count[s]
  }

  /** The counts held for some of the symbols are the restriction of the
      counts held for more. */
  lemma HoldsPart(syms: set<Symbol>, count: Counts, part: set<Symbol>)
    requires Holds(syms, count) && part <= syms
    ensures CountsOf(part) == Restrict(count, part)
  {
  }

  /** A map that agrees with `over` on its keys and with `base` elsewhere is
      `base` overridden by `over`. */
  lemma MapOverride(m: Counts, base: Counts, over: Counts)
    requires m.Keys == base.Keys && over.Keys <= base.Keys
    requires forall x :: x in over ==> m[x] == over[x]
    requires forall x :: x in base && x !in over ==> m[x] == base[x]
    ensures m == base + over
  {
  }

  /** What the links whose module tables are `tables` give for `program`,
      in list order, when the use counts are `count`: each link's
      `_optimize` on the program the one before gave, with the counts the
      one before left; a link without a module or whose pruning crashes
      ends the run.  A success gives the last program and the counts left. */
  ghost function ChainRun(program: Program, tables: seq<Option<map<string, Symbol>>>, count: Counts): (r: Result<(Program, Counts)>)
    requires TablesOK(tables) && TableSymbols(tables) <= count.Keys
    ensures r.Err? ==> r == Err(RuntimeCrash)
    ensures r.Ok? ==> r.value.1.Keys == count.Keys
    decreases |tables|
  {
    if |tables| == 0 then Ok((program, count))
    else
      TablesSplit(tables);
      match tables[0]
      case None => Err(RuntimeCrash)
      case Some(table) =>
        var goal := PrunedTable(program, table, Restrict(count, table.Values));
        if goal.Err? then Err(RuntimeCrash)
        else ChainRun(goal.value.0, tables[1..], count + goal.value.2)
  }

  /** A run stops at a link without a table or whose pruning fails. */
  lemma ChainRunStops(program: Program, tables: seq<Option<map<string, Symbol>>>, count: Counts)
    requires |tables| > 0 && TablesOK(tables) && TableSymbols(tables) <= count.Keys
    requires tables[0].None? || PrunedTable(program, tables[0].value, Restrict(count, tables[0].value.Values)).Err?
    ensures ChainRun(program, tables, count) == Err(RuntimeCrash)
  {
  }

  /** A run leaves the counts of the symbols outside the tables alone. */
  lemma {:induction false} ChainRunFrame(program: Program, tables: seq<Option<map<string, Symbol>>>, count: Counts, s: Symbol)
    requires TablesOK(tables) && TableSymbols(tables) <= count.Keys
    requires s in count && s !in TableSymbols(tables)
    ensures ChainRun(program, tables, count).Ok? ==> ChainRun(program, tables, count).value.1[s] == count[s]
    decreases |tables|
  {
    if |tables| > 0 {
      TablesSplit(tables);
      if tables[0].Some? {
        var table := tables[0].value;
        var goal := PrunedTable(program, table, Restrict(count, table.Values));
        if goal.Ok? {
          ChainRunFrame(goal.value.0, tables[1..], count + goal.value.2, s);
        }
      }
    }
  }

  /** Counts that agree on the tables' symbols give the same run: the same
      outcome, the same program and counts that agree on those symbols. */
  lemma {:induction false} ChainRunAgree(program: Program, tables: seq<Option<map<string, Symbol>>>, c1: Counts, c2: Counts)
    requires TablesOK(tables) && TableSymbols(tables) <= c1.Keys && TableSymbols(tables) <= c2.Keys
    requires forall s :: s in TableSymbols(tables) ==> c1[s] == c2[s]
    ensures ChainRun(program, tables, c1).Ok? == ChainRun(program, tables, c2).Ok?
    ensures ChainRun(program, tables, c1).Ok? ==>
              ChainRun(program, tables, c1).value.0 == ChainRun(program, tables, c2).value.0 &&
              forall s :: s in TableSymbols(tables) ==> ChainRun(program, tables, c1).value.1[s] == ChainRun(program, tables, c2).value.1[s]
    decreases |tables|
  {
    if |tables| > 0 {
      TablesSplit(tables);
      var rest := tables[1..];
      if tables[0].Some? {
        var table := tables[0].value;
        assert Restrict(c1, table.Values) == Restrict(c2, table.Values);
        var goal := PrunedTable(program, table, Restrict(c1, table.Values));
        if goal.Ok? {
          var l1, l2 := c1 + goal.value.2, c2 + goal.value.2;
          ChainRunAgree(goal.value.0, rest, l1, l2);
          var r1, r2 := ChainRun(goal.value.0, rest, l1), ChainRun(goal.value.0, rest, l2);
          assert ChainRun(program, tables, c1) == r1 && ChainRun(program, tables, c2) == r2;
          if r1.Ok? {
            forall s | s in TableSymbols(tables)
              ensures r1.value.1[s] == r2.value.1[s]
            {
              if s !in TableSymbols(rest) {
                ChainRunFrame(goal.value.0, rest, l1, s);
                ChainRunFrame(goal.value.0, rest, l2, s);
              }
            }
          }
        }
      }
    }
  }

  /** A run whose first table prunes `program` to `goal` is the run of the
      rest on the pruned program, with the counts left for the rest's
      symbols, over the counts the first link leaves. */
  lemma ChainRunCons(program: Program, tables: seq<Option<map<string, Symbol>>>, count: Counts, goal: Result<(Program, map<string, Symbol>, Counts)>)
    requires |tables| > 0 && TablesOK(tables) && TableSymbols(tables) == count.Keys && tables[0].Some?
    requires goal == PrunedTable(program, tables[0].value, Restrict(count, tables[0].value.Values)) && goal.Ok?
    ensures TablesOK(tables[1..]) && TableSymbols(tables[1..]) <= count.Keys
    ensures var left := count + goal.value.2;
            var full := ChainRun(program, tables, count);
            var tail := ChainRun(goal.value.0, tables[1..], Restrict(left, TableSymbols(tables[1..])));
            full.Ok? == tail.Ok? && (full.Ok? ==> full.value.0 == tail.value.0 && full.value.1 == left + tail.value.1)
  {
    TablesSplit(tables);
    var rest := tables[1..];
    var restSyms := TableSymbols(rest);
    var left := count + goal.value.2;
    var cut := Restrict(left, restSyms);
    ChainRunAgree(goal.value.0, rest, left, cut);
    var full, tail := ChainRun(goal.value.0, rest, left), ChainRun(goal.value.0, rest, cut);
    assert ChainRun(program, tables, count) == full;
    if full.Ok? {
      forall x | x in left && x !in restSyms
        ensures full.value.1[x] == left[x]
      {
        ChainRunFrame(goal.value.0, rest, left, x);
      }
      MapOverride(full.value.1, left, tail.value.1);
    }
  }

  /** The symbols and the validity of joined tables are those of the parts. */
  lemma TablesJoin(a: seq<Option<map<string, Symbol>>>, b: seq<Option<map<string, Symbol>>>)
    ensures TableSymbols(a + b) == TableSymbols(a) + TableSymbols(b)
    ensures TablesOK(a + b) <==> TablesOK(a) && TablesOK(b)
  {
    var ab := a + b;
    assert forall i :: 0 <= i < |a| ==> ab[i] == a[i];
    assert forall i :: 0 <= i < |b| ==> ab[|a| + i] == b[i];
    forall x | x in TableSymbols(ab)
      ensures x in TableSymbols(a) + TableSymbols(b)
    {
      var i :| 0 <= i < |ab| && ab[i].Some? && x in ab[i].value.Values;
      if i >= |a| {
        assert b[i - |a|] == ab[i];
      }
    }
  }

  /** The links run in list order: the run of joined tables is the run of
      the first part followed, on the program and the counts that part
      leaves, by the run of the second. */
  lemma {:induction false} ChainRunAppend(program: Program, a: seq<Option<map<string, Symbol>>>, b: seq<Option<map<string, Symbol>>>, count: Counts)
    requires TablesOK(a + b) && TableSymbols(a + b) <= count.Keys
    ensures TablesOK(a) && TablesOK(b) && TableSymbols(a) <= count.Keys && TableSymbols(b) <= count.Keys
    ensures ChainRun(program, a + b, count) ==
              match ChainRun(program, a, count)
              case Err(e) => Err(e)
              case Ok((mid, left)) => ChainRun(mid, b, left)
    decreases |a|
  {
    TablesJoin(a, b);
    if |a| == 0 {
      assert a + b == b;
    } else {
      TablesSplit(a);
      TablesSplit(a + b);
      var rest := a[1..];
      assert (a + b)[0] == a[0];
      assert (a + b)[1..] == rest + b;
      if a[0].Some? {
        var table := a[0].value;
        var goal := PrunedTable(program, table, Restrict(count, table.Values));
        if goal.Ok? {
          ChainRunAppend(goal.value.0, rest, b, count + goal.value.2);
        }
      }
    }
  }

  /** `chain` lists distinct links, each the `next` of the one before, the
      last without a successor. */
  ghost predicate Linked(chain: seq<NotUsedVariableOptimize>)
    reads Links(chain)
  {
    |chain| > 0 &&
    (forall i, j :: 0 <= i < j < |chain| ==> chain[i] != chain[j]) &&
    (forall i :: 0 <= i < |chain| - 1 ==> chain[i].next == chain[i + 1]) &&
    chain[|chain| - 1].next == null
  }

  /** Every link of the chain is between calls. */
  ghost predicate AllIdle(chain: seq<NotUsedVariableOptimize>)
    reads Links(chain), Modules(chain)
  {
    forall i :: 0 <= i < |chain| ==> chain[i].Idle()
  }

  /** What a linked, idle chain says about its first link and the rest. */
  lemma LinkedRest(chain: seq<NotUsedVariableOptimize>)
    requires Linked(chain) && AllIdle(chain)
    ensures chain[0].Idle() && AllIdle(chain[1..]) && chain[0] !in Links(chain[1..])
    ensures chain[0].next == null <==> |chain| == 1
    ensures |chain| > 1 ==> chain[1] == chain[0].next && Linked(chain[1..])
  {
    var rest := chain[1..];
    assert forall i :: 0 <= i < |rest| ==> rest[i] == chain[i + 1];
    assert chain[0].Idle();
    if |chain| > 1 {
      assert chain[0].next == chain[1];
    }
  }

  /** A chain is idle when its first link and the rest are. */
  lemma IdleCons(chain: seq<NotUsedVariableOptimize>)
    requires |chain| > 0 && chain[0].Idle() && AllIdle(chain[1..])
    ensures AllIdle(chain)
  {
    assert forall i :: 0 < i < |chain| ==> chain[i] == chain[1..][i - 1];
  }

  /** The one kind of link in the optimization chain. */
  class NotUsedVariableOptimize {
    var next: NotUsedVariableOptimize?
    var semanticModule: SemanticModule?
    var currentScope: seq<string>
    var scopeTable: map<string, Symbol>

    /** Between calls the scope is empty and the module, if any, is valid. */
    ghost predicate Idle()
      reads this, semanticModule
    {
      currentScope == [] && (semanticModule != null ==> semanticModule.Valid())
    }

    /** During `_optimize`: the working table is a part of the module's. */
    ghost predicate Ready()
      reads this`semanticModule, this`scopeTable, semanticModule
    {
      semanticModule != null && semanticModule.Valid() && SubTable(scopeTable, semanticModule.table)
    }

    /** `OptimizeChain.__init__` ignores its `next` argument. */
    constructor (next: NotUsedVariableOptimize?, semanticModule: SemanticModule?)
      requires semanticModule != null ==> semanticModule.Valid()
      ensures this.next == null && this.semanticModule == semanticModule
      ensures currentScope == [] && scopeTable == map[] && Idle()
    {
      this.next := null;
      this.semanticModule := semanticModule;
      currentScope := [];
      scopeTable := map[];
    }

    method SetNext(next: NotUsedVariableOptimize?)
      modifies this`next
      ensures this.next == next
    {
      this.next := next;
    }

    method GetNext() returns (r: NotUsedVariableOptimize?)
      ensures r == next
    {
      r := next;
    }

    method SetSemanticModule(sm: SemanticModule?)
      modifies this`semanticModule
      ensures semanticModule == sm
    {
      semanticModule := sm;
    }

    /** `process_optimization`: this link's `_optimize`, whose outcome is
        `mid`; a failure stops the chain, a success goes on to the
        successor, if any. */
    method ProcessOptimization(program: Program, ghost chain: seq<NotUsedVariableOptimize>) returns (r: Result<Program>, ghost mid: Result<Program>)
      requires Linked(chain) && chain[0] == this && AllIdle(chain)
      modifies Links(chain), ChainSymbols(chain)
      ensures Linked(chain)
      ensures r.Ok? ==> AllIdle(chain)
      ensures mid == old(OptimizeResult(program, semanticModule))
      ensures mid.Err? ==> r == mid
      ensures next == null ==> r == mid
      ensures next != null && r.Ok? ==> mid.Ok?
      ensures var run := old(IdleTables(chain); ChainRun(program, Tables(chain), CountsOf(ChainSymbols(chain))));
              (run.Err? ==> r == Err(RuntimeCrash)) &&
              (run.Ok? ==> r == Ok(run.value.0) && Holds(old(ChainSymbols(chain)), run.value.1))
      decreases |chain|, 1
    {
      assert this in Links(chain);
      ghost var rest := chain[1..];
      LinkedRest(chain);
      ChainSymbolsSplit(chain);
      IdleTables(chain);
      ghost var tables := Tables(chain);
      ghost var syms := ChainSymbols(chain);
      ghost var count := CountsOf(syms);
      ghost var run := ChainRun(program, tables, count);
      ghost var goal;
      r, goal := FirstLink(program, chain, tables[0], syms, count);
      mid := r;
      if r.Err? {
        ChainRunStops(program, tables, count);
        return;
      }
      ChainRunCons(program, tables, count, goal);
      ghost var left := count + goal.value.2;
      ghost var tail := ChainRun(goal.value.0, tables[1..], Restrict(left, TableSymbols(tables[1..])));
      if next == null {
        assert run == Ok((goal.value.0, left));
        return;
      }
      assert Tables(rest) == tables[1..];
      r := PassOn(r.value, chain, syms, left);
    }

    /** The hand-over to the successor: its `process_optimization` on the
        program this link gave, with the counts this link left for the
        symbols `syms`, which include the rest of the chain's. */
    method PassOn(program: Program, ghost chain: seq<NotUsedVariableOptimize>, ghost syms: set<Symbol>, ghost left: Counts)
      returns (r: Result<Program>)
      requires Linked(chain) && |chain| > 1 && chain[0] == this && Idle() && AllIdle(chain[1..])
      requires Holds(syms, left) && ChainSymbols(chain[1..]) <= syms
      modifies Links(chain[1..]), ChainSymbols(chain[1..])
      ensures Linked(chain) && Idle()
      ensures r.Ok? ==> AllIdle(chain)
      ensures var tail := old(IdleTables(chain[1..]); ChainRun(program, Tables(chain[1..]), Restrict(left, ChainSymbols(chain[1..]))));
              (tail.Err? ==> r == Err(RuntimeCrash)) &&
              (tail.Ok? ==> r == Ok(tail.value.0) && Holds(syms, left + tail.value.1))
      decreases |chain|, 0
    {
      ghost var rest := chain[1..];
      assert chain[1] == next;
      assert this !in Links(rest);
      ghost var restSyms := ChainSymbols(rest);
      HoldsPart(syms, left, restSyms);
      ghost var others := syms - restSyms;
      HoldsPart(syms, left, others);
      assert Holds(others, Restrict(left, others));
      ghost var after;
      r, after := next.ProcessOptimization(program, rest);
      assert Holds(others, Restrict(left, others));
      if r.Ok? {
        IdleCons(chain);
      }
    }

    /** `OptimizeLink` as the first link of `chain`: the chain stays linked,
        the other links stay idle, and so does this one unless it crashes. */
    method FirstLink(program: Program, ghost chain: seq<NotUsedVariableOptimize>, ghost table: Option<map<string, Symbol>>,
                     ghost syms: set<Symbol>, ghost count: Counts)
      returns (r: Result<Program>, ghost goal: Result<(Program, map<string, Symbol>, Counts)>)
      requires Linked(chain) && chain[0] == this && AllIdle(chain)
      requires table == if semanticModule == null then None else Some(semanticModule.table)
      requires Holds(syms, count)
      requires semanticModule != null ==> semanticModule.table.Values <= syms
      modifies this`scopeTable, this`currentScope, if semanticModule != null then semanticModule.table.Values else {}
      ensures Linked(chain) && AllIdle(chain[1..])
      ensures r.Ok? ==> AllIdle(chain)
      ensures r == old(OptimizeResult(program, semanticModule))
      ensures table.None? ==> r == Err(RuntimeCrash)
      ensures table.Some? ==>
                goal == PrunedTable(program, table.value, Restrict(count, table.value.Values)) &&
                (r.Ok? <==> goal.Ok?)
      ensures r.Ok? ==> r == Ok(goal.value.0) && Holds(syms, count + goal.value.2)
      ensures Tables(chain[1..]) == old(Tables(chain[1..]))
    {
      LinkedRest(chain);
      r, goal := OptimizeLink(program, table, syms, count, chain[1..]);
      if r.Ok? {
        IdleCons(chain);
      }
    }

    /** `Optimize` as a link of a chain sees it: the counts held for the
        symbols `syms`, which include the module's, become `count` with the
        counts the pruning leaves for the module's symbols; the tables of the
        other links `others` stay as they are, and so does their being idle. */
    method OptimizeLink(program: Program, ghost table: Option<map<string, Symbol>>, ghost syms: set<Symbol>, ghost count: Counts,
                        ghost others: seq<NotUsedVariableOptimize>)
      returns (r: Result<Program>, ghost goal: Result<(Program, map<string, Symbol>, Counts)>)
      requires table == if semanticModule == null then None else Some(semanticModule.table)
      requires Idle() && Holds(syms, count)
      requires semanticModule != null ==> semanticModule.table.Values <= syms
      requires this !in Links(others) && AllIdle(others)
      modifies this`scopeTable, this`currentScope, if semanticModule != null then semanticModule.table.Values else {}
      ensures r.Ok? ==> Idle()
      ensures r == old(OptimizeResult(program, semanticModule))
      ensures table.None? ==> r == Err(RuntimeCrash)
      ensures table.Some? ==>
                goal == PrunedTable(program, table.value, Restrict(count, table.value.Values)) &&
                (r.Ok? <==> goal.Ok?)
      ensures r.Ok? ==> r == Ok(goal.value.0) && Holds(syms, count + goal.value.2)
      ensures Tables(others) == old(Tables(others)) && AllIdle(others)
    {
      goal := Err(RuntimeCrash);
      if semanticModule != null {
        HoldsPart(syms, count, semanticModule.table.Values);
        goal := PrunedTable(program, semanticModule.table, Restrict(count, semanticModule.table.Values));
      }
      r := Optimize(program);
      if r.Ok? {
        assert forall s :: s in syms && s !in old(semanticModule.table.Values) ==> s.useCount == old(s.useCount);
      }
    }

    /** The `var_iter.left` walk to an assignment's target variable. */
    method FindTarget(e: Expr) returns (r: Result<string>)
      ensures r == AssignTarget(e)
    {
      var varIter := e;
      while !varIter.Variable?
        invariant AssignTarget(varIter) == AssignTarget(e)
        decreases varIter
      {
        if !(varIter.Unary? || varIter.Binary?) {
          return Err(RuntimeCrash);
        }
        varIter := varIter.left;
      }
      r := Ok(varIter.identifier);
    }

    /** The walk of `__make_post_order_traversal`: the qualified names of
        the variables in post-order, and the qualified name of the last
        assignment target; it fails exactly when the walk crashes. */
    method Traverse(top: Expr) returns (r: Result<(seq<string>, string)>)
      ensures r.Ok? <==> StoreTarget(top).Ok?
      ensures r.Ok? ==> r.value.0 == Occurrences(currentScope, top)
      ensures r.Ok? ==> r.value.1 == TargetName(currentScope, StoreTarget(top).value)
    {
      var allVariables: seq<string> := [];
      var stack := [Visit(top)];
      var assignName := "";
      ghost var cur: Option<string> := None;
      ghost var whole := Occurrences(currentScope, top);
      ghost var target := StoreTarget(top);
      Push([], Visit(top));
      PushOcc(currentScope, [], Visit(top));
      PushRun([], Visit(top), Ok(None));
      while |stack| > 0
        invariant allVariables + PendingOcc(currentScope, stack) == whole
        invariant RunFrom(stack, Ok(cur)) == target
        invariant assignName == TargetName(currentScope, cur)
        decreases StackWeight(stack)
      {
        var frame := stack[|stack| - 1];
        var rest := stack[..|stack| - 1];
        assert stack == rest + [frame];
        Push(rest, frame);
        var e := frame.e;
        if e.Binary? {
          ghost var old_cur := cur;
          if e.operationType == Assign {
            var t := FindTarget(e.left);
            if t.Err? {
              StepAssignCrash(rest, frame, cur, target);
              return Err(RuntimeCrash);
            }
            cur := Some(t.value);
            assignName := ConvertToName(currentScope, t.value);
          }
          if frame.Visit? {
            StepBinaryVisit(currentScope, allVariables, rest, e, old_cur, whole, target);
            ExpandBinaryWeight(rest, e);
            stack := rest + [Done(e), Visit(e.right), Visit(e.left)];
          } else {
            StepBinaryDone(currentScope, allVariables, rest, e, old_cur, whole, target);
            stack := rest;
          }
        } else if e.Unary? {
          if frame.Visit? {
            StepUnaryVisit(currentScope, allVariables, rest, e, cur, whole, target);
            ExpandUnary(rest, e);
            stack := rest + [Done(e), Visit(e.left)];
          } else {
            StepUnaryDone(rest, e, cur, target);
            return Err(RuntimeCrash);
          }
        } else {
          LeafSlots(frame);
          StepLeaf(currentScope, allVariables, rest, frame, cur, whole, target);
          if frame.Visit? && e.Variable? {
            allVariables := allVariables + [ConvertToName(currentScope, e.identifier)];
          }
          stack := rest;
        }
      }
      r := Ok((allVariables, assignName));
    }

    /** `use_count -= 1` for the entry under each key, in order. */
    method DecreaseUses(keys: seq<string>, ghost count: Counts) returns (ok: bool)
      requires Ready() && Holds(semanticModule.table.Values, count)
      modifies semanticModule.table.Values
      ensures var d := Decrease(scopeTable, count, keys);
              ok == d.Ok? && (d.Ok? ==> Holds(semanticModule.table.Values, d.value))
    {
      ghost var syms := semanticModule.table.Values;
      ghost var now := count;
      for i := 0 to |keys|
        invariant Decrease(scopeTable, count, keys[..i]) == Ok(now) && Holds(syms, now)
      {
        assert keys[..i + 1][..i] == keys[..i];
        if keys[i] !in scopeTable {
          DecreaseCounts(scopeTable, count, keys);
          return false;
        }
        var s := scopeTable[keys[i]];
        s.useCount := s.useCount - 1;
        now := now[s := now[s] - 1];
      }
      assert keys[..|keys|] == keys;
      ok := true;
    }

    /** `__make_post_order_traversal`: walk the statement, and when the
        last assignment target is unused, lower the count of every variable
        met and drop the statement. */
    method MakePostOrderTraversal(top: Expr, names: set<string>, ghost count: Counts) returns (r: Result<bool>)
      requires Ready() && Holds(semanticModule.table.Values, count)
      modifies semanticModule.table.Values
      ensures var d := DeadStore(Pruning(names, scopeTable), currentScope, top, count);
              (r.Ok? <==> d.Ok?) && (d.Ok? ==> r.value == d.value.0 && Holds(semanticModule.table.Values, d.value.1))
    {
      var walk := Traverse(top);
      if walk.Err? {
        return Err(RuntimeCrash);
      }
      var allVariables := walk.value.0;
      var assignName := walk.value.1;
      if assignName in names {
        var ok := DecreaseUses(allVariables, count);
        if !ok {
          return Err(RuntimeCrash);
        }
        return Ok(false);
      }
      return Ok(true);
    }

    /** `__cut_statement_part`. */
    method CutStatementPart(part: StatementPart, names: set<string>, ghost count: Counts) returns (r: Result<StatementPart>)
      requires Ready() && Holds(semanticModule.table.Values, count)
      modifies semanticModule.table.Values
      ensures var c := StatementsCut(Pruning(names, scopeTable), currentScope, part.statements, count);
              (r.Ok? <==> c.Ok?) && (c.Ok? ==> r.value == StatementPart(c.value.0) && Holds(semanticModule.table.Values, c.value.1))
      decreases part, 1
    {
      ghost var syms := semanticModule.table.Values;
      ghost var p := Pruning(names, scopeTable);
      ghost var now := count;
      var statements := part.statements;
      var filtered: seq<Stmt> := [];
      for i := 0 to |statements|
        invariant StatementsCut(p, currentScope, statements[..i], count) == Ok((filtered, now)) && Holds(syms, now)
      {
        StatementsCutStep(p, currentScope, statements, i, count, filtered, now);
        var kept := CutStatement(statements[i], names, now);
        if kept.Err? {
          StatementsCutPrefixErr(p, currentScope, statements, i + 1, count);
          return Err(RuntimeCrash);
        }
        now := StatementCut(p, currentScope, statements[i], now).value.1;
        filtered := filtered + kept.value;
      }
      assert statements[..|statements|] == statements;
      r := Ok(StatementPart(filtered));
    }

    /** One statement of `__cut_statement_part`. */
    method CutStatement(s: Stmt, names: set<string>, ghost count: Counts) returns (r: Result<seq<Stmt>>)
      requires Ready() && Holds(semanticModule.table.Values, count)
      modifies semanticModule.table.Values
      ensures var c := StatementCut(Pruning(names, scopeTable), currentScope, s, count);
              (r.Ok? <==> c.Ok?) && (c.Ok? ==> r.value == c.value.0 && Holds(semanticModule.table.Values, c.value.1))
      decreases s, 0
    {
      ghost var p := Pruning(names, scopeTable);
      match s
      case If(c, th, el) =>
        var t := CutStatementPart(th, names, count);
        if t.Err? {
          return Err(RuntimeCrash);
        }
        ghost var mid := StatementsCut(p, currentScope, th.statements, count).value.1;
        var e := CutStatementPart(el, names, mid);
        if e.Err? {
          return Err(RuntimeCrash);
        }
        r := Ok([If(c, t.value, e.value)]);
      case While(c, b) =>
        var t := CutStatementPart(b, names, count);
        if t.Err? {
          return Err(RuntimeCrash);
        }
        r := Ok([While(c, t.value)]);
      case RepeatUntil(c, b) =>
        var t := CutStatementPart(b, names, count);
        if t.Err? {
          return Err(RuntimeCrash);
        }
        r := Ok([RepeatUntil(c, t.value)]);
      case For(v, init, end, b, up) =>
        var t := CutStatementPart(b, names, count);
        if t.Err? {
          return Err(RuntimeCrash);
        }
        r := Ok([For(v, init, end, t.value, up)]);
      case Simple(e) =>
        if e.Binary? || e.Unary? {
          var keep := MakePostOrderTraversal(e, names, count);
          if keep.Err? {
            return Err(RuntimeCrash);
          }
          r := Ok(if keep.value then [s] else []);
        } else {
          r := Ok([]);
        }
      case Switch(_, _, _) =>
        r := Ok([]);
    }

    /** `__cut_declarations`: on success the scope is as it was; a crash
        leaves the names pushed on the way to it, as
        `DeclarationsCrashScope` says. */
    method CutDeclarationPart(part: DeclarationPart, names: set<string>, ghost count: Counts) returns (r: Result<DeclarationPart>)
      requires Ready() && Holds(semanticModule.table.Values, count)
      modifies this`currentScope, semanticModule.table.Values
      ensures var c := DeclarationsCut(Pruning(names, scopeTable), old(currentScope), part.declarations, count);
              (r.Ok? <==> c.Ok?) && (c.Ok? ==> r.value == DeclarationPart(c.value.0) && Holds(semanticModule.table.Values, c.value.1))
      ensures r.Ok? ==> currentScope == old(currentScope)
      ensures r.Err? ==> currentScope == DeclarationsCrashScope(Pruning(names, scopeTable), old(currentScope), part.declarations, count)
      decreases part, 1
    {
      ghost var syms := semanticModule.table.Values;
      ghost var p := Pruning(names, scopeTable);
      ghost var scope := currentScope;
      ghost var now := count;
      var declarations := part.declarations;
      var filtered: seq<Decl> := [];
      for i := 0 to |declarations|
        invariant currentScope == scope
        invariant DeclarationsCut(p, scope, declarations[..i], count) == Ok((filtered, now)) && Holds(syms, now)
      {
        var declaration := declarations[i];
        DeclarationsCutStep(p, scope, declarations, i, count, filtered, now);
        if declaration.SubroutineDecl? {
          currentScope := currentScope + [declaration.identifier];
          var subroutine := CutSubroutine(declaration, names, now);
          if subroutine.Err? {
            DeclarationsCrashStep(p, scope, declarations, i, count, filtered, now);
            return Err(RuntimeCrash);
          }
          now := SubroutineCut(p, scope + [declaration.identifier], declaration, now).value.1;
          currentScope := currentScope[..|currentScope| - 1];
          filtered := filtered + [subroutine.value];
        } else {
          var fullName := ConvertToName(currentScope, declaration.identifier);
          if fullName !in names {
            filtered := filtered + [declaration];
          }
        }
      }
      assert declarations[..|declarations|] == declarations;
      r := Ok(DeclarationPart(filtered));
    }

    /** `__cut_subroutine`, inside the subroutine's scope level: on success
        the scope is as it was; a crash leaves it as
        `SubroutineCrashScope` says. */
    method CutSubroutine(subroutine: Decl, names: set<string>, ghost count: Counts) returns (r: Result<Decl>)
      requires Ready() && Holds(semanticModule.table.Values, count) && subroutine.SubroutineDecl?
      modifies this`currentScope, semanticModule.table.Values
      ensures var c := SubroutineCut(Pruning(names, scopeTable), old(currentScope), subroutine, count);
              (r.Ok? <==> c.Ok?) && (c.Ok? ==> r.value == c.value.0 && Holds(semanticModule.table.Values, c.value.1))
      ensures r.Ok? ==> currentScope == old(currentScope)
      ensures r.Err? ==> currentScope == SubroutineCrashScope(Pruning(names, scopeTable), old(currentScope), subroutine, count)
      decreases subroutine, 0
    {
      ghost var p := Pruning(names, scopeTable);
      ghost var scope := currentScope;
      var declaration := CutDeclarationPart(subroutine.declarationPart, names, count);
      if declaration.Err? {
        return Err(RuntimeCrash);
      }
      ghost var mid := DeclarationsCut(p, scope, subroutine.declarationPart.declarations, count).value.1;
      var statements := CutStatementPart(subroutine.statementPart, names, mid);
      if statements.Err? {
        return Err(RuntimeCrash);
      }
      r := Ok(subroutine.(declarationPart := declaration.value, statementPart := statements.value));
    }

    /** The `while isinstance(type_iter, TypeVariable)` loop: one use less
        of every alias on the chain. */
    method DropChain(t0: Ty, ghost count: Counts)
      requires Ready() && Holds(semanticModule.table.Values, count)
      requires TyOK(t0) && (t0.Alias? ==> t0.sym in semanticModule.table.Values)
      modifies semanticModule.table.Values
      ensures Holds(semanticModule.table.Values, Lowered(count, AliasChain(t0)))
    {
      var typeIter := t0;
      ChainInTable(semanticModule.table, t0);
      while typeIter.Alias?
        invariant TyOK(typeIter) && (typeIter.Alias? ==> typeIter.sym in semanticModule.table.Values)
        invariant forall s :: s in semanticModule.table.Values ==>
                    s.useCount == count[s] - (if s in AliasChain(t0) && s !in AliasChain(typeIter) then 1 else 0)
        invariant forall s :: s in AliasChain(typeIter) ==> s in AliasChain(t0)
        decreases TySize(typeIter)
      {
        ChainStep(typeIter);
        ChainInTable(semanticModule.table, typeIter);
        typeIter.sym.useCount := typeIter.sym.useCount - 1;
        typeIter := typeIter.sym.ty;
      }
    }

    /** The end of a round of `_optimize`: every unused entry lowers its
        chain and leaves the working table. */
    method DeleteUnused(unused: set<string>, ghost count: Counts)
      requires Ready() && ChainsOK(scopeTable) && Holds(semanticModule.table.Values, count) && unused <= scopeTable.Keys
      modifies this`scopeTable, semanticModule.table.Values
      ensures Ready() && scopeTable == old(scopeTable) - unused
      ensures Holds(semanticModule.table.Values, ChainDrop(old(scopeTable), count, unused))
    {
      DropChains(unused, count);
      SubTableMinus(scopeTable, semanticModule.table, unused);
      scopeTable := scopeTable - unused;
    }

    method DropChains(unused: set<string>, ghost count: Counts)
      requires Ready() && ChainsOK(scopeTable) && Holds(semanticModule.table.Values, count) && unused <= scopeTable.Keys
      modifies semanticModule.table.Values
      ensures Holds(semanticModule.table.Values, ChainDrop(scopeTable, count, unused))
    {
      ghost var syms := semanticModule.table.Values;
      var removed: set<string> := {};
      ChainDropNone(scopeTable, count);
      while removed != unused
        invariant removed <= unused
        invariant Holds(syms, ChainDrop(scopeTable, count, removed))
        decreases |unused - removed|
      {
        var fullName :| fullName in unused - removed;
        ChainDropAdd(scopeTable, count, removed, fullName);
        assert scopeTable[fullName] in syms;
        DropChain(scopeTable[fullName].ty, ChainDrop(scopeTable, count, removed));
        assert unused - (removed + {fullName}) < unused - removed;
        removed := removed + {fullName};
      }
    }

    /** The keys of the working table whose symbol's use count is zero. */
    method UnusedEntries(ghost count: Counts) returns (u: set<string>)
      requires Ready() && Holds(semanticModule.table.Values, count) && Covers(scopeTable, count)
      ensures u == Unused(scopeTable, count)
    {
      u := set k | k in scopeTable && scopeTable[k].useCount == 0;
    }

    /** The body of one round of `_optimize`: the declarations and then the
        statements are cut, the chains of the unused entries lowered and
        the entries dropped, as `Round` says; a crash leaves the scope as
        `RoundCrashScope` says. */
    method RunRound(program: Program, unused: set<string>, ghost count: Counts) returns (r: Result<Program>)
      requires Ready() && currentScope == [] && Holds(semanticModule.table.Values, count) && WorkOK(scopeTable, count)
      requires unused == Unused(scopeTable, count)
      modifies this`scopeTable, this`currentScope, semanticModule.table.Values
      ensures Ready()
      ensures r.Ok? ==> currentScope == []
      ensures r.Err? ==> Round(program, old(scopeTable), count).Err? &&
                         currentScope == RoundCrashScope(program, old(scopeTable), count)
      ensures var step := Round(program, old(scopeTable), count);
              (r.Ok? <==> step.Ok?) &&
              (r.Ok? ==> r.value == step.value.0 && scopeTable == old(scopeTable) - unused &&
                         Holds(semanticModule.table.Values, step.value.1))
    {
      var unusedNames := set k | k in unused :: scopeTable[k].identifier;
      ghost var p := Pruning(unusedNames, scopeTable);
      var declaration := CutDeclarationPart(program.globalDeclaration, unusedNames, count);
      if declaration.Err? {
        return Err(RuntimeCrash);
      }
      ghost var afterDecls := DeclarationsCut(p, [], program.globalDeclaration.declarations, count).value.1;
      var statements := CutStatementPart(program.statementPart, unusedNames, afterDecls);
      if statements.Err? {
        return Err(RuntimeCrash);
      }
      ghost var afterStmts := StatementsCut(p, [], program.statementPart.statements, afterDecls).value.1;
      DeleteUnused(unused, afterStmts);
      r := Ok(program.(globalDeclaration := declaration.value, statementPart := statements.value));
    }

    /** `_optimize`: without a semantic module it crashes; otherwise it
        prunes the program against a copy of the module's table, as
        `PrunedTable` says.  A crash leaves the scope as
        `PrunedTableCrashScope` says. */
    method Optimize(program: Program) returns (r: Result<Program>)
      requires Idle()
      modifies this`scopeTable, this`currentScope, if semanticModule != null then semanticModule.table.Values else {}
      ensures semanticModule != null ==> semanticModule.Valid()
      ensures r.Ok? ==> Idle()
      ensures r == old(OptimizeResult(program, semanticModule))
      ensures semanticModule == null ==> currentScope == []
      ensures semanticModule != null && r.Err? ==>
                PrunedTable(program, semanticModule.table, old(CountsOf(semanticModule.table.Values))).Err? &&
                currentScope == PrunedTableCrashScope(program, semanticModule.table, old(CountsOf(semanticModule.table.Values)))
      ensures r.Ok? ==>
                var goal := PrunedTable(program, semanticModule.table, old(CountsOf(semanticModule.table.Values)));
                goal.Ok? && scopeTable == goal.value.1 && Holds(semanticModule.table.Values, goal.value.2)
    {
      if semanticModule == null {
        return Err(RuntimeCrash);
      }
      ghost var count := CountsOf(semanticModule.table.Values);
      ghost var want := OptimizeResult(program, semanticModule);
      scopeTable := semanticModule.table;
      WorkInTable(scopeTable, semanticModule.table, count);
      r := Fixpoint(program, count);
      assert r == want;
    }

    /** The rounds of `_optimize` from the current working table, as
        `Pruned` says. */
    method Fixpoint(program: Program, ghost count: Counts) returns (r: Result<Program>)
      requires Ready() && currentScope == [] && Holds(semanticModule.table.Values, count) && WorkOK(scopeTable, count)
      modifies this`scopeTable, this`currentScope, semanticModule.table.Values
      ensures Ready()
      ensures r.Ok? ==> currentScope == []
      ensures r.Err? ==> r == Err(RuntimeCrash) && Pruned(program, old(scopeTable), count).Err? &&
                         currentScope == PrunedCrashScope(program, old(scopeTable), count)
      ensures var goal := Pruned(program, old(scopeTable), count);
              (r.Ok? <==> goal.Ok?) &&
              (goal.Ok? ==> r.value == goal.value.0 && scopeTable == goal.value.1 &&
                            Holds(semanticModule.table.Values, goal.value.2))
    {
      ghost var syms := semanticModule.table.Values;
      ghost var now := count;
      var tree := program;
      ghost var goal := Pruned(program, scopeTable, count);
      while true
        invariant Ready() && currentScope == [] && Holds(syms, now)
        invariant WorkOK(scopeTable, now)
        invariant Pruned(tree, scopeTable, now) == goal
        invariant goal.Err? ==> PrunedCrashScope(tree, scopeTable, now) == PrunedCrashScope(program, old(scopeTable), count)
        decreases |scopeTable|
      {
        var unusedVariables := UnusedEntries(now);
        if unusedVariables == {} {
          break;
        }
        ghost var next := Round(tree, scopeTable, now);
        ghost var before := scopeTable;
        var step := RunRound(tree, unusedVariables, now);
        if step.Err? {
          PrunedStep(tree, before, now);
          return Err(RuntimeCrash);
        }
        PrunedStep(tree, before, now);
        tree := step.value;
        now := next.value.1;
      }
      r := Ok(tree);
    }
  }
}
