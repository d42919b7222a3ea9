/** The semantic module: the scope table of qualified names, lookups with use
    counting, and the compatibility checks the parser calls. */
module Semantic {
  import opened Wrappers
  import opened SupportClasses
  import opened SemanticTools
  import opened Nodes

  // ---------------------------------------------------------------------
  // Qualified names

  /** `".".join(parts)`. */
  function JoinDots(parts: seq<string>): string
    decreases |parts|
  {
    if |parts| == 0 then ""
    else if |parts| == 1 then parts[0]
    else parts[0] + "." + JoinDots(parts[1..])
  }

  /** `convert_to_name`: the scope levels and the identifier joined by dots;
      the bare identifier in the empty scope. */
  function ConvertToName(scope: seq<string>, identifier: string): (r: string)
    ensures r == JoinDots(scope + [identifier])
  {
    JoinLast(scope, identifier);
    if |scope| != 0 then JoinDots(scope) + "." + identifier else identifier
  }

  lemma {:induction false} JoinLast(scope: seq<string>, identifier: string)
    ensures JoinDots(scope + [identifier]) ==
            (if |scope| != 0 then JoinDots(scope) + "." + identifier else identifier)
    decreases |scope|
  {
    if |scope| > 1 {
      JoinLast(scope[1..], identifier);
      assert (scope + [identifier])[1..] == scope[1..] + [identifier];
    } else if |scope| == 1 {
      assert (scope + [identifier])[1..] == [identifier];
    }
  }

  /** One more scope level puts one more dot-separated part in front of the
      identifier. */
  lemma NestedName(scope: seq<string>, level: string, identifier: string)
    ensures ConvertToName(scope + [level], identifier) == ConvertToName(scope, level) + "." + identifier
  {
    JoinLast(scope + [level], identifier);
    JoinLast(scope, level);
  }

  lemma NameExamples()
    ensures ConvertToName(["a", "b"], "id") == "a.b.id"
    ensures ConvertToName([], "id") == "id"
    ensures ConvertToName([""], "x") == ".x"
  {
  }

  predicate DotFree(s: string) { forall i :: 0 <= i < |s| ==> s[i] != '.' }

  /** Position of the first dot, or the length when there is none. */
  function FirstDot(s: string): (i: nat)
    ensures i <= |s| && DotFree(s[..i]) && (i < |s| ==> s[i] == '.')
  {
    if |s| == 0 || s[0] == '.' then 0
    else
      var k := FirstDot(s[1..]);
      assert s[..k + 1] == [s[0]] + s[1..][..k];
      k + 1
  }

  /** `s.split(".")`. */
  function SplitDots(s: string): (parts: seq<string>)
    ensures |parts| > 0
    decreases |s|
  {
    var i := FirstDot(s);
    if i == |s| then [s] else [s[..i]] + SplitDots(s[i + 1..])
  }

  lemma FirstDotOfJoin(p: string, t: string)
    requires DotFree(p)
    ensures FirstDot(p + "." + t) == |p|
    decreases |p|
  {
    if |p| > 0 {
      assert (p + "." + t)[1..] == p[1..] + "." + t;
      FirstDotOfJoin(p[1..], t);
    }
  }

  /** Splitting a join of dot-free parts gives the parts back. */
  lemma {:induction false} SplitJoin(parts: seq<string>)
    requires |parts| > 0 && forall i :: 0 <= i < |parts| ==> DotFree(parts[i])
    ensures SplitDots(JoinDots(parts)) == parts
    decreases |parts|
  {
    if |parts| > 1 {
      var s := parts[0] + "." + JoinDots(parts[1..]);
      FirstDotOfJoin(parts[0], JoinDots(parts[1..]));
      assert s[..|parts[0]|] == parts[0];
      assert s[|parts[0]| + 1..] == JoinDots(parts[1..]);
      SplitJoin(parts[1..]);
      assert parts == [parts[0]] + parts[1..];
    }
  }

  /** With dot-free scope levels and identifiers, distinct (scope, identifier)
      pairs get distinct keys. */
  lemma NamesAreInjective(s1: seq<string>, i1: string, s2: seq<string>, i2: string)
    requires forall k :: 0 <= k < |s1| ==> DotFree(s1[k])
    requires forall k :: 0 <= k < |s2| ==> DotFree(s2[k])
    requires DotFree(i1) && DotFree(i2)
    requires ConvertToName(s1, i1) == ConvertToName(s2, i2)
    ensures s1 == s2 && i1 == i2
  {
    var p1, p2 := s1 + [i1], s2 + [i2];
    assert forall k :: 0 <= k < |p1| ==> DotFree(p1[k]) by {
      forall k | 0 <= k < |p1| ensures DotFree(p1[k]) { if k < |s1| { assert p1[k] == s1[k]; } }
    }
    assert forall k :: 0 <= k < |p2| ==> DotFree(p2[k]) by {
      forall k | 0 <= k < |p2| ensures DotFree(p2[k]) { if k < |s2| { assert p2[k] == s2[k]; } }
    }
    SplitJoin(p1);
    SplitJoin(p2);
    assert p1 == p2;
    assert s1 == p1[..|p1| - 1] && s2 == p2[..|p2| - 1];
  }

  // ---------------------------------------------------------------------
  // Lookup

  /** The class a lookup asks for: `Variable` (which every symbol is, and
      which `None` behaves like) or `TypeVariable`. */
  datatype Filter = AnySymbol | TypesOnly

  predicate Accepts(filter: Filter, s: Symbol) {
    filter == AnySymbol || s.kind == TypeSymbol
  }

  /** The entry stored for `identifier` at scope `scope`, if it is of the
      requested class. */
  predicate Matching(table: map<string, Symbol>, scope: seq<string>, identifier: string, filter: Filter) {
    var key := ConvertToName(scope, identifier);
    key in table && Accepts(filter, table[key])
  }

  /** `__get_object`'s walk: the full scope first, then each shorter prefix,
      down to the empty scope. */
  function Resolve(table: map<string, Symbol>, scope: seq<string>, identifier: string, filter: Filter): (r: Option<Symbol>)
    ensures r.Some? ==> r.value in table.Values && Accepts(filter, r.value)
    decreases |scope|
  {
    if Matching(table, scope, identifier, filter) then Some(table[ConvertToName(scope, identifier)])
    else if |scope| == 0 then None
    else Resolve(table, scope[..|scope| - 1], identifier, filter)
  }

  /** The entry found is the one at the longest scope prefix holding a
      matching entry. */
  lemma {:induction false} ResolveFindsDeepestMatch(table: map<string, Symbol>, scope: seq<string>, identifier: string,
                                                    filter: Filter, k: nat)
    requires k <= |scope| && Matching(table, scope[..k], identifier, filter)
    requires forall j :: k < j <= |scope| ==> !Matching(table, scope[..j], identifier, filter)
    ensures Resolve(table, scope, identifier, filter) == Some(table[ConvertToName(scope[..k], identifier)])
    decreases |scope|
  {
    if k == |scope| {
      assert scope[..k] == scope;
    } else {
      assert scope == scope[..|scope|];
      assert !Matching(table, scope, identifier, filter);
      var shorter := scope[..|scope| - 1];
      assert shorter[..k] == scope[..k];
      forall j | k < j <= |shorter| ensures !Matching(table, shorter[..j], identifier, filter) {
        assert shorter[..j] == scope[..j];
      }
      ResolveFindsDeepestMatch(table, shorter, identifier, filter, k);
    }
  }

  /** A lookup fails exactly when no prefix of the scope holds a matching entry. */
  lemma {:induction false} ResolveFailsIffNoMatch(table: map<string, Symbol>, scope: seq<string>, identifier: string, filter: Filter)
    ensures Resolve(table, scope, identifier, filter).None? <==>
            forall j :: 0 <= j <= |scope| ==> !Matching(table, scope[..j], identifier, filter)
    decreases |scope|
  {
    assert scope[..|scope|] == scope;
    if !Matching(table, scope, identifier, filter) && |scope| > 0 {
      var shorter := scope[..|scope| - 1];
      ResolveFailsIffNoMatch(table, shorter, identifier, filter);
      forall j | 0 <= j <= |shorter| ensures shorter[..j] == scope[..j] { }
    }
  }

  /** A local entry hides a global one of the same name, but a type lookup
      passes over a local entry that is not a type. */
  lemma Shadowing(table: map<string, Symbol>, local: Symbol, global: Symbol)
    requires table == map["p.x" := local, "x" := global]
    requires local.kind == VariableSymbol && global.kind == TypeSymbol
    ensures Resolve(table, ["p"], "x", AnySymbol) == Some(local)
    ensures Resolve(table, ["p"], "x", TypesOnly) == Some(global)
    ensures Resolve(table, [], "p", AnySymbol) == None
  {
    assert ConvertToName(["p"], "x") == "p.x";
    assert ["p"][..0] == [];
    assert "p" != "p.x";
  }

  /** The use-count increment of a lookup: one for the symbol found, when the
      ambient counter is set and the symbol is not a type. */
  function LookupCharge(score: int, found: Option<Symbol>, s: Symbol): int {
    if found == Some(s) && score != 0 && s.kind != TypeSymbol then 1 else 0
  }

  /** `get_variable`'s extra charge for subroutines and alias-typed variables. */
  function VariableCharge(found: Option<Symbol>, s: Symbol): int {
    if found == Some(s) && (s.kind == SubroutineSymbol || s.ty.Alias?) then 15 else 0
  }

  function AsResult(found: Option<Symbol>): (r: Result<Symbol>)
    ensures r.Ok? <==> found.Some?
    ensures r.Ok? ==> r.value == found.value
    ensures r.Err? ==> r.error == Undeclared
  {
    if found.Some? then Ok(found.value) else Err(Undeclared)
  }

  /** A well-formed table: every symbol's types are ranked, and an alias
      symbol's own alias sits in the table too. */
  ghost predicate TableOK(table: map<string, Symbol>) {
    forall s :: s in table.Values ==> SymOK(s) && (s.ty.Alias? ==> s.ty.sym in table.Values)
  }

  lemma {:induction false} ChainInTable(table: map<string, Symbol>, t: Ty)
    requires TableOK(table) && TyOK(t) && (t.Alias? ==> t.sym in table.Values)
    ensures forall s :: s in AliasChain(t) ==> s in table.Values
    decreases TySize(t)
  {
    if t.Alias? {
      ChainInTable(table, t.sym.ty);
    }
  }

  // ---------------------------------------------------------------------
  // Primitive types and compatibility

  /** A type that `PrimitiveType.__contains__` accepts: a kind, or the name
      of one as text. */
  predicate IsPrimitiveLike(t: Ty) {
    t.Prim? || (t.Text? && PrimitiveByName(t.name).Some?)
  }

  /** The kind a type hashes as, for membership in `assign_support` and the
      integer lists: a kind, or a text that is a kind's name. */
  function PtLike(t: Ty): (r: Option<PrimitiveType>)
    ensures r.Some? <==> IsPrimitiveLike(t)
  {
    match t
    case Prim(k) => Some(k)
    case Text(s) => PrimitiveByName(s)
    case _ => None
  }

  /** `__get_primitive_type`: follow `.type` through aliases and array
      element types until a kind (or a kind's name) is reached; a text that
      names no kind has no `.type`. */
  function PrimitiveOf(t: Ty): (r: Result<Ty>)
    requires TyOK(t)
    ensures r.Ok? ==> IsPrimitiveLike(r.value)
    ensures IsPrimitiveLike(t) ==> r == Ok(t)
    ensures r.Err? ==> r.error == RuntimeCrash
    decreases TySize(t)
  {
    match t
    case Prim(_) => Ok(t)
    case Text(s) => if PrimitiveByName(s).Some? then Ok(t) else Err(RuntimeCrash)
    case Alias(s) => PrimitiveOf(s.ty)
    case Array(a) => PrimitiveOf(a.elem)
  }

  /** Aliases do not change the primitive type, and it is a fixed point. */
  lemma PrimitiveOfProperties(t: Ty)
    requires TyOK(t)
    ensures PrimitiveOf(t) == PrimitiveOf(Unwrap(t))
    ensures PrimitiveOf(t).Ok? ==> PrimitiveOf(PrimitiveOf(t).value) == PrimitiveOf(t)
    decreases TySize(t)
  {
    if t.Alias? { PrimitiveOfProperties(t.sym.ty); }
  }

  /** The loop of `__get_primitive_type`. */
  method GetPrimitiveType(t0: Ty) returns (r: Result<Ty>)
    requires TyOK(t0)
    ensures r == PrimitiveOf(t0)
  {
    var t := t0;
    while !IsPrimitiveLike(t)
      invariant TyOK(t) && PrimitiveOf(t) == PrimitiveOf(t0)
      decreases TySize(t)
    {
      match t
      case Text(_) => return Err(RuntimeCrash);
      case Alias(s) => t := s.ty;
      case Array(a) => t := a.elem;
    }
    r := Ok(t);
  }

  /** `(target, source) in assign_support` for types that may be texts. */
  predicate AssignSupportTy(target: Ty, source: Ty) {
    PtLike(target).Some? && PtLike(source).Some? && AssignSupport(PtLike(target).value, PtLike(source).value)
  }

  /** `check_type_compatibility` after unwrapping both alias chains. */
  predicate Compatible(t1: Ty, t2: Ty)
    requires TyOK(t1) && TyOK(t2)
  {
    var u1 := Unwrap(t1);
    var u2 := Unwrap(t2);
    if !u1.Prim? && !u2.Prim? then u1 == u2
    else if u1.Array? then AssignSupportTy(u1.arr.elem, u2)
    else if u2.Array? then AssignSupportTy(u2.arr.elem, u1)
    else AssignSupportTy(u1, u2)
  }

  method CheckTypeCompatibility(type1: Ty, type2: Ty) returns (result: bool)
    requires TyOK(type1) && TyOK(type2)
    ensures result == Compatible(type1, type2)
  {
    var t1, t2 := type1, type2;
    while t1.Alias?
      invariant TyOK(t1) && Unwrap(t1) == Unwrap(type1)
      decreases TySize(t1)
    {
      t1 := t1.sym.ty;
    }
    while t2.Alias?
      invariant TyOK(t2) && Unwrap(t2) == Unwrap(type2)
      decreases TySize(t2)
    {
      t2 := t2.sym.ty;
    }
    if !t1.Prim? && !t2.Prim? {
      result := t1 == t2;
    } else if t1.Array? {
      result := AssignSupportTy(t1.arr.elem, t2);
    } else if t2.Array? {
      result := AssignSupportTy(t2.arr.elem, t1);
    } else {
      result := AssignSupportTy(t1, t2);
    }
  }

  /** Between kinds, compatibility is `assign_support` itself; every integer
      pair is compatible, a float takes an integer but not the reverse. */
  lemma CompatibleKinds(a: PrimitiveType, b: PrimitiveType)
    ensures Compatible(Prim(a), Prim(b)) <==> AssignSupport(a, b)
    ensures IsTypeInteger(a) && IsTypeInteger(b) ==> Compatible(Prim(a), Prim(b))
    ensures Compatible(Prim(Real), Prim(Integer)) && !Compatible(Prim(Integer), Prim(Real))
  {
  }

  /** Two non-primitive types are compatible only when equal: distinct array
      nodes are never compatible, nor is an array with a type text. */
  lemma CompatibleNonPrimitive(a: ArrayTy, b: ArrayTy, name: string)
    requires TyOK(Array(a)) && TyOK(Array(b))
    ensures Compatible(Array(a), Array(b)) <==> a == b
    ensures !Compatible(Array(a), Text(name))
  {
  }

  /** An array on either side is compared through its element type, with the
      element first; a kind's name as text behaves as the kind. */
  lemma CompatibleArrayElement(a: ArrayTy, k: PrimitiveType)
    requires TyOK(Array(a))
    ensures Compatible(Array(a), Prim(k)) <==> AssignSupportTy(a.elem, Prim(k))
    ensures Compatible(Prim(k), Array(a)) <==> AssignSupportTy(a.elem, Prim(k))
  {
  }

  /** A kind's name stored as text (`PrimitiveByNameOfName` gives every kind's
      name) is compatible with exactly what the kind
      is compatible with, on either side. */
  lemma KindTextActsAsKind(name: string, k: PrimitiveType, j: PrimitiveType)
    requires PrimitiveByName(name) == Some(k)
    ensures Compatible(Text(name), Prim(j)) == Compatible(Prim(k), Prim(j))
    ensures Compatible(Prim(j), Text(name)) == Compatible(Prim(j), Prim(k))
  {
    CompatiblePrimitiveLike(Text(name), Prim(j));
    CompatiblePrimitiveLike(Prim(j), Text(name));
    CompatibleKinds(k, j);
    CompatibleKinds(j, k);
  }

  /** Between a kind and a kind or kind name, compatibility is
      `assign_support` on the kinds. */
  lemma CompatiblePrimitiveLike(t1: Ty, t2: Ty)
    requires IsPrimitiveLike(t1) && IsPrimitiveLike(t2) && (t1.Prim? || t2.Prim?)
    ensures Compatible(t1, t2) == AssignSupport(PtLike(t1).value, PtLike(t2).value)
  {
  }

  /** Aliases on either side do not matter. */
  lemma CompatibleThroughAliases(s: Symbol, t: Ty)
    requires TyOK(Alias(s)) && TyOK(t)
    ensures Compatible(Alias(s), t) == Compatible(s.ty, t)
    ensures Compatible(t, Alias(s)) == Compatible(t, s.ty)
  {
  }

  // ---------------------------------------------------------------------
  // Expression types: the post-order list and its folds

  /** An element of the post-order list: a primitive type or an operator. */
  datatype Item = TypeItem(t: Ty) | OpItem(op: Operator)

  /** What the walk records for one node before variables are looked up. */
  datatype Slot = TypeSlot(kind: PrimitiveType) | VarSlot(identifier: string) | OpSlot(op: Operator)

  predicate IsValueOperator(op: Operator) { op in ValueOperators() }

  /** The post-order slots of an expression: the operands left to right, then
      the operator when it is a value operator.  An argument list contributes
      nothing. */
  function Shape(e: Expr): seq<Slot> {
    match e
    case Value(_, k) => [TypeSlot(k)]
    case Variable(id) => [VarSlot(id)]
    case Unary(l, op) => Shape(l) + [OpSlot(op)]
    case Binary(l, r, op) => Shape(l) + Shape(r) + (if IsValueOperator(op) then [OpSlot(op)] else [])
    case CallParams(_) => []
  }

  /** ASSIGN, ARRAY_CALL and SUBROUTINE_CALL contribute no operator, and the
      argument list of a call or index contributes nothing at all. */
  lemma CallsContributeNoOperator(l: Expr, r: Expr, op: Operator, args: seq<Expr>)
    requires op == Assign || op == ArrayCall || op == SubroutineCall
    ensures Shape(Binary(l, r, op)) == Shape(l) + Shape(r)
    ensures Shape(Binary(l, CallParams(args), op)) == Shape(l)
  {
  }

  /** One slot after lookup: a variable becomes the primitive type of its
      symbol's type. */
  function ResolveSlot(table: map<string, Symbol>, scope: seq<string>, slot: Slot): (r: Result<Item>)
    requires TableOK(table)
    ensures slot.VarSlot? && r.Ok? ==> r.value.TypeItem?
    ensures r.Ok? && r.value.TypeItem? ==> IsPrimitiveLike(r.value.t)
    ensures slot.VarSlot? && Resolve(table, scope, slot.identifier, AnySymbol).None? ==> r == Err(Undeclared)
    ensures !slot.VarSlot? ==> r.Ok?
  {
    match slot
    case TypeSlot(k) => Ok(TypeItem(Prim(k)))
    case OpSlot(op) => Ok(OpItem(op))
    case VarSlot(id) =>
      match Resolve(table, scope, id, AnySymbol)
      case None => Err(Undeclared)
      case Some(s) =>
        var p :- PrimitiveOf(s.ty);
        Ok(TypeItem(p))
  }

  /** The post-order list, or the first lookup failure in walk order. */
  function ResolveSlots(table: map<string, Symbol>, scope: seq<string>, slots: seq<Slot>): (r: Result<seq<Item>>)
    requires TableOK(table)
    ensures r.Ok? ==> |r.value| == |slots|
    decreases |slots|
  {
    if |slots| == 0 then Ok([])
    else
      var init :- ResolveSlots(table, scope, slots[..|slots| - 1]);
      var item :- ResolveSlot(table, scope, slots[|slots| - 1]);
      Ok(init + [item])
  }

  lemma {:induction false} ResolveSlotsConcat(table: map<string, Symbol>, scope: seq<string>, a: seq<Slot>, b: seq<Slot>)
    requires TableOK(table)
    ensures ResolveSlots(table, scope, a + b) ==
            (if ResolveSlots(table, scope, a).Err? then ResolveSlots(table, scope, a)
             else if ResolveSlots(table, scope, b).Err? then ResolveSlots(table, scope, b)
             else Ok(ResolveSlots(table, scope, a).value + ResolveSlots(table, scope, b).value))
    decreases |b|
  {
    if |b| == 0 {
      assert a + b == a;
      if ResolveSlots(table, scope, a).Ok? {
        assert ResolveSlots(table, scope, a).value + [] == ResolveSlots(table, scope, a).value;
      }
    } else {
      var b0 := b[..|b| - 1];
      assert (a + b)[..|a + b| - 1] == a + b0;
      assert (a + b)[|a + b| - 1] == b[|b| - 1];
      ResolveSlotsConcat(table, scope, a, b0);
      if ResolveSlots(table, scope, a).Ok? && ResolveSlots(table, scope, b).Ok? {
        var ra, rb0 := ResolveSlots(table, scope, a).value, ResolveSlots(table, scope, b0).value;
        assert ra + (rb0 + [ResolveSlot(table, scope, b[|b| - 1]).value]) == ra + rb0 + [ResolveSlot(table, scope, b[|b| - 1]).value];
      }
    }
  }

  /** Every type in a post-order list is a kind or a kind's name. */
  predicate PrimitiveItems(items: seq<Item>) {
    forall i :: 0 <= i < |items| && items[i].TypeItem? ==> IsPrimitiveLike(items[i].t)
  }

  lemma {:induction false} ResolveSlotsPrimitive(table: map<string, Symbol>, scope: seq<string>, slots: seq<Slot>)
    requires TableOK(table)
    ensures ResolveSlots(table, scope, slots).Ok? ==> PrimitiveItems(ResolveSlots(table, scope, slots).value)
    decreases |slots|
  {
    var r := ResolveSlots(table, scope, slots);
    if |slots| > 0 && r.Ok? {
      var front := slots[..|slots| - 1];
      ResolveSlotsPrimitive(table, scope, front);
      var init := ResolveSlots(table, scope, front).value;
      assert r.value == init + [ResolveSlot(table, scope, slots[|slots| - 1]).value];
      forall i | 0 <= i < |r.value| && r.value[i].TypeItem?
        ensures IsPrimitiveLike(r.value[i].t)
      {
        if i < |init| {
          assert r.value[i] == init[i];
        }
      }
    }
  }

  predicate PrimitiveStack(stack: seq<Ty>) {
    forall i :: 0 <= i < |stack| ==> IsPrimitiveLike(stack[i])
  }

  /** How many of the slots are variables that resolve to `s`. */
  function Hits(table: map<string, Symbol>, scope: seq<string>, slots: seq<Slot>, s: Symbol): nat
    decreases |slots|
  {
    if |slots| == 0 then 0
    else
      var last := slots[|slots| - 1];
      Hits(table, scope, slots[..|slots| - 1], s) +
      (if last.VarSlot? && Resolve(table, scope, last.identifier, AnySymbol) == Some(s) then 1 else 0)
  }

  /** `check_type_operation_support` as the fold applies it to a list element
      and the element taken as the operator: a kind must list the operator;
      a kind's name as text has no operator tuple; an operator taken as an
      operand sends the source into a walk of an empty list that never ends. */
  function CheckItemSupport(item: Item, op: Item): (r: Outcome)
    ensures r.Pass? <==> item.TypeItem? && item.t.Prim? && op.OpItem? && item.t.kind.SupportOperation(op.op)
    ensures item.TypeItem? && item.t.Prim? && r.Fail? ==> r.error == UnsupportedOperator
  {
    match item
    case OpItem(_) => Fail(Diverges)
    case TypeItem(t) =>
      if t.Prim? then Need(op.OpItem? && t.kind.SupportOperation(op.op), UnsupportedOperator)
      else Fail(RuntimeCrash)
  }

  // -- the fold as the source writes it

  /** One pass of the inner loop of `__convolute_type_operator_vector`: a
      reduction overwrites the FIRST element of the list with the result,
      removes the one or two elements after it, and moves `index` on by two
      or three. */
  function ConvolutePass(list: seq<Item>, index: nat): (r: Result<seq<Item>>)
    ensures r.Ok? ==> |r.value| <= |list| && (|r.value| == |list| ==> r.value == list)
    decreases |list| - index
  {
    if index >= |list| then Ok(list)
    else if list[index].OpItem? then ConvolutePass(list, index + 1)
    else if index + 1 >= |list| then Err(RuntimeCrash)
    else if list[index + 1] == OpItem(UnaryMinus) || list[index + 1] == OpItem(UnaryPlus) then
      var first, op := list[index], list[index + 1];
      var check := CheckItemSupport(first, op);
      if check.Fail? then Err(check.error)
      else
        var k :- CastTypesByOperator(first.t.kind, None, op.op);
        ConvolutePass([TypeItem(Prim(k))] + list[2..], index + 2)
    else if index + 2 >= |list| then Err(RuntimeCrash)
    else
      var first, second, op := list[index], list[index + 1], list[index + 2];
      var check1 := CheckItemSupport(first, op);
      var check2 := CheckItemSupport(second, op);
      if check1.Fail? then Err(check1.error)
      else if check2.Fail? then Err(check2.error)
      else
        var k :- CastTypesByOperator(first.t.kind, Some(second.t.kind), op.op);
        ConvolutePass([TypeItem(Prim(k))] + list[3..], index + 3)
  }

  /** The outer loop: passes until one element is left.  A pass that removes
      nothing (only operators, or an empty list) would repeat for ever. */
  function ConvoluteSpec(list: seq<Item>): (r: Result<Item>)
    decreases |list|
  {
    if |list| == 1 then Ok(list[0])
    else if |list| == 0 then Err(Diverges)
    else
      var next :- ConvolutePass(list, 0);
      if |next| == |list| then Err(Diverges) else ConvoluteSpec(next)
  }

  /** `__convolute_type_operator_vector`, folding the list in place. */
  method ConvoluteTypeOperatorVector(postOrder: seq<Item>) returns (r: Result<Item>)
    ensures r == ConvoluteSpec(postOrder)
  {
    var list := postOrder;
    while |list| != 1
      invariant ConvoluteSpec(list) == ConvoluteSpec(postOrder)
      decreases |list|
    {
      ghost var start := list;
      var before := |list|;
      var index := 0;
      while |list| > index
        invariant ConvolutePass(list, index) == ConvolutePass(start, 0)
        decreases |list| - index
      {
        if list[index].OpItem? {
          index := index + 1;
        } else {
          var first := list[index];
          if index + 1 >= |list| {
            return Err(RuntimeCrash);
          }
          if list[index + 1] == OpItem(UnaryMinus) || list[index + 1] == OpItem(UnaryPlus) {
            var op := list[index + 1];
            var check := CheckItemSupport(first, op);
            if check.Fail? {
              return Err(check.error);
            }
            var cast := CastTypesByOperator(first.t.kind, None, op.op);
            if cast.Err? {
              return Err(cast.error);
            }
            // list[0] := result; list.pop(1)
            list := [TypeItem(Prim(cast.value))] + list[2..];
            index := index + 2;
          } else {
            if index + 2 >= |list| {
              return Err(RuntimeCrash);
            }
            var second, op := list[index + 1], list[index + 2];
            var check1 := CheckItemSupport(first, op);
            if check1.Fail? {
              return Err(check1.error);
            }
            var check2 := CheckItemSupport(second, op);
            if check2.Fail? {
              return Err(check2.error);
            }
            var cast := CastTypesByOperator(first.t.kind, Some(second.t.kind), op.op);
            if cast.Err? {
              return Err(cast.error);
            }
            // list[0] := result; list.pop(1); list.pop(1)
            list := [TypeItem(Prim(cast.value))] + list[3..];
            index := index + 3;
          }
        }
      }
      if |list| == before {
        return Err(Diverges);
      }
    }
    r := Ok(list[0]);
  }

  // -- the fold as evidently intended: post-order evaluation with a stack

  predicate IsUnaryOperator(op: Operator) { op == UnaryMinus || op == UnaryPlus || op == Not }

  function ApplyUnary(t: Ty, op: Operator): (r: Result<Ty>)
    ensures r.Ok? ==> r.value.Prim?
  {
    var check := CheckItemSupport(TypeItem(t), OpItem(op));
    if check.Fail? then Err(check.error)
    else
      var k :- CastTypesByOperator(t.kind, None, op);
      Ok(Prim(k))
  }

  function ApplyBinary(a: Ty, b: Ty, op: Operator): (r: Result<Ty>)
    ensures r.Ok? ==> r.value.Prim?
  {
    var check1 := CheckItemSupport(TypeItem(a), OpItem(op));
    var check2 := CheckItemSupport(TypeItem(b), OpItem(op));
    if check1.Fail? then Err(check1.error)
    else if check2.Fail? then Err(check2.error)
    else
      var k :- CastTypesByOperator(a.kind, Some(b.kind), op);
      Ok(Prim(k))
  }

  /** One element of the post-order list applied to the operand stack. */
  function FoldStep(stack: seq<Ty>, item: Item): (r: Result<seq<Ty>>)
    ensures PrimitiveStack(stack) && (item.TypeItem? ==> IsPrimitiveLike(item.t)) && r.Ok? ==> PrimitiveStack(r.value)
  {
    match item
    case TypeItem(t) => Ok(stack + [t])
    case OpItem(op) =>
      if IsUnaryOperator(op) then
        if |stack| < 1 then Err(RuntimeCrash)
        else
          var t :- ApplyUnary(stack[|stack| - 1], op);
          Ok(stack[..|stack| - 1] + [t])
      else if |stack| < 2 then Err(RuntimeCrash)
      else
        var t :- ApplyBinary(stack[|stack| - 2], stack[|stack| - 1], op);
        Ok(stack[..|stack| - 2] + [t])
  }

  function Finish(stack: seq<Ty>): Result<Ty> {
    if |stack| == 1 then Ok(stack[0])
    else if |stack| == 0 then Err(Diverges)
    else Err(RuntimeCrash)
  }

  function RunItems(stack: seq<Ty>, items: seq<Item>): (r: Result<Ty>)
    ensures PrimitiveStack(stack) && PrimitiveItems(items) && r.Ok? ==> IsPrimitiveLike(r.value)
    decreases |items|
  {
    if |items| == 0 then Finish(stack)
    else
      var next :- FoldStep(stack, items[0]);
      RunItems(next, items[1..])
  }

  /** The corrected fold of a post-order list. */
  function FoldTypes(items: seq<Item>): (r: Result<Ty>)
    ensures PrimitiveItems(items) && r.Ok? ==> IsPrimitiveLike(r.value)
  {
    RunItems([], items)
  }

  /** The corrected `__convolute_type_operator_vector`: one pass over the
      list with an operand stack. */
  method FoldTypeOperatorVector(postOrder: seq<Item>) returns (r: Result<Ty>)
    ensures r == FoldTypes(postOrder)
  {
    var stack: seq<Ty> := [];
    var index := 0;
    while index < |postOrder|
      invariant 0 <= index <= |postOrder|
      invariant RunItems(stack, postOrder[index..]) == FoldTypes(postOrder)
    {
      assert postOrder[index..][1..] == postOrder[index + 1..];
      var step := FoldStep(stack, postOrder[index]);
      if step.Err? {
        return Err(step.error);
      }
      stack := step.value;
      index := index + 1;
    }
    r := Finish(stack);
  }

  /** The same fold, looking variables up as they are met. */
  function RunSlots(table: map<string, Symbol>, scope: seq<string>, stack: seq<Ty>, slots: seq<Slot>): Result<Ty>
    requires TableOK(table)
    decreases |slots|
  {
    if |slots| == 0 then Finish(stack)
    else
      var item :- ResolveSlot(table, scope, slots[0]);
      var next :- FoldStep(stack, item);
      RunSlots(table, scope, next, slots[1..])
  }

  /** The expressions the parser builds whose type the fold should find:
      literals, variables, unary and value-operator nodes over them, and
      calls and index operations on them. */
  predicate ValueExpr(e: Expr) {
    match e
    case Value(_, _) => true
    case Variable(_) => true
    case Unary(l, op) => IsUnaryOperator(op) && ValueExpr(l)
    case Binary(l, r, op) =>
      (IsValueOperator(op) && !IsUnaryOperator(op) && ValueExpr(l) && ValueExpr(r))
      || ((op == ArrayCall || op == SubroutineCall) && r.CallParams? && ValueExpr(l))
    case CallParams(_) => false
  }

  /** The type of an expression by structural recursion: the reference the
      corrected fold is proved against. */
  function TypeOf(table: map<string, Symbol>, scope: seq<string>, e: Expr): Result<Ty>
    requires TableOK(table)
  {
    match e
    case Value(_, k) => Ok(Prim(k))
    case Variable(id) =>
      var item :- ResolveSlot(table, scope, VarSlot(id));
      Ok(item.t)
    case Unary(l, op) =>
      var t :- TypeOf(table, scope, l);
      ApplyUnary(t, op)
    case Binary(l, r, op) =>
      if IsValueOperator(op) then
        var a :- TypeOf(table, scope, l);
        var b :- TypeOf(table, scope, r);
        ApplyBinary(a, b, op)
      else TypeOf(table, scope, l)
    case CallParams(_) => Err(Diverges)
  }

  lemma RunSlotsCons(table: map<string, Symbol>, scope: seq<string>, stack: seq<Ty>, slot: Slot, rest: seq<Slot>)
    requires TableOK(table)
    ensures ResolveSlot(table, scope, slot).Err? ==>
              RunSlots(table, scope, stack, [slot] + rest) == Err(ResolveSlot(table, scope, slot).error)
    ensures ResolveSlot(table, scope, slot).Ok? ==>
              RunSlots(table, scope, stack, [slot] + rest) ==
              (var next := FoldStep(stack, ResolveSlot(table, scope, slot).value);
               if next.Err? then Err(next.error) else RunSlots(table, scope, next.value, rest))
  {
    assert ([slot] + rest)[0] == slot && ([slot] + rest)[1..] == rest;
  }

  lemma FoldStepUnary(stack: seq<Ty>, t: Ty, op: Operator)
    requires IsUnaryOperator(op)
    ensures FoldStep(stack + [t], OpItem(op)) ==
            (match ApplyUnary(t, op) case Err(k) => Err(k) case Ok(u) => Ok(stack + [u]))
  {
    var st := stack + [t];
    assert st[..|st| - 1] == stack && st[|st| - 1] == t;
  }

  lemma FoldStepBinary(stack: seq<Ty>, a: Ty, b: Ty, op: Operator)
    requires !IsUnaryOperator(op)
    ensures FoldStep(stack + [a] + [b], OpItem(op)) ==
            (match ApplyBinary(a, b, op) case Err(k) => Err(k) case Ok(u) => Ok(stack + [u]))
  {
    var st := stack + [a] + [b];
    assert st[..|st| - 2] == stack && st[|st| - 2] == a && st[|st| - 1] == b;
  }

  /** Running the fold over the slots of a value expression pushes the
      expression's structural type, or stops with its error. */
  lemma {:induction false} RunSlotsShape(table: map<string, Symbol>, scope: seq<string>, e: Expr,
                                         stack: seq<Ty>, rest: seq<Slot>)
    requires TableOK(table) && ValueExpr(e)
    ensures RunSlots(table, scope, stack, Shape(e) + rest) ==
            (match TypeOf(table, scope, e)
             case Err(k) => Err(k)
             case Ok(t) => RunSlots(table, scope, stack + [t], rest))
    decreases e, 1
  {
    match e
    case Value(_, k) =>
      RunSlotsCons(table, scope, stack, TypeSlot(k), rest);
    case Variable(id) =>
      RunSlotsCons(table, scope, stack, VarSlot(id), rest);
    case Unary(l, op) =>
      RunSlotsUnary(table, scope, l, op, stack, rest);
    case Binary(l, r, op) =>
      if IsValueOperator(op) && !IsUnaryOperator(op) && ValueExpr(l) && ValueExpr(r) {
        RunSlotsBinary(table, scope, l, r, op, stack, rest);
      } else {
        assert Shape(e) + rest == Shape(l) + rest;
        RunSlotsShape(table, scope, l, stack, rest);
      }
  }

  lemma {:induction false} RunSlotsUnary(table: map<string, Symbol>, scope: seq<string>, l: Expr, op: Operator,
                                         stack: seq<Ty>, rest: seq<Slot>)
    requires TableOK(table) && ValueExpr(l) && IsUnaryOperator(op)
    ensures RunSlots(table, scope, stack, Shape(Unary(l, op)) + rest) ==
            (match TypeOf(table, scope, Unary(l, op))
             case Err(k) => Err(k)
             case Ok(t) => RunSlots(table, scope, stack + [t], rest))
    decreases Unary(l, op), 0
  {
    assert Shape(Unary(l, op)) + rest == Shape(l) + ([OpSlot(op)] + rest);
    RunSlotsShape(table, scope, l, stack, [OpSlot(op)] + rest);
    if TypeOf(table, scope, l).Ok? {
      var t := TypeOf(table, scope, l).value;
      RunSlotsCons(table, scope, stack + [t], OpSlot(op), rest);
      FoldStepUnary(stack, t, op);
    }
  }

  lemma ShapeOfValueBinary(l: Expr, r: Expr, op: Operator, rest: seq<Slot>)
    requires IsValueOperator(op)
    ensures Shape(Binary(l, r, op)) + rest == Shape(l) + (Shape(r) + ([OpSlot(op)] + rest))
  {
    assert Shape(Binary(l, r, op)) == Shape(l) + Shape(r) + [OpSlot(op)];
  }

  lemma {:induction false} RunSlotsBinary(table: map<string, Symbol>, scope: seq<string>, l: Expr, r: Expr, op: Operator,
                                          stack: seq<Ty>, rest: seq<Slot>)
    requires TableOK(table) && ValueExpr(l) && ValueExpr(r) && IsValueOperator(op) && !IsUnaryOperator(op)
    ensures RunSlots(table, scope, stack, Shape(Binary(l, r, op)) + rest) ==
            (match TypeOf(table, scope, Binary(l, r, op))
             case Err(k) => Err(k)
             case Ok(t) => RunSlots(table, scope, stack + [t], rest))
    decreases Binary(l, r, op), 0
  {
    var tail := [OpSlot(op)] + rest;
    ShapeOfValueBinary(l, r, op, rest);
    RunSlotsShape(table, scope, l, stack, Shape(r) + tail);
    if TypeOf(table, scope, l).Ok? {
      var a := TypeOf(table, scope, l).value;
      RunSlotsShape(table, scope, r, stack + [a], tail);
      if TypeOf(table, scope, r).Ok? {
        var b := TypeOf(table, scope, r).value;
        RunSlotsCons(table, scope, stack + [a] + [b], OpSlot(op), rest);
        FoldStepBinary(stack, a, b, op);
      }
    }
  }

  lemma ResolveSlotsSingle(table: map<string, Symbol>, scope: seq<string>, slot: Slot)
    requires TableOK(table)
    ensures ResolveSlot(table, scope, slot).Err? ==> ResolveSlots(table, scope, [slot]) == Err(ResolveSlot(table, scope, slot).error)
    ensures ResolveSlot(table, scope, slot).Ok? ==> ResolveSlots(table, scope, [slot]) == Ok([ResolveSlot(table, scope, slot).value])
  {
    assert [slot][..0] == [];
    assert ResolveSlots(table, scope, []) == Ok([]);
    assert [slot][0] == slot;
    if ResolveSlot(table, scope, slot).Ok? {
      assert [] + [ResolveSlot(table, scope, slot).value] == [ResolveSlot(table, scope, slot).value];
    }
  }

  /** Resolving every slot first and then folding is the same as resolving
      them as the fold meets them. */
  lemma {:induction false} RunItemsIsRunSlots(table: map<string, Symbol>, scope: seq<string>, stack: seq<Ty>, slots: seq<Slot>)
    requires TableOK(table)
    ensures ResolveSlots(table, scope, slots).Ok? ==>
              RunItems(stack, ResolveSlots(table, scope, slots).value) == RunSlots(table, scope, stack, slots)
    ensures ResolveSlots(table, scope, slots).Err? ==> RunSlots(table, scope, stack, slots).Err?
    decreases |slots|
  {
    if |slots| > 0 {
      assert slots == [slots[0]] + slots[1..];
      ResolveSlotsConcat(table, scope, [slots[0]], slots[1..]);
      ResolveSlotsSingle(table, scope, slots[0]);
      var item := ResolveSlot(table, scope, slots[0]);
      if item.Ok? {
        var next := FoldStep(stack, item.value);
        if next.Ok? {
          RunItemsIsRunSlots(table, scope, next.value, slots[1..]);
          if ResolveSlots(table, scope, slots).Ok? {
            var items := ResolveSlots(table, scope, slots).value;
            assert items[0] == item.value && items[1..] == ResolveSlots(table, scope, slots[1..]).value;
          }
        }
      }
    }
  }

  /** `'type' in condition.__dict__`: literals, symbols and declarations carry
      their own type; the other expression nodes do not. */
  datatype Typed = OfExpr(e: Expr) | OfSymbol(s: Symbol) | OfDecl(d: Decl)

  function OwnType(c: Typed): Option<Ty> {
    match c
    case OfExpr(e) => if e.Value? then Some(Prim(e.kind)) else None
    case OfSymbol(s) => Some(s.ty)
    case OfDecl(d) => Some(d.ty)
  }

  /** `predict_condition_type` with the corrected fold: a node's own type, or
      the fold of its post-order list. */
  function PredictSpec(table: map<string, Symbol>, scope: seq<string>, c: Typed): Result<Ty>
    requires TableOK(table)
  {
    match OwnType(c)
    case Some(t) => Ok(t)
    case None =>
      var items :- ResolveSlots(table, scope, Shape(c.e));
      FoldTypes(items)
  }

  /** The prediction for an expression is its structural type: it succeeds
      exactly when that does, with the same type, and when every variable
      resolves it fails in the same way. */
  lemma PredictComputesTypeOf(table: map<string, Symbol>, scope: seq<string>, e: Expr)
    requires TableOK(table) && ValueExpr(e)
    ensures PredictSpec(table, scope, OfExpr(e)).Ok? <==> TypeOf(table, scope, e).Ok?
    ensures ResolveSlots(table, scope, Shape(e)).Ok? ==> PredictSpec(table, scope, OfExpr(e)) == TypeOf(table, scope, e)
    ensures PredictSpec(table, scope, OfExpr(e)).Ok? ==> PredictSpec(table, scope, OfExpr(e)) == TypeOf(table, scope, e)
  {
    if !e.Value? {
      RunSlotsShape(table, scope, e, [], []);
      assert Shape(e) + [] == Shape(e);
      RunItemsIsRunSlots(table, scope, [], Shape(e));
    }
  }

  // -- where the two folds part

  lemma IntegerArithmetic(a: PrimitiveType, b: PrimitiveType, op: Operator)
    requires IsTypeInteger(a) && IsTypeInteger(b) && (op == Plus || op == Minus || op == Multiply)
    ensures ApplyBinary(Prim(a), Prim(b), op) == Ok(Prim(NextIntegerType(a, b)))
    ensures CastTypesByOperator(a, Some(b), op) == Ok(NextIntegerType(a, b))
  {
    SupportsArithmetic(a, op);
    SupportsArithmetic(b, op);
    assert op !in ConditionOperators();
    assert BaseTypeUpcast(BinaryKey(a, b, op)) == Some(NextIntegerType(a, b));
  }

  lemma ArithmeticIsValueOperator(op: Operator)
    requires op == Plus || op == Minus || op == Multiply
    ensures IsValueOperator(op) && !IsUnaryOperator(op)
  {
    assert ValueOperators()[0] == Plus && ValueOperators()[1] == Minus && ValueOperators()[2] == Multiply;
  }

  /** `left op right` over two value expressions. */
  lemma ArithmeticShape(l: Expr, r: Expr, op: Operator)
    requires op == Plus || op == Minus || op == Multiply
    ensures Shape(Binary(l, r, op)) == Shape(l) + Shape(r) + [OpSlot(op)]
    ensures ValueExpr(l) && ValueExpr(r) ==> ValueExpr(Binary(l, r, op))
  {
    ArithmeticIsValueOperator(op);
  }

  /** The post-order list of `a + b + c + d` over four integer kinds. */
  function SumChainItems(a: PrimitiveType, b: PrimitiveType, c: PrimitiveType, d: PrimitiveType): seq<Item> {
    [TypeItem(Prim(a)), TypeItem(Prim(b)), OpItem(Plus), TypeItem(Prim(c)), OpItem(Plus),
     TypeItem(Prim(d)), OpItem(Plus)]
  }

  lemma SumChainCrashes(a: PrimitiveType, b: PrimitiveType, c: PrimitiveType, d: PrimitiveType)
    requires IsTypeInteger(a) && IsTypeInteger(b) && IsTypeInteger(c) && IsTypeInteger(d)
    ensures ConvoluteSpec(SumChainItems(a, b, c, d)) == Err(RuntimeCrash)
  {
    var items := SumChainItems(a, b, c, d);
    IntegerArithmetic(a, b, Plus);
    var cut := [TypeItem(Prim(NextIntegerType(a, b)))] + items[3..];
    assert ConvolutePass(items, 0) == ConvolutePass(cut, 3);
    assert ConvolutePass(cut, 3) == Err(RuntimeCrash);
  }

  lemma SupportsArithmetic(k: PrimitiveType, op: Operator)
    requires IsTypeInteger(k) && (op == Plus || op == Minus || op == Multiply)
    ensures k.SupportOperation(op)
    ensures CheckItemSupport(TypeItem(Prim(k)), OpItem(op)) == Pass
  {
    assert k.Operators()[0] == Op(Plus) && k.Operators()[1] == Op(Minus) && k.Operators()[2] == Op(Multiply);
  }

  /** The expression `a + b + c + d`, grouped to the left as the parser groups it. */
  function SumChain(x1: Expr, x2: Expr, x3: Expr, x4: Expr): Expr {
    Binary(Binary(Binary(x1, x2, Plus), x3, Plus), x4, Plus)
  }

  lemma SumChainShape(x1: Expr, x2: Expr, x3: Expr, x4: Expr)
    requires x1.Value? && x2.Value? && x3.Value? && x4.Value?
    ensures ResolveSlots(map[], [], Shape(SumChain(x1, x2, x3, x4))) == Ok(SumChainItems(x1.kind, x2.kind, x3.kind, x4.kind))
    ensures ValueExpr(SumChain(x1, x2, x3, x4))
  {
    var e1 := Binary(x1, x2, Plus);
    var e2 := Binary(e1, x3, Plus);
    ArithmeticShape(x1, x2, Plus);
    ArithmeticShape(e1, x3, Plus);
    ArithmeticShape(e2, x4, Plus);
    var ts := [TypeSlot(x1.kind), TypeSlot(x2.kind), OpSlot(Plus), TypeSlot(x3.kind), OpSlot(Plus),
               TypeSlot(x4.kind), OpSlot(Plus)];
    assert Shape(SumChain(x1, x2, x3, x4)) == ts;
    TypeSlotsResolve(ts, SumChainItems(x1.kind, x2.kind, x3.kind, x4.kind));
  }

  lemma SumChainType(x1: Expr, x2: Expr, x3: Expr, x4: Expr)
    requires x1.Value? && x2.Value? && x3.Value? && x4.Value?
    requires IsTypeInteger(x1.kind) && IsTypeInteger(x2.kind) && IsTypeInteger(x3.kind) && IsTypeInteger(x4.kind)
    ensures var t := TypeOf(map[], [], SumChain(x1, x2, x3, x4)); t.Ok? && t.value.Prim? && IsTypeInteger(t.value.kind)
  {
    var e1 := Binary(x1, x2, Plus);
    TypeOfWidening(x1, x2, Plus, x1.kind, x2.kind);
    var ab := NextIntegerType(x1.kind, x2.kind);
    TypeOfWidening(e1, x3, Plus, ab, x3.kind);
    TypeOfWidening(Binary(e1, x3, Plus), x4, Plus, NextIntegerType(ab, x3.kind), x4.kind);
  }

  /** Plus, minus and times of two integer-typed expressions. */
  lemma TypeOfWidening(l: Expr, r: Expr, op: Operator, a: PrimitiveType, b: PrimitiveType)
    requires op == Plus || op == Minus || op == Multiply
    requires IsTypeInteger(a) && IsTypeInteger(b)
    requires TypeOf(map[], [], l) == Ok(Prim(a)) && TypeOf(map[], [], r) == Ok(Prim(b))
    ensures TypeOf(map[], [], Binary(l, r, op)) == Ok(Prim(NextIntegerType(a, b)))
  {
    ArithmeticIsValueOperator(op);
    IntegerArithmetic(a, b, op);
  }

  /** `a + b + c + d` over four integer literals: the source's fold moves
      `index` past the shortened list after the first reduction and indexes
      out of range, where the stack fold finds an integer kind. */
  lemma AsWrittenFoldCrashesOnFourOperands(x1: Expr, x2: Expr, x3: Expr, x4: Expr)
    requires x1.Value? && x2.Value? && x3.Value? && x4.Value?
    requires IsTypeInteger(x1.kind) && IsTypeInteger(x2.kind) && IsTypeInteger(x3.kind) && IsTypeInteger(x4.kind)
    ensures var items := ResolveSlots(map[], [], Shape(SumChain(x1, x2, x3, x4)));
            items.Ok? && ConvoluteSpec(items.value) == Err(RuntimeCrash)
    ensures var t := PredictSpec(map[], [], OfExpr(SumChain(x1, x2, x3, x4)));
            t.Ok? && t.value.Prim? && IsTypeInteger(t.value.kind)
  {
    SumChainShape(x1, x2, x3, x4);
    SumChainCrashes(x1.kind, x2.kind, x3.kind, x4.kind);
    SumChainType(x1, x2, x3, x4);
    PredictComputesTypeOf(map[], [], SumChain(x1, x2, x3, x4));
  }

  /** The expression `a - b * c`. */
  function RightNested(x1: Expr, x2: Expr, x3: Expr): Expr {
    Binary(x1, Binary(x2, x3, Multiply), Minus)
  }

  function RightNestedItems(a: PrimitiveType, b: PrimitiveType, c: PrimitiveType): seq<Item> {
    [TypeItem(Prim(a)), TypeItem(Prim(b)), TypeItem(Prim(c)), OpItem(Multiply), OpItem(Minus)]
  }

  lemma RightNestedShape(x1: Expr, x2: Expr, x3: Expr)
    requires x1.Value? && x2.Value? && x3.Value?
    ensures ResolveSlots(map[], [], Shape(RightNested(x1, x2, x3))) == Ok(RightNestedItems(x1.kind, x2.kind, x3.kind))
    ensures ValueExpr(RightNested(x1, x2, x3))
  {
    var e1 := Binary(x2, x3, Multiply);
    ArithmeticShape(x2, x3, Multiply);
    ArithmeticShape(x1, e1, Minus);
    var ts := [TypeSlot(x1.kind), TypeSlot(x2.kind), TypeSlot(x3.kind), OpSlot(Multiply), OpSlot(Minus)];
    assert Shape(RightNested(x1, x2, x3)) == ts;
    TypeSlotsResolve(ts, RightNestedItems(x1.kind, x2.kind, x3.kind));
  }

  lemma RightNestedType(x1: Expr, x2: Expr, x3: Expr)
    requires x1.Value? && x2.Value? && x3.Value?
    requires IsTypeInteger(x1.kind) && IsTypeInteger(x2.kind) && IsTypeInteger(x3.kind)
    ensures var t := TypeOf(map[], [], RightNested(x1, x2, x3)); t.Ok? && t.value.Prim? && IsTypeInteger(t.value.kind)
  {
    TypeOfWidening(x2, x3, Multiply, x2.kind, x3.kind);
    TypeOfWidening(x1, Binary(x2, x3, Multiply), Minus, x1.kind, NextIntegerType(x2.kind, x3.kind));
  }

  /** `a - b * c` over three integer literals: the source's fold takes the
      literal `c` as the operator of `a` and `b` and reports the operator as
      unsupported, where the stack fold finds an integer kind. */
  lemma AsWrittenFoldRejectsRightNesting(x1: Expr, x2: Expr, x3: Expr)
    requires x1.Value? && x2.Value? && x3.Value?
    requires IsTypeInteger(x1.kind) && IsTypeInteger(x2.kind) && IsTypeInteger(x3.kind)
    ensures var items := ResolveSlots(map[], [], Shape(RightNested(x1, x2, x3)));
            items.Ok? && ConvoluteSpec(items.value) == Err(UnsupportedOperator)
    ensures var t := PredictSpec(map[], [], OfExpr(RightNested(x1, x2, x3)));
            t.Ok? && t.value.Prim? && IsTypeInteger(t.value.kind)
  {
    RightNestedShape(x1, x2, x3);
    var items := RightNestedItems(x1.kind, x2.kind, x3.kind);
    assert ConvolutePass(items, 0) == Err(UnsupportedOperator);
    RightNestedType(x1, x2, x3);
    PredictComputesTypeOf(map[], [], RightNested(x1, x2, x3));
  }

  /** Slots without variables resolve to the matching items in any table. */
  lemma {:induction false} TypeSlotsResolve(slots: seq<Slot>, items: seq<Item>)
    requires |slots| == |items|
    requires forall i :: 0 <= i < |slots| ==>
               (slots[i].TypeSlot? && items[i] == TypeItem(Prim(slots[i].kind))) || (slots[i].OpSlot? && items[i] == OpItem(slots[i].op))
    ensures ResolveSlots(map[], [], slots) == Ok(items)
    decreases |slots|
  {
    if |slots| > 0 {
      var n := |slots| - 1;
      TypeSlotsResolve(slots[..n], items[..n]);
      assert items == items[..n] + [items[n]];
    }
  }

  // ---------------------------------------------------------------------
  // The checks, as functions of the table

  /** A typed thing whose own type is well formed. */
  ghost predicate TypedOK(table: map<string, Symbol>, c: Typed) {
    match c
    case OfExpr(_) => true
    case OfSymbol(s) => s in table.Values
    case OfDecl(d) => TyOK(d.ty)
  }

  /** Predicted types are well formed, so they can be compared. */
  lemma PredictSpecIsRanked(table: map<string, Symbol>, scope: seq<string>, c: Typed)
    requires TableOK(table) && TypedOK(table, c)
    ensures PredictSpec(table, scope, c).Ok? ==> TyOK(PredictSpec(table, scope, c).value)
  {
    if OwnType(c).None? {
      ResolveSlotsPrimitive(table, scope, Shape(c.e));
    }
  }

  /** The type predicted for an expression is a kind or a kind's text, never
      an alias or an array. */
  lemma PredictExprIsPrimitiveLike(table: map<string, Symbol>, scope: seq<string>, e: Expr)
    requires TableOK(table)
    ensures PredictSpec(table, scope, OfExpr(e)).Ok? ==> IsPrimitiveLike(PredictSpec(table, scope, OfExpr(e)).value)
  {
    if OwnType(OfExpr(e)).None? {
      ResolveSlotsPrimitive(table, scope, Shape(e));
    }
  }

  /** `check_type_operation_support`: the predicted type must be a kind whose
      operator tuple holds `op`. */
  function OperationSupportSpec(table: map<string, Symbol>, scope: seq<string>, c: Typed, op: Operator): (r: Outcome)
    requires TableOK(table)
    ensures r.Pass? <==> PredictSpec(table, scope, c).Ok? && PredictSpec(table, scope, c).value.Prim?
                         && PredictSpec(table, scope, c).value.kind.SupportOperation(op)
  {
    var p := PredictSpec(table, scope, c);
    if p.Err? then Fail(p.error) else CheckItemSupport(TypeItem(p.value), OpItem(op))
  }

  /** The `Typed` a call argument, an index or an assigned expression is
      predicted from: a bare variable is replaced by its symbol. */
  function ArgumentTyped(table: map<string, Symbol>, scope: seq<string>, arg: Expr): (r: Result<Typed>)
    ensures r.Ok? ==> TypedOK(table, r.value)
    ensures r.Err? <==> arg.Variable? && Resolve(table, scope, arg.identifier, AnySymbol).None?
  {
    if arg.Variable? then
      var v :- AsResult(Resolve(table, scope, arg.identifier, AnySymbol));
      Ok(OfSymbol(v))
    else Ok(OfExpr(arg))
  }

  /** One argument against its formal parameter. */
  function ArgumentCheck(table: map<string, Symbol>, scope: seq<string>, formal: Decl, arg: Expr): Outcome
    requires TableOK(table) && TyOK(formal.ty)
  {
    var call := ArgumentTyped(table, scope, arg);
    if call.Err? then Fail(call.error)
    else
      var callType := PredictSpec(table, scope, call.value);
      PredictSpecIsRanked(table, scope, call.value);
      if callType.Err? then Fail(callType.error)
      else Need(Compatible(formal.ty, callType.value), TypeMismatch)
  }

  /** The arguments in order; the first failure wins. */
  function ArgumentsCheck(table: map<string, Symbol>, scope: seq<string>, formals: seq<Decl>, args: seq<Expr>): (r: Outcome)
    requires TableOK(table) && |formals| == |args|
    requires forall i :: 0 <= i < |formals| ==> TyOK(formals[i].ty)
    ensures r.Pass? <==> forall i :: 0 <= i < |args| ==> ArgumentCheck(table, scope, formals[i], args[i]).Pass?
    decreases |args|
  {
    if |args| == 0 then Pass
    else
      var first := ArgumentCheck(table, scope, formals[0], args[0]);
      if first.Fail? then first
      else
        var rest := ArgumentsCheck(table, scope, formals[1..], args[1..]);
        assert forall i :: 1 <= i < |args| ==> formals[1..][i - 1] == formals[i] && args[1..][i - 1] == args[i];
        rest
  }

  /** The arguments from `i` on: the first one's check, then the rest's. */
  lemma ArgumentsCheckFrom(table: map<string, Symbol>, scope: seq<string>, formals: seq<Decl>, args: seq<Expr>, i: nat)
    requires TableOK(table) && |formals| == |args| && i < |args|
    requires forall i :: 0 <= i < |formals| ==> TyOK(formals[i].ty)
    ensures var first := ArgumentCheck(table, scope, formals[i], args[i]);
            ArgumentsCheck(table, scope, formals[i..], args[i..]) ==
              if first.Fail? then first else ArgumentsCheck(table, scope, formals[i + 1..], args[i + 1..])
  {
    assert formals[i..][1..] == formals[i + 1..];
    assert args[i..][1..] == args[i + 1..];
  }

  /** `check_subroutine_call`. */
  function SubroutineCallSpec(table: map<string, Symbol>, scope: seq<string>, name: string, args: seq<Expr>): (r: Outcome)
    requires TableOK(table)
    ensures r.Pass? <==>
              var found := Resolve(table, scope, name, AnySymbol);
              found.Some? && found.value.kind == SubroutineSymbol
              && |args| == |found.value.formalParams.params|
              && forall i :: 0 <= i < |args| ==> ArgumentCheck(table, scope, found.value.formalParams.params[i], args[i]).Pass?
    ensures Resolve(table, scope, name, AnySymbol).None? ==> r == Fail(Undeclared)
  {
    var found := Resolve(table, scope, name, AnySymbol);
    if found.None? then Fail(Undeclared)
    else
      var s := found.value;
      if s.kind != SubroutineSymbol then Fail(NotCallable)
      else if |args| != |s.formalParams.params| then Fail(ArityMismatch)
      else ArgumentsCheck(table, scope, s.formalParams.params, args)
  }

  /** `PrimitiveType.is_type_integer`, which also accepts a kind's name. */
  predicate IsIntegerTy(t: Ty) {
    PtLike(t).Some? && IsTypeInteger(PtLike(t).value)
  }

  /** `int(text)` for the integer texts the model reads. */
  function PyInt(text: string): (r: Option<int>)
    ensures r.Some? <==> IsValueInteger(text)
  {
    if IsValueInteger(text) then Some(IntegerValue(text)) else None
  }

  /** The type `param.type` of an index: a variable's symbol type or a
      literal's kind; other nodes have no `type`. */
  function IndexType(table: map<string, Symbol>, scope: seq<string>, param: Expr): Result<Ty> {
    match param
    case Variable(id) =>
      var v :- AsResult(Resolve(table, scope, id, AnySymbol));
      Ok(v.ty)
    case Value(_, k) => Ok(Prim(k))
    case _ => Err(RuntimeCrash)
  }

  /** One index against its range: it must have an integer type, and a
      literal index must lie within literal bounds. */
  function IndexCheck(table: map<string, Symbol>, scope: seq<string>, range: ArrayRange, param: Expr): (r: Outcome)
    ensures r.Pass? ==> IndexType(table, scope, param).Ok? && IsIntegerTy(IndexType(table, scope, param).value)
    ensures r.Pass? && param.Value? ==>
              range.leftBound.Value? && range.rightBound.Value?
              && PyInt(range.leftBound.value).Some? && PyInt(param.value).Some? && PyInt(range.rightBound.value).Some?
              && PyInt(range.leftBound.value).value <= PyInt(param.value).value <= PyInt(range.rightBound.value).value
  {
    var t := IndexType(table, scope, param);
    if t.Err? then Fail(t.error)
    else if !IsIntegerTy(t.value) then Fail(TypeMismatch)
    else if !param.Value? then Pass
    else if !range.leftBound.Value? || !range.rightBound.Value? then Fail(RuntimeCrash)
    else
      // the chained comparison reads the right bound only once the left
      // comparison holds
      var l, v := PyInt(range.leftBound.value), PyInt(param.value);
      if l.None? || v.None? then Fail(RuntimeCrash)
      else if !(l.value <= v.value) then Fail(BoundsError)
      else
        var h := PyInt(range.rightBound.value);
        if h.None? then Fail(RuntimeCrash)
        else Need(v.value <= h.value, BoundsError)
  }

  /** A literal index below a literal left bound is out of bounds whatever
      the right bound holds, even a text that is not a numeral. */
  lemma BelowLeftBoundIgnoresRight(table: map<string, Symbol>, scope: seq<string>, left: string, lk: PrimitiveType,
                                   right: Expr, text: string, k: PrimitiveType)
    requires IsTypeInteger(k) && IsValueInteger(left) && IsValueInteger(text) && right.Value?
    requires IntegerValue(text) < IntegerValue(left)
    ensures IndexCheck(table, scope, ArrayRange(Value(left, lk), right), Value(text, k)) == Fail(BoundsError)
  {
    assert IsIntegerTy(Prim(k));
  }

  function IndexesCheck(table: map<string, Symbol>, scope: seq<string>, ranges: seq<ArrayRange>, params: seq<Expr>): (r: Outcome)
    requires |ranges| == |params|
    ensures r.Pass? <==> forall i :: 0 <= i < |params| ==> IndexCheck(table, scope, ranges[i], params[i]).Pass?
    decreases |params|
  {
    if |params| == 0 then Pass
    else
      var first := IndexCheck(table, scope, ranges[0], params[0]);
      if first.Fail? then first
      else
        var rest := IndexesCheck(table, scope, ranges[1..], params[1..]);
        assert forall i :: 1 <= i < |params| ==> ranges[1..][i - 1] == ranges[i] && params[1..][i - 1] == params[i];
        rest
  }

  /** `check_array_access`. */
  function ArrayAccessSpec(table: map<string, Symbol>, scope: seq<string>, name: string, params: seq<Expr>): (r: Outcome)
    requires TableOK(table)
    ensures r.Pass? <==>
              var found := Resolve(table, scope, name, AnySymbol);
              found.Some? && Unwrap(found.value.ty).Array?
              && |params| == |Unwrap(found.value.ty).arr.ranges|
              && forall i :: 0 <= i < |params| ==> IndexCheck(table, scope, Unwrap(found.value.ty).arr.ranges[i], params[i]).Pass?
  {
    var found := Resolve(table, scope, name, AnySymbol);
    if found.None? then Fail(Undeclared)
    else
      var u := Unwrap(found.value.ty);
      if !u.Array? then Fail(NotCallable)
      else if |u.arr.ranges| != |params| then Fail(ArityMismatch)
      else IndexesCheck(table, scope, u.arr.ranges, params)
  }

  /** `check_assign`. */
  function AssignSpec(table: map<string, Symbol>, scope: seq<string>, name: string, condition: Expr): (r: Outcome)
    requires TableOK(table)
    ensures Resolve(table, scope, name, AnySymbol).Some? && Resolve(table, scope, name, AnySymbol).value.isImmutable
            ==> r == Fail(ImmutableAssign)
    ensures r.Pass? <==>
              var found := Resolve(table, scope, name, AnySymbol);
              var c := ArgumentTyped(table, scope, condition);
              found.Some? && !found.value.isImmutable && c.Ok?
              && PredictSpec(table, scope, c.value).Ok?
              && (PredictSpecIsRanked(table, scope, c.value);
                  Compatible(found.value.ty, PredictSpec(table, scope, c.value).value))
  {
    var found := Resolve(table, scope, name, AnySymbol);
    if found.None? then Fail(Undeclared)
    else if found.value.isImmutable then Fail(ImmutableAssign)
    else
      var c := ArgumentTyped(table, scope, condition);
      if c.Err? then Fail(c.error)
      else
        var t := PredictSpec(table, scope, c.value);
        PredictSpecIsRanked(table, scope, c.value);
        if t.Err? then Fail(t.error)
        else Need(Compatible(found.value.ty, t.value), TypeMismatch)
  }

  /** Assigning a literal to a mutable variable of a primitive kind passes
      exactly when `assign_support` holds the (target, literal) pair. */
  lemma AssignLiteral(table: map<string, Symbol>, scope: seq<string>, name: string, v: Symbol,
                      text: string, target: PrimitiveType, source: PrimitiveType)
    requires TableOK(table) && Resolve(table, scope, name, AnySymbol) == Some(v)
    requires !v.isImmutable && v.ty == Prim(target)
    ensures AssignSpec(table, scope, name, Value(text, source)).Pass? <==> AssignSupport(target, source)
  {
    CompatibleKinds(target, source);
  }

  /** A literal integer index into a one-dimensional array with literal
      bounds passes exactly when it lies in the closed range. */
  lemma LiteralIndexInBounds(table: map<string, Symbol>, scope: seq<string>, name: string, v: Symbol,
                             left: string, right: string, lk: PrimitiveType, rk: PrimitiveType,
                             text: string, k: PrimitiveType)
    requires TableOK(table) && Resolve(table, scope, name, AnySymbol) == Some(v)
    requires Unwrap(v.ty).Array? && Unwrap(v.ty).arr.ranges == [ArrayRange(Value(left, lk), Value(right, rk))]
    requires IsTypeInteger(k) && IsValueInteger(left) && IsValueInteger(right) && IsValueInteger(text)
    ensures ArrayAccessSpec(table, scope, name, [Value(text, k)]).Pass? <==>
            IntegerValue(left) <= IntegerValue(text) <= IntegerValue(right)
  {
    var range := ArrayRange(Value(left, lk), Value(right, rk));
    assert IsIntegerTy(Prim(k));
    if IntegerValue(left) <= IntegerValue(text) <= IntegerValue(right) {
      assert IndexCheck(table, scope, range, Value(text, k)).Pass?;
    }
  }

  // ---------------------------------------------------------------------
  // The walk's explicit stack

  /** A stack entry of `__post_order_condition`: a node met for the first
      time, or an operator node met again once its operands are done (the
      source tells the two apart by the `visited` list). */
  datatype Frame = Visit(e: Expr) | Done(e: Expr)

  function Size(e: Expr): nat {
    match e
    case Unary(l, _) => 1 + Size(l)
    case Binary(l, r, _) => 1 + Size(l) + Size(r)
    case _ => 1
  }

  /** The slots a frame still owes the result. */
  function FrameSlots(f: Frame): seq<Slot> {
    match f
    case Visit(e) => Shape(e)
    case Done(e) =>
      if e.Binary? && IsValueOperator(e.operationType) then [OpSlot(e.operationType)]
      else if e.Unary? then [OpSlot(e.operationType)]
      else []
  }

  /** The slots owed by the whole stack, top (last element) first. */
  function Pending(stack: seq<Frame>): seq<Slot>
    decreases |stack|
  {
    if |stack| == 0 then [] else FrameSlots(stack[|stack| - 1]) + Pending(stack[..|stack| - 1])
  }

  function FrameWeight(f: Frame): nat {
    match f
    case Visit(e) => 2 * Size(e)
    case Done(_) => 1
  }

  function StackWeight(stack: seq<Frame>): nat
    decreases |stack|
  {
    if |stack| == 0 then 0 else FrameWeight(stack[|stack| - 1]) + StackWeight(stack[..|stack| - 1])
  }

  lemma Push(stack: seq<Frame>, f: Frame)
    ensures Pending(stack + [f]) == FrameSlots(f) + Pending(stack)
    ensures StackWeight(stack + [f]) == FrameWeight(f) + StackWeight(stack)
  {
    assert (stack + [f])[..|stack|] == stack;
  }

  lemma ResolveSlotsPrefixError(table: map<string, Symbol>, scope: seq<string>, a: seq<Slot>, b: seq<Slot>)
    requires TableOK(table) && ResolveSlots(table, scope, a).Err?
    ensures ResolveSlots(table, scope, a + b) == ResolveSlots(table, scope, a)
  {
    ResolveSlotsConcat(table, scope, a, b);
  }

  lemma ResolveSlotsSnoc(table: map<string, Symbol>, scope: seq<string>, a: seq<Slot>, slot: Slot)
    requires TableOK(table)
    ensures ResolveSlots(table, scope, a + [slot]) ==
            (if ResolveSlots(table, scope, a).Err? then ResolveSlots(table, scope, a)
             else if ResolveSlot(table, scope, slot).Err? then Err(ResolveSlot(table, scope, slot).error)
             else Ok(ResolveSlots(table, scope, a).value + [ResolveSlot(table, scope, slot).value]))
  {
    assert (a + [slot])[..|a|] == a;
  }

  lemma HitsSnoc(table: map<string, Symbol>, scope: seq<string>, a: seq<Slot>, slot: Slot, s: Symbol)
    ensures Hits(table, scope, a + [slot], s) ==
            Hits(table, scope, a, s) + (if slot.VarSlot? && Resolve(table, scope, slot.identifier, AnySymbol) == Some(s) then 1 else 0)
  {
    assert (a + [slot])[..|a|] == a;
  }

  /** Following one alias leaves exactly its symbol behind. */
  lemma ChainStep(t: Ty)
    requires TyOK(t) && t.Alias?
    ensures AliasChain(t) == [t.sym] + AliasChain(t.sym.ty)
    ensures t.sym !in AliasChain(t.sym.ty)
  {
    AliasChainRanks(t.sym.ty);
    var chain := AliasChain(t.sym.ty);
    assert forall i :: 0 <= i < |chain| ==> chain[i] != t.sym;
  }

  /** Replacing a binary node's frame by its operator frame and its two
      operand frames leaves the owed slots as they were. */
  lemma ExpandBinary(stack: seq<Frame>, e: Expr)
    requires e.Binary?
    ensures Pending(stack + [Done(e), Visit(e.right), Visit(e.left)]) == FrameSlots(Visit(e)) + Pending(stack)
  {
    var s1 := stack + [Done(e)];
    var s2 := s1 + [Visit(e.right)];
    assert s2 + [Visit(e.left)] == stack + [Done(e), Visit(e.right), Visit(e.left)];
    Push(stack, Done(e));
    Push(s1, Visit(e.right));
    Push(s2, Visit(e.left));
    assert FrameSlots(Visit(e)) == Shape(e.left) + Shape(e.right) + FrameSlots(Done(e));
    AppendAssoc(Shape(e.right), FrameSlots(Done(e)), Pending(stack));
    AppendAssoc(Shape(e.left), Shape(e.right) + FrameSlots(Done(e)), Pending(stack));
    AppendAssoc(Shape(e.left), Shape(e.right), FrameSlots(Done(e)));
  }

  /** The same replacement lowers the weight of the stack. */
  lemma ExpandBinaryWeight(stack: seq<Frame>, e: Expr)
    requires e.Binary?
    ensures StackWeight(stack + [Done(e), Visit(e.right), Visit(e.left)]) < FrameWeight(Visit(e)) + StackWeight(stack)
  {
    var s1 := stack + [Done(e)];
    var s2 := s1 + [Visit(e.right)];
    assert s2 + [Visit(e.left)] == stack + [Done(e), Visit(e.right), Visit(e.left)];
    Push(stack, Done(e));
    Push(s1, Visit(e.right));
    Push(s2, Visit(e.left));
  }

  lemma ExpandUnary(stack: seq<Frame>, e: Expr)
    requires e.Unary?
    ensures Pending(stack + [Done(e), Visit(e.left)]) == FrameSlots(Visit(e)) + Pending(stack)
    ensures StackWeight(stack + [Done(e), Visit(e.left)]) < FrameWeight(Visit(e)) + StackWeight(stack)
  {
    Push(stack, Done(e));
    Push(stack + [Done(e)], Visit(e.left));
    assert stack + [Done(e), Visit(e.left)] == stack + [Done(e)] + [Visit(e.left)];
  }

  /** A frame that pushes nothing owes at most one slot. */
  lemma LeafSlots(f: Frame)
    requires !(f.Visit? && (f.e.Binary? || f.e.Unary?))
    ensures |FrameSlots(f)| <= 1 && FrameWeight(f) > 0
  {
  }

  /** The use-count increment of looking one slot up. */
  function SlotCharge(score: int, table: map<string, Symbol>, scope: seq<string>, slot: Slot, s: Symbol): int {
    if slot.VarSlot? then LookupCharge(score, Resolve(table, scope, slot.identifier, AnySymbol), s) else 0
  }

  /** The use-count increment a lookup by the walk makes. */
  predicate Charged(score: int, s: Symbol) {
    score != 0 && s.kind != TypeSymbol
  }

  // ---------------------------------------------------------------------
  // The semantic module

  /** `SemanticModule`: the scope table from qualified names to symbols, and
      the counter the parser raises while it reads expressions; lookups made
      while the counter is non-zero count as uses. */
  class SemanticModule {
    var table: map<string, Symbol>
    var useCountScore: int

    ghost predicate Valid()
      reads this
    {
      TableOK(table)
    }

    constructor ()
      ensures Valid() && table == map[] && useCountScore == 0
    {
      table := map[];
      useCountScore := 0;
    }

    /** `__add_to_scope`: refuse a name already held at this scope; otherwise
        count one use of every alias the new symbol's type goes through and
        enter the symbol. */
    method AddToScope(scope: seq<string>, identifier: string, variable: Symbol) returns (r: Outcome)
      requires Valid() && SymOK(variable) && variable !in table.Values
      requires variable.ty.Alias? ==> variable.ty.sym in table.Values
      modifies this, table.Values
      ensures Valid() && useCountScore == old(useCountScore)
      ensures var key := ConvertToName(scope, identifier);
              if key in old(table) then r == Fail(DuplicateName) && table == old(table)
              else r == Pass && table == old(table)[key := variable]
      ensures forall s :: s in old(table).Values ==>
                s.useCount == old(s.useCount) + (if r.Pass? && s in AliasChain(variable.ty) then 1 else 0)
      ensures variable.useCount == old(variable.useCount)
    {
      var key := ConvertToName(scope, identifier);
      if key in table {
        return Fail(DuplicateName);
      }
      CountAliasUses(variable.ty);
      ghost var before := table;
      table := table[key := variable];
      assert forall s :: s in table.Values ==> s == variable || s in before.Values by {
        forall s | s in table.Values ensures s == variable || s in before.Values {
          var k :| k in table && table[k] == s;
          if k != key { assert k in before && before[k] == s; }
        }
      }
      assert forall s :: s in before.Values ==> s in table.Values by {
        forall s | s in before.Values ensures s in table.Values {
          var k :| k in before && before[k] == s;
          assert table[k] == s;
        }
      }
      r := Pass;
    }

    /** The loop of `__add_to_scope`: one more use of every alias on the
        chain. */
    method CountAliasUses(t0: Ty)
      requires Valid() && TyOK(t0) && (t0.Alias? ==> t0.sym in table.Values)
      modifies table.Values
      ensures forall s :: s in table.Values ==> s.useCount == old(s.useCount) + (if s in AliasChain(t0) then 1 else 0)
    {
      var t := t0;
      ChainInTable(table, t0);
      while t.Alias?
        invariant TyOK(t) && (t.Alias? ==> t.sym in table.Values)
        invariant forall s :: s in table.Values ==>
                    s.useCount == old(s.useCount) + (if s in AliasChain(t0) && s !in AliasChain(t) then 1 else 0)
        invariant forall s :: s in AliasChain(t) ==> s in AliasChain(t0)
        decreases TySize(t)
      {
        ChainStep(t);
        ChainInTable(table, t);
        t.sym.useCount := t.sym.useCount + 1;
        t := t.sym.ty;
      }
    }

    /** `__get_object`: the entry at the longest scope prefix, counted as a
        use when the counter is set and it is not a type. */
    method GetObject(scope: seq<string>, identifier: string, filter: Filter) returns (r: Result<Symbol>)
      requires Valid()
      modifies table.Values
      ensures r == AsResult(Resolve(table, scope, identifier, filter))
      ensures forall s :: s in table.Values ==>
                s.useCount == old(s.useCount) + LookupCharge(useCountScore, Resolve(table, scope, identifier, filter), s)
    {
      var localScope := scope;
      var counter := |scope|;
      while counter >= 0
        invariant counter >= -1
        invariant counter >= 0 ==> (counter == |localScope| &&
                  Resolve(table, localScope, identifier, filter) == Resolve(table, scope, identifier, filter))
        invariant counter < 0 ==> Resolve(table, scope, identifier, filter).None?
        decreases counter + 1
      {
        var fullName := ConvertToName(localScope, identifier);
        if fullName in table && Accepts(filter, table[fullName]) {
          var entry := table[fullName];
          if useCountScore != 0 && entry.kind != TypeSymbol {
            entry.useCount := entry.useCount + 1;
          }
          return Ok(entry);
        }
        if |localScope| > 0 {
          localScope := localScope[..|localScope| - 1];
        }
        counter := counter - 1;
      }
      r := Err(Undeclared);
    }

    /** `get_type`: only type symbols are found, and a type lookup is never
        counted as a use. */
    method GetType(scope: seq<string>, typeName: string) returns (r: Result<Symbol>)
      requires Valid()
      modifies table.Values
      ensures r == AsResult(Resolve(table, scope, typeName, TypesOnly))
      ensures r.Ok? ==> r.value.kind == TypeSymbol
      ensures forall s :: s in table.Values ==> s.useCount == old(s.useCount)
    {
      r := GetObject(scope, typeName, TypesOnly);
    }

    /** `get_variable`: any symbol; a subroutine or an alias-typed variable
        is charged fifteen more uses. */
    method GetVariable(scope: seq<string>, variableName: string) returns (r: Result<Symbol>)
      requires Valid()
      modifies table.Values
      ensures r == AsResult(Resolve(table, scope, variableName, AnySymbol))
      ensures forall s :: s in table.Values ==>
                s.useCount == old(s.useCount) + LookupCharge(useCountScore, Resolve(table, scope, variableName, AnySymbol), s)
                              + VariableCharge(Resolve(table, scope, variableName, AnySymbol), s)
    {
      r := GetObject(scope, variableName, AnySymbol);
      if r.Ok? && (r.value.kind == SubroutineSymbol || r.value.ty.Alias?) {
        r.value.useCount := r.value.useCount + 15;
      }
    }

    /** `add_variable`: a variable (or, with `constant`, an immutable one). */
    method AddVariable(scope: seq<string>, identifier: string, ty: Ty, constant: bool) returns (r: Outcome)
      requires Valid() && TyOK(ty) && (ty.Alias? ==> ty.sym in table.Values)
      modifies this, table.Values
      ensures Valid() && useCountScore == old(useCountScore)
      ensures var key := ConvertToName(scope, identifier);
              if key in old(table) then r == Fail(DuplicateName) && table == old(table)
              else r == Pass && key in table && table == old(table)[key := table[key]] && fresh(table[key])
                   && table[key].kind == VariableSymbol && table[key].identifier == identifier
                   && table[key].ty == ty && table[key].isImmutable == constant && table[key].useCount == 0
      ensures forall s :: s in old(table).Values ==>
                s.useCount == old(s.useCount) + (if r.Pass? && s in AliasChain(ty) then 1 else 0)
    {
      var variable := new Symbol(VariableSymbol, identifier, ty, constant, FormalParams([]));
      r := AddToScope(scope, identifier, variable);
    }

    /** `add_type`: a type alias naming `originalType`. */
    method AddType(scope: seq<string>, identifier: string, originalType: Ty) returns (r: Outcome)
      requires Valid() && TyOK(originalType) && (originalType.Alias? ==> originalType.sym in table.Values)
      modifies this, table.Values
      ensures Valid() && useCountScore == old(useCountScore)
      ensures var key := ConvertToName(scope, identifier);
              if key in old(table) then r == Fail(DuplicateName) && table == old(table)
              else r == Pass && key in table && table == old(table)[key := table[key]] && fresh(table[key])
                   && table[key].kind == TypeSymbol && table[key].identifier == identifier
                   && table[key].ty == originalType && !table[key].isImmutable && table[key].useCount == 0
      ensures forall s :: s in old(table).Values ==>
                s.useCount == old(s.useCount) + (if r.Pass? && s in AliasChain(originalType) then 1 else 0)
    {
      var variable := new Symbol(TypeSymbol, identifier, originalType, false, FormalParams([]));
      r := AddToScope(scope, identifier, variable);
    }

    /** `add_subroutine`: a subroutine symbol, whose use count starts at
        2**32 - 1 so that it is never pruned. */
    method AddSubroutine(scope: seq<string>, identifier: string, ty: Ty, formalParams: FormalParams) returns (r: Outcome)
      requires Valid() && TyOK(ty) && (ty.Alias? ==> ty.sym in table.Values) && ParamsOK(formalParams)
      modifies this, table.Values
      ensures Valid() && useCountScore == old(useCountScore)
      ensures var key := ConvertToName(scope, identifier);
              if key in old(table) then r == Fail(DuplicateName) && table == old(table)
              else r == Pass && key in table && table == old(table)[key := table[key]] && fresh(table[key])
                   && table[key].kind == SubroutineSymbol && table[key].identifier == identifier
                   && table[key].ty == ty && table[key].formalParams == formalParams
                   && table[key].useCount == SubroutineInitialCount
      ensures forall s :: s in old(table).Values ==>
                s.useCount == old(s.useCount) + (if r.Pass? && s in AliasChain(ty) then 1 else 0)
    {
      var variable := new Symbol(SubroutineSymbol, identifier, ty, false, formalParams);
      r := AddToScope(scope, identifier, variable);
    }

    /** One element of the walk's result: a literal's kind, an operator, or
        the primitive type of a variable's symbol, looked up (and counted)
        with `__get_object`. */
    method ResolveSlotStep(slot: Slot, scope: seq<string>) returns (r: Result<Item>)
      requires Valid()
      modifies table.Values
      ensures r == ResolveSlot(table, scope, slot)
      ensures forall s :: s in table.Values ==>
                s.useCount == old(s.useCount) + SlotCharge(useCountScore, table, scope, slot, s)
    {
      match slot
      case TypeSlot(k) =>
        r := Ok(TypeItem(Prim(k)));
      case OpSlot(op) =>
        r := Ok(OpItem(op));
      case VarSlot(id) =>
        var found := GetObject(scope, id, AnySymbol);
        if found.Err? {
          return Err(found.error);
        }
        var p := GetPrimitiveType(found.value.ty);
        if p.Err? {
          return Err(p.error);
        }
        r := Ok(TypeItem(p.value));
    }

    /** A frame that pushes nothing: a leaf, or an operator node whose
        operands are done, adds at most one element to the result. */
    method VisitLeaf(frame: Frame, scope: seq<string>, ghost consumed: seq<Slot>, result: seq<Item>)
      returns (r: Result<seq<Item>>, ghost consumed': seq<Slot>)
      requires Valid() && ResolveSlots(table, scope, consumed) == Ok(result)
      requires !(frame.Visit? && (frame.e.Binary? || frame.e.Unary?))
      modifies table.Values
      ensures consumed' == consumed + FrameSlots(frame)
      ensures r == ResolveSlots(table, scope, consumed')
      ensures forall s :: s in table.Values ==>
                s.useCount == old(s.useCount) + (if Charged(useCountScore, s)
                                                 then Hits(table, scope, consumed', s) - Hits(table, scope, consumed, s) else 0)
    {
      LeafSlots(frame);
      if |FrameSlots(frame)| == 0 {
        assert consumed + FrameSlots(frame) == consumed;
        return Ok(result), consumed;
      }
      var slot := FrameSlots(frame)[0];
      assert FrameSlots(frame) == [slot];
      consumed' := consumed + [slot];
      var item := ResolveSlotStep(slot, scope);
      ResolveSlotsSnoc(table, scope, consumed, slot);
      forall s | s in table.Values
        ensures s.useCount == old(s.useCount) + (if Charged(useCountScore, s)
                                                 then Hits(table, scope, consumed', s) - Hits(table, scope, consumed, s) else 0)
      {
        HitsSnoc(table, scope, consumed, slot, s);
      }
      if item.Err? {
        return Err(item.error), consumed';
      }
      r := Ok(result + [item.value]);
    }

    /** `__post_order_condition`: the post-order list of an expression,
        looking each variable up (and counting the use) as it is met. */
    method PostOrderCondition(top: Expr, scope: seq<string>) returns (r: Result<seq<Item>>)
      requires Valid()
      modifies table.Values
      ensures r == ResolveSlots(table, scope, Shape(top))
      ensures r.Ok? ==> forall s :: s in table.Values ==>
                s.useCount == old(s.useCount) + (if Charged(useCountScore, s) then Hits(table, scope, Shape(top), s) else 0)
    {
      var stack := [Visit(top)];
      var result: seq<Item> := [];
      ghost var consumed: seq<Slot> := [];
      Push([], Visit(top));
      while |stack| > 0
        invariant consumed + Pending(stack) == Shape(top)
        invariant ResolveSlots(table, scope, consumed) == Ok(result)
        invariant forall s :: s in table.Values ==>
                    s.useCount == old(s.useCount) + (if Charged(useCountScore, s) then Hits(table, scope, consumed, s) else 0)
        decreases StackWeight(stack)
      {
        var frame := stack[|stack| - 1];
        ghost var before := stack;
        stack := stack[..|stack| - 1];
        assert before == stack + [frame];
        Push(stack, frame);
        if frame.Visit? && frame.e.Binary? {
          ExpandBinary(stack, frame.e);
          ExpandBinaryWeight(stack, frame.e);
          stack := stack + [Done(frame.e), Visit(frame.e.right), Visit(frame.e.left)];
        } else if frame.Visit? && frame.e.Unary? {
          ExpandUnary(stack, frame.e);
          stack := stack + [Done(frame.e), Visit(frame.e.left)];
        } else {
          LeafSlots(frame);
          AppendAssoc(consumed, FrameSlots(frame), Pending(stack));
          var step;
          step, consumed := VisitLeaf(frame, scope, consumed, result);
          if step.Err? {
            ResolveSlotsPrefixError(table, scope, consumed, Pending(stack));
            return Err(step.error);
          }
          result := step.value;
        }
      }
      assert consumed == Shape(top);
      r := Ok(result);
    }

    /** The type of an expression: its own type when it carries one,
        otherwise the fold of its post-order list. */
    method PredictConditionType(c: Typed, scope: seq<string>) returns (r: Result<Ty>)
      requires Valid()
      modifies table.Values
      ensures r == PredictSpec(table, scope, c)
      ensures OwnType(c).Some? ==> forall s :: s in table.Values ==> s.useCount == old(s.useCount)
      ensures OwnType(c).None? && ResolveSlots(table, scope, Shape(c.e)).Ok? ==>
                forall s :: s in table.Values ==>
                  s.useCount == old(s.useCount) + (if Charged(useCountScore, s) then Hits(table, scope, Shape(c.e), s) else 0)
    {
      var own := OwnType(c);
      if own.Some? {
        return Ok(own.value);
      }
      var items := PostOrderCondition(c.e, scope);
      if items.Err? {
        return Err(items.error);
      }
      r := FoldTypeOperatorVector(items.value);
    }

    /** `check_type_operation_support`. */
    method CheckTypeOperationSupport(c: Typed, op: Operator, scope: seq<string>) returns (r: Outcome)
      requires Valid()
      modifies table.Values
      ensures r == OperationSupportSpec(table, scope, c, op)
    {
      var predicted := PredictConditionType(c, scope);
      if predicted.Err? {
        return Fail(predicted.error);
      }
      r := CheckItemSupport(TypeItem(predicted.value), OpItem(op));
    }

    /** The argument of a call, or the assigned expression: a bare variable
        stands for its symbol. */
    method ArgumentTypedStep(arg: Expr, scope: seq<string>) returns (r: Result<Typed>)
      requires Valid()
      modifies table.Values
      ensures r == ArgumentTyped(table, scope, arg)
    {
      if arg.Variable? {
        var v := GetVariable(scope, arg.identifier);
        if v.Err? {
          return Err(v.error);
        }
        return Ok(OfSymbol(v.value));
      }
      r := Ok(OfExpr(arg));
    }

    /** `check_subroutine_call`. */
    method CheckSubroutineCall(scope: seq<string>, subroutineName: string, inputParams: seq<Expr>) returns (r: Outcome)
      requires Valid()
      modifies table.Values
      ensures r == SubroutineCallSpec(table, scope, subroutineName, inputParams)
    {
      var subroutine := GetVariable(scope, subroutineName);
      if subroutine.Err? {
        return Fail(subroutine.error);
      }
      var sub := subroutine.value;
      if sub.kind != SubroutineSymbol {
        return Fail(NotCallable);
      }
      var formalParams := sub.formalParams.params;
      if |inputParams| != |formalParams| {
        return Fail(ArityMismatch);
      }
      var index := 0;
      while index < |formalParams|
        invariant 0 <= index <= |formalParams|
        invariant ArgumentsCheck(table, scope, formalParams, inputParams) ==
                  ArgumentsCheck(table, scope, formalParams[index..], inputParams[index..])
      {
        ArgumentsCheckFrom(table, scope, formalParams, inputParams, index);
        var checked := CheckArgument(formalParams[index], inputParams[index], scope);
        if checked.Fail? {
          return checked;
        }
        index := index + 1;
      }
      r := Pass;
    }

    /** One pass of the argument loop of `check_subroutine_call`: the
        argument's type, predicted, against the formal parameter's. */
    method CheckArgument(formalParam: Decl, arg: Expr, scope: seq<string>) returns (r: Outcome)
      requires Valid() && TyOK(formalParam.ty)
      modifies table.Values
      ensures r == ArgumentCheck(table, scope, formalParam, arg)
    {
      var callParam := ArgumentTypedStep(arg, scope);
      if callParam.Err? {
        return Fail(callParam.error);
      }
      var formalType := PredictConditionType(OfDecl(formalParam), scope);
      var callType := PredictConditionType(callParam.value, scope);
      if callType.Err? {
        return Fail(callType.error);
      }
      PredictSpecIsRanked(table, scope, callParam.value);
      var compatible := CheckTypeCompatibility(formalType.value, callType.value);
      if !compatible {
        return Fail(TypeMismatch);
      }
      r := Pass;
    }

    /** The type of an index: `param.type` of its symbol or literal. */
    method IndexTypeStep(param: Expr, scope: seq<string>) returns (r: Result<Ty>)
      requires Valid()
      modifies table.Values
      ensures r == IndexType(table, scope, param)
    {
      if param.Variable? {
        var v := GetVariable(scope, param.identifier);
        if v.Err? {
          return Err(v.error);
        }
        return Ok(v.value.ty);
      }
      if param.Value? {
        return Ok(Prim(param.kind));
      }
      r := Err(RuntimeCrash);
    }

    /** `check_array_access`. */
    method CheckArrayAccess(scope: seq<string>, variableName: string, params: seq<Expr>) returns (r: Outcome)
      requires Valid()
      modifies table.Values
      ensures r == ArrayAccessSpec(table, scope, variableName, params)
    {
      var variable := GetVariable(scope, variableName);
      if variable.Err? {
        return Fail(variable.error);
      }
      var variableType := variable.value.ty;
      while variableType.Alias?
        invariant TyOK(variableType) && Unwrap(variableType) == Unwrap(variable.value.ty)
        decreases TySize(variableType)
      {
        variableType := variableType.sym.ty;
      }
      if !variableType.Array? {
        return Fail(NotCallable);
      }
      var ranges := variableType.arr.ranges;
      if |ranges| != |params| {
        return Fail(ArityMismatch);
      }
      var index := 0;
      while index < |ranges|
        invariant 0 <= index <= |ranges|
        invariant ArrayAccessSpec(table, scope, variableName, params) ==
                  IndexesCheck(table, scope, ranges[index..], params[index..])
      {
        var param := params[index];
        assert ranges[index..][1..] == ranges[index + 1..];
        assert params[index..][1..] == params[index + 1..];
        var paramType := IndexTypeStep(param, scope);
        if paramType.Err? {
          return Fail(paramType.error);
        }
        if !IsIntegerTy(paramType.value) {
          return Fail(TypeMismatch);
        }
        if param.Value? {
          var range := ranges[index];
          if !range.leftBound.Value? || !range.rightBound.Value? {
            return Fail(RuntimeCrash);
          }
          var leftBound, value := PyInt(range.leftBound.value), PyInt(param.value);
          if leftBound.None? || value.None? {
            return Fail(RuntimeCrash);
          }
          if !(leftBound.value <= value.value) {
            return Fail(BoundsError);
          }
          var rightBound := PyInt(range.rightBound.value);
          if rightBound.None? {
            return Fail(RuntimeCrash);
          }
          if !(value.value <= rightBound.value) {
            return Fail(BoundsError);
          }
        }
        index := index + 1;
      }
      r := Pass;
    }

    /** `check_assign`. */
    method CheckAssign(scope: seq<string>, variableName: string, condition: Expr) returns (r: Outcome)
      requires Valid()
      modifies table.Values
      ensures r == AssignSpec(table, scope, variableName, condition)
    {
      var variable := GetVariable(scope, variableName);
      if variable.Err? {
        return Fail(variable.error);
      }
      if variable.value.isImmutable {
        return Fail(ImmutableAssign);
      }
      var c := ArgumentTypedStep(condition, scope);
      if c.Err? {
        return Fail(c.error);
      }
      var conditionType := PredictConditionType(c.value, scope);
      if conditionType.Err? {
        return Fail(conditionType.error);
      }
      PredictSpecIsRanked(table, scope, c.value);
      var compatible := CheckTypeCompatibility(variable.value.ty, conditionType.value);
      if !compatible {
        return Fail(TypeMismatch);
      }
      r := Pass;
    }
  }
}
