/** The operator and primitive-kind enumerations of the translator, with their
    byte widths, legal-operator tuples and classification helpers. */
module SupportClasses {
  import opened Wrappers

  datatype ProgramType = ProgramUnit | ModuleUnit

  datatype SubroutineType = Procedure | Function {
    function Name(): string {
      match this
      case Procedure => "PROCEDURE"
      case Function => "FUNCTION"
    }
  }

  /** The operators.  The source names each member by a string; here each
      member is its position in the declaration order and the constants below
      carry the member names. */
  newtype Operator = i: int | 0 <= i < 25
  {
    /** The member's string value, which is also its member name. */
    function Name(): string {
      OperatorNames()[this as int]
    }

    /** The member's position in `AllOperators()`. */
    function Index(): (i: nat)
      ensures i < |AllOperators()| && AllOperators()[i] == this
    {
      this as nat
    }
  }

  const Plus: Operator := 0
  const Minus: Operator := 1
  const Multiply: Operator := 2
  const Divide: Operator := 3
  const UnaryPlus: Operator := 4
  const UnaryMinus: Operator := 5
  const Not: Operator := 6
  const Equality: Operator := 7
  const NonEquality: Operator := 8
  const Greater: Operator := 9
  const Smaller: Operator := 10
  const GreaterOrEqual: Operator := 11
  const SmallerOrEqual: Operator := 12
  const Mod: Operator := 13
  const Div: Operator := 14
  const In: Operator := 15
  const Shl: Operator := 16
  const Shr: Operator := 17
  const Assign: Operator := 18
  const ArrayCall: Operator := 19
  const SubroutineCall: Operator := 20
  const ObjectCall: Operator := 21
  const And: Operator := 22
  const Or: Operator := 23
  const Xor: Operator := 24

  function OperatorNames(): seq<string> {
    ["PLUS", "MINUS", "MULTIPLY", "DIVIDE", "UNARY_PLUS", "UNARY_MINUS", "NOT", "EQUALITY",
     "NONEQUALITY", "GREATER", "SMALLER", "GREATER_OR_EQUAL", "SMALLER_OR_EQUAL", "MOD", "DIV",
     "IN", "SHL", "SHR", "ASSIGN", "ARRAY_CALL", "SUBROUTINE_CALL", "OBJECT_CALL", "AND", "OR",
     "XOR"]
  }

  /** Every member, in declaration order. */
  function AllOperators(): seq<Operator> {
    seq(25, i requires 0 <= i < 25 => i as Operator)
  }

  function FindOperator(ops: seq<Operator>, text: string): (r: Option<Operator>)
    ensures r.Some? ==> r.value in ops && r.value.Name() == text
    ensures r.None? ==> forall op :: op in ops ==> op.Name() != text
  {
    if |ops| == 0 then None
    else if ops[0].Name() == text then Some(ops[0])
    else FindOperator(ops[1..], text)
  }

  /** `Operator(text)`: the member whose value is `text`, if any. */
  function OperatorByName(text: string): (r: Option<Operator>)
    ensures r.Some? ==> r.value.Name() == text
    ensures r.None? ==> forall op: Operator :: op.Name() != text
  {
    var r := FindOperator(AllOperators(), text);
    assert r.None? ==> forall op: Operator :: AllOperators()[op.Index()] == op && op.Name() != text;
    r
  }

  /** `Operator.get_value_operators()`. */
  function ValueOperators(): seq<Operator> {
    [Plus, Minus, Multiply, Divide, UnaryPlus, UnaryMinus, Not,
     Equality, NonEquality, Greater, Smaller, GreaterOrEqual, SmallerOrEqual,
     Mod, Div]
  }

  /** `Operator.get_condition_operators()`. */
  function ConditionOperators(): seq<Operator> {
    [Greater, Smaller, Equality, NonEquality, GreaterOrEqual, SmallerOrEqual]
  }

  /** An element of a kind's operator tuple.  The BOOLEAN tuple holds, besides
      operators, the `Operator` class object itself, which equals no member. */
  datatype OperatorEntry = Op(op: Operator) | OperatorClass

  /** The primitive kinds.  As with `Operator`, each member is its position in
      the declaration order: UNDEFINED, the four unsigned and the four signed
      integer kinds by width, the four floating kinds, BOOLEAN, CHAR, STRING. */
  newtype PrimitiveType = i: int | 0 <= i < 16
  {
    /** The member's string value, which is also its member name. */
    function Name(): string {
      PrimitiveNames()[this as int]
    }

    /** The member's position in `AllPrimitiveTypes()`. */
    function Index(): (i: nat)
      ensures i < |AllPrimitiveTypes()| && AllPrimitiveTypes()[i] == this
    {
      this as nat
    }

    function ByteWeight(): int {
      if this == Undefined || this == String then -1
      else if this == Byte || this == ShortInt || this == Boolean || this == Char then 1
      else if this == Word || this == SmallInt then 2
      else if this == LongWord || this == Integer || this == Single then 4
      else if this == Decimal then 16
      else 8
    }

    /** The legal-operator tuple fixed when the member is created. */
    function Operators(): seq<OperatorEntry> {
      if IsTypeInteger(this) then
        [Op(Plus), Op(Minus), Op(Multiply), Op(Divide), Op(Div), Op(Mod), Op(Greater), Op(Smaller),
         Op(GreaterOrEqual), Op(SmallerOrEqual), Op(Equality), Op(NonEquality), Op(UnaryMinus),
         Op(UnaryPlus), Op(Not)]
      else if Single <= this <= Decimal then
        [Op(Plus), Op(Minus), Op(Multiply), Op(Divide), Op(Greater), Op(Smaller), Op(Equality),
         Op(GreaterOrEqual), Op(SmallerOrEqual), Op(NonEquality), Op(NonEquality), Op(UnaryMinus),
         Op(UnaryPlus), Op(Not)]
      else if this == Boolean then
        [Op(Not), Op(And), Op(Or), OperatorClass, Op(Xor), Op(GreaterOrEqual), Op(SmallerOrEqual),
         Op(Greater), Op(Smaller), Op(Equality), Op(Not)]
      else if this == Char || this == String then
        [Op(Plus), Op(Greater), Op(Smaller), Op(Equality), Op(NonEquality), Op(Not)]
      else []
    }

    predicate SupportOperation(operation: Operator) {
      Op(operation) in Operators()
    }
  }

  const Undefined: PrimitiveType := 0
  const Byte: PrimitiveType := 1
  const Word: PrimitiveType := 2
  const LongWord: PrimitiveType := 3
  const UInt64: PrimitiveType := 4
  const ShortInt: PrimitiveType := 5
  const SmallInt: PrimitiveType := 6
  const Integer: PrimitiveType := 7
  const Int64: PrimitiveType := 8
  const Single: PrimitiveType := 9
  const Real: PrimitiveType := 10
  const Double: PrimitiveType := 11
  const Decimal: PrimitiveType := 12
  const Boolean: PrimitiveType := 13
  const Char: PrimitiveType := 14
  const String: PrimitiveType := 15

  function PrimitiveNames(): seq<string> {
    ["UNDEFINED", "BYTE", "WORD", "LONGWORD", "UINT64", "SHORTINT", "SMALLINT", "INTEGER",
     "INT64", "SINGLE", "REAL", "DOUBLE", "DECIMAL", "BOOLEAN", "CHAR", "STRING"]
  }

  /** Every member, in declaration order. */
  function AllPrimitiveTypes(): seq<PrimitiveType> {
    seq(16, i requires 0 <= i < 16 => i as PrimitiveType)
  }

  function FindPrimitive(kinds: seq<PrimitiveType>, text: string): (r: Option<PrimitiveType>)
    ensures r.Some? ==> r.value in kinds && r.value.Name() == text
    ensures r.None? ==> forall t :: t in kinds ==> t.Name() != text
  {
    if |kinds| == 0 then None
    else if kinds[0].Name() == text then Some(kinds[0])
    else FindPrimitive(kinds[1..], text)
  }

  /** `PrimitiveType.__contains__(text)` and `PrimitiveType[text]`: the member
      whose name is `text`, if any. */
  function PrimitiveByName(text: string): (r: Option<PrimitiveType>)
    ensures r.Some? ==> r.value.Name() == text
    ensures r.None? ==> forall t: PrimitiveType :: t.Name() != text
  {
    var r := FindPrimitive(AllPrimitiveTypes(), text);
    assert r.None? ==> forall t: PrimitiveType :: AllPrimitiveTypes()[t.Index()] == t && t.Name() != text;
    r
  }

  lemma NameInjective(a: PrimitiveType, b: PrimitiveType)
    requires a.Name() == b.Name()
    ensures a == b
  {
  }

  /** Looking up a kind's own name finds that kind. */
  lemma PrimitiveByNameOfName(k: PrimitiveType)
    ensures PrimitiveByName(k.Name()) == Some(k)
  {
    var r := PrimitiveByName(k.Name());
    if r.Some? { NameInjective(r.value, k); }
  }

  function UnsignedIntegerKinds(): seq<PrimitiveType> { [Byte, Word, LongWord, UInt64] }
  function SignedIntegerKinds(): seq<PrimitiveType> { [ShortInt, SmallInt, Integer, Int64] }

  /** `get_all_integer_types()`. */
  function AllIntegerTypes(): seq<PrimitiveType> {
    [Byte, Word, LongWord, UInt64, ShortInt, SmallInt, Integer, Int64]
  }

  /** `get_float_types()`: SINGLE is listed twice and DECIMAL not at all. */
  function FloatTypes(): seq<PrimitiveType> { [Single, Real, Double, Single] }

  /** `is_type_unsigned_integer`: membership in BYTE, WORD, LONGWORD, UINT64. */
  predicate IsTypeUnsignedInteger(t: PrimitiveType) { Byte <= t <= UInt64 }

  /** `is_type_signed_integer`: membership in SHORTINT, SMALLINT, INTEGER, INT64. */
  predicate IsTypeSignedInteger(t: PrimitiveType) { ShortInt <= t <= Int64 }

  /** `is_type_integer`: membership in the eight integer kinds. */
  predicate IsTypeInteger(t: PrimitiveType) { Byte <= t <= Int64 }

  /** Membership in `get_float_types()`. */
  predicate IsFloat(t: PrimitiveType) { Single <= t <= Double }

  lemma KindListsAgree(t: PrimitiveType)
    ensures IsTypeUnsignedInteger(t) <==> t in UnsignedIntegerKinds()
    ensures IsTypeSignedInteger(t) <==> t in SignedIntegerKinds()
    ensures IsTypeInteger(t) <==> t in AllIntegerTypes()
    ensures IsFloat(t) <==> t in FloatTypes()
  {
  }

  /** The first kind of `kinds` whose width is `weight`: element 0 of the `filter` result. */
  function FirstOfWidth(kinds: seq<PrimitiveType>, weight: int): (r: Option<PrimitiveType>)
    ensures r.Some? ==> r.value in kinds && r.value.ByteWeight() == weight
    ensures r.None? ==> forall i :: 0 <= i < |kinds| ==> kinds[i].ByteWeight() != weight
  {
    if |kinds| == 0 then None
    else if kinds[0].ByteWeight() == weight then Some(kinds[0])
    else FirstOfWidth(kinds[1..], weight)
  }

  /** `get_unsigned_int_by_weight`: clamp to 8, take the first kind of that
      width, and fail (an `IndexError`) when there is none. */
  function UnsignedIntByWeight(weight: int): (r: Result<PrimitiveType>)
    ensures r.Ok? <==> weight in {1, 2, 4} || weight >= 8
    ensures r.Ok? ==> IsTypeUnsignedInteger(r.value)
                      && r.value.ByteWeight() == (if weight > 8 then 8 else weight)
    ensures r.Err? ==> r.error == NoKindOfWidth
  {
    var clamped := if weight > 8 then 8 else weight;
    var kinds := UnsignedIntegerKinds();
    match FirstOfWidth(kinds, clamped)
    case None =>
      assert kinds[0].ByteWeight() == 1 && kinds[1].ByteWeight() == 2;
      assert kinds[2].ByteWeight() == 4 && kinds[3].ByteWeight() == 8;
      Err(NoKindOfWidth)
    case Some(t) => Ok(t)
  }

  /** `get_signed_int_by_weight`. */
  function SignedIntByWeight(weight: int): (r: Result<PrimitiveType>)
    ensures r.Ok? <==> weight in {1, 2, 4} || weight >= 8
    ensures r.Ok? ==> IsTypeSignedInteger(r.value)
                      && r.value.ByteWeight() == (if weight > 8 then 8 else weight)
    ensures r.Err? ==> r.error == NoKindOfWidth
  {
    var clamped := if weight > 8 then 8 else weight;
    var kinds := SignedIntegerKinds();
    match FirstOfWidth(kinds, clamped)
    case None =>
      assert kinds[0].ByteWeight() == 1 && kinds[1].ByteWeight() == 2;
      assert kinds[2].ByteWeight() == 4 && kinds[3].ByteWeight() == 8;
      Err(NoKindOfWidth)
    case Some(t) => Ok(t)
  }

  // ---------------------------------------------------------------------
  // Properties of the enumerations

  lemma IntegerWidths(t: PrimitiveType)
    ensures IsTypeInteger(t) ==> t.ByteWeight() in {1, 2, 4, 8}
    ensures t.ByteWeight() == -1 <==> t == Undefined || t == String
  {
  }

  /** Within each integer family the width identifies the kind. */
  lemma WidthIdentifiesKind(a: PrimitiveType, b: PrimitiveType)
    requires (IsTypeUnsignedInteger(a) && IsTypeUnsignedInteger(b))
             || (IsTypeSignedInteger(a) && IsTypeSignedInteger(b))
    requires a.ByteWeight() == b.ByteWeight()
    ensures a == b
  {
  }

  lemma IntegerIsEitherFamily(t: PrimitiveType)
    ensures IsTypeInteger(t) <==> IsTypeUnsignedInteger(t) || IsTypeSignedInteger(t)
    ensures !(IsTypeUnsignedInteger(t) && IsTypeSignedInteger(t))
  {
  }

  lemma OperatorTuples(t: PrimitiveType)
    ensures IsTypeInteger(t) ==> t.SupportOperation(Div) && t.SupportOperation(Mod)
    ensures t in {Single, Real, Double, Decimal} ==> !t.SupportOperation(Div) && !t.SupportOperation(Mod)
    ensures forall op: Operator :: !Undefined.SupportOperation(op)
  {
  }

  lemma BooleanOperators(op: Operator)
    ensures Boolean.SupportOperation(op) <==>
              op == Not || op == And || op == Or || op == Xor || op == GreaterOrEqual || op == SmallerOrEqual
              || op == Greater || op == Smaller || op == Equality
    ensures !Boolean.SupportOperation(NonEquality) && !Boolean.SupportOperation(Plus)
  {
    var ops := Boolean.Operators();
    if Boolean.SupportOperation(op) {
      var i :| 0 <= i < |ops| && ops[i] == Op(op);
    } else {
      assert ops[0] == Op(Not) && ops[1] == Op(And) && ops[2] == Op(Or) && ops[4] == Op(Xor);
      assert ops[5] == Op(GreaterOrEqual) && ops[6] == Op(SmallerOrEqual) && ops[7] == Op(Greater);
      assert ops[8] == Op(Smaller) && ops[9] == Op(Equality);
    }
  }

  lemma TextOperators(op: Operator)
    ensures Char.SupportOperation(op) <==>
              op == Plus || op == Greater || op == Smaller || op == Equality || op == NonEquality || op == Not
    ensures String.SupportOperation(op) <==> Char.SupportOperation(op)
  {
  }

  lemma ConditionOperatorsAreValueOperators()
    ensures forall op :: op in ConditionOperators() ==> op in ValueOperators()
    ensures forall op :: op in [Assign, ArrayCall, SubroutineCall] ==>
              op !in ValueOperators() && op !in ConditionOperators()
  {
  }

  lemma FloatTypesShape()
    ensures FloatTypes() == [Single, Real, Double, Single]
    ensures Decimal !in FloatTypes()
    ensures forall t :: t in FloatTypes() ==> t.ByteWeight() in {4, 8}
  {
  }
}
