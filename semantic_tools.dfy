/** The promotion table, the assignment-compatibility set, the integer ranges
    and the literal classification that the semantic checker relies on. */
module SemanticTools {
  import opened Wrappers
  import opened Text
  import opened SupportClasses

  // ---------------------------------------------------------------------
  // Integer next power of two (the table builds it with log2 and ceil)

  predicate IsPowerOfTwo(n: int)
    decreases if n > 0 then n else 0
  {
    n == 1 || (n > 1 && n % 2 == 0 && IsPowerOfTwo(n / 2))
  }

  /** `2 ** ceil(log2(n))`: the smallest power of two that is at least `n`. */
  function NextPowerOfTwo(n: nat): (r: nat)
    requires n >= 1
    ensures n <= r < 2 * n
  {
    if n <= 1 then 1 else 2 * NextPowerOfTwo((n + 1) / 2)
  }

  lemma {:induction false} NextPowerOfTwoIsPower(n: nat)
    requires n >= 1
    ensures IsPowerOfTwo(NextPowerOfTwo(n))
    decreases n
  {
    if n > 1 {
      var half := NextPowerOfTwo((n + 1) / 2);
      NextPowerOfTwoIsPower((n + 1) / 2);
      assert (2 * half) / 2 == half;
    }
  }

  /** No power of two lies strictly between `NextPowerOfTwo(n) / 2` and `n`. */
  lemma {:induction false} NextPowerOfTwoIsLeast(n: nat, p: int)
    requires n >= 1 && IsPowerOfTwo(p) && p >= n
    ensures p >= NextPowerOfTwo(n)
    decreases n
  {
    if n > 1 {
      assert p != 1;
      NextPowerOfTwoIsLeast((n + 1) / 2, p / 2);
    }
  }

  lemma SmallPowersOfTwo(p: int)
    requires IsPowerOfTwo(p) && p < 8
    ensures p in {1, 2, 4}
  {
    if p != 1 {
      assert IsPowerOfTwo(p / 2);
      if p / 2 != 1 {
        assert IsPowerOfTwo(p / 4);
      }
    }
  }

  // ---------------------------------------------------------------------
  // Result kinds of integer arithmetic (lines 24-31)

  function Clamp(weight: int): int { if weight > 8 then 8 else weight }

  predicate EitherSigned(a: PrimitiveType, b: PrimitiveType) {
    IsTypeSignedInteger(a) || IsTypeSignedInteger(b)
  }

  /** `next_type`: the result kind of PLUS, MINUS and MULTIPLY on two integer kinds. */
  function NextIntegerType(a: PrimitiveType, b: PrimitiveType): (r: PrimitiveType)
    requires IsTypeInteger(a) && IsTypeInteger(b)
    ensures IsTypeInteger(r)
    ensures r.ByteWeight() == Clamp(NextPowerOfTwo(a.ByteWeight() + b.ByteWeight()))
    ensures IsTypeSignedInteger(r) <==> EitherSigned(a, b)
  {
    var increase := NextPowerOfTwo(a.ByteWeight() + b.ByteWeight());
    assert increase >= 8 || increase in {1, 2, 4} by {
      if increase < 8 {
        NextPowerOfTwoIsPower(a.ByteWeight() + b.ByteWeight());
        SmallPowersOfTwo(increase);
      }
    }
    if EitherSigned(a, b) then SignedIntByWeight(increase).value
    else UnsignedIntByWeight(increase).value
  }

  function Max(x: int, y: int): int { if x > y then x else y }

  /** `current_level_type`: the result kind of DIV and MOD on two integer kinds. */
  function DivIntegerType(a: PrimitiveType, b: PrimitiveType): (r: PrimitiveType)
    requires IsTypeInteger(a) && IsTypeInteger(b)
    ensures IsTypeInteger(r)
    ensures r.ByteWeight() == Max(a.ByteWeight(), b.ByteWeight())
    ensures IsTypeSignedInteger(r) <==> EitherSigned(a, b)
  {
    var widest := Max(a.ByteWeight(), b.ByteWeight());
    if EitherSigned(a, b) then SignedIntByWeight(widest).value
    else UnsignedIntByWeight(widest).value
  }

  // ---------------------------------------------------------------------
  // The promotion table `base_type_upcast` (lines 17-77)

  /** The two key shapes a lookup forms: (left, right, operator) for a binary
      operation and (operand, operator) for a unary one. */
  datatype UpcastKey =
    | BinaryKey(left: PrimitiveType, right: PrimitiveType, op: Operator)
    | UnaryKey(operand: PrimitiveType, op: Operator)

  predicate IsArithmetic(op: Operator) { op == Plus || op == Minus || op == Multiply || op == Divide }

  predicate IsWidening(op: Operator) { op == Plus || op == Minus || op == Multiply }

  /** The table entry for `key`, or `None` where the table has no such key. */
  function BaseTypeUpcast(key: UpcastKey): Option<PrimitiveType> {
    match key
    case BinaryKey(a, b, op) =>
      if IsTypeInteger(a) && IsTypeInteger(b) then
        if IsWidening(op) then Some(NextIntegerType(a, b))
        else if op == Divide then Some(Real)
        else if op == Div || op == Mod then Some(DivIntegerType(a, b))
        else None
      else if (IsFloat(a) && (IsTypeInteger(b) || IsFloat(b))) || (IsTypeInteger(a) && IsFloat(b)) then
        if IsArithmetic(op) then Some(Real) else None
      else if a == Decimal && b == Decimal then
        if IsArithmetic(op) then Some(Decimal) else None
      else if op == Plus && ((a == String && b == String) || (a == String && b == Char) || (a == Char && b == Char)) then
        Some(String)
      else None
    case UnaryKey(t, op) =>
      if IsTypeInteger(t) then
        // line 73 enters the key with PLUS, not UNARY_PLUS
        if op == UnaryMinus then
          Some(if IsTypeUnsignedInteger(t) then SignedIntByWeight(t.ByteWeight() * 2).value else t)
        else if op == Plus then Some(t)
        else None
      else if IsFloat(t) && (op == UnaryMinus || op == UnaryPlus) then Some(Real)
      else None
  }

  /** `assign_support`: the (target, source) pairs an assignment accepts. */
  predicate AssignSupport(target: PrimitiveType, source: PrimitiveType) {
    (IsTypeInteger(target) && IsTypeInteger(source))
    || (IsFloat(target) && (IsTypeInteger(source) || IsFloat(source)))
    || (target, source) in {(Boolean, Boolean), (String, String), (Char, Char), (String, Char)}
  }

  /** `cast_types_by_operator`: BOOLEAN for a condition operator, otherwise the
      table entry, and a `KeyError` where the table has none. */
  function CastTypesByOperator(first: PrimitiveType, second: Option<PrimitiveType>, op: Operator): (r: Result<PrimitiveType>)
    ensures op in ConditionOperators() ==> r == Ok(Boolean)
    ensures op !in ConditionOperators() ==>
              var key := if second.Some? then BinaryKey(first, second.value, op) else UnaryKey(first, op);
              (r.Ok? <==> BaseTypeUpcast(key).Some?) && (r.Ok? ==> r.value == BaseTypeUpcast(key).value)
    ensures r.Err? ==> r.error == MissingUpcast
  {
    if op in ConditionOperators() then Ok(Boolean)
    else
      var entry := if second.Some? then BaseTypeUpcast(BinaryKey(first, second.value, op))
                   else BaseTypeUpcast(UnaryKey(first, op));
      if entry.Some? then Ok(entry.value) else Err(MissingUpcast)
  }

  // ---------------------------------------------------------------------
  // Properties of the table

  lemma IntegerArithmeticWidth(a: PrimitiveType, b: PrimitiveType, op: Operator)
    requires IsTypeInteger(a) && IsTypeInteger(b) && IsWidening(op)
    ensures var r := BaseTypeUpcast(BinaryKey(a, b, op));
            r.Some? && IsTypeInteger(r.value)
            && r.value.ByteWeight() == Clamp(NextPowerOfTwo(a.ByteWeight() + b.ByteWeight()))
            && (IsTypeSignedInteger(r.value) <==> EitherSigned(a, b))
  {
  }

  /** The values `2 ** ceil(log2(n))` takes for the width sums that occur. */
  lemma NextPowerOfTwoTable()
    ensures NextPowerOfTwo(2) == 2 && NextPowerOfTwo(3) == 4 && NextPowerOfTwo(4) == 4
    ensures NextPowerOfTwo(5) == 8 && NextPowerOfTwo(6) == 8 && NextPowerOfTwo(8) == 8
    ensures NextPowerOfTwo(9) == 16 && NextPowerOfTwo(10) == 16
    ensures NextPowerOfTwo(12) == 16 && NextPowerOfTwo(16) == 16
  {
    assert NextPowerOfTwo(1) == 1;
    assert NextPowerOfTwo(2) == 2;
    assert NextPowerOfTwo(3) == 4;
    assert NextPowerOfTwo(4) == 4;
    assert NextPowerOfTwo(5) == 8;
    assert NextPowerOfTwo(6) == 8;
    assert NextPowerOfTwo(8) == 8;
  }

  lemma ByteWordSumIsLongWord()
    ensures BaseTypeUpcast(BinaryKey(Byte, Word, Plus)) == Some(LongWord)
  {
    NextPowerOfTwoTable();
    WidthIdentifiesKind(NextIntegerType(Byte, Word), LongWord);
  }

  lemma ShortIntSumIsSmallInt()
    ensures BaseTypeUpcast(BinaryKey(ShortInt, ShortInt, Plus)) == Some(SmallInt)
  {
    NextPowerOfTwoTable();
    WidthIdentifiesKind(NextIntegerType(ShortInt, ShortInt), SmallInt);
  }

  /** A width sum beyond 8 bytes is clamped to the 8-byte kind. */
  lemma WideProductIsClamped()
    ensures BaseTypeUpcast(BinaryKey(UInt64, Byte, Multiply)) == Some(UInt64)
  {
    var sum := UInt64.ByteWeight() + Byte.ByteWeight();
    assert sum == 9;
    assert NextPowerOfTwo(sum) == 16 by { NextPowerOfTwoTable(); }
    WidthIdentifiesKind(NextIntegerType(UInt64, Byte), UInt64);
  }

  lemma WideDifferenceIsClamped()
    ensures BaseTypeUpcast(BinaryKey(Int64, Int64, Minus)) == Some(Int64)
  {
    var sum := Int64.ByteWeight() + Int64.ByteWeight();
    assert sum == 16;
    assert NextPowerOfTwo(sum) == 16 by { NextPowerOfTwoTable(); }
    WidthIdentifiesKind(NextIntegerType(Int64, Int64), Int64);
  }

  lemma DivisionExamples()
    ensures BaseTypeUpcast(BinaryKey(ShortInt, ShortInt, Mod)) == Some(ShortInt)
    ensures BaseTypeUpcast(BinaryKey(Byte, Byte, Div)) == Some(Byte)
    ensures BaseTypeUpcast(BinaryKey(Byte, Byte, Divide)) == Some(Real)
  {
  }

  lemma IntegerDivision(a: PrimitiveType, b: PrimitiveType)
    requires IsTypeInteger(a) && IsTypeInteger(b)
    ensures BaseTypeUpcast(BinaryKey(a, b, Divide)) == Some(Real)
    ensures forall op: Operator :: op == Div || op == Mod ==>
              var r := BaseTypeUpcast(BinaryKey(a, b, op));
              r.Some? && r.value.ByteWeight() == Max(a.ByteWeight(), b.ByteWeight())
              && (IsTypeSignedInteger(r.value) <==> EitherSigned(a, b))
  {
  }

  /** Mixed float/integer and float/float arithmetic give REAL; DECIMAL meets only DECIMAL. */
  lemma FloatArithmetic(a: PrimitiveType, b: PrimitiveType, op: Operator)
    requires IsArithmetic(op)
    ensures IsFloat(a) && (IsTypeInteger(b) || IsFloat(b)) ==> BaseTypeUpcast(BinaryKey(a, b, op)) == Some(Real)
    ensures IsTypeInteger(a) && IsFloat(b) ==> BaseTypeUpcast(BinaryKey(a, b, op)) == Some(Real)
    ensures BaseTypeUpcast(BinaryKey(Decimal, Decimal, op)) == Some(Decimal)
    ensures b != Decimal ==> BaseTypeUpcast(BinaryKey(Decimal, b, op)).None?
    ensures a != Decimal ==> BaseTypeUpcast(BinaryKey(a, Decimal, op)).None?
  {
  }

  lemma UnaryMinusKinds(t: PrimitiveType)
    requires IsTypeInteger(t)
    ensures var r := BaseTypeUpcast(UnaryKey(t, UnaryMinus));
            r.Some? && IsTypeSignedInteger(r.value)
            && (IsTypeSignedInteger(t) ==> r.value == t)
            && (IsTypeUnsignedInteger(t) ==> r.value.ByteWeight() == Clamp(2 * t.ByteWeight()))
  {
  }

  lemma UInt64NegationIsInt64()
    ensures BaseTypeUpcast(UnaryKey(UInt64, UnaryMinus)) == Some(Int64)
  {
    WidthIdentifiesKind(SignedIntByWeight(16).value, Int64);
  }

  lemma ByteNegationIsSmallInt()
    ensures BaseTypeUpcast(UnaryKey(Byte, UnaryMinus)) == Some(SmallInt)
  {
    WidthIdentifiesKind(SignedIntByWeight(2).value, SmallInt);
  }

  /** The integer entry for unary plus is keyed by PLUS, so a lookup with
      UNARY_PLUS on an integer kind finds nothing. */
  lemma IntegerUnaryPlusMissing(t: PrimitiveType)
    requires IsTypeInteger(t)
    ensures BaseTypeUpcast(UnaryKey(t, UnaryPlus)).None?
    ensures CastTypesByOperator(t, None, UnaryPlus) == Err(MissingUpcast)
  {
  }

  lemma NumericEntriesSymmetric(a: PrimitiveType, b: PrimitiveType, op: Operator)
    requires (IsTypeInteger(a) || IsFloat(a)) && (IsTypeInteger(b) || IsFloat(b))
    ensures BaseTypeUpcast(BinaryKey(a, b, op)) == BaseTypeUpcast(BinaryKey(b, a, op))
  {
  }

  /** Text concatenation has the (STRING, CHAR) order only. */
  lemma TextConcatenationAsymmetric()
    ensures BaseTypeUpcast(BinaryKey(String, Char, Plus)) == Some(String)
    ensures BaseTypeUpcast(BinaryKey(Char, String, Plus)).None?
    ensures CastTypesByOperator(Char, Some(String), Plus) == Err(MissingUpcast)
  {
  }

  lemma AssignSupportShape(a: PrimitiveType, b: PrimitiveType)
    ensures IsTypeInteger(a) && IsTypeInteger(b) ==> AssignSupport(a, b)
    ensures IsFloat(a) && IsTypeInteger(b) ==> AssignSupport(a, b) && !AssignSupport(b, a)
    ensures AssignSupport(String, Char) && !AssignSupport(Char, String)
    ensures !AssignSupport(Decimal, b) && !AssignSupport(b, Decimal)
    ensures !AssignSupport(Undefined, b) && !AssignSupport(b, Undefined)
  {
  }

  lemma CastConditionOperator(first: PrimitiveType, second: Option<PrimitiveType>, op: Operator)
    requires op in ConditionOperators()
    ensures CastTypesByOperator(first, second, op) == Ok(Boolean)
  {
  }

  // ---------------------------------------------------------------------
  // Integer ranges (lines 84-104)

  const MaxByteValue: int := 0x100
  const MaxWordValue: int := 0x1_0000
  const MaxLongWordValue: int := 0x1_0000_0000
  const MaxUInt64Value: int := 0x1_0000_0000_0000_0000
  const MaxShortIntValue: int := MaxByteValue / 2
  const MaxSmallIntValue: int := MaxWordValue / 2
  const MaxIntegerValue: int := MaxLongWordValue / 2
  const MaxInt64Value: int := MaxUInt64Value / 2

  /** The range check of an integer kind.  The signed checks accept the
      positive bound itself (e.g. 128 for SHORTINT). */
  predicate RangeCheck(t: PrimitiveType, n: int) {
    if t == Byte then 0 <= n <= MaxByteValue - 1
    else if t == Word then 0 <= n <= MaxWordValue - 1
    else if t == LongWord then 0 <= n <= MaxLongWordValue - 1
    else if t == UInt64 then 0 <= n <= MaxUInt64Value - 1
    else if t == ShortInt then -MaxShortIntValue <= n <= MaxShortIntValue
    else if t == SmallInt then -MaxSmallIntValue <= n <= MaxSmallIntValue
    else if t == Integer then -MaxIntegerValue <= n <= MaxIntegerValue
    else if t == Int64 then -MaxInt64Value <= n <= MaxInt64Value
    else false
  }

  /** The position of an integer kind in `get_all_integer_types()`, which is
      also the order in which `get_integer_value_type` tries the ranges. */
  function TryPosition(t: PrimitiveType): (i: nat)
    requires IsTypeInteger(t)
    ensures i < 8 && AllIntegerTypes()[i] == t
  {
    (t - Byte) as nat
  }

  /** `get_integer_value_type` on the value `n`: the first kind, in the order
      BYTE, WORD, LONGWORD, UINT64, SHORTINT, SMALLINT, INTEGER, INT64, whose
      range holds `n`; outside all of them an error. */
  function IntegerValueType(n: int): (r: Result<PrimitiveType>)
    ensures r.Ok? <==> -MaxInt64Value <= n <= MaxUInt64Value - 1
    ensures r.Ok? ==> IsTypeInteger(r.value) && RangeCheck(r.value, n)
                      && forall t :: IsTypeInteger(t) && TryPosition(t) < TryPosition(r.value) ==> !RangeCheck(t, n)
    ensures r.Ok? ==> (0 <= n <==> IsTypeUnsignedInteger(r.value))
    ensures r.Err? ==> r.error == OutOfRange
  {
    if RangeCheck(Byte, n) then Ok(Byte)
    else if RangeCheck(Word, n) then Ok(Word)
    else if RangeCheck(LongWord, n) then Ok(LongWord)
    else if RangeCheck(UInt64, n) then Ok(UInt64)
    else if RangeCheck(ShortInt, n) then Ok(ShortInt)
    else if RangeCheck(SmallInt, n) then Ok(SmallInt)
    else if RangeCheck(Integer, n) then Ok(Integer)
    else if RangeCheck(Int64, n) then Ok(Int64)
    else Err(OutOfRange)
  }

  /** The positive bound of the SHORTINT check is never used: 128 is a BYTE. */
  lemma ShortIntUpperBoundUnreachable()
    ensures RangeCheck(ShortInt, MaxShortIntValue)
    ensures IntegerValueType(MaxShortIntValue) == Ok(Byte)
  {
  }

  /** The narrowest kind: kinds of the same family that are narrower do not hold the value. */
  lemma IntegerValueTypeIsNarrowest(n: int, t: PrimitiveType)
    requires IntegerValueType(n).Ok? && RangeCheck(t, n)
    requires IsTypeUnsignedInteger(t) == IsTypeUnsignedInteger(IntegerValueType(n).value)
    ensures IntegerValueType(n).value.ByteWeight() <= t.ByteWeight()
  {
  }

  // ---------------------------------------------------------------------
  // Literal text classification (lines 93-95, 113-161)

  function WithoutSign(s: string): string {
    if |s| > 0 && (s[0] == '-' || s[0] == '+') then s[1..] else s
  }

  /** `$` also matches just before a final newline. */
  function WithoutFinalNewline(s: string): string {
    if |s| > 0 && s[|s| - 1] == '\n' then s[..|s| - 1] else s
  }

  /** `INTEGER_REGEX`: an optional sign, then one or more ASCII digits. */
  predicate IsValueInteger(v: string) {
    var digits := WithoutFinalNewline(WithoutSign(v));
    |digits| > 0 && AllDigits(digits)
  }

  /** `FLOAT_REGEX` as `re.match` applies it: after an optional sign, a digit,
      or a '.' followed by a digit. */
  predicate IsValueFloat(v: string) {
    var s := WithoutSign(v);
    (|s| > 0 && IsDigit(s[0])) || (|s| > 1 && s[0] == '.' && IsDigit(s[1]))
  }

  /** `BOOLEAN_REGEX` on the lower-cased text: it starts with "true", or it is "false". */
  predicate IsValueBoolean(v: string) {
    var l := Lower(v);
    (|l| >= 4 && l[..4] == "true") || l == "false" || l == "false\n"
  }

  /** `int(v)` on a text that matches `INTEGER_REGEX`. */
  function IntegerValue(v: string): int
    requires IsValueInteger(v)
  {
    var magnitude: int := DigitsValue(WithoutFinalNewline(WithoutSign(v)));
    if |v| > 0 && v[0] == '-' then -magnitude else magnitude
  }

  /** `get_value_type`. */
  function GetValueType(v: string): (r: Result<PrimitiveType>)
    ensures IsValueInteger(v) ==> r == IntegerValueType(IntegerValue(v))
    ensures !IsValueInteger(v) ==> r.Ok? && !IsTypeInteger(r.value)
    ensures r.Ok? && r.value == Char ==> |v| == 1
  {
    if IsValueInteger(v) then IntegerValueType(IntegerValue(v))
    else if IsValueFloat(v) then Ok(Real)
    else if IsValueBoolean(v) then Ok(Boolean)
    else if |v| == 1 then Ok(Char)
    else Ok(String)
  }

  lemma LiteralKindHoldsValue(v: string)
    requires IsValueInteger(v) && GetValueType(v).Ok?
    ensures RangeCheck(GetValueType(v).value, IntegerValue(v))
  {
  }

  lemma UnsignedLiteralExample()
    ensures GetValueType("200") == Ok(Byte)
  {
    assert DigitsValue("2") == 2;
    assert DigitsValue("20") == 20 by { assert "20"[..1] == "2"; }
    assert DigitsValue("200") == 200 by { assert "200"[..2] == "20"; }
  }

  lemma NegativeLiteralExample()
    ensures GetValueType("-200") == Ok(SmallInt)
  {
    assert WithoutFinalNewline(WithoutSign("-200")) == "200";
    assert DigitsValue("2") == 2;
    assert DigitsValue("20") == 20 by { assert "20"[..1] == "2"; }
    assert DigitsValue("200") == 200 by { assert "200"[..2] == "20"; }
  }

  lemma WordSizedLiteralExample()
    ensures GetValueType("70000") == Ok(LongWord)
  {
    assert DigitsValue("7") == 7;
    assert DigitsValue("70") == 70 by { assert "70"[..1] == "7"; }
    assert DigitsValue("700") == 700 by { assert "700"[..2] == "70"; }
    assert DigitsValue("7000") == 7000 by { assert "7000"[..3] == "700"; }
    assert DigitsValue("70000") == 70000 by { assert "70000"[..4] == "7000"; }
  }

  lemma OtherLiteralExamples()
    ensures GetValueType("1.5") == Ok(Real)
    ensures GetValueType("x") == Ok(Char)
  {
  }

  lemma BooleanAndTextLiteralExamples()
    ensures GetValueType("True") == Ok(Boolean)
    ensures GetValueType("xy") == Ok(String)
  {
    assert Lower("True")[..4] == "true";
  }

  // ---------------------------------------------------------------------
  // conver_value_to_boolean (lines 171-177)

  /** An optional sign, digits, and optionally a '.' and more digits, with at
      least one digit: the texts whose `float` value the model computes. */
  predicate IsPlainDecimal(v: string) {
    var s := WithoutSign(v);
    exists k :: 0 <= k <= |s| && AllDigits(s[..k])
      && (k == |s| || (s[k] == '.' && AllDigits(s[k + 1..])))
      && exists i :: 0 <= i < |s| && IsDigit(s[i])
  }

  predicate HasNonZeroDigit(v: string) {
    exists i :: 0 <= i < |v| && '1' <= v[i] <= '9'
  }

  /** The digits of a text, in order, with everything else left out. */
  function DigitsOf(s: string): (r: string)
    ensures AllDigits(r)
  {
    if |s| == 0 then []
    else DigitsOf(s[..|s| - 1]) + (if IsDigit(s[|s| - 1]) then [s[|s| - 1]] else [])
  }

  /** How many characters follow the '.'; none when there is no '.'. */
  function FractionLength(s: string): nat {
    if |s| == 0 || s[|s| - 1] == '.' then 0
    else if '.' in s then FractionLength(s[..|s| - 1]) + 1
    else 0
  }

  /** 2^-1075 is half the smallest subnormal double. */
  const HalfSubnormalExponent: nat := 1075

  function Pow(b: nat, e: nat): nat
    decreases e
  {
    if e == 0 then 1 else b * Pow(b, e - 1)
  }

  /** `float(v) == 0.0` for a plain decimal, whose value is its digits `m`
      over `10^k` for `k` fraction digits: the nearest double is zero
      exactly when the value is at most 2^-1075, half the smallest
      subnormal double (the tie goes to the even neighbour, zero). */
  predicate DecimalUnderflows(v: string) {
    var s := WithoutSign(v);
    DigitsValue(DigitsOf(s)) * Pow(2, HalfSubnormalExponent) <= Pow(10, FractionLength(s))
  }

  /** `bool(float(v))` for numerals, the "true" test for boolean-looking text,
      and non-emptiness otherwise. */
  function ConvertValueToBoolean(v: string): (r: Result<bool>)
    ensures IsValueInteger(v) ==> r == Ok(IntegerValue(v) != 0)
    ensures !IsValueInteger(v) && IsValueFloat(v) && IsPlainDecimal(v) ==> r == Ok(!DecimalUnderflows(v))
    ensures !IsValueInteger(v) && !IsValueFloat(v) && IsValueBoolean(v) ==> r == Ok(Lower(v) == "true")
    ensures !IsValueInteger(v) && !IsValueFloat(v) && !IsValueBoolean(v) ==> r == Ok(v != "")
    ensures r.Err? ==> IsValueFloat(v) && !IsPlainDecimal(v) && r.error == FloatTextNotModelled
  {
    if IsValueInteger(v) then
      IntegerValueNonZero(v);
      Ok(HasNonZeroDigit(v))
    else if IsValueFloat(v) then
      if IsPlainDecimal(v) then Ok(!DecimalUnderflows(v)) else Err(FloatTextNotModelled)
    else if IsValueBoolean(v) then Ok(Lower(v) == "true")
    else Ok(v != "")
  }

  /** A plain decimal matches `FLOAT_REGEX`. */
  lemma PlainDecimalIsFloat(v: string)
    requires IsPlainDecimal(v)
    ensures IsValueFloat(v)
  {
    var s := WithoutSign(v);
    var k :| 0 <= k <= |s| && AllDigits(s[..k])
      && (k == |s| || (s[k] == '.' && AllDigits(s[k + 1..])))
      && exists i :: 0 <= i < |s| && IsDigit(s[i]);
    var i :| 0 <= i < |s| && IsDigit(s[i]);
    if k == 0 {
      assert s[0] == '.' && s[1..][0] == s[1];
    } else {
      assert s[..k][0] == s[0];
    }
  }

  /** A plain decimal whose digits are all zero is false. */
  lemma ZeroDecimalIsFalse(v: string)
    requires IsPlainDecimal(v) && !HasNonZeroDigit(v)
    ensures ConvertValueToBoolean(v) == Ok(false)
  {
    var s := WithoutSign(v);
    PlainDecimalIsFloat(v);
    WithoutSignNonZero(v);
    DigitsOfNonZero(s);
    DigitsValueZero(DigitsOf(s));
  }

  /** A plain decimal with a non-zero digit and at most 322 fraction digits
      is at least 10^-322, above 2^-1075, so it is true. */
  lemma ShortDecimalIsTrue(v: string)
    requires IsPlainDecimal(v) && HasNonZeroDigit(v) && FractionLength(WithoutSign(v)) <= 322
    ensures ConvertValueToBoolean(v) == Ok(true)
  {
    if !IsValueInteger(v) {
      var s := WithoutSign(v);
      PlainDecimalIsFloat(v);
      WithoutSignNonZero(v);
      DigitsOfNonZero(s);
      DigitsValueZero(DigitsOf(s));
      TenPowerBelowTwoPower(FractionLength(s));
      MulMonotonic(1, DigitsValue(DigitsOf(s)), Pow(2, HalfSubnormalExponent), Pow(2, HalfSubnormalExponent));
    }
  }

  /** 10^-324 lies below 2^-1075. */
  const TinyExponent: nat := 324

  /** A plain decimal of value at most 10^-324, below 2^-1075, is false. */
  lemma TinyDecimalIsFalse(v: string)
    requires IsPlainDecimal(v) && !IsValueInteger(v)
    requires DigitsValue(DigitsOf(WithoutSign(v))) * Pow(10, TinyExponent) <= Pow(10, FractionLength(WithoutSign(v)))
    ensures ConvertValueToBoolean(v) == Ok(false)
  {
    var s := WithoutSign(v);
    var m := DigitsValue(DigitsOf(s));
    PlainDecimalIsFloat(v);
    TwoPowerBelowTenPower(TinyExponent);
    MulMonotonic(m, m, Pow(2, HalfSubnormalExponent), Pow(10, TinyExponent));
  }

  /** The sign holds no digit. */
  lemma WithoutSignNonZero(v: string)
    ensures HasNonZeroDigit(WithoutSign(v)) <==> HasNonZeroDigit(v)
  {
    var s := WithoutSign(v);
    if s != v {
      assert v == [v[0]] + s;
      HasNonZeroDigitSplit([v[0]], s);
    }
  }

  /** The digits of a text have a non-zero digit exactly when the text has. */
  lemma {:induction false} DigitsOfNonZero(s: string)
    ensures HasNonZeroDigit(DigitsOf(s)) <==> HasNonZeroDigit(s)
    decreases |s|
  {
    if |s| > 0 {
      var init := s[..|s| - 1];
      var tail := if IsDigit(s[|s| - 1]) then [s[|s| - 1]] else [];
      DigitsOfNonZero(init);
      HasNonZeroDigitSplit(DigitsOf(init), tail);
      assert s == init + [s[|s| - 1]];
      HasNonZeroDigitSplit(init, [s[|s| - 1]]);
    }
  }

  lemma HasNonZeroDigitSplit(a: string, b: string)
    ensures HasNonZeroDigit(a + b) <==> HasNonZeroDigit(a) || HasNonZeroDigit(b)
  {
    var ab := a + b;
    if HasNonZeroDigit(ab) {
      var i :| 0 <= i < |ab| && '1' <= ab[i] <= '9';
      if i >= |a| {
        assert b[i - |a|] == ab[i];
      }
    }
    if HasNonZeroDigit(a) {
      var i :| 0 <= i < |a| && '1' <= a[i] <= '9';
      assert ab[i] == a[i];
    }
    if HasNonZeroDigit(b) {
      var i :| 0 <= i < |b| && '1' <= b[i] <= '9';
      assert ab[|a| + i] == b[i];
    }
  }

  lemma {:induction false} PowAdd(b: nat, m: nat, n: nat)
    ensures Pow(b, m + n) == Pow(b, m) * Pow(b, n)
    decreases m
  {
    if m > 0 {
      PowAdd(b, m - 1, n);
      var x, y := Pow(b, m - 1), Pow(b, n);
      assert Pow(b, m + n) == b * (x * y) by {
        assert m + n - 1 == (m - 1) + n;
      }
      MulAssoc(b, x, y);
    }
  }

  lemma MulAssoc(a: nat, b: nat, c: nat)
    ensures a * (b * c) == (a * b) * c
  {
  }

  lemma {:induction false} PowMul(b: nat, m: nat, n: nat)
    ensures Pow(b, m * n) == Pow(Pow(b, m), n)
    decreases n
  {
    if n > 0 {
      PowMul(b, m, n - 1);
      PowAdd(b, m, m * (n - 1));
      assert m * n == m + m * (n - 1);
    }
  }

  lemma {:induction false} PowBase(a: nat, b: nat, e: nat)
    requires a <= b
    ensures Pow(a, e) <= Pow(b, e)
    decreases e
  {
    if e > 0 {
      PowBase(a, b, e - 1);
      MulMonotonic(a, b, Pow(a, e - 1), Pow(b, e - 1));
    }
  }

  lemma MulMonotonic(a: nat, b: nat, c: nat, d: nat)
    requires a <= b && c <= d
    ensures a * c <= b * d
  {
    assert a * c <= b * c;
    assert b * c <= b * d;
  }

  lemma PowMonotonic(b: nat, m: nat, n: nat)
    requires b >= 1 && m <= n
    ensures Pow(b, m) <= Pow(b, n)
  {
    var x, y := Pow(b, m), Pow(b, n - m);
    assert 1 <= y by {
      PowPositive(b, n - m);
    }
    assert Pow(b, n) == x * y by {
      PowAdd(b, m, n - m);
    }
    MulMonotonic(x, x, 1, y);
  }

  /** 10^(3c+1) < 2^(10c+5), since 1000^c <= 1024^c and 10 < 32. */
  lemma ChunkLower(c: nat)
    ensures Pow(10, 3 * c + 1) < Pow(2, 10 * c + 5)
  {
    assert Pow(10, 3 * c) <= Pow(2, 10 * c) by {
      PowMul(2, 10, c);
      PowMul(10, 3, c);
      assert Pow(2, 10) == 1024 && Pow(10, 3) == 1000;
      PowBase(1000, 1024, c);
    }
    assert Pow(10, 1) < Pow(2, 5);
    PowSplitLess(10, 2, 3 * c, 10 * c, 1, 5);
  }

  /** 2^(93c+13d) < 10^(28c+4d) for d >= 1, since 2^93 = 8 * 1024^9 < 10000^7
      and 2^13 = 8192 < 10000. */
  lemma ChunkUpper(c: nat, d: nat)
    requires d >= 1
    ensures Pow(2, 93 * c + 13 * d) < Pow(10, 28 * c + 4 * d)
  {
    ChunkPowers(c);
    RestChunk(d);
    PowSplitLess(2, 10, 93 * c, 28 * c, 13 * d, 4 * d);
  }

  lemma RestChunk(d: nat)
    requires d >= 1
    ensures Pow(2, 13 * d) < Pow(10, 4 * d)
  {
    PowMul(2, 13, d);
    PowMul(10, 4, d);
    assert Pow(2, 13) == 8192 && Pow(10, 4) == 10000;
    PowBaseStrict(8192, 10000, d);
  }

  lemma PowBaseStrict(a: nat, b: nat, e: nat)
    requires 1 <= a < b && e >= 1
    ensures Pow(a, e) < Pow(b, e)
  {
    PowPositive(a, e - 1);
    PowBase(a, b, e - 1);
    MulMonotonicStrict(Pow(a, e - 1), Pow(b, e - 1), a, b);
  }

  /** Two power inequalities, one of them strict, multiply. */
  lemma PowSplitLess(a: nat, b: nat, e: nat, f: nat, g: nat, h: nat)
    requires 1 <= a && Pow(a, e) <= Pow(b, f) && Pow(a, g) < Pow(b, h)
    ensures Pow(a, e + g) < Pow(b, f + h)
  {
    var x, y, u, v := Pow(a, e), Pow(b, f), Pow(a, g), Pow(b, h);
    PowPositive(a, e);
    MulMonotonicStrict(x, y, u, v);
    PowAdd(a, e, g);
    PowAdd(b, f, h);
  }

  lemma ChunkPowers(c: nat)
    ensures Pow(2, 93 * c) <= Pow(10, 28 * c)
  {
    TwoChunks(c);
    TenChunks(c);
    ChunkFact();
    PowBase(8 * Pow(1024, 9), Pow(10000, 7), c);
  }

  lemma TwoChunks(c: nat)
    ensures Pow(2, 93 * c) == Pow(8 * Pow(1024, 9), c)
  {
    PowAdd(2, 3 * c, 90 * c);
    PowMul(2, 3, c);
    PowMul(2, 10, 9 * c);
    PowMul(1024, 9, c);
    PowProduct(8, Pow(1024, 9), c);
    assert Pow(2, 3) == 8 && Pow(2, 10) == 1024;
  }

  lemma TenChunks(c: nat)
    ensures Pow(10, 28 * c) == Pow(Pow(10000, 7), c)
  {
    PowMul(10, 4, 7 * c);
    PowMul(10000, 7, c);
    assert Pow(10, 4) == 10000;
  }

  lemma MulMonotonicStrict(a: nat, b: nat, c: nat, d: nat)
    requires 1 <= a <= b && c < d
    ensures a * c < b * d
  {
    assert a * c < a * d;
    assert a * d <= b * d;
  }

  /** The constants behind `ChunkUpper`. */
  lemma ChunkFact()
    ensures 8 * Pow(1024, 9) < Pow(10000, 7)
  {
    assert Pow(1024, 9) == 1237940039285380274899124224;
    assert Pow(10000, 7) == 10000000000000000000000000000;
  }

  lemma MulSwap(a: nat, x: nat, b: nat, y: nat)
    ensures (a * x) * (b * y) == (a * b) * (x * y)
  {
  }

  lemma {:induction false} PowProduct(a: nat, b: nat, e: nat)
    ensures Pow(a, e) * Pow(b, e) == Pow(a * b, e)
    decreases e
  {
    if e > 0 {
      PowProduct(a, b, e - 1);
      MulSwap(a, Pow(a, e - 1), b, Pow(b, e - 1));
    }
  }

  /** 10^k < 2^1075 for k <= 322. */
  lemma TenPowerBelowTwoPower(k: nat)
    requires k <= 322
    ensures Pow(10, k) < Pow(2, HalfSubnormalExponent)
  {
    ChunkLower(107);
    PowMonotonic(10, k, 322);
  }

  /** 2^1075 < 10^k for k >= 324. */
  lemma TwoPowerBelowTenPower(k: nat)
    requires k >= 324
    ensures Pow(2, HalfSubnormalExponent) < Pow(10, k)
  {
    ChunkUpper(11, 4);
    PowMonotonic(10, 324, k);
  }

  lemma {:induction false} PowPositive(b: nat, e: nat)
    requires b >= 1
    ensures Pow(b, e) >= 1
    decreases e
  {
    if e > 0 {
      PowPositive(b, e - 1);
    }
  }

  lemma {:induction false} DigitsValueZero(s: string)
    requires AllDigits(s)
    ensures DigitsValue(s) == 0 <==> !HasNonZeroDigit(s)
    decreases |s|
  {
    if |s| > 0 {
      var init := s[..|s| - 1];
      DigitsValueZero(init);
      assert HasNonZeroDigit(s) <==> HasNonZeroDigit(init) || '1' <= s[|s| - 1] <= '9' by {
        if HasNonZeroDigit(init) {
          var i :| 0 <= i < |init| && '1' <= init[i] <= '9';
          assert s[i] == init[i];
        }
        if HasNonZeroDigit(s) {
          var i :| 0 <= i < |s| && '1' <= s[i] <= '9';
          if i < |s| - 1 { assert init[i] == s[i]; }
        }
      }
    }
  }

  lemma IntegerValueNonZero(v: string)
    requires IsValueInteger(v)
    ensures IntegerValue(v) != 0 <==> HasNonZeroDigit(v)
  {
    var body := WithoutSign(v);
    var digits := WithoutFinalNewline(body);
    DigitsValueZero(digits);
    assert HasNonZeroDigit(v) <==> HasNonZeroDigit(digits) by {
      if HasNonZeroDigit(v) {
        var i :| 0 <= i < |v| && '1' <= v[i] <= '9';
        var j := if body == v then i else i - 1;
        assert body[j] == v[i];
        assert j < |digits|;
        assert digits[j] == body[j];
      }
      if HasNonZeroDigit(digits) {
        var j :| 0 <= j < |digits| && '1' <= digits[j] <= '9';
        assert digits[j] == body[j];
        var i := if body == v then j else j + 1;
        assert v[i] == body[j];
      }
    }
  }

  lemma NumeralConversionExamples()
    ensures ConvertValueToBoolean("0") == Ok(false)
    ensures ConvertValueToBoolean("-12") == Ok(true)
  {
    assert HasNonZeroDigit("-12") by { assert "-12"[1] == '1'; }
  }

  lemma DecimalConversionExample()
    ensures ConvertValueToBoolean("0.0") == Ok(false)
  {
    assert IsPlainDecimal("0.0") by {
      assert WithoutSign("0.0") == "0.0";
      assert "0.0"[..1] == "0";
      assert "0.0"[2..] == "0";
      assert IsDigit("0.0"[0]);
    }
    ZeroDecimalIsFalse("0.0");
  }

  lemma BooleanTextConversionExample()
    ensures ConvertValueToBoolean("TRUE") == Ok(true)
  {
    assert Lower("TRUE") == "true";
  }

  lemma TrueishTextConversionExample()
    ensures ConvertValueToBoolean("trueish") == Ok(false)
  {
    var v := "trueish";
    assert WithoutSign(v) == v && !IsDigit(v[0]) && v[0] != '.';
    assert !IsValueInteger(v) && !IsValueFloat(v);
    assert Lower(v) == v;
    assert IsValueBoolean(v) by {
      assert v[..4] == "true";
    }
  }

  lemma OtherTextConversionExamples()
    ensures ConvertValueToBoolean("abc") == Ok(true)
    ensures ConvertValueToBoolean("") == Ok(false)
  {
    assert Lower("abc") == "abc";
  }
}
