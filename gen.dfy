/** The C++ emitter: renders the syntax tree as C++ text.  The functions
    below say what each renderer produces (or that it crashes); the class
    `Gen` holds the renderers as the source writes them, with their loops,
    and each is proved to produce what its function says. */
module Gen {
  import opened Wrappers
  import opened Text
  import opened SupportClasses
  import opened Nodes
  import Semantic

  /** `Gen.l`, one level of indentation. */
  const Indent: string := "   "

  /** `s[:-k]`: `s` without its last `k` characters, or empty when it is
      shorter. */
  function DropLast(s: string, k: nat): (r: string)
    ensures |s| >= k ==> r == s[..|s| - k]
    ensures |s| < k ==> r == ""
  {
    s[..if |s| >= k then |s| - k else 0]
  }

  /** The values of the first `n` items in order, or the first crash. */
  function Collect<T>(items: seq<Result<T>>, n: nat): Result<seq<T>>
    requires n <= |items|
  {
    if n == 0 then Ok([])
    else
      var prev :- Collect(items, n - 1);
      var item :- items[n - 1];
      Ok(prev + [item])
  }

  /** Each collected value is the value of the item at its position. */
  lemma {:induction false} CollectInOrder<T>(items: seq<Result<T>>, n: nat)
    requires n <= |items| && Collect(items, n).Ok?
    ensures |Collect(items, n).value| == n
    ensures forall i :: 0 <= i < n ==> items[i] == Ok(Collect(items, n).value[i])
  {
    if n > 0 {
      CollectInOrder(items, n - 1);
    }
  }

  lemma {:induction false} CollectCrash<T>(items: seq<Result<T>>, n: nat, m: nat)
    requires n <= m <= |items| && Collect(items, n).Err?
    ensures Collect(items, m) == Collect(items, n)
    decreases m
  {
    if m > n {
      CollectCrash(items, n, m - 1);
    }
  }

  // ---------------------------------------------------------------------
  // Types

  /** `type_map`: the C++ spelling of the integer and two floating kinds. */
  function TypeMap(name: string): (r: Option<string>)
    ensures r.Some? <==> name in {"BYTE", "WORD", "LONGWORD", "UINT64", "SHORTINT", "SMALLINT",
                                  "INTEGER", "INT64", "REAL", "DOUBLE"}
  {
    if name == "BYTE" then Some("unsigned char")
    else if name == "WORD" then Some("unsigned short")
    else if name == "LONGWORD" then Some("unsigned int")
    else if name == "UINT64" then Some("unsigned long long")
    else if name == "SHORTINT" then Some("signed char")
    else if name == "SMALLINT" then Some("short")
    else if name == "INTEGER" then Some("int")
    else if name == "INT64" then Some("long long")
    else if name == "REAL" then Some("float")
    else if name == "DOUBLE" then Some("double")
    else None
  }

  /** `type(t)` once `t.type` is the text `name`: a name recorded by an
      earlier type declaration verbatim, else its `type_map` entry, else
      "bool" for BOOLEAN in any case, else the name lower-cased. */
  function TypeNameText(name: string, types: seq<string>): (r: string)
    ensures name in types ==> r == name
    ensures name !in types && TypeMap(name).Some? ==> r == TypeMap(name).value
    ensures name !in types && TypeMap(name).None? ==> r == (if Lower(name) == "boolean" then "bool" else Lower(name))
  {
    if name in types then name
    else if TypeMap(name).Some? then TypeMap(name).value
    else if Lower(name) == "boolean" then "bool"
    else Lower(name)
  }

  /** `type(t)` for a node whose `type` attribute is `ty`: a kind or a text
      is looked up by its name; an alias object or an array node has no
      `lower`, so the call crashes. */
  function TypeText(ty: Ty, types: seq<string>): (r: Result<string>)
    ensures r.Ok? <==> ty.Text? || ty.Prim?
    ensures ty.Text? ==> r == Ok(TypeNameText(ty.name, types))
    ensures ty.Prim? ==> r == Ok(TypeNameText(ty.kind.Name(), types))
    ensures r.Err? ==> r.error == RuntimeCrash
  {
    match ty
    case Text(name) => Ok(TypeNameText(name, types))
    case Prim(kind) => Ok(TypeNameText(kind.Name(), types))
    case _ => Err(RuntimeCrash)
  }

  /** The byte width of C++ integer types on the usual data models. */
  function CppIntegerWidth(cpp: string): Option<int> {
    if cpp in {"unsigned char", "signed char"} then Some(1)
    else if cpp in {"unsigned short", "short"} then Some(2)
    else if cpp in {"unsigned int", "int"} then Some(4)
    else if cpp in {"unsigned long long", "long long"} then Some(8)
    else None
  }

  /** The unsigned C++ integer types. */
  predicate CppUnsigned(cpp: string) {
    cpp in {"unsigned char", "unsigned short", "unsigned int", "unsigned long long"}
  }

  /** An integer kind not shadowed by a declared name is emitted as a C++
      integer type of the kind's byte width and signedness. */
  lemma IntegerKindsKeepWidth(kind: PrimitiveType, types: seq<string>)
    requires IsTypeInteger(kind) && kind.Name() !in types
    ensures TypeText(Prim(kind), types).Ok?
    ensures var cpp := TypeText(Prim(kind), types).value;
            CppIntegerWidth(cpp) == Some(kind.ByteWeight()) &&
            (CppUnsigned(cpp) <==> IsTypeUnsignedInteger(kind))
  {
    assert kind in {Byte, Word, LongWord, UInt64, ShortInt, SmallInt, Integer, Int64};
  }

  /** What is neither declared nor in `type_map` comes out without
      upper-case letters. */
  lemma UndeclaredTypesLowerCase(name: string, types: seq<string>)
    requires name !in types
    ensures forall i :: 0 <= i < |TypeNameText(name, types)| ==> !('A' <= TypeNameText(name, types)[i] <= 'Z')
  {
  }

  // ---------------------------------------------------------------------
  // Values and operators

  /** `is_string(b)`: a CHAR or STRING value in single quotes, any other
      value verbatim; a node without `type` and `value` crashes. */
  function IsString(e: Expr): (r: Result<string>)
    ensures r.Ok? <==> e.Value?
    ensures e.Value? && (e.kind == Char || e.kind == String) ==> r == Ok("'" + e.value + "'")
    ensures e.Value? && e.kind != Char && e.kind != String ==> r == Ok(e.value)
    ensures r.Err? ==> r.error == RuntimeCrash
  {
    match e
    case Value(value, kind) => Ok(if kind == Char || kind == String then "'" + value + "'" else value)
    case _ => Err(RuntimeCrash)
  }

  /** `condition(node)` as the source writes it: the MOD case tests the name
      "NOD", which no operator has. */
  function ConditionAsWritten(op: Operator): string {
    if op == Smaller then " < "
    else if op == Greater then " > "
    else if op == GreaterOrEqual then " >= "
    else if op == SmallerOrEqual then " <= "
    else if op == Equality then " == "
    else if op == NonEquality then " != "
    else if op == Plus then " + "
    else if op == Minus then " - "
    else if op == Multiply then " * "
    else if op == Divide then " / "
    else if op.Name() == "NOD" then " % "
    else if op == Assign then " = "
    else ""
  }

  /** No operator is named "NOD". */
  lemma NoOperatorIsNod(op: Operator)
    ensures op.Name() != "NOD"
  {
    assert op.Name() == OperatorNames()[op as int];
  }

  /** As written, MOD is emitted as nothing: `a mod b` becomes `ab`. */
  lemma ConditionAsWrittenDropsMod()
    ensures ConditionAsWritten(Mod) == ""
    ensures Condition(Mod) == " % "
  {
    NoOperatorIsNod(Mod);
  }

  /** Apart from MOD the written and the corrected spellings agree. */
  lemma ConditionAsWrittenElsewhere(op: Operator)
    requires op != Mod
    ensures ConditionAsWritten(op) == Condition(op)
  {
    NoOperatorIsNod(op);
  }

  /** `condition(node)` with the MOD case as intended: the space-padded C++
      spelling of a comparison, arithmetic or assignment operator, and
      nothing for any other operator. */
  function Condition(op: Operator): (r: string)
    ensures r != "" <==> op in {Smaller, Greater, GreaterOrEqual, SmallerOrEqual, Equality, NonEquality,
                                Plus, Minus, Multiply, Divide, Mod, Assign}
  {
    if op == Smaller then " < "
    else if op == Greater then " > "
    else if op == GreaterOrEqual then " >= "
    else if op == SmallerOrEqual then " <= "
    else if op == Equality then " == "
    else if op == NonEquality then " != "
    else if op == Plus then " + "
    else if op == Minus then " - "
    else if op == Multiply then " * "
    else if op == Divide then " / "
    else if op == Mod then " % "
    else if op == Assign then " = "
    else ""
  }

  /** Every value operator with a C++ counterpart gets a spelling, and two
      operators never share one, so the operator can be read back. */
  lemma ConditionInjective(a: Operator, b: Operator)
    requires a != b && Condition(a) != ""
    ensures Condition(a) != Condition(b)
  {
  }

  lemma ConditionPadded(op: Operator)
    requires Condition(op) != ""
    ensures |Condition(op)| >= 3 && Condition(op)[0] == ' ' && Condition(op)[|Condition(op)| - 1] == ' '
  {
  }

  /** `unary_condition(node)`: " -" or " +" for the unary signs, nothing
      otherwise. */
  function UnaryCondition(op: Operator): (r: string)
    ensures op == UnaryMinus ==> r == " -"
    ensures op == UnaryPlus ==> r == " +"
    ensures op != UnaryMinus && op != UnaryPlus ==> r == ""
  {
    if op == UnaryMinus then " -" else if op == UnaryPlus then " +" else ""
  }

  // ---------------------------------------------------------------------
  // Array types

  /** `int(right.value) - int(left.value)`: both bounds must be integer
      literals, else the attribute access or `int` crashes. */
  function RangeSize(range: ArrayRange): Result<int> {
    if range.rightBound.Value? && range.leftBound.Value? then
      match (Semantic.PyInt(range.rightBound.value), Semantic.PyInt(range.leftBound.value))
      case (Some(right), Some(left)) => Ok(right - left)
      case _ => Err(RuntimeCrash)
    else Err(RuntimeCrash)
  }

  /** The sizes of the ranges, range by range. */
  function RangeSizes(ranges: seq<ArrayRange>): (r: seq<Result<int>>)
    ensures |r| == |ranges|
  {
    if |ranges| == 0 then [] else RangeSizes(ranges[..|ranges| - 1]) + [RangeSize(ranges[|ranges| - 1])]
  }

  /** The item at position `i` is the size of range `i`. */
  lemma {:induction false} RangeSizesAt(ranges: seq<ArrayRange>, i: nat)
    requires i < |ranges|
    ensures RangeSizes(ranges)[i] == RangeSize(ranges[i])
  {
    if i < |ranges| - 1 {
      RangeSizesAt(ranges[..|ranges| - 1], i);
    }
  }

  /** One bracketed size. */
  function Bracket(d: int): string {
    "[" + IntToString(d) + "]"
  }

  /** The bracketed sizes, in order. */
  function Brackets(ds: seq<int>): string {
    if |ds| == 0 then "" else Brackets(ds[..|ds| - 1]) + Bracket(ds[|ds| - 1])
  }

  /** The bracketed size of one range. */
  function RangeBracket(range: ArrayRange): Result<string> {
    var d :- RangeSize(range);
    Ok("[" + IntToString(d) + "]")
  }

  /** The bracketed size of each range, in order. */
  function RangeBrackets(ranges: seq<ArrayRange>): (r: seq<Result<string>>)
    ensures |r| == |ranges|
  {
    if |ranges| == 0 then [] else RangeBrackets(ranges[..|ranges| - 1]) + [RangeBracket(ranges[|ranges| - 1])]
  }

  /** The item at position `i` is the bracketed size of range `i`. */
  lemma {:induction false} RangeBracketsAt(ranges: seq<ArrayRange>, i: nat)
    requires i < |ranges|
    ensures RangeBrackets(ranges)[i] == RangeBracket(ranges[i])
  {
    if i < |ranges| - 1 {
      RangeBracketsAt(ranges[..|ranges| - 1], i);
    }
  }

  /** A size in brackets, or the crash that stopped it. */
  function Bracketed(size: Result<int>): Result<string> {
    var d :- size;
    Ok(Bracket(d))
  }

  /** Each bracketed item brackets the size at the same position. */
  lemma BracketedAt(ranges: seq<ArrayRange>, i: nat)
    requires i < |ranges|
    ensures RangeBrackets(ranges)[i] == Bracketed(RangeSizes(ranges)[i])
  {
    RangeBracketsAt(ranges, i);
    RangeSizesAt(ranges, i);
  }

  /** Joining bracketed sizes brackets the collected sizes, and crashes
      exactly when collecting them does. */
  lemma {:induction false} JoinBracketed(sizes: seq<Result<int>>, items: seq<Result<string>>, n: nat)
    requires n <= |items| == |sizes|
    requires forall i :: 0 <= i < |items| ==> items[i] == Bracketed(sizes[i])
    ensures Join(items, n).Ok? <==> Collect(sizes, n).Ok?
    ensures Join(items, n).Ok? ==> Join(items, n).value == Brackets(Collect(sizes, n).value)
  {
    if n > 0 {
      JoinBracketed(sizes, items, n - 1);
      JoinBracketedStep(sizes, items, n);
    }
  }

  /** One more bracketed size keeps the joined text and the collected
      sizes in step. */
  lemma JoinBracketedStep(sizes: seq<Result<int>>, items: seq<Result<string>>, n: nat)
    requires 0 < n <= |items| == |sizes| && items[n - 1] == Bracketed(sizes[n - 1])
    requires Join(items, n - 1).Ok? <==> Collect(sizes, n - 1).Ok?
    requires Join(items, n - 1).Ok? ==> Join(items, n - 1).value == Brackets(Collect(sizes, n - 1).value)
    ensures Join(items, n).Ok? <==> Collect(sizes, n).Ok?
    ensures Join(items, n).Ok? ==> Join(items, n).value == Brackets(Collect(sizes, n).value)
  {
    var text, collected := Join(items, n - 1), Collect(sizes, n - 1);
    if text.Ok? && sizes[n - 1].Ok? {
      BracketsSnoc(collected.value, sizes[n - 1].value);
      assert Join(items, n) == Ok(text.value + items[n - 1].value);
      assert Collect(sizes, n) == Ok(collected.value + [sizes[n - 1].value]);
    } else {
      assert Join(items, n).Err? && Collect(sizes, n).Err?;
    }
  }

  /** Bracketing the ranges one at a time brackets their sizes. */
  lemma RangeBracketsAreSizes(ranges: seq<ArrayRange>)
    ensures Join(RangeBrackets(ranges), |ranges|).Ok? <==> Collect(RangeSizes(ranges), |ranges|).Ok?
    ensures Join(RangeBrackets(ranges), |ranges|).Ok? ==>
              Join(RangeBrackets(ranges), |ranges|).value == Brackets(Collect(RangeSizes(ranges), |ranges|).value)
  {
    forall i | 0 <= i < |ranges|
      ensures RangeBrackets(ranges)[i] == Bracketed(RangeSizes(ranges)[i])
    {
      BracketedAt(ranges, i);
    }
    JoinBracketed(RangeSizes(ranges), RangeBrackets(ranges), |ranges|);
  }

  /** `array_type_declaration(ar)` for the array node `a`: the element type
      followed by one bracketed size per range. */
  function ArrayTypeText(a: ArrayTy, types: seq<string>): (r: Result<string>)
  {
    var elem :- TypeText(a.elem, types);
    var brackets :- Join(RangeBrackets(a.ranges), |a.ranges|);
    Ok(elem + brackets)
  }

  // Reading the brackets back

  /** The integer a `str(i)` text denotes. */
  function ReadInt(s: string): Option<int> {
    if |s| > 0 && s[0] == '-' then
      (if |s| > 1 && AllDigits(s[1..]) then Some(-(DigitsValue(s[1..]) as int)) else None)
    else if |s| > 0 && AllDigits(s) then Some(DigitsValue(s) as int)
    else None
  }

  lemma ReadIntToString(i: int)
    ensures ReadInt(IntToString(i)) == Some(i)
  {
    if i < 0 {
      NatToStringValue(-i);
      assert IntToString(i)[1..] == NatToString(-i);
    } else {
      NatToStringValue(i);
      NatToStringNoLeadingZero(i);
    }
  }

  /** The position of the first ']' at or after `from`, if any. */
  function FindClose(s: string, from: nat): (r: Option<nat>)
    requires from <= |s|
    ensures r.Some? ==> from <= r.value < |s| && s[r.value] == ']' &&
                        forall k :: from <= k < r.value ==> s[k] != ']'
    ensures r.None? ==> forall k :: from <= k < |s| ==> s[k] != ']'
    decreases |s| - from
  {
    if from == |s| then None else if s[from] == ']' then Some(from) else FindClose(s, from + 1)
  }

  /** The sizes a run of bracketed integers spells. */
  function ReadBrackets(s: string): Option<seq<int>>
    decreases |s|
  {
    if |s| == 0 then Some([])
    else if s[0] != '[' then None
    else
      match FindClose(s, 1)
      case None => None
      case Some(j) =>
        match (ReadInt(s[1..j]), ReadBrackets(s[j + 1..]))
        case (Some(d), Some(rest)) => Some([d] + rest)
        case _ => None
  }

  lemma BracketsSnoc(ds: seq<int>, d: int)
    ensures Brackets(ds + [d]) == Brackets(ds) + Bracket(d)
  {
    assert (ds + [d])[..|ds|] == ds;
  }

  lemma {:induction false} BracketsCons(ds: seq<int>)
    requires |ds| > 0
    ensures Brackets(ds) == Bracket(ds[0]) + Brackets(ds[1..])
    decreases |ds|
  {
    if |ds| > 1 {
      var init := ds[..|ds| - 1];
      BracketsCons(init);
      assert init[1..] == ds[1..][..|ds[1..]| - 1];
      assert init[0] == ds[0];
      AppendAssoc(Bracket(ds[0]), Brackets(init[1..]), Bracket(ds[|ds| - 1]));
    } else {
      assert ds[..0] == [] && ds[1..] == [];
    }
  }

  lemma BracketNoClose(d: int)
    ensures var b := Bracket(d); forall k :: 1 <= k < |b| - 1 ==> b[k] != ']'
  {
  }

  /** Reading one bracketed size in front of a text gives the size, then
      whatever the text reads as. */
  lemma ReadBracketsCons(d: int, rest: string)
    ensures ReadBrackets(Bracket(d) + rest) ==
            if ReadBrackets(rest).Some? then Some([d] + ReadBrackets(rest).value) else None
  {
    var b := Bracket(d);
    var s := b + rest;
    var j := |b| - 1;
    BracketNoClose(d);
    assert forall k :: 1 <= k < j ==> s[k] == b[k];
    assert s[j] == ']';
    FindCloseAt(s, 1, j);
    assert s[1..j] == IntToString(d);
    assert s[j + 1..] == rest;
    ReadIntToString(d);
  }

  /** Reading the bracketed sizes back gives the sizes. */
  lemma {:induction false} ReadBracketsBack(ds: seq<int>)
    ensures ReadBrackets(Brackets(ds)) == Some(ds)
    decreases |ds|
  {
    if |ds| > 0 {
      BracketsCons(ds);
      ReadBracketsCons(ds[0], Brackets(ds[1..]));
      ReadBracketsBack(ds[1..]);
      assert [ds[0]] + ds[1..] == ds;
    }
  }

  lemma {:induction false} FindCloseAt(s: string, from: nat, j: nat)
    requires from <= j < |s| && s[j] == ']' && forall k :: from <= k < j ==> s[k] != ']'
    ensures FindClose(s, from) == Some(j)
    decreases j - from
  {
    if from < j {
      FindCloseAt(s, from + 1, j);
    }
  }

  /** Text followed by joined bracketed sizes: the text is a prefix, and
      the rest reads back as the sizes, one per item. */
  lemma ReadBackJoined(elem: string, sizes: seq<Result<int>>, items: seq<Result<string>>)
    requires |items| == |sizes|
    requires forall i :: 0 <= i < |items| ==> items[i] == Bracketed(sizes[i])
    requires Join(items, |items|).Ok?
    ensures Collect(sizes, |sizes|).Ok?
    ensures var text := elem + Join(items, |items|).value;
            var ds := Collect(sizes, |sizes|).value;
            text[..|elem|] == elem && ReadBrackets(text[|elem|..]) == Some(ds) &&
            |ds| == |sizes| && forall i :: 0 <= i < |sizes| ==> sizes[i] == Ok(ds[i])
  {
    JoinBracketed(sizes, items, |items|);
    var ds := Collect(sizes, |sizes|).value;
    var text := elem + Join(items, |items|).value;
    assert text[|elem|..] == Brackets(ds);
    ReadBracketsBack(ds);
    CollectInOrder(sizes, |sizes|);
  }

  /** The emitted array type is its element type followed by the joined
      brackets of its ranges. */
  lemma ArrayTypeTextParts(a: ArrayTy, types: seq<string>)
    requires ArrayTypeText(a, types).Ok?
    ensures TypeText(a.elem, types).Ok? && Join(RangeBrackets(a.ranges), |a.ranges|).Ok?
    ensures ArrayTypeText(a, types).value ==
            TypeText(a.elem, types).value + Join(RangeBrackets(a.ranges), |a.ranges|).value
  {
  }

  /** Each range of an emitted array type reads back as its right bound
      minus its left bound, in declaration order. */
  lemma ArrayTypeReadBack(a: ArrayTy, types: seq<string>)
    requires ArrayTypeText(a, types).Ok?
    ensures Collect(RangeSizes(a.ranges), |a.ranges|).Ok?
    ensures var text := ArrayTypeText(a, types).value;
            var elem := TypeText(a.elem, types).value;
            var sizes := Collect(RangeSizes(a.ranges), |a.ranges|).value;
            text[..|elem|] == elem &&
            ReadBrackets(text[|elem|..]) == Some(sizes) &&
            |sizes| == |a.ranges| &&
            forall i :: 0 <= i < |a.ranges| ==> RangeSize(a.ranges[i]) == Ok(sizes[i])
  {
    ArrayTypeTextParts(a, types);
    var items := RangeBrackets(a.ranges);
    var sizes := RangeSizes(a.ranges);
    forall i | 0 <= i < |items|
      ensures items[i] == Bracketed(sizes[i])
    {
      BracketedAt(a.ranges, i);
    }
    ReadBackJoined(TypeText(a.elem, types).value, sizes, items);
    forall i | 0 <= i < |a.ranges|
      ensures RangeSize(a.ranges[i]) == sizes[i]
    {
      RangeSizesAt(a.ranges, i);
    }
  }

  // ---------------------------------------------------------------------
  // Declarations

  /** The text of a declaration's type and name, or of an array type alone
      (`array_type` leaves the name out). */
  function VarBody(v: Decl, types: seq<string>): (r: Result<string>) {
    if v.ty.Array? then ArrayTypeText(v.ty.arr, types)
    else
      var t :- TypeText(v.ty, types);
      Ok(t + " " + v.identifier)
  }

  /** `var(v, level)`: the indentation, then the declaration's type and
      name. */
  function VarText(v: Decl, level: nat, types: seq<string>): (r: Result<string>)
  {
    var body :- VarBody(v, types);
    Ok(Repeat(Indent, level) + body)
  }

  /** `type_declaration(td)`: "using NAME = TYPE;\n", after which NAME is
      one of the recorded names. */
  function TypeDeclarationText(td: Decl, types: seq<string>): (r: Emitted)
    ensures r.text.Ok? ==> r.types == types + [td.identifier]
    ensures r.text.Err? ==> r.types == types
  {
    var body := if td.ty.Array? then ArrayTypeText(td.ty.arr, types) else TypeText(td.ty, types);
    if body.Err? then Emitted(Err(body.error), types)
    else Emitted(Ok("using " + td.identifier + " = " + body.value + ";\n"), types + [td.identifier])
  }

  /** Text produced so far and the recorded type names; a crash keeps the
      names recorded before it. */
  datatype Emitted = Emitted(text: Result<string>, types: seq<string>)

  /** After a type declaration, its name is emitted verbatim wherever a
      later declaration uses it. */
  lemma TypeDeclarationRecordsName(td: Decl, types: seq<string>)
    requires TypeDeclarationText(td, types).text.Ok?
    ensures TypeText(Text(td.identifier), TypeDeclarationText(td, types).types) == Ok(td.identifier)
  {
  }

  /** `const(td, level)`: "const " before the `var` text; the initialiser
      is not emitted. */
  function ConstText(td: Decl, level: nat, types: seq<string>): (r: Result<string>)
  {
    var v :- VarText(td, level, types);
    Ok("const " + v)
  }

  /** The formal parameters' `var` texts: each ", " appended is cut again
      inside the loop, so they follow each other without a separator. */
  function ParamItems(params: seq<Decl>, types: seq<string>): (r: seq<Result<string>>)
    ensures |r| == |params|
  {
    if |params| == 0 then [] else ParamItems(params[..|params| - 1], types) + [VarText(params[|params| - 1], 0, types)]
  }

  /** The item at position `i` is parameter `i`'s text. */
  lemma {:induction false} ParamItemsAt(params: seq<Decl>, types: seq<string>, i: nat)
    requires i < |params|
    ensures ParamItems(params, types)[i] == VarText(params[i], 0, types)
  {
    if i < |params| - 1 {
      ParamItemsAt(params[..|params| - 1], types, i);
    }
  }

  /** A local declaration's `var` text at level 1, with ";\n". */
  function LocalItem(d: Decl, types: seq<string>): Result<string> {
    var v :- VarText(d, 1, types);
    Ok(v + ";\n")
  }

  function LocalItems(locals: seq<Decl>, types: seq<string>): (r: seq<Result<string>>)
    ensures |r| == |locals|
  {
    if |locals| == 0 then [] else LocalItems(locals[..|locals| - 1], types) + [LocalItem(locals[|locals| - 1], types)]
  }

  /** The item at position `i` is local `i`'s text. */
  lemma {:induction false} LocalItemsAt(locals: seq<Decl>, types: seq<string>, i: nat)
    requires i < |locals|
    ensures LocalItems(locals, types)[i] == LocalItem(locals[i], types)
  {
    if i < |locals| - 1 {
      LocalItemsAt(locals[..|locals| - 1], types, i);
    }
  }

  /** `subroutine(sb)`: the header, the parameters, the locals and the
      body without its last three characters; a function then returns the
      variable named after it. */
  function SubroutineText(sb: Decl, types: seq<string>): (r: Result<string>)
    requires sb.SubroutineDecl?
    decreases sb, 1
  {
    var head :- if sb.subroutineType == Procedure then Ok("void " + sb.identifier + "(")
                else (var t :- TypeText(sb.ty, types); Ok(t + " " + sb.identifier + "("));
    var params :- Join(ParamItems(sb.formalParams.params, types), |sb.formalParams.params|);
    var locals :- Join(LocalItems(sb.declarationPart.declarations, types), |sb.declarationPart.declarations|);
    var body :- StatementPartText(sb.statementPart, 1);
    var c := DropLast(head + params + ") {\n" + locals + body, 3) + "\n";
    Ok(if sb.subroutineType == Function then c + "\n" + Indent + "return " + sb.identifier + ";\n" + "}" else c + "}")
  }

  /** One global declaration: constant, type, variable or subroutine. */
  function DeclarationText(d: Decl, types: seq<string>): (r: Emitted)
    ensures !d.TypeDecl? ==> r.types == types
  {
    match d
    case ConstDecl(_, _, _) =>
      var c := ConstText(d, 0, types);
      Emitted(if c.Ok? then Ok(c.value + ";\n") else c, types)
    case TypeDecl(_, _) =>
      var t := TypeDeclarationText(d, types);
      Emitted(if t.text.Ok? then Ok(t.text.value + "\n") else t.text, t.types)
    case VarDecl(_, _) =>
      var v := VarText(d, 0, types);
      Emitted(if v.Ok? then Ok(v.value + ";\n") else v, types)
    case SubroutineDecl(_, _, _, _, _, _, _) =>
      var s := SubroutineText(d, types);
      Emitted(if s.Ok? then Ok("\n" + s.value + "\n") else s, types)
  }

  /** `e` with `c` in front of its text. */
  function Prefixed(c: string, e: Emitted): Emitted {
    Emitted(if e.text.Ok? then Ok(c + e.text.value) else e.text, e.types)
  }

  lemma PrefixedTwice(a: string, b: string, e: Emitted)
    ensures Prefixed(a, Prefixed(b, e)) == Prefixed(a + b, e)
  {
    if e.text.Ok? {
      AppendAssoc(a, b, e.text.value);
    }
  }

  /** The declarations in order, each seeing the names the type
      declarations before it recorded; the first crash stops the loop. */
  function DeclarationsText(ds: seq<Decl>, types: seq<string>): (r: Emitted)
    decreases |ds|
  {
    if |ds| == 0 then Emitted(Ok(""), types)
    else
      var item := DeclarationText(ds[0], types);
      if item.text.Err? then item
      else Prefixed(item.text.value, DeclarationsText(ds[1..], item.types))
  }

  /** The identifiers of the type declarations, in order. */
  function TypeNames(ds: seq<Decl>): seq<string>
    decreases |ds|
  {
    if |ds| == 0 then []
    else (if ds[0].TypeDecl? then [ds[0].identifier] else []) + TypeNames(ds[1..])
  }

  /** On success the recorded names grow by the type declarations' names,
      in declaration order. */
  lemma {:induction false} DeclarationsRecordTypes(ds: seq<Decl>, types: seq<string>)
    requires DeclarationsText(ds, types).text.Ok?
    ensures DeclarationsText(ds, types).types == types + TypeNames(ds)
    decreases |ds|
  {
    if |ds| > 0 {
      var item := DeclarationText(ds[0], types);
      DeclarationsRecordTypes(ds[1..], item.types);
      var first := if ds[0].TypeDecl? then [ds[0].identifier] else [];
      assert item.types == types + first;
      AppendAssoc(types, first, TypeNames(ds[1..]));
    }
  }

  /** `global_declaration(dp)`: the declarations, then an empty line. */
  function GlobalDeclarationText(dp: DeclarationPart, types: seq<string>): (r: Emitted)
    ensures r.types == DeclarationsText(dp.declarations, types).types
  {
    var e := DeclarationsText(dp.declarations, types);
    Emitted(if e.text.Ok? then Ok(e.text.value + "\n") else e.text, e.types)
  }

  /** A global constant is emitted with the "const " prefix and ";\n". */
  lemma ConstantPrefixed(d: Decl, types: seq<string>)
    requires d.ConstDecl? && DeclarationText(d, types).text.Ok?
    ensures var t := DeclarationText(d, types).text.value;
            |t| >= 8 && t[..6] == "const " && t[|t| - 2..] == ";\n"
  {
  }

  // ---------------------------------------------------------------------
  // Expressions

  /** `bin_operation(b)`: a variable's name, a value through `is_string`,
      a unary sign before the parenthesised operand, and for a binary node
      the left operand followed by the index list, the argument list, or
      the operator and the right operand. */
  function BinText(e: Expr): (r: Result<string>)
    decreases e
  {
    match e
    case Variable(id) => Ok(id)
    case Value(_, _) => IsString(e)
    case Unary(l, op) =>
      var inner :- BinText(l);
      Ok(UnaryCondition(op) + "(" + inner + ")")
    case Binary(l, r, op) =>
      var left :- BinText(l);
      if op == ArrayCall then
        var idx :- IndexList(r);
        Ok(left + idx)
      else if op == SubroutineCall then
        var args :- ArgumentList(r);
        Ok(DropLast(left + "(" + args, 2) + ")")
      else
        var right :- BinText(r);
        Ok(left + Condition(op) + right)
    case CallParams(_) => Err(RuntimeCrash)
  }

  /** One index of an ARRAY_CALL: "[value]" or "[identifier]". */
  function IndexItem(p: Expr): Result<string> {
    if p.Value? then Ok("[" + p.value + "]")
    else if p.Variable? then Ok("[" + p.identifier + "]")
    else Err(RuntimeCrash)
  }

  function IndexItems(ps: seq<Expr>): (r: seq<Result<string>>)
    ensures |r| == |ps|
  {
    seq(|ps|, i requires 0 <= i < |ps| => IndexItem(ps[i]))
  }

  /** The indices of an ARRAY_CALL's parameter node. */
  function IndexList(r: Expr): Result<string> {
    if r.CallParams? then Join(IndexItems(r.params), |r.params|) else Err(RuntimeCrash)
  }

  /** One argument of a SUBROUTINE_CALL: an identifier and ", ". */
  function ArgumentItem(p: Expr): Result<string> {
    if p.Variable? then Ok(p.identifier + ", ") else Err(RuntimeCrash)
  }

  function ArgumentItems(ps: seq<Expr>): (r: seq<Result<string>>)
    ensures |r| == |ps|
  {
    seq(|ps|, i requires 0 <= i < |ps| => ArgumentItem(ps[i]))
  }

  function ArgumentList(r: Expr): Result<string> {
    if r.CallParams? then Join(ArgumentItems(r.params), |r.params|) else Err(RuntimeCrash)
  }

  // ---------------------------------------------------------------------
  // Statements

  /** `statement_part(sp, level)`: each statement after its indentation
      (a newline before each level unless it is an assignment or call),
      then `level - 1` indentations and "}\n". */
  function StatementPartText(sp: StatementPart, level: nat): (r: Result<string>)
    ensures r.Ok? ==> |r.value| >= 2 && r.value[|r.value| - 2..] == "}\n"
    decreases sp, 3
  {
    var items :- Join(StatementItems(sp, level), |sp.statements|);
    Ok(items + Repeat(Indent, if level > 0 then level - 1 else 0) + "}\n")
  }

  function StatementItems(sp: StatementPart, level: nat): (r: seq<Result<string>>)
    ensures |r| == |sp.statements|
    decreases sp, 2
  {
    seq(|sp.statements|, i requires 0 <= i < |sp.statements| => StatementText(sp.statements[i], level))
  }

  /** Whether the statement is a binary-operator node (an assignment or a
      call). */
  predicate IsBinaryStatement(s: Stmt) {
    s.Simple? && s.expr.Binary?
  }

  /** One statement of a statement part, with its indentation. */
  function StatementText(s: Stmt, level: nat): Result<string>
    decreases s, 2
  {
    var prefix := if IsBinaryStatement(s) then Repeat(Indent, level) else Repeat("\n" + Indent, level);
    var body :- match s
                case Simple(e) =>
                  if e.Binary? then (var b :- BinText(e); Ok(b + ";\n")) else Ok("")
                case If(_, _, _) => IfText(s, level)
                case Switch(_, _, _) => SwitchText(s, level)
                case While(_, _) => WhileText(s, level)
                case RepeatUntil(_, _) => RepeatText(s, level)
                case For(_, _, _, _, _) => ForText(s, level);
    Ok(prefix + body)
  }

  /** `if_statement`: the condition, the then part, and "else {\n" with the
      else part when it has statements. */
  function IfText(s: Stmt, level: nat): Result<string>
    requires s.If?
    decreases s, 0
  {
    var cond :- BinText(s.condition);
    var then_ :- StatementPartText(s.thenPart, level + 1);
    if |s.elsePart.statements| > 0 then
      var else_ :- StatementPartText(s.elsePart, level + 1);
      Ok("if (" + cond + ")" + " {\n" + then_ + "else {\n" + else_)
    else Ok("if (" + cond + ")" + " {\n" + then_)
  }

  /** `while_statement`. */
  function WhileText(s: Stmt, level: nat): Result<string>
    requires s.While?
    decreases s, 0
  {
    var cond :- BinText(s.condition);
    var body :- StatementPartText(s.body, level + 1);
    Ok("while (" + cond + ") " + "{\n" + body)
  }

  /** `repeat_statement`: "do {", the body without its last character, and
      the condition in a C++ `while`. */
  function RepeatText(s: Stmt, level: nat): Result<string>
    requires s.RepeatUntil?
    decreases s, 0
  {
    var body :- StatementPartText(s.body, level + 1);
    var cond :- BinText(s.condition);
    Ok("do {\n" + DropLast(body, 1) + " while (" + cond + ");\n" + "\n")
  }

  /** The text a `for` bound contributes: a variable's name or a value's
      text; any other bound leaves the previous text in place. */
  function BoundText(e: Expr, previous: string): string {
    if e.Variable? then e.identifier else if e.Value? then e.value else previous
  }

  /** `for_statement`: "for (v = start; v < stop; v++)" whatever the
      direction, then the body. */
  function ForText(s: Stmt, level: nat): Result<string>
    requires s.For?
    decreases s, 0
  {
    var start := if s.initial.Some? then BoundText(s.initial.value, "") else "";
    var stop := BoundText(s.end, start);
    var cond := s.variable + " = " + start + "; " + s.variable + " < " + stop + "; " + s.variable + "++";
    var body :- StatementPartText(s.body, level + 1);
    Ok("for (" + cond + ") {\n" + body)
  }

  /** A case label through `is_string`, and ", ". */
  function CaseLabel(e: Expr): Result<string> {
    var s :- IsString(e);
    Ok(s + ", ")
  }

  function CaseLabels(list: seq<Expr>): (r: seq<Result<string>>)
    ensures |r| == |list|
  {
    if |list| == 0 then [] else CaseLabels(list[..|list| - 1]) + [CaseLabel(list[|list| - 1])]
  }

  /** The item at position `i` is label `i`'s text. */
  lemma {:induction false} CaseLabelsAt(list: seq<Expr>, i: nat)
    requires i < |list|
    ensures CaseLabels(list)[i] == CaseLabel(list[i])
  {
    if i < |list| - 1 {
      CaseLabelsAt(list[..|list| - 1], i);
    }
  }

  /** One case block: its indentation, "case LABELS:\n" and its statement
      part without the last three characters. */
  function CaseBlockText(b: CaseBlock, level: nat): Result<string>
    decreases b, 0
  {
    var labels :- Join(CaseLabels(b.caseList), |b.caseList|);
    var body :- StatementPartText(b.statementPart, level + 1);
    Ok(Repeat(Indent, level) + "case " + DropLast(labels, 2) + ":\n" + DropLast(body, 3))
  }

  /** The first `k` case blocks' texts. */
  function CaseBlockItems(s: Stmt, level: nat, k: nat): (r: seq<Result<string>>)
    requires s.Switch? && k <= |s.caseBlocks|
    ensures |r| == k
    decreases s, 0, k
  {
    if k == 0 then [] else CaseBlockItems(s, level, k - 1) + [CaseBlockText(s.caseBlocks[k - 1], level)]
  }

  /** The item at position `i` is block `i`'s text. */
  lemma {:induction false} CaseBlockItemsAt(s: Stmt, level: nat, k: nat, i: nat)
    requires s.Switch? && i < k <= |s.caseBlocks|
    ensures CaseBlockItems(s, level, k)[i] == CaseBlockText(s.caseBlocks[i], level)
  {
    if i < k - 1 {
      CaseBlockItemsAt(s, level, k - 1, i);
    }
  }

  /** `switch_condition`: the switch header, every case block but the last
      (the source pops the last one first, and crashes on an empty list),
      then the default block; no closing brace. */
  function SwitchText(s: Stmt, level: nat): Result<string>
    requires s.Switch?
    decreases s, 1
  {
    if |s.caseBlocks| == 0 then Err(RuntimeCrash)
    else
      var cases :- Join(CaseBlockItems(s, level, |s.caseBlocks| - 1), |s.caseBlocks| - 1);
      var default_ :- DefaultText(s, level);
      Ok("switch (" + s.variable + ") " + "{\n" + cases + default_)
  }

  /** The default block: its indentation, "default:\n" and its statement
      part.  A switch without ELSE never has the attribute set, so reading
      it crashes. */
  function DefaultText(s: Stmt, level: nat): Result<string>
    requires s.Switch?
    decreases s, 0
  {
    match s.defaultBlock
    case None => Err(RuntimeCrash)
    case Some(d) =>
      var body :- StatementPartText(d, level + 1);
      Ok(Repeat(Indent, level) + "default:\n" + body)
  }

  /** A switch renders only when it has case blocks and an ELSE block, and
      its text then opens with the switch header. */
  lemma SwitchNeedsBlocks(s: Stmt, level: nat)
    requires s.Switch?
    ensures SwitchText(s, level).Ok? ==> |s.caseBlocks| > 0 && s.defaultBlock.Some?
    ensures SwitchText(s, level).Ok? ==>
              var header := "switch (" + s.variable + ") {\n";
              |SwitchText(s, level).value| >= |header| && SwitchText(s, level).value[..|header|] == header
  {
    if SwitchText(s, level).Ok? {
      var cases := Join(CaseBlockItems(s, level, |s.caseBlocks| - 1), |s.caseBlocks| - 1).value;
      var header := "switch (" + s.variable + ") {\n";
      assert SwitchText(s, level).value == header + (cases + DefaultText(s, level).value);
    }
  }

  // ---------------------------------------------------------------------
  // The program

  /** The program text around the declarations `decls` and the rendered
      main body `body`. */
  function Assembled(decls: string, body: string): string {
    DropLast(decls + "int main(){\n" + body, 3) + "\n" + Indent + "return 0;\n}"
  }

  /** `generate(program)`: the global declarations, "int main(){\n" and the
      statement part, without the last three characters, then the return. */
  function GenerateText(program: Program, types: seq<string>): (r: Emitted)
    ensures r.types == GlobalDeclarationText(program.globalDeclaration, types).types
  {
    var g := GlobalDeclarationText(program.globalDeclaration, types);
    if g.text.Err? then g
    else
      var body := StatementPartText(program.statementPart, 1);
      if body.Err? then Emitted(Err(body.error), g.types)
      else Emitted(Ok(Assembled(g.text.value, body.value)), g.types)
  }

  /** Assembling keeps the declarations and `int main(){` in front and ends
      by returning 0, whenever the body has its closing "}\n". */
  lemma AssembledLayout(decls: string, body: string)
    requires |body| >= 2
    ensures var code := Assembled(decls, body);
            var head := decls + "int main(){";
            var tail := "\n" + Indent + "return 0;\n}";
            |code| >= |head| + |tail| && code[..|head|] == head && code[|code| - |tail|..] == tail
  {
    var all := decls + "int main(){\n" + body;
    var head := decls + "int main(){";
    assert |all| >= |head| + 3;
    assert DropLast(all, 3)[..|head|] == all[..|head|];
  }

  /** The emitted program opens with the declarations and `int main(){`
      and closes by returning 0. */
  lemma GenerateLayout(program: Program, types: seq<string>)
    requires GenerateText(program, types).text.Ok?
    ensures var code := GenerateText(program, types).text.value;
            var decls := GlobalDeclarationText(program.globalDeclaration, types).text.value;
            var head := decls + "int main(){";
            var tail := "\n" + Indent + "return 0;\n}";
            |code| >= |head| + |tail| && code[..|head|] == head && code[|code| - |tail|..] == tail
  {
    var decls := GlobalDeclarationText(program.globalDeclaration, types).text.value;
    var body := StatementPartText(program.statementPart, 1).value;
    AssembledLayout(decls, body);
  }

  // ---------------------------------------------------------------------
  // The renderers

  /** The class-level `Gen.types` list, shared by every `Gen` object. */
  class TypeRegistry {
    var names: seq<string>

    constructor ()
      ensures names == []
    {
      names := [];
    }
  }

  class Gen {
    /** The shared registry of declared type names. */
    const types: TypeRegistry
    /** The generated text, or the crash that stopped the generation. */
    var code: Result<string>

    /** `Gen(parser)`: generates the code for `program`, recording the type
        names it declares in the shared registry. */
    constructor (program: Program, types: TypeRegistry)
      modifies types
      ensures this.types == types
      ensures var e := GenerateText(program, old(types.names));
              code == e.text && types.names == e.types
    {
      this.types := types;
      code := Ok("");
      new;
      code := Generate(program);
    }

    method IndentBy(piece: string, level: nat) returns (c: string)
      ensures c == Repeat(piece, level)
    {
      c := "";
      var j := 0;
      while j < level
        invariant j <= level && c == Repeat(piece, j)
      {
        c := c + piece;
        j := j + 1;
      }
    }

    /** The range loop of `array_type_declaration` and `array_type`. */
    method RangesText(ranges: seq<ArrayRange>) returns (r: Result<string>)
      ensures r == Join(RangeBrackets(ranges), |ranges|)
    {
      ghost var items := RangeBrackets(ranges);
      var c := "";
      var i := 0;
      while i < |ranges|
        invariant i <= |ranges| && Join(items, i) == Ok(c)
      {
        JoinStep(items, i, c);
        RangeBracketsAt(ranges, i);
        var b := RangeBracketOf(ranges, i);
        if b.Err? {
          return Err(b.error);
        }
        c := c + b.value;
        i := i + 1;
      }
      r := Ok(c);
    }

    /** One pass of the loop in `ranges`. */
    method RangeBracketOf(ranges: seq<ArrayRange>, i: nat) returns (r: Result<string>)
      requires i < |ranges|
      ensures r == RangeBracket(ranges[i])
    {
      var range := ranges[i];
      if !range.rightBound.Value? || !range.leftBound.Value? {
        return Err(RuntimeCrash);
      }
      var right := Semantic.PyInt(range.rightBound.value);
      var left := Semantic.PyInt(range.leftBound.value);
      if right.None? || left.None? {
        return Err(RuntimeCrash);
      }
      r := Ok("[" + IntToString(right.value - left.value) + "]");
    }

    /** `array_type_declaration(ar)`. */
    method ArrayTypeDeclaration(ar: ArrayTy) returns (r: Result<string>)
      ensures r == ArrayTypeText(ar, types.names)
    {
      var c := TypeText(ar.elem, types.names);
      if c.Err? {
        return c;
      }
      var ranges := RangesText(ar.ranges);
      if ranges.Err? {
        return Err(ranges.error);
      }
      r := Ok(c.value + ranges.value);
    }

    /** `array_type(ar)`: the array type of a declaration; a declaration
        whose type is not an array node has no `array_ranges`. */
    method ArrayType(ar: Decl) returns (r: Result<string>)
      ensures ar.ty.Array? ==> r == ArrayTypeText(ar.ty.arr, types.names)
      ensures !ar.ty.Array? ==> r == Err(RuntimeCrash)
    {
      if !ar.ty.Array? {
        return Err(RuntimeCrash);
      }
      r := ArrayTypeDeclaration(ar.ty.arr);
    }

    /** `var(v, level)`. */
    method Var(v: Decl, level: nat) returns (r: Result<string>)
      ensures r == VarText(v, level, types.names)
    {
      var c := IndentBy(Indent, level);
      var body: Result<string>;
      if v.ty.Array? {
        body := ArrayType(v);
      } else {
        var t := TypeText(v.ty, types.names);
        body := if t.Ok? then Ok(t.value + " " + v.identifier) else t;
      }
      r := if body.Ok? then Ok(c + body.value) else body;
    }

    /** `const(td, level)`. */
    method Const(td: Decl, level: nat) returns (r: Result<string>)
      ensures r == ConstText(td, level, types.names)
    {
      var v := Var(td, level);
      r := if v.Ok? then Ok("const " + v.value) else v;
    }

    /** `type_declaration(td)`: the name is recorded once the type is
        rendered. */
    method TypeDeclaration(td: Decl) returns (r: Result<string>)
      modifies types
      ensures var e := TypeDeclarationText(td, old(types.names)); r == e.text && types.names == e.types
    {
      var body: Result<string>;
      if td.ty.Array? {
        body := ArrayType(td);
      } else {
        body := TypeText(td.ty, types.names);
      }
      if body.Err? {
        return Err(body.error);
      }
      types.names := types.names + [td.identifier];
      r := Ok("using " + td.identifier + " = " + body.value + ";\n");
    }

    /** `subroutine(sb)`. */
    method Subroutine(sb: Decl) returns (r: Result<string>)
      requires sb.SubroutineDecl?
      ensures r == SubroutineText(sb, types.names)
      decreases sb, 1
    {
      var c: string;
      if sb.subroutineType == Procedure {
        c := "void " + sb.identifier + "(";
      } else {
        var t := TypeText(sb.ty, types.names);
        if t.Err? {
          return t;
        }
        c := t.value + " " + sb.identifier + "(";
      }
      var params := FormalParams(sb.formalParams.params);
      if params.Err? {
        return params;
      }
      c := c + params.value;
      c := c + ") {\n";
      var locals := LocalDeclarations(sb.declarationPart.declarations);
      if locals.Err? {
        return locals;
      }
      c := c + locals.value;
      var body := StatementPart(sb.statementPart, 1);
      if body.Err? {
        return body;
      }
      c := c + body.value;
      c := DropLast(c, 3) + "\n";
      if sb.subroutineType == Function {
        c := c + "\n" + Indent + "return " + sb.identifier + ";\n" + "}";
      } else {
        c := c + "}";
      }
      r := Ok(c);
    }

    /** The parameter loop of `subroutine`: each `var(i, 0)` with ", ",
        which the next statement cuts again. */
    method FormalParams(params: seq<Decl>) returns (r: Result<string>)
      ensures r == Join(ParamItems(params, types.names), |params|)
    {
      ghost var items := ParamItems(params, types.names);
      var c := "";
      var i := 0;
      while i < |params|
        invariant i <= |params| && Join(items, i) == Ok(c)
      {
        JoinStep(items, i, c);
        ParamItemsAt(params, types.names, i);
        var v := FormalParam(params, i);
        if v.Err? {
          return v;
        }
        ghost var joined := c + v.value;
        c := c + v.value + ", ";
        assert c[..|c| - 2] == joined;
        c := c[..|c| - 2];
        i := i + 1;
      }
      r := Ok(c);
    }

    /** One pass of the parameter loop: `var(i, 0)`. */
    method FormalParam(params: seq<Decl>, i: nat) returns (r: Result<string>)
      requires i < |params|
      ensures r == VarText(params[i], 0, types.names)
    {
      r := Var(params[i], 0);
    }

    /** The local-declaration loop of `subroutine`. */
    method LocalDeclarations(locals: seq<Decl>) returns (r: Result<string>)
      ensures r == Join(LocalItems(locals, types.names), |locals|)
    {
      ghost var items := LocalItems(locals, types.names);
      var c := "";
      var i := 0;
      while i < |locals|
        invariant i <= |locals| && Join(items, i) == Ok(c)
      {
        JoinStep(items, i, c);
        LocalItemsAt(locals, types.names, i);
        var v := LocalDeclaration(locals, i);
        if v.Err? {
          return v;
        }
        c := c + v.value;
        i := i + 1;
      }
      r := Ok(c);
    }

    /** One pass of the local-declaration loop: `var(i, 1) + ";\n"`. */
    method LocalDeclaration(locals: seq<Decl>, i: nat) returns (r: Result<string>)
      requires i < |locals|
      ensures r == LocalItem(locals[i], types.names)
    {
      var v := Var(locals[i], 1);
      r := if v.Ok? then Ok(v.value + ";\n") else v;
    }

    /** `global_declaration(dp)`. */
    method GlobalDeclaration(dp: DeclarationPart) returns (r: Result<string>)
      modifies types
      ensures var e := GlobalDeclarationText(dp, old(types.names)); r == e.text && types.names == e.types
    {
      var ds := dp.declarations;
      ghost var start := types.names;
      var c := "";
      var i := 0;
      assert ds[0..] == ds;
      assert Prefixed("", DeclarationsText(ds, start)) == DeclarationsText(ds, start) by {
        var e := DeclarationsText(ds, start);
        if e.text.Ok? {
          assert "" + e.text.value == e.text.value;
        }
      }
      while i < |ds|
        invariant i <= |ds|
        invariant DeclarationsText(ds, start) == Prefixed(c, DeclarationsText(ds[i..], types.names))
      {
        assert ds[i..][0] == ds[i] && ds[i..][1..] == ds[i + 1..];
        var d := ds[i];
        var item: Result<string>;
        if d.ConstDecl? {
          item := Const(d, 0);
          item := if item.Ok? then Ok(item.value + ";\n") else item;
        } else if d.TypeDecl? {
          item := TypeDeclaration(d);
          item := if item.Ok? then Ok(item.value + "\n") else item;
        } else if d.VarDecl? {
          item := Var(d, 0);
          item := if item.Ok? then Ok(item.value + ";\n") else item;
        } else {
          item := Subroutine(d);
          item := if item.Ok? then Ok("\n" + item.value + "\n") else item;
        }
        if item.Err? {
          return item;
        }
        PrefixedTwice(c, item.value, DeclarationsText(ds[i + 1..], types.names));
        c := c + item.value;
        i := i + 1;
      }
      assert ds[i..] == [];
      assert c + "" == c;
      r := Ok(c + "\n");
    }

    /** `bin_operation(b)`. */
    method BinOperation(b: Expr) returns (r: Result<string>)
      ensures r == BinText(b)
      decreases b
    {
      match b
      case Variable(id) =>
        r := Ok(id);
      case Value(_, _) =>
        r := IsString(b);
      case Unary(l, op) =>
        var inner := BinOperation(l);
        r := if inner.Ok? then Ok(UnaryCondition(op) + "(" + inner.value + ")") else inner;
      case Binary(l, right, op) =>
        var left := BinOperation(l);
        if left.Err? {
          return left;
        }
        if op == ArrayCall {
          var idx := Indices(right);
          r := if idx.Ok? then Ok(left.value + idx.value) else idx;
        } else if op == SubroutineCall {
          var args := Arguments(right);
          r := if args.Ok? then Ok(DropLast(left.value + "(" + args.value, 2) + ")") else args;
        } else {
          var rest := BinOperation(right);
          r := if rest.Ok? then Ok(left.value + Condition(op) + rest.value) else rest;
        }
      case CallParams(_) =>
        r := Err(RuntimeCrash);
    }

    /** The index loop of an ARRAY_CALL. */
    method Indices(right: Expr) returns (r: Result<string>)
      ensures r == IndexList(right)
    {
      if !right.CallParams? {
        return Err(RuntimeCrash);
      }
      var ps := right.params;
      ghost var items := IndexItems(ps);
      var c := "";
      var i := 0;
      while i < |ps|
        invariant i <= |ps| && Join(items, i) == Ok(c)
      {
        var p := ps[i];
        if p.Value? {
          c := c + ("[" + p.value + "]");
        } else if p.Variable? {
          c := c + ("[" + p.identifier + "]");
        } else {
          JoinCrash(items, i + 1, |ps|);
          return Err(RuntimeCrash);
        }
        i := i + 1;
      }
      r := Ok(c);
    }

    /** The argument loop of a SUBROUTINE_CALL. */
    method Arguments(right: Expr) returns (r: Result<string>)
      ensures r == ArgumentList(right)
    {
      if !right.CallParams? {
        return Err(RuntimeCrash);
      }
      var ps := right.params;
      ghost var items := ArgumentItems(ps);
      var c := "";
      var i := 0;
      while i < |ps|
        invariant i <= |ps| && Join(items, i) == Ok(c)
      {
        if !ps[i].Variable? {
          JoinCrash(items, i + 1, |ps|);
          return Err(RuntimeCrash);
        }
        c := c + (ps[i].identifier + ", ");
        i := i + 1;
      }
      r := Ok(c);
    }

    /** `statement_part(sp, level)`. */
    method StatementPart(sp: StatementPart, level: nat) returns (r: Result<string>)
      ensures r == StatementPartText(sp, level)
      decreases sp, 3
    {
      ghost var items := StatementItems(sp, level);
      var c := "";
      var i := 0;
      while i < |sp.statements|
        invariant i <= |sp.statements| && Join(items, i) == Ok(c)
      {
        var item := Statement(sp.statements[i], level);
        if item.Err? {
          JoinCrash(items, i + 1, |sp.statements|);
          return item;
        }
        c := c + item.value;
        i := i + 1;
      }
      var close := IndentBy(Indent, if level > 0 then level - 1 else 0);
      r := Ok(c + close + "}\n");
    }

    /** One pass of the `statement_part` loop: the indentation, then the
        statement's own text. */
    method Statement(s: Stmt, level: nat) returns (r: Result<string>)
      ensures r == StatementText(s, level)
      decreases s, 2
    {
      var prefix: string;
      if !IsBinaryStatement(s) {
        prefix := IndentBy("\n" + Indent, level);
      } else {
        prefix := IndentBy(Indent, level);
      }
      var body: Result<string>;
      match s {
      case Simple(e) =>
        if e.Binary? {
          var b := BinOperation(e);
          body := if b.Ok? then Ok(b.value + ";\n") else b;
        } else {
          body := Ok("");
        }
      case If(_, _, _) =>
        body := IfStatement(s, level);
      case Switch(_, _, _) =>
        body := SwitchCondition(s, level);
      case While(_, _) =>
        body := WhileStatement(s, level);
      case RepeatUntil(_, _) =>
        body := RepeatStatement(s, level);
      case For(_, _, _, _, _) =>
        body := ForStatement(s, level);
      }
      r := if body.Ok? then Ok(prefix + body.value) else body;
    }

    /** `if_statement(node, level)`. */
    method IfStatement(node: Stmt, level: nat) returns (r: Result<string>)
      requires node.If?
      ensures r == IfText(node, level)
      decreases node, 0
    {
      var cond := BinOperation(node.condition);
      if cond.Err? {
        return cond;
      }
      var c := "if (" + cond.value + ")" + " {\n";
      var then_ := StatementPart(node.thenPart, level + 1);
      if then_.Err? {
        return then_;
      }
      c := c + then_.value;
      if |node.elsePart.statements| > 0 {
        var else_ := StatementPart(node.elsePart, level + 1);
        if else_.Err? {
          return else_;
        }
        c := c + "else {\n" + else_.value;
      }
      r := Ok(c);
    }

    /** `while_statement(node, level)`. */
    method WhileStatement(node: Stmt, level: nat) returns (r: Result<string>)
      requires node.While?
      ensures r == WhileText(node, level)
      decreases node, 0
    {
      var cond := BinOperation(node.condition);
      if cond.Err? {
        return cond;
      }
      var body := StatementPart(node.body, level + 1);
      if body.Err? {
        return body;
      }
      r := Ok("while (" + cond.value + ") " + "{\n" + body.value);
    }

    /** `repeat_statement(node, level)`. */
    method RepeatStatement(node: Stmt, level: nat) returns (r: Result<string>)
      requires node.RepeatUntil?
      ensures r == RepeatText(node, level)
      decreases node, 0
    {
      var body := StatementPart(node.body, level + 1);
      if body.Err? {
        return body;
      }
      var c := "do {\n" + DropLast(body.value, 1);
      var cond := BinOperation(node.condition);
      if cond.Err? {
        return cond;
      }
      c := c + " while (" + cond.value + ");\n";
      r := Ok(c + "\n");
    }

    /** `for_statement(f, level)`. */
    method ForStatement(f: Stmt, level: nat) returns (r: Result<string>)
      requires f.For?
      ensures r == ForText(f, level)
      decreases f, 0
    {
      var str := "";
      if f.initial.Some? && f.initial.value.Variable? {
        str := f.initial.value.identifier;
      } else if f.initial.Some? && f.initial.value.Value? {
        str := f.initial.value.value;
      }
      var cond := f.variable + " = " + str + "; ";
      if f.end.Variable? {
        str := f.end.identifier;
      } else if f.end.Value? {
        str := f.end.value;
      }
      cond := cond + f.variable + " < " + str + "; ";
      cond := cond + f.variable + "++";
      var c := "for (" + cond + ") {\n";
      var body := StatementPart(f.body, level + 1);
      if body.Err? {
        return body;
      }
      r := Ok(c + body.value);
    }

    /** `switch_condition(sw, level)`: the last case block is popped, the
        others rendered in order, then the default block. */
    method SwitchCondition(sw: Stmt, level: nat) returns (r: Result<string>)
      requires sw.Switch?
      ensures r == SwitchText(sw, level)
      decreases sw, 1
    {
      var c := "switch (" + sw.variable + ") " + "{\n";
      if |sw.caseBlocks| == 0 {
        return Err(RuntimeCrash);
      }
      var cases := CaseBlocks(sw, level);
      if cases.Err? {
        return cases;
      }
      c := c + cases.value;
      if sw.defaultBlock.Some? {
        var indent := IndentBy(Indent, level);
        var body := StatementPart(sw.defaultBlock.value, level + 1);
        if body.Err? {
          return body;
        }
        c := c + (indent + "default:\n" + body.value);
      } else {
        return Err(RuntimeCrash);
      }
      r := Ok(c);
    }

    /** The case-block loop of `switch_condition`, over every block but the
        popped last one. */
    method CaseBlocks(sw: Stmt, level: nat) returns (r: Result<string>)
      requires sw.Switch? && |sw.caseBlocks| > 0
      ensures r == Join(CaseBlockItems(sw, level, |sw.caseBlocks| - 1), |sw.caseBlocks| - 1)
      decreases sw, 0, |sw.caseBlocks|
    {
      var remaining := |sw.caseBlocks| - 1;
      ghost var items := CaseBlockItems(sw, level, remaining);
      var c := "";
      var i := 0;
      while i < remaining
        invariant i <= remaining && Join(items, i) == Ok(c)
      {
        JoinStep(items, i, c);
        CaseBlockItemsAt(sw, level, remaining, i);
        var block := CaseBlockItem(sw.caseBlocks[i], level);
        if block.Err? {
          return block;
        }
        c := c + block.value;
        i := i + 1;
      }
      r := Ok(c);
    }

    /** One pass of the case-block loop: the indentation, the labels
        joined by ", " and the block's statement part. */
    method CaseBlockItem(b: CaseBlock, level: nat) returns (r: Result<string>)
      ensures r == CaseBlockText(b, level)
      decreases b, 0
    {
      var c := IndentBy(Indent, level);
      ghost var items := CaseLabels(b.caseList);
      var str := "";
      var j := 0;
      while j < |b.caseList|
        invariant j <= |b.caseList| && Join(items, j) == Ok(str)
      {
        JoinStep(items, j, str);
        CaseLabelsAt(b.caseList, j);
        var caseLabel := IsString(b.caseList[j]);
        if caseLabel.Err? {
          return caseLabel;
        }
        str := str + (caseLabel.value + ", ");
        j := j + 1;
      }
      c := c + "case " + DropLast(str, 2) + ":\n";
      var body := StatementPart(b.statementPart, level + 1);
      if body.Err? {
        return body;
      }
      r := Ok(c + DropLast(body.value, 3));
    }

    /** `generate(parser)`. */
    method Generate(program: Program) returns (r: Result<string>)
      modifies types
      ensures var e := GenerateText(program, old(types.names)); r == e.text && types.names == e.types
    {
      var code := GlobalDeclaration(program.globalDeclaration);
      if code.Err? {
        return code;
      }
      var statementPart := StatementPart(program.statementPart, 1);
      if statementPart.Err? {
        return Err(statementPart.error);
      }
      var text := code.value + "int main(){\n" + statementPart.value;
      text := DropLast(text, 3);
      text := text + "\n" + Indent + "return 0;\n}";
      r := Ok(text);
    }
  }
}
