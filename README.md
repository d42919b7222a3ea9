# A verified model of a Pascal-to-C++ translator front end

This project models, in Dafny, the core of a small translator from a Pascal
subset to C++.  The translator reads a program text, lexes it into tokens,
parses the tokens by recursive descent while a semantic module checks every
declaration and use against a scope table, removes unused variables with an
optimization chain, and finally emits C++ text.  Every stage is modelled in
the form the translator itself takes:

- `Wrappers` holds `Option`, `Result` and the kinds of failure.  Every
  exception the translator raises, or that Python raises inside it, becomes
  an `Err` of one of these kinds; the message text is not modelled.
- `Text` holds the character classes, case folding and decimal numerals that the
  translator's Python string methods provide.
- `SupportClasses` holds the operator and primitive-kind enumerations.  It
  gives their byte widths, their legal-operator tuples and the
  classification helpers.  The syntax-tree node classes live in `Nodes`;
  their `append`/`extend` methods become sequence concatenations there.
- `SemanticTools` holds the promotion table, the assignment-compatibility
  set, the integer ranges and the classification of literals.  The tables
  are total functions.  The integer next power of two replaces
  `log2`/`ceil`.
- `Nodes` holds the syntax tree as datatypes, and the symbols of the scope
  table.  A symbol is a class (`Nodes.Symbol`), because other symbols refer
  to it through their types and its use count changes in place.
- `Lexer` holds the lexer.  It is a class whose cursor fields the scanning
  methods update.  Each method is proved to do what a pure transition
  function over the input `seq<char>` describes.
- `Semantic` holds the semantic module.  It is a class holding the scope
  table `map<string, Symbol>` and the ambient `use_count_score` counter.
  Beside it are the functions that specify each lookup and check, and the
  post-order walk and fold of type inference.
- `Grammar` describes the language the parser accepts.  Each production is
  a pure function from a token position to the node it builds and the
  position after it, or to the error the parser stops with.
- `Parsing` holds the parser.  It is a class holding the current token, the
  scope stack and the semantic module.  Each expression, statement and
  type method is proved to produce exactly what its `Grammar` function
  gives, and each clause method what the clause's outcome built on those
  functions gives.  The section, declaration-part, subroutine and program
  methods are proved against traces of the clauses and pieces they read.
- `Optimizer` holds the dead-variable optimizer.  It is a link of the
  optimization chain, a class with a `next` field, together with the
  fixpoint that prunes unused declarations and dead assignments.
- `Processor` holds the processor that keeps the chain of links and runs a
  program through it.
- `Gen` holds the C++ emitter.  Its renderers are pure functions, and a
  class holds the methods with the source's loops, each proved equal to its
  function.  The shared list of declared type names is a registry object.
- `NodeRepr` holds the tree printer that every node inherits.  A node is
  modelled as its class text and its attributes in insertion order.

File reading and writing, the window front end and the command-line
drivers are not modelled.  The lexer reads the whole program text as a
sequence, and the parser reads the tokens the lexer gives as a sequence.

## Model

| member | source | states |
|---|---|---|
| Wrappers.JoinOk | gen.py:209-241 | a loop that appends one rendered item per element succeeds exactly when every item renders |
| Wrappers.JoinValues | gen.py:209-241 | when every item renders, the loop's text is the items' texts one after the other, in element order |
| Text.Lower | lexer.py:246-250 | the lower-cased word has the same length and each character is the ASCII lower-case of the original's |
| Text.LowerIdempotent | lexer.py:246-250 | lower-casing an already lower-cased word changes nothing, so a keyword matches in any letter case |
| Text.NatToString | lexer.py:225-238 | `str(number)` of a natural number is a non-empty run of decimal digits |
| Text.NatToStringValue | lexer.py:225-238 | reading the digits of `str(number)` back gives the number |
| Text.NatToStringNoLeadingZero | lexer.py:225-238 | `str(number)` starts with '0' exactly when the number is zero |
| SupportClasses.OperatorByName | other/SupportClasses.py:17-24 | `Operator(text)` finds a member whose value is `text`, and finds none exactly when no member has that value |
| SupportClasses.PrimitiveByName | other/SupportClasses.py:83-86 | `text in PrimitiveType` finds a kind whose name is `text`, and finds none exactly when no kind has that name |
| SupportClasses.PrimitiveByNameOfName | other/SupportClasses.py:43-48 | looking up a kind's own name gives back that kind |
| SupportClasses.NameInjective | other/SupportClasses.py:43-48 | two kinds with the same name are the same kind |
| SupportClasses.KindListsAgree | other/SupportClasses.py:99-116 | the integer, signed, unsigned and float tests are membership in the listed kinds |
| SupportClasses.UnsignedIntByWeight | other/SupportClasses.py:87-92 | succeeds exactly for widths 1, 2, 4 and at least 8; the kind is unsigned with the width clamped to 8; any other width is the `IndexError` |
| SupportClasses.SignedIntByWeight | other/SupportClasses.py:93-98 | the same for the signed kinds |
| SupportClasses.IntegerWidths | other/SupportClasses.py:43-48 | every integer kind is 1, 2, 4 or 8 bytes wide; the width is -1 exactly for UNDEFINED and STRING |
| SupportClasses.WidthIdentifiesKind | other/SupportClasses.py:43-48 | within the signed or the unsigned family the width determines the kind |
| SupportClasses.IntegerIsEitherFamily | other/SupportClasses.py:99-110 | an integer kind is signed or unsigned, never both |
| SupportClasses.OperatorTuples | other/SupportClasses.py:50-74 | every integer kind supports DIV and MOD, no float kind does, and UNDEFINED supports no operator |
| SupportClasses.BooleanOperators | other/SupportClasses.py:66-69 | BOOLEAN supports exactly NOT, AND, OR, XOR and the comparisons other than NONEQUALITY |
| SupportClasses.TextOperators | other/SupportClasses.py:70-72 | CHAR and STRING support exactly PLUS, GREATER, SMALLER, EQUALITY, NONEQUALITY and NOT |
| SupportClasses.ConditionOperatorsAreValueOperators | other/SupportClasses.py:30-39 | every condition operator is a value operator; ASSIGN, ARRAY_CALL and SUBROUTINE_CALL are neither |
| SupportClasses.FloatTypesShape | other/SupportClasses.py:115-116 | the float list names SINGLE twice, leaves out DECIMAL, and holds only 4- and 8-byte kinds |
| SemanticTools.NextPowerOfTwo | other/SemanticTools.py:24 | `2 ** ceil(log2(n))` is at least `n` and below `2n` |
| SemanticTools.NextPowerOfTwoIsPower | other/SemanticTools.py:24 | that value is a power of two |
| SemanticTools.NextPowerOfTwoIsLeast | other/SemanticTools.py:24 | it is the least power of two that is at least `n` |
| SemanticTools.NextIntegerType | other/SemanticTools.py:22-36 | PLUS, MINUS and MULTIPLY on two integer kinds give an integer kind; its width is the clamped next power of two of the width sum; it is signed exactly when an operand is |
| SemanticTools.DivIntegerType | other/SemanticTools.py:22-38 | DIV and MOD on two integer kinds give the wider operand's width; signed exactly when an operand is |
| SemanticTools.CastTypesByOperator | other/SemanticTools.py:163-169 | a condition operator gives BOOLEAN; otherwise the result is the table entry for the binary or unary key, and a missing entry is the `KeyError` |
| SemanticTools.IntegerArithmeticWidth | other/SemanticTools.py:22-36 | the table's PLUS, MINUS and MULTIPLY entries for integer kinds have the clamped width and the sign rule |
| SemanticTools.NextPowerOfTwoTable | other/SemanticTools.py:24 | the power-of-two values for every width sum that occurs |
| SemanticTools.ByteWordSumIsLongWord | other/SemanticTools.py:181 | BYTE + WORD is LONGWORD, as the module's own demonstration prints |
| SemanticTools.ShortIntSumIsSmallInt | other/SemanticTools.py:182 | SHORTINT + SHORTINT is SMALLINT |
| SemanticTools.WideProductIsClamped | other/SemanticTools.py:22-36 | UINT64 * BYTE is clamped to UINT64 |
| SemanticTools.WideDifferenceIsClamped | other/SemanticTools.py:22-36 | INT64 - INT64 is clamped to INT64 |
| SemanticTools.DivisionExamples | other/SemanticTools.py:183-184 | SHORTINT MOD SHORTINT is SHORTINT, BYTE DIV BYTE is BYTE, BYTE / BYTE is REAL |
| SemanticTools.IntegerDivision | other/SemanticTools.py:35-38 | `/` on integers gives REAL; DIV and MOD keep the wider width and the sign rule |
| SemanticTools.FloatArithmetic | other/SemanticTools.py:40-66 | float with integer or float arithmetic gives REAL; DECIMAL meets only DECIMAL and gives DECIMAL |
| SemanticTools.UnaryMinusKinds | other/SemanticTools.py:68-73 | unary minus on an integer kind is signed; a signed kind keeps itself; an unsigned kind moves to the signed kind of twice its width, clamped |
| SemanticTools.UInt64NegationIsInt64 | other/SemanticTools.py:68-71 | negating UINT64 gives INT64 |
| SemanticTools.ByteNegationIsSmallInt | other/SemanticTools.py:68-71 | negating BYTE gives SMALLINT |
| SemanticTools.IntegerUnaryPlusMissing | other/SemanticTools.py:73 | the integer entry is keyed by PLUS, so unary plus on an integer kind has no entry and the cast fails |
| SemanticTools.NumericEntriesSymmetric | other/SemanticTools.py:106-110 | for numeric kinds the entry for (a, b) is the entry for (b, a) |
| SemanticTools.TextConcatenationAsymmetric | other/SemanticTools.py:75-77 | STRING + CHAR is STRING, but CHAR + STRING has no entry |
| SemanticTools.AssignSupportShape | other/SemanticTools.py:22-82 | integers take integers, floats take integers but not the reverse, STRING takes CHAR but not the reverse, and DECIMAL and UNDEFINED take part in no pair |
| SemanticTools.CastConditionOperator | other/SemanticTools.py:164-165 | every condition operator casts to BOOLEAN, whatever the operands |
| SemanticTools.IntegerValueType | other/SemanticTools.py:128-148 | succeeds exactly inside [-2^63, 2^64-1]; the kind is the first one in the order tried whose range holds the value; it is unsigned exactly when the value is not negative |
| SemanticTools.ShortIntUpperBoundUnreachable | other/SemanticTools.py:97-101 | the SHORTINT check accepts 128, but 128 is typed BYTE first |
| SemanticTools.IntegerValueTypeIsNarrowest | other/SemanticTools.py:128-148 | no narrower kind of the same family holds the value |
| SemanticTools.GetValueType | other/SemanticTools.py:150-161 | an integer numeral gets its integer kind; any other text gets a non-integer kind; CHAR only for a one-character text |
| SemanticTools.LiteralKindHoldsValue | other/SemanticTools.py:128-161 | an integer literal's kind holds its value |
| SemanticTools.UnsignedLiteralExample | other/SemanticTools.py:150-161 | "200" is BYTE |
| SemanticTools.NegativeLiteralExample | other/SemanticTools.py:150-161 | "-200" is SMALLINT |
| SemanticTools.WordSizedLiteralExample | other/SemanticTools.py:150-161 | "70000" is LONGWORD |
| SemanticTools.OtherLiteralExamples | other/SemanticTools.py:150-161 | "1.5" is REAL and "x" is CHAR |
| SemanticTools.BooleanAndTextLiteralExamples | other/SemanticTools.py:150-161 | "True" is BOOLEAN and "xy" is STRING |
| SemanticTools.ConvertValueToBoolean | other/SemanticTools.py:171-177 | an integer numeral is true exactly when it is not zero; non-numeral text that passes the boolean test is true exactly when it lower-cases to "true"; other text that is neither numeral nor boolean is true exactly when it is not empty; a plain decimal numeral is true exactly when its value is above 2^-1075, half the smallest subnormal double, below which `float()` rounds to 0.0; the only failure is float text with an exponent or other syntax the model does not evaluate |
| SemanticTools.PlainDecimalIsFloat | other/SemanticTools.py:171-173 | a plain decimal numeral passes the float test |
| SemanticTools.ZeroDecimalIsFalse | other/SemanticTools.py:171-173 | a plain decimal numeral with no non-zero digit is false |
| SemanticTools.ShortDecimalIsTrue | other/SemanticTools.py:171-173 | a plain decimal numeral with a non-zero digit and at most 322 digits after the point is true, as it lies above the rounding-to-zero threshold |
| SemanticTools.TinyDecimalIsFalse | other/SemanticTools.py:171-173 | a plain decimal numeral whose value is at most 10^-324 is false, as `float()` rounds it to 0.0 |
| SemanticTools.IntegerValueNonZero | other/SemanticTools.py:171-173 | an integer numeral's value is non-zero exactly when it has a non-zero digit |
| SemanticTools.NumeralConversionExamples | other/SemanticTools.py:171-173 | "0" is false and "-12" is true |
| SemanticTools.DecimalConversionExample | other/SemanticTools.py:171-173 | "0.0" is false |
| SemanticTools.BooleanTextConversionExample | other/SemanticTools.py:174-175 | "TRUE" is true |
| SemanticTools.TrueishTextConversionExample | other/SemanticTools.py:174-175 | "trueish" passes the boolean test but is not "true", so it is false |
| SemanticTools.OtherTextConversionExamples | other/SemanticTools.py:176-177 | "abc" is true and "" is false |
| Nodes.ArrayTy.Append | other/SupportClasses.py:215-216 | the range goes after the existing ranges, which are kept; the node's identity and element type stay |
| Nodes.Expr.AppendParam | other/SupportClasses.py:238-241 | the parameter goes after the existing call parameters, which are kept |
| Nodes.Stmt.AppendCaseBlock | other/SupportClasses.py:283-284 | the case block goes after the existing ones; the switch variable and default stay |
| Nodes.StatementPart.Append | other/SupportClasses.py:121-124 | the statement goes after the existing statements, which are kept |
| Nodes.CaseBlock.AppendCase | other/SupportClasses.py:292-293 | the case label goes after the existing labels; the block's statements stay |
| Nodes.CaseBlock.AppendStatement | other/SupportClasses.py:294-297 | the statement goes after the block's statements; the labels stay |
| Nodes.FormalParams.Append | other/SupportClasses.py:174-175 | the parameter goes after the existing parameters, which are kept |
| Nodes.FormalParams.Extend | other/SupportClasses.py:176-184 | the new parameters follow the existing ones, in order |
| Nodes.ExtendIsRepeatedAppend | other/SupportClasses.py:174-184 | extending by a list is appending its elements one at a time |
| Nodes.Symbol.constructor | SemanticModule.py:13-36 | a new symbol has the given kind, name, type, immutability and parameters; its use count starts at 0, or at 2^32-1 for a subroutine |
| Nodes.AliasChain | SemanticModule.py:57-59 | the aliases that `while isinstance(t, TypeVariable)` walks through: empty exactly when the type is not an alias, otherwise starting at the alias itself |
| Nodes.Unwrap | SemanticModule.py:57-59 | the walk ends at a type that is not an alias; a non-alias type is its own end |
| Nodes.AliasChainRanks | SemanticModule.py:57-59 | each alias on the chain refers only to symbols declared before it, so the walk terminates |
| Nodes.AliasChainDistinct | SemanticModule.py:57-59 | no alias occurs twice on the chain |
| Nodes.DeclTy | Parser.py:117-118 | a declaration stores an array node itself, and any other type as its text `str(t)` |
| Lexer.WordKind | lexer.py:246-254 | a word's kind is its keyword kind, else its type kind, else IDENTIFIER, looked up by its lower-cased spelling; never EOF |
| Lexer.WordKindIgnoresCase | lexer.py:246-250 | a word and its lower-cased spelling get the same kind |
| Lexer.AccumulateDigits | lexer.py:218-221 | `number = number * 10 + int(c)` over a digit run gives the start value shifted past the run plus the run's value |
| Lexer.ReadChar | lexer.py:106-113 | away from end of file the next character becomes current and fewer characters are left; at end of file nothing moves; a newline starts a new row at column 0 |
| Lexer.Lex | lexer.py:115-259 | a token and the cursor after it: EOF leaves end of file current; any other token consumes input |
| Lexer.Scan | lexer.py:131-256 | every branch after blanks consumes input and gives a kind other than EOF |
| Lexer.TextUntil | lexer.py:135-137 | the text read so far is kept as a prefix and the stop character is left current |
| Lexer.TextKind | lexer.py:146-149 | a one-character text is CHAR_VAL, any other length STRING_VAL |
| Lexer.QuotedToken | lexer.py:132-149 | a quoted text consumes input and its kind is CHAR_VAL exactly when it has one character |
| Lexer.SymbolToken | lexer.py:152-214 | the symbols branch consumes input and never gives EOF |
| Lexer.ParenToken | lexer.py:189-209 | `(` gives LPAREN or COMMENT and consumes input |
| Lexer.DigitRun | lexer.py:219-221 | the digit loop stops at the first non-digit and consumes input when it starts on a digit |
| Lexer.DigitText | lexer.py:228-230 | the fraction loop keeps the text it starts from, adds only digits and stops at the first non-digit |
| Lexer.NumberToken | lexer.py:217-238 | a number consumes input and is always NUMBER |
| Lexer.WordRun | lexer.py:243-245 | the word loop keeps the prefix, stops at the first character that is not a letter, digit or `_`, and consumes at least one character when it starts on one |
| Lexer.WordToken | lexer.py:241-254 | an identifier keeps its spelling, starts with the current character, and gets its case-insensitive kind |
| Lexer.Tokens | lexer.py:115-259 | the tokens pulled one call after another up to the first EOF contain no EOF |
| Lexer.Tokenize | lexer.py:115-259 | a whole file's token stream contains no EOF |
| Lexer.Lexer.constructor | lexer.py:4-11 | a fresh lexer reads the given file from its start, with nothing current, at row 1 and column 0 |
| Lexer.Lexer.NextChar | lexer.py:106-113 | `get_next_char` moves the cursor as `ReadChar` says |
| Lexer.Lexer.NextToken | lexer.py:115-259 | `get_next_token` returns the token `Lex` gives and leaves its cursor, or fails with its error |
| Lexer.Lexer.ScanToken | lexer.py:131-256 | the branch dispatch gives what `Scan` gives |
| Lexer.Lexer.ReadUntil | lexer.py:135-137 | the loop gives what `TextUntil` gives |
| Lexer.Lexer.ScanQuoted | lexer.py:132-149 | the quote branch gives what `QuotedToken` gives |
| Lexer.Lexer.ScanSymbol | lexer.py:152-214 | the symbols branch gives what `SymbolToken` gives |
| Lexer.Lexer.ScanParen | lexer.py:189-209 | the comment branch gives what `ParenToken` gives |
| Lexer.Lexer.ScanNumber | lexer.py:217-238 | the numbers branch gives what `NumberToken` gives |
| Lexer.Lexer.ReadNumber | lexer.py:219-221 | the digit loop gives what `DigitRun` gives |
| Lexer.Lexer.ReadDigitText | lexer.py:228-230 | the fraction loop gives what `DigitText` gives |
| Lexer.Lexer.ReadWord | lexer.py:243-245 | the word loop gives what `WordRun` gives |
| Lexer.EofIsStable | lexer.py:119-125 | once end of file is current, every further call gives EOF with text "eof" and leaves the cursor where it is |
| Lexer.DigitTextAppends | lexer.py:228-230 | the fraction loop appends the digits it reads to whatever text it starts from |
| Lexer.DigitRunIsAccumulated | lexer.py:219-230 | the digit loop stops where the fraction loop would, and its number is the run's digits accumulated onto the start value |
| Lexer.IntegerToken | lexer.py:217-238 | digits followed by no letter, `_` or `.` give a NUMBER whose text is the decimal rendering of their value, leading zeros dropped |
| Lexer.NumberBeforeRange | lexer.py:224-233 | a numeral right before `..` is a NUMBER of its digits and leaves `..` current, so the next token is ARRDOT |
| Lexer.ParenKeepsNext | lexer.py:207-209 | a `(` not followed by `*` is LPAREN and the character after it starts the next token |
| Lexer.ColonDropsNext | lexer.py:161-164 | a `:` not followed by `=` is COLON and the character after it is consumed with it |
| Lexer.DotsIsSymbol | lexer.py:90 | `..` is in the symbol table as ARRDOT |
| Semantic.ConvertToName | SemanticModule.py:48-49 | the key is the scope levels and the identifier joined by dots, and the bare identifier in the empty scope |
| Semantic.NestedName | SemanticModule.py:48-49 | one more scope level puts one more dot-separated part in front of the identifier |
| Semantic.NameExamples | SemanticModule.py:48-49 | `["a","b"]` and "id" give "a.b.id"; the empty scope gives "id"; an empty level gives ".x" |
| Semantic.SplitJoin | SemanticModule.py:48-49 | splitting a key of dot-free parts at its dots gives the parts back |
| Semantic.NamesAreInjective | SemanticModule.py:48-49 | with dot-free levels and identifiers, distinct (scope, identifier) pairs get distinct keys |
| Semantic.Resolve | SemanticModule.py:62-76 | a lookup finds a symbol of the table, and of the requested class |
| Semantic.ResolveFindsDeepestMatch | SemanticModule.py:62-76 | the symbol found is the one at the longest prefix of the scope that holds a matching entry |
| Semantic.ResolveFailsIffNoMatch | SemanticModule.py:62-76 | a lookup fails exactly when no prefix of the scope, the empty one included, holds a matching entry |
| Semantic.Shadowing | SemanticModule.py:62-79 | a local entry hides a global one of the same name, but a type lookup passes over a local entry that is not a type |
| Semantic.AsResult | SemanticModule.py:76 | a lookup that finds nothing is the "not declared" error |
| Semantic.PtLike | other/SupportClasses.py:83-86 | a type counts as a kind exactly when it is one or a kind's name as text |
| Semantic.PrimitiveOf | SemanticModule.py:187-190 | the walk ends at a kind or a kind's name, is the identity on those, and a text naming no kind is a crash |
| Semantic.PrimitiveOfProperties | SemanticModule.py:187-190 | aliases do not change the primitive type, and it is a fixed point of the walk |
| Semantic.GetPrimitiveType | SemanticModule.py:187-190 | the loop gives `PrimitiveOf` |
| Semantic.CheckTypeCompatibility | SemanticModule.py:160-173 | the loops and branches give `Compatible` |
| Semantic.CompatibleKinds | SemanticModule.py:171-172 | between kinds, compatibility is the assignment table; every integer pair is compatible; REAL takes INTEGER but not the reverse |
| Semantic.CompatibleNonPrimitive | SemanticModule.py:165-166 | two arrays are compatible only when they are the same node; an array is never compatible with a type text |
| Semantic.CompatibleArrayElement | SemanticModule.py:167-170 | an array on either side is compared through its element type, the element first |
| Semantic.KindTextActsAsKind | SemanticModule.py:165-172 | a kind's name stored as text acts as the kind against any kind, on either side |
| Semantic.CompatiblePrimitiveLike | SemanticModule.py:171-172 | between a kind and a kind or kind name, compatibility is the assignment table on the kinds |
| Semantic.CompatibleThroughAliases | SemanticModule.py:161-164 | aliases on either side do not matter |
| Semantic.CallsContributeNoOperator | SemanticModule.py:208-216 | ASSIGN, ARRAY_CALL and SUBROUTINE_CALL put no operator into the post-order list, and a call's argument list puts nothing |
| Semantic.ResolveSlot | SemanticModule.py:224-231 | a variable becomes the primitive type of its symbol's type; an undeclared variable is the lookup error; constants always resolve |
| Semantic.ResolveSlots | SemanticModule.py:202-232 | the resolved post-order list has one element per slot |
| Semantic.ResolveSlotsPrimitive | SemanticModule.py:224-231 | every type in a resolved post-order list is a kind or a kind's name |
| Semantic.CheckItemSupport | SemanticModule.py:107-115 | passes exactly for a kind that lists the operator; a kind that does not list it is the unsupported-operator error |
| Semantic.ConvolutePass | SemanticModule.py:236-256 | one inner pass never lengthens the list, and a pass that removes nothing leaves it unchanged |
| Semantic.ConvoluteTypeOperatorVector | SemanticModule.py:234-257 | the in-place fold gives `ConvoluteSpec`, the outer loop of passes |
| Semantic.ApplyUnary | other/SemanticTools.py:163-169 | a unary operator applied to a type gives a kind |
| Semantic.ApplyBinary | other/SemanticTools.py:163-169 | a binary operator applied to two types gives a kind |
| Semantic.FoldStep | SemanticModule.py:234-257 | one element of the post-order list keeps an operand stack of kinds and kind names |
| Semantic.RunItems | SemanticModule.py:234-257 | running the fold over kinds and operators ends in a kind or a kind's name |
| Semantic.FoldTypes | SemanticModule.py:234-257 | the corrected fold of a list of kinds and operators gives a kind or a kind's name |
| Semantic.FoldTypeOperatorVector | SemanticModule.py:234-257 | the stack loop gives `FoldTypes` |
| Semantic.RunSlotsShape | SemanticModule.py:202-257 | folding the slots of a value expression pushes its structural type, or stops with that type's error |
| Semantic.RunItemsIsRunSlots | SemanticModule.py:202-232 | resolving every variable first and then folding is the same as resolving each one as the fold meets it |
| Semantic.PredictComputesTypeOf | SemanticModule.py:192-197 | the predicted type of a value expression succeeds exactly when its structural type does, and is that type |
| Semantic.IntegerArithmetic | other/SemanticTools.py:22-36 | plus, minus and times of two integer kinds give the next integer kind up |
| Semantic.SumChainCrashes | SemanticModule.py:234-257 | the source's fold of `a + b + c + d` over integer kinds indexes past the shortened list |
| Semantic.SumChainType | SemanticModule.py:192-197 | `a + b + c + d` over integer literals has an integer structural type |
| Semantic.TypeOfWidening | other/SemanticTools.py:22-36 | plus, minus and times of two integer-typed expressions have the next integer kind of the two |
| Semantic.AsWrittenFoldCrashesOnFourOperands | SemanticModule.py:234-257 | as written, the fold of `a + b + c + d` over integer literals crashes, where the stack fold finds an integer kind |
| Semantic.RightNestedType | SemanticModule.py:192-197 | `a - b * c` over integer literals has an integer structural type |
| Semantic.AsWrittenFoldRejectsRightNesting | SemanticModule.py:234-257 | as written, the fold of `a - b * c` reports an unsupported operator, where the stack fold finds an integer kind |
| Semantic.PredictSpecIsRanked | SemanticModule.py:192-197 | a predicted type is well formed |
| Semantic.PredictExprIsPrimitiveLike | SemanticModule.py:192-197 | the type predicted for an expression is a kind or a kind's name, never an alias or an array |
| Semantic.OperationSupportSpec | SemanticModule.py:107-115 | passes exactly when the predicted type is a kind whose operator tuple holds the operator |
| Semantic.ArgumentTyped | SemanticModule.py:127-131 | fails exactly when the argument is an undeclared bare variable |
| Semantic.ArgumentsCheck | SemanticModule.py:126-133 | the arguments pass exactly when each one passes against its formal |
| Semantic.SubroutineCallSpec | SemanticModule.py:117-134 | passes exactly when the name is a subroutine, the argument count matches and every argument is compatible with its formal; an undeclared name is the not-declared error |
| Semantic.PyInt | SemanticModule.py:150-155 | `int(text)` succeeds exactly on integer texts |
| Semantic.IndexCheck | SemanticModule.py:144-157 | a passing index has an integer type, and a literal index lies within literal bounds |
| Semantic.BelowLeftBoundIgnoresRight | SemanticModule.py:156 | a literal index below a literal left bound is out of bounds whatever the right bound holds: the chained comparison stops at the left half |
| Semantic.IndexesCheck | SemanticModule.py:144-157 | the indexes pass exactly when each one passes against its range |
| Semantic.ArrayAccessSpec | SemanticModule.py:136-158 | passes exactly when the name is an array, the index count matches the ranges and every index passes |
| Semantic.AssignSpec | SemanticModule.py:175-185 | assigning to a constant is the immutable-assignment error; otherwise passes exactly when the target is declared, the value's type is predicted and is compatible with the target's type |
| Semantic.AssignLiteral | SemanticModule.py:175-185 | a literal assigned to a mutable variable of a kind passes exactly when `assign_support` holds the pair |
| Semantic.LiteralIndexInBounds | SemanticModule.py:136-158 | a literal integer index into a one-dimensional array with literal bounds passes exactly when it lies in the closed range |
| Semantic.SemanticModule.constructor | SemanticModule.py:40-42 | the table starts empty with the counter at zero |
| Semantic.SemanticModule.AddToScope | SemanticModule.py:52-60 | a key already present is the duplicate-name error and nothing changes; otherwise the symbol is entered and each alias on its type's chain gains one use |
| Semantic.SemanticModule.CountAliasUses | SemanticModule.py:55-59 | each symbol on the alias chain gains exactly one use, every other symbol none |
| Semantic.SemanticModule.GetObject | SemanticModule.py:62-76 | gives the deepest matching entry, counts one use of it when the counter is set and it is not a type, and changes no other count |
| Semantic.SemanticModule.GetType | SemanticModule.py:78-79 | gives the deepest type entry, or the not-declared error, and counts no use |
| Semantic.SemanticModule.GetVariable | SemanticModule.py:81-85 | gives the deepest entry; a subroutine or an alias-typed variable gains fifteen more uses |
| Semantic.SemanticModule.AddVariable | SemanticModule.py:90-92 | enters a fresh variable (immutable for a constant) with no uses, or reports the duplicate name |
| Semantic.SemanticModule.AddType | SemanticModule.py:94-96 | enters a fresh type symbol for the original type, or reports the duplicate name |
| Semantic.SemanticModule.AddSubroutine | SemanticModule.py:98-100 | enters a fresh subroutine symbol whose use count starts at 2**32 - 1, or reports the duplicate name |
| Semantic.SemanticModule.ResolveSlotStep | SemanticModule.py:224-231 | one slot resolves to `ResolveSlot`, charging one use of the variable it looks up |
| Semantic.SemanticModule.PostOrderCondition | SemanticModule.py:202-232 | the walk gives the resolved post-order list, and each symbol gains one use per variable slot that names it |
| Semantic.SemanticModule.PredictConditionType | SemanticModule.py:192-197 | gives `PredictSpec`; a node with its own type counts no uses, otherwise the walk's uses are counted |
| Semantic.SemanticModule.CheckTypeOperationSupport | SemanticModule.py:107-115 | gives `OperationSupportSpec` |
| Semantic.SemanticModule.CheckSubroutineCall | SemanticModule.py:117-134 | gives `SubroutineCallSpec` |
| Semantic.SemanticModule.CheckArgument | SemanticModule.py:126-133 | one pass of the argument loop gives `ArgumentCheck`: the argument's typing failure, its prediction failure, or whether its type is compatible with the formal's |
| Semantic.ArgumentsCheckFrom | SemanticModule.py:126-133 | the check of the arguments from one position on is the first one's check, then, if it passes, the rest's |
| Semantic.SemanticModule.CheckArrayAccess | SemanticModule.py:136-158 | gives `ArrayAccessSpec` |
| Semantic.SemanticModule.CheckAssign | SemanticModule.py:175-185 | gives `AssignSpec` |
| Grammar.Advance | Parser.py:17-18 | moving on advances one token, and stays at the end of input once it is reached |
| Grammar.ConditionOperator | Parser.py:222-223 | a relational kind stands for an operator of the lowest level |
| Grammar.AdditiveOperator | Parser.py:231-232 | `PLUS`, `MINUS`, `OR` and `XOR` stand for operators of the middle level |
| Grammar.MultiplicativeOperator | Parser.py:240-241 | `MULTIPLY`, `DIVIDE`, `DIV`, `MOD`, `AND`, `SHL` and `SHR` stand for operators of the highest level |
| Grammar.Condition | Parser.py:220-226 | a parsed condition takes at least one token and ends within the input |
| Grammar.Expression | Parser.py:229-235 | a parsed expression takes at least one token and ends within the input |
| Grammar.Term | Parser.py:238-244 | a parsed term takes at least one token and ends within the input |
| Grammar.Factor | Parser.py:247-268 | a parsed factor takes at least one token and ends within the input |
| Grammar.UnaryOperator | Parser.py:270-291 | a parsed unary operator takes the operator and the factor after it |
| Grammar.ApplyUnary | Parser.py:273-291 | folding a unary operator into its factor takes no tokens of its own |
| Grammar.IdentifierStatement | Parser.py:294-327 | a parsed identifier statement takes at least one token and ends within the input |
| Grammar.Suffix | Parser.py:300-326 | each assignment, call or index suffix takes at least one token |
| Grammar.RootVariable | Parser.py:306-308 | an assignment is checked against the variable reached by following the left operands |
| Grammar.CallArguments | Parser.py:330-339 | a parsed argument list takes at least its closing parenthesis |
| Grammar.ArrayIndexes | Parser.py:341-350 | a parsed index list takes at least its closing bracket |
| Grammar.StatementBlock | Parser.py:353-366 | a parsed block takes at least one token and ends within the input |
| Grammar.Statement | Parser.py:368-390 | a parsed statement takes at least one token and ends within the input |
| Grammar.IfStatement | Parser.py:392-402 | a parsed if statement takes at least one token and ends within the input |
| Grammar.CaseStatement | Parser.py:404-424 | a parsed case statement takes at least one token and ends within the input |
| Grammar.ForStatement | Parser.py:426-442 | a parsed for statement takes at least one token and ends within the input |
| Grammar.WhileStatement | Parser.py:444-451 | a parsed while statement takes at least one token and ends within the input |
| Grammar.RepeatStatements | Parser.py:453-462 | a parsed repeat statement takes at least its `until` and its condition |
| Grammar.TypeSpec | Parser.py:189-201 | a parsed type numbers its array nodes from the given id in nesting order, and a named type is the alias symbol the type lookup finds for that name |
| Grammar.ArrayTypeSpec | Parser.py:203-217 | an array type is an array node that gets its id before its element type |
| Grammar.VarClause | Parser.py:104-114 | a var clause's type numbers its array nodes from the given id |
| Grammar.ConstClause | Parser.py:124-129 | a const clause is named by its first token |
| Grammar.TypeClause | Parser.py:137-142 | a type clause is named by its first token and numbers its array nodes from the given id |
| Grammar.WordsSplit | Parser.py:220-244 | what the input reads as splits at any position |
| Grammar.MultiplicativeLevel | Parser.py:240-241 | the multiplicative kinds are level 3 and stand for level-3 operators |
| Grammar.AdditiveLevel | Parser.py:231-232 | the additive kinds are level 2 and stand for level-2 operators |
| Grammar.ConditionLevel | Parser.py:222-223 | an operator kind below the additive level is relational and stands for a level-1 operator |
| Grammar.TermRunOutcome | Parser.py:238-244 | the term loop over a stream stops where no multiplicative operator follows, with a tree that respects precedence and reads as the input it took |
| Grammar.ExpressionRunOutcome | Parser.py:229-235 | the expression loop over a stream stops below the additive level, with a tree that respects precedence and reads as the input it took |
| Grammar.ConditionRunOutcome | Parser.py:220-226 | the condition loop over a stream takes the rest of the input, with a tree that respects precedence and reads as that input |
| Grammar.ConditionAtOutcome | Parser.py:220-244 | precedence climbing reads a whole stream back as one tree in which every operator binds as its level says, left-associatively within a level |
| Grammar.LoneIdentifier | Parser.py:247-268 | a declared identifier that nothing continues is a factor by itself |
| Grammar.IdentifierTailStops | Parser.py:299 | an identifier statement ends at a token that starts none of its suffixes |
| Grammar.DeclaredIdentifier | Parser.py:294-299 | a declared identifier starts an identifier statement that goes on as its suffixes say |
| Grammar.LoopsStop | Parser.py:220-244 | each loop ends at once at a kind that is not its own |
| Grammar.TermTailUnfold | Parser.py:240-243 | one round of the term loop joins the next factor to the left with the operator |
| Grammar.ExpressionTailUnfold | Parser.py:231-234 | one round of the expression loop joins the next term to the left with the operator |
| Grammar.ConditionTailUnfold | Parser.py:222-225 | one round of the condition loop joins the next expression to the left with the operator |
| Grammar.TermTailAgrees | Parser.py:238-244 | on a stream the grammar's term loop is the precedence-climbing term loop |
| Grammar.ExpressionTailAgrees | Parser.py:229-235 | on a stream the grammar's expression loop is the precedence-climbing expression loop |
| Grammar.ConditionTailAgrees | Parser.py:220-226 | on a stream the grammar's condition loop is the precedence-climbing condition loop |
| Grammar.InfixStreamParses | Parser.py:220-268 | a stream of declared identifiers and binary operators parses completely into a tree that reads back as the input and in which every operator binds as its level says, left-associatively within a level |
| Grammar.UnaryOperatorStep | Parser.py:270-272 | a unary operator applies to the factor parsed after it |
| Grammar.NumberFactor | Parser.py:249-252 | a numeric literal is a value typed by its text |
| Grammar.NegativeLiteralFolds | Parser.py:277-282 | a minus before a numeric literal becomes one literal with the negated text, typed from that text, once the unary-minus check passes |
| Grammar.NotLiteralFolds | Parser.py:285-288 | `not` on a boolean literal becomes the opposite boolean literal |
| Grammar.BooleanLiteralFactor | Parser.py:257-258 | `true` and `false` are boolean literals holding their own text |
| Grammar.UnaryOverIdentifier | Parser.py:283-290 | `not` and unary minus over an identifier build a unary node over it |
| Grammar.StatementBlockSingle | Parser.py:364-365 | a block without `begin` is the one statement |
| Grammar.BlockStatementsRound | Parser.py:357-362 | inside `begin` a statement is followed by `;` or `end`; anything else is a syntax error |
| Parsing.LiteralSupport | Parser.py:279 | a literal's support for an operator depends on its kind only, so the unary-minus check, made without a scope, agrees with the check at any scope |
| Parsing.VarDecls | Parser.py:119 | a var clause gives one declaration node per identifier, in order, each with the clause's type |
| Parsing.KeySetMembers | Parser.py:115-116 | the keys a var clause takes are exactly its identifiers' keys at the current scope |
| Parsing.TypeDeclTy | Parser.py:144-147 | a type declaration node keeps the type's text, or for an array the array node with its element type's text |
| Parsing.AliasTarget | Parser.py:143-147 | the alias symbol entered for an array type shares the node, so it sees the element type turned into its text; for any other type it keeps the type |
| Parsing.SubroutineKind | Parser.py:152 | `PROCEDURE` and `FUNCTION` name the two subroutine kinds, and no other token names one |
| Parsing.TracedSnoc | Parser.py:78-101 | a declaration piece that starts where a trace ends extends the trace and appends its nodes |
| Parsing.SectionPart | Parser.py:82-96 | a section read from its keyword up to a token that is not an identifier is one piece of a declaration part |
| Parsing.SubroutinePart | Parser.py:97-98 | a subroutine is one piece of a declaration part |
| Parsing.ArrayTypeSpecSteps | Parser.py:203-217 | an array type is its bracketed ranges, then `of` and its element type, the node numbered before its element type; the first failure is the array type's |
| Parsing.ConstClauseSteps | Parser.py:124-129 | a const clause is `name =` and the outcome of its condition |
| Parsing.FindRootVariable | Parser.py:306-308 | the loop finds the variable at the root of an assigned node, as `RootVariable` does |
| Parsing.Parser.constructor | Parser.py:7-15 | the parser starts at the first token with an empty scope stack |
| Parsing.Parser.ParseCondition | Parser.py:220-226 | gives the grammar's condition and stops where it ends, with the use-count score back where it was |
| Parsing.Parser.ParseConditionTail | Parser.py:222-225 | the relational loop gives the grammar's condition loop |
| Parsing.Parser.ParseExpression | Parser.py:229-235 | gives the grammar's expression and stops where it ends |
| Parsing.Parser.ParseExpressionTail | Parser.py:231-234 | the additive loop gives the grammar's expression loop |
| Parsing.Parser.ParseTerm | Parser.py:238-244 | gives the grammar's term and stops where it ends |
| Parsing.Parser.ParseTermTail | Parser.py:240-243 | the multiplicative loop gives the grammar's term loop |
| Parsing.Parser.ParseFactor | Parser.py:247-268 | gives the grammar's factor and stops where it ends |
| Parsing.Parser.ParseUnaryOperator | Parser.py:270-291 | gives the grammar's unary operator, with its check and folding |
| Parsing.Parser.ParseIdentifierStatement | Parser.py:294-327 | gives the grammar's identifier statement: the lookup, then each suffix and its check |
| Parsing.Parser.ParseSuffix | Parser.py:300-326 | one suffix, chosen by the current token, as the grammar gives it |
| Parsing.Parser.ParseAssignment | Parser.py:301-310 | the assignment suffix as the grammar gives it, with the score raised around its condition and restored |
| Parsing.Parser.ParseCall | Parser.py:311-317 | the call suffix as the grammar gives it |
| Parsing.Parser.ParseIndexing | Parser.py:318-324 | the index suffix as the grammar gives it |
| Parsing.Parser.ParseCallParams | Parser.py:330-339 | gives the grammar's argument list |
| Parsing.Parser.ParseArrayCall | Parser.py:341-350 | gives the grammar's index list |
| Parsing.Parser.ParseStatementBlock | Parser.py:353-366 | gives the grammar's statement block |
| Parsing.Parser.ParseBlockStatements | Parser.py:356-363 | the loop of a `begin` block gives the grammar's block loop |
| Parsing.Parser.ParseBlockStatement | Parser.py:358-362 | one turn of the block loop moves the grammar's block loop one statement on |
| Parsing.Parser.ParseStatement | Parser.py:368-390 | gives the grammar's statement |
| Parsing.Parser.ParseIfStatement | Parser.py:392-402 | gives the grammar's if statement |
| Parsing.Parser.ParseElsePart | Parser.py:399-401 | without `else` the else part is empty and nothing is read; with it, the block after it |
| Parsing.Parser.ParseIfHead | Parser.py:393-397 | the condition, then `then`, which must follow it |
| Parsing.Parser.ParseCaseStatement | Parser.py:404-424 | gives the grammar's case statement |
| Parsing.Parser.ParseCaseRound | Parser.py:409-422 | one turn of the case loop moves the grammar's case loop one block on |
| Parsing.Parser.ParseDefaultBlock | Parser.py:410-412 | gives the grammar's default block |
| Parsing.Parser.ParseCaseBlock | Parser.py:414-421 | gives the grammar's case block |
| Parsing.Parser.ParseCaseLabels | Parser.py:415-419 | gives the grammar's case labels |
| Parsing.Parser.ParseForStatement | Parser.py:426-442 | gives the grammar's for statement |
| Parsing.Parser.ParseForCounter | Parser.py:429-431 | the counter must be an identifier and a declared name |
| Parsing.Parser.ParseForRange | Parser.py:437-441 | gives the rest of the grammar's for statement, lowering the score raised on entry |
| Parsing.Parser.ParseForEnd | Parser.py:437-440 | `to`, the end expression and `do`, lowering the score after the expression |
| Parsing.Parser.ParseForInitial | Parser.py:432-436 | gives the grammar's optional start of a for statement |
| Parsing.Parser.ParseWhileStatement | Parser.py:444-451 | gives the grammar's while statement |
| Parsing.Parser.ParseRepeatStatement | Parser.py:453-462 | gives the grammar's repeat statement |
| Parsing.Parser.ParseRepeatBody | Parser.py:455-458 | the statements before `until` move the grammar's repeat loop on to the `until` |
| Parsing.Parser.ParseType | Parser.py:189-201 | gives the grammar's type, numbering its array nodes from the parser's counter, and the type is one the table can hold |
| Parsing.Parser.ParseArrayType | Parser.py:203-217 | gives the grammar's array type |
| Parsing.Parser.ParseArrayBounds | Parser.py:205-214 | `[` and the grammar's ranges |
| Parsing.Parser.ParseArrayElement | Parser.py:215-216 | `of` and the grammar's element type |
| Parsing.Parser.ParseArrayRanges | Parser.py:206-214 | gives the grammar's ranges |
| Parsing.Parser.ParseArrayRange | Parser.py:207-213 | gives the grammar's range |
| Parsing.Parser.ParseVarIdentifiers | Parser.py:105-111 | gives the grammar's identifier list |
| Parsing.Parser.DeclareVariables | Parser.py:115-116 | passes exactly when every identifier's key is fresh, and then enters one variable per identifier; otherwise the duplicate-name error |
| Parsing.Parser.DeclareVariable | Parser.py:115-116 | one identifier is entered, or its key is found taken |
| Parsing.Parser.ParseVarStatement | Parser.py:104-121 | the grammar's var clause, then one variable entered per identifier and one node per identifier with the type's text; a taken key is the duplicate-name error |
| Parsing.Parser.DeclareConstant | Parser.py:130-131 | the constant's type is its expression's predicted type, and it is entered as an immutable variable, or the key is taken |
| Parsing.Parser.ParseConstStatement | Parser.py:124-134 | the grammar's const clause, the predicted type, and one immutable variable entered; the node keeps the type's text |
| Parsing.Parser.ParseNameEquals | Parser.py:126-128 | `name =` gives the name, anything else is a syntax error |
| Parsing.Parser.ParseTypeStatement | Parser.py:137-148 | the grammar's type clause, then one alias symbol entered with the type; a taken key is the duplicate-name error |
| Parsing.Parser.ParseFormalParams | Parser.py:179-187 | the parameter clauses, traced in order, give the parameters up to the `)`; a failure is a traced prefix and a clause that fails with that error |
| Parsing.Parser.ParseParamClause | Parser.py:181-186 | one parameter clause appended to the parameters and the trace, or the trace stopped by the clause that fails |
| Parsing.Parser.ParseClause | Parser.py:84-96 | one clause gives exactly what `ClauseOutcome` gives: its statement, then the `;` a section requires or the `,` a parameter list refuses; on success it is a one-piece trace of its list |
| Parsing.Parser.ParseClauseStatement | Parser.py:84-96 | the statement of a clause gives exactly what `StatementOutcome` gives: the grammar function of its kind, the prediction of a constant's type and the check that its names are free |
| Parsing.Parser.ParseSection | Parser.py:82-96 | the clauses of a section, traced in order, up to a token that is not an identifier; a failure is a traced prefix and a clause that fails with that error |
| Parsing.Parser.ParseSectionClause | Parser.py:84-96 | one clause appended to the section and the trace, or the trace stopped by the clause that fails |
| Parsing.Parser.ParseSubroutineSignature | Parser.py:150-163 | kind, name, parameters and result type, with the name pushed onto the scope stack; a procedure's type is `UNDEFINED`; a missing name or `(` is a syntax error |
| Parsing.Parser.ParseSubroutineHead | Parser.py:151-156 | the kind token, the name and `(`, with the name pushed; a token that names no kind is a crash |
| Parsing.Parser.ParseResultType | Parser.py:159-163 | a procedure's type is `UNDEFINED`, a function's the type after `:` |
| Parsing.Parser.ParseSubroutineHeader | Parser.py:150-164 | the signature, then the subroutine entered one scope level up with its type and parameters; a missing name or `(` is a syntax error |
| Parsing.Parser.ParseSubroutine | Parser.py:150-177 | a subroutine node named by its tokens, entered one level up, with an empty body when forward and the traced body otherwise; the scope stack is restored; a missing name or `(` is a syntax error |
| Parsing.Parser.ParseSubroutineTail | Parser.py:167-176 | `;`, then `forward` or a traced body, and the subroutine's scope level popped |
| Parsing.Parser.ParseSubroutineBody | Parser.py:172-175 | a declaration part, the block at its `begin`, and the `;` after the block |
| Parsing.Parser.ParseDeclarationPart | Parser.py:78-101 | sections and subroutines, traced in order, up to `begin`; a failure is a traced prefix and, at a token other than `begin`, a piece that fails: a section whose clauses stop with that error, a subroutine, or any other token as a syntax error |
| Parsing.Parser.ParseDeclarationPiece | Parser.py:81-100 | one section or one subroutine is one piece of the declaration part; a failing piece is a section whose clauses stop with the error, a subroutine, or any other token as a syntax error |
| Parsing.Parser.ParseSubroutinePart | Parser.py:97-98 | a subroutine is one piece of the declaration part |
| Parsing.Parser.ParseSectionPart | Parser.py:82-96 | a section after its keyword is one piece of the declaration part, or its clauses stop with the error it fails with |
| Parsing.Parser.ParseProgramHeading | Parser.py:68-71 | `program name ;` gives the name; without `program` the name is empty and nothing is read |
| Parsing.Parser.ParseProg | Parser.py:66-76 | the heading, the traced global declarations and the main block, parsed inside the program's scope level, then `.`; `program` without `name ;` is a syntax error |
| Parsing.Parser.ParseProgramBody | Parser.py:72-74 | the global declarations, then the main block inside the program's scope level |
| Parsing.Parser.Parse | Parser.py:59-64 | an input that starts at end of file gives the empty main node; anything else is a traced program; `program` without `name ;` is a syntax error |
| Optimizer.StoreTarget | other/OptimizeChain.py:126-156 | the walk either crashes or leaves the target of the assignment met last; a top-level assignment leaves its own target |
| Optimizer.Decrease | other/OptimizeChain.py:157-159 | lowering the counts along a list of keys keeps the counted symbols, or crashes |
| Optimizer.DeadStore | other/OptimizeChain.py:126-161 | a statement that stays leaves the counts as they were |
| Optimizer.StatementsCut | other/OptimizeChain.py:103-124 | cutting a statement list keeps the counted symbols |
| Optimizer.StatementCut | other/OptimizeChain.py:108-123 | one statement becomes at most one statement |
| Optimizer.DeclarationsCut | other/OptimizeChain.py:77-91 | cutting a declaration list keeps the counted symbols |
| Optimizer.SubroutineCut | other/OptimizeChain.py:94-101 | a cut subroutine is the same subroutine but for its declaration and statement parts |
| Optimizer.Unused | other/OptimizeChain.py:61 | the unused entries are exactly the entries of the working table whose count is zero |
| Optimizer.Pruned | other/OptimizeChain.py:57-75 | the fixpoint leaves a part of the working table, with its entries unchanged, in which no entry has count zero |
| Optimizer.Round | other/OptimizeChain.py:64-74 | one round keeps the counted symbols |
| Optimizer.PrunedStep | other/OptimizeChain.py:60-74 | a round with an unused entry shrinks the working table and leads to the rest of the fixpoint, or fails it |
| Optimizer.Shrinks | other/OptimizeChain.py:74 | deleting a non-empty set of unused entries shrinks the working table |
| Optimizer.DecreaseCounts | other/OptimizeChain.py:157-159 | the decrements succeed exactly when every key is in the working table, and then lower each symbol once per key that names it |
| Optimizer.DecreaseConcat | other/OptimizeChain.py:157-159 | lowering along two lists is lowering along the first, then along the second |
| Optimizer.KeptStatement | other/OptimizeChain.py:108-123 | a switch or a plain statement goes; an if, loop or for stays; an operator statement stays exactly when it is not a dead store, and fails exactly when its walk crashes |
| Optimizer.StatementsCutSplit | other/OptimizeChain.py:103-124 | the statements that stay do not depend on the counts, and the counts fall by exactly the occurrences in the dropped statements |
| Optimizer.StatementCutSplit | other/OptimizeChain.py:108-123 | the same for one statement |
| Optimizer.DeclarationsCutKeeps | other/OptimizeChain.py:77-91 | cutting a declaration list keeps exactly the declarations `KeptDeclarations` keeps, in order |
| Optimizer.NestedDeclarationsKept | other/OptimizeChain.py:88-89 | below the top level a qualified name has a dot and an identifier has none, so nothing declared inside a subroutine is dropped |
| Optimizer.TopDeclarationsKept | other/OptimizeChain.py:88-90 | at the top level a declaration other than a subroutine goes exactly when its identifier is unused, and nothing new is added |
| Optimizer.StatementsCutStep | other/OptimizeChain.py:107-123 | one more statement of a cut appends that statement's outcome |
| Optimizer.DeclarationsCutStep | other/OptimizeChain.py:81-90 | one more declaration of a cut appends the cut subroutine, or keeps or drops the declaration by its qualified name |
| Optimizer.DeclarationsCrashScope | other/OptimizeChain.py:81-85 | a failing declaration cut leaves the scope it started in followed by the names of the subroutines it was inside when it failed, as nothing pops them |
| Optimizer.SubroutineCrashScope | other/OptimizeChain.py:94-101 | a failing subroutine cut leaves the scope it started in, extended by whatever its failing declaration part pushed |
| Optimizer.DeclarationsCrashPrefix | other/OptimizeChain.py:81-85 | a failure on a prefix of the declarations fails the whole list and leaves the scope where the prefix's failure does |
| Optimizer.DeclarationsCrashStep | other/OptimizeChain.py:81-85 | a subroutine whose cut fails after the declarations before it were cut makes the whole list fail, leaving the scope that subroutine's failure leaves |
| Optimizer.StepBinaryVisit | other/OptimizeChain.py:133-142 | a binary node met for the first time becomes its second meeting and its two operands, with the same owed occurrences and outcome |
| Optimizer.StepUnaryVisit | other/OptimizeChain.py:145-148 | a unary node met for the first time becomes its second meeting and its operand |
| Optimizer.StepAssignCrash | other/OptimizeChain.py:134-137 | an assignment whose target has no variable crashes the walk |
| Optimizer.StepBinaryDone | other/OptimizeChain.py:133-144 | a binary node met again repeats its assignment |
| Optimizer.StepUnaryDone | other/OptimizeChain.py:149-151 | a unary node met again crashes the walk, as `result` does not exist |
| Optimizer.StepLeaf | other/OptimizeChain.py:152-156 | any other node is a leaf, and a variable's qualified name is collected |
| Optimizer.WorkInTable | other/OptimizeChain.py:58-59 | a part of a well-formed table, with a count for each of its symbols, is a valid working table |
| Optimizer.ChainDropAdd | other/OptimizeChain.py:69-73 | each unused entry lowers every alias on its type's chain once more |
| Optimizer.ChainRun | other/OptimizeChain.py:34-39 | a run either crashes or keeps the counted symbols |
| Optimizer.ChainRunStops | other/OptimizeChain.py:35 | a run stops with a crash at a link without a module or whose pruning crashes |
| Optimizer.ChainRunFrame | other/OptimizeChain.py:34-39 | a run leaves the counts of symbols outside its tables alone |
| Optimizer.ChainRunAgree | other/OptimizeChain.py:34-39 | counts that agree on the tables' symbols give the same outcome and program |
| Optimizer.ChainRunCons | other/OptimizeChain.py:35-37 | the run of a chain is the first link's pruning followed by the run of the rest on its result, with the counts it left |
| Optimizer.ChainRunAppend | other/OptimizeChain.py:34-39 | the links run in list order: the run of joined tables is the first run followed by the second on what it leaves |
| Optimizer.TablesJoinChain | other/OptimizeChain.py:26-31 | the tables of joined chains are the tables of the parts, joined |
| Optimizer.LinkedRest | other/OptimizeChain.py:26-37 | in a linked chain the successor of the first link is the first of the rest, and only the last link has none |
| Optimizer.NotUsedVariableOptimize.constructor | other/OptimizeChain.py:21-23 | a new link has no successor, whatever `next` is passed, and an empty scope |
| Optimizer.NotUsedVariableOptimize.SetNext | other/OptimizeChain.py:26-27 | sets the successor |
| Optimizer.NotUsedVariableOptimize.GetNext | other/OptimizeChain.py:30-31 | gives the successor |
| Optimizer.NotUsedVariableOptimize.SetSemanticModule | other/OptimizeChain.py:54-55 | sets the module |
| Optimizer.NotUsedVariableOptimize.ProcessOptimization | other/OptimizeChain.py:34-39 | gives what `ChainRun` gives for the links' tables and the counts held before, and the heap then holds the counts the run left; a failure of this link stops the chain, and the chain is idle again only on success |
| Optimizer.NotUsedVariableOptimize.PassOn | other/OptimizeChain.py:36-37 | the successor's run on this link's result, with the counts this link left; the chain is idle again on success |
| Optimizer.NotUsedVariableOptimize.FirstLink | other/OptimizeChain.py:35 | this link's `_optimize` as the first of a chain, which stays linked; the other links stay idle, and so does this one unless it crashes |
| Optimizer.NotUsedVariableOptimize.OptimizeLink | other/OptimizeChain.py:57-75 | `_optimize` seen from a chain: no module is a crash, otherwise the pruning of the module's table, leaving other links' tables alone; the link is idle again only on success |
| Optimizer.NotUsedVariableOptimize.FindTarget | other/OptimizeChain.py:135-137 | the loop follows `left` to the assignment's target variable, as `AssignTarget` does |
| Optimizer.NotUsedVariableOptimize.Traverse | other/OptimizeChain.py:126-156 | the stack walk gives the variables' qualified names in post-order and the last target's qualified name, failing exactly when the walk crashes |
| Optimizer.NotUsedVariableOptimize.DecreaseUses | other/OptimizeChain.py:158-159 | lowers the counts as `Decrease` says, or reports the missing key |
| Optimizer.NotUsedVariableOptimize.MakePostOrderTraversal | other/OptimizeChain.py:126-161 | gives `DeadStore` and leaves the counts it gives |
| Optimizer.NotUsedVariableOptimize.CutStatementPart | other/OptimizeChain.py:103-124 | gives `StatementsCut` and leaves the counts it gives |
| Optimizer.NotUsedVariableOptimize.CutStatement | other/OptimizeChain.py:108-123 | gives `StatementCut` and leaves the counts it gives |
| Optimizer.NotUsedVariableOptimize.CutDeclarationPart | other/OptimizeChain.py:77-91 | gives `DeclarationsCut` at the scope it starts in and leaves its counts; on success the scope stack is restored, on a crash it is left as `DeclarationsCrashScope` says |
| Optimizer.NotUsedVariableOptimize.CutSubroutine | other/OptimizeChain.py:94-101 | gives `SubroutineCut` inside the subroutine's scope level; on success the scope is restored, on a crash it is left as `SubroutineCrashScope` says |
| Optimizer.NotUsedVariableOptimize.DropChain | other/OptimizeChain.py:70-73 | one use less of every alias on the chain |
| Optimizer.NotUsedVariableOptimize.DeleteUnused | other/OptimizeChain.py:69-74 | every unused entry lowers its chain and leaves the working table |
| Optimizer.NotUsedVariableOptimize.DropChains | other/OptimizeChain.py:69-73 | the counts become `ChainDrop` of the unused entries |
| Optimizer.NotUsedVariableOptimize.UnusedEntries | other/OptimizeChain.py:61 | gives `Unused` |
| Optimizer.NotUsedVariableOptimize.RunRound | other/OptimizeChain.py:64-74 | gives `Round`, leaving its counts and the working table without the unused entries; a crash leaves the scope as `RoundCrashScope` says |
| Optimizer.NotUsedVariableOptimize.Optimize | other/OptimizeChain.py:57-75 | without a module it crashes; otherwise it prunes against a copy of the module's table, as `PrunedTable` says; on success the link is idle again, and a crash leaves the scope as `PrunedTableCrashScope` says |
| Optimizer.NotUsedVariableOptimize.Fixpoint | other/OptimizeChain.py:60-74 | gives `Pruned`, leaving its working table and counts, and the empty scope; a crash leaves the scope as `PrunedCrashScope` says |
| Processor.CodeOptimizationProcessor.constructor | CodeOptimizationProcessor.py:9-10 | the processor takes the head, if any, with the links that follow it |
| Processor.CodeOptimizationProcessor.AddNewChain | CodeOptimizationProcessor.py:12-19 | an empty processor takes the chain as its head; otherwise the chain is hung after the last link, and the earlier links keep their order |
| Processor.CodeOptimizationProcessor.StartOptimization | CodeOptimizationProcessor.py:21-22 | an empty processor crashes; otherwise the result is the head's run over all the links, as `ChainRun` gives it; the links are idle again on success |
| Processor.AddedChainRunsLast | CodeOptimizationProcessor.py:12-22 | after a chain is added, a run is the run of the earlier links followed by the run of the added ones on what those leave |
| Processor.JoinLinked | CodeOptimizationProcessor.py:16-19 | hanging a linked chain after the last link of a disjoint one gives a linked chain |
| Gen.TypeMap | gen.py:4-15 | exactly the ten integer and floating kinds have a C++ spelling |
| Gen.IntegerKindsKeepWidth | gen.py:4-15 | an integer kind not shadowed by a declared name becomes a C++ integer type of the kind's byte width, unsigned exactly when the kind is |
| Gen.TypeNameText | gen.py:42-52 | a recorded type name is kept verbatim, else its `type_map` entry, else "bool" for BOOLEAN in any case, else the name lower-cased |
| Gen.UndeclaredTypesLowerCase | gen.py:47-50 | a name that was not declared never comes out with an upper-case letter |
| Gen.TypeText | gen.py:42-52 | a type given as a text or a primitive kind renders through its name; an alias object or array node crashes, and only those |
| Gen.IsString | gen.py:54-62 | CHAR and STRING values are single-quoted, other values are verbatim, anything without a value crashes |
| Gen.NoOperatorIsNod | gen.py:87 | no operator of the lexer carries the name "NOD" |
| Gen.ConditionAsWrittenDropsMod | gen.py:87-88 | as written, MOD renders as the empty string where " % " was intended |
| Gen.ConditionAsWrittenElsewhere | gen.py:64-92 | for every other operator the written and the corrected spelling agree |
| Gen.Condition | gen.py:64-92 | an operator gets a spelling exactly when it is a comparison, an arithmetic operator, MOD or ASSIGN |
| Gen.ConditionInjective | gen.py:64-92 | two different operators never share a spelling, so the operator can be read back from the text |
| Gen.UnaryCondition | gen.py:94-102 | " -" for unary minus, " +" for unary plus, nothing for any other operator |
| Gen.RangeBracketsAreSizes | gen.py:29-30 | joining the ranges' brackets crashes exactly when some size cannot be computed, and otherwise brackets the right-minus-left sizes in order |
| Gen.ReadBracketsBack | gen.py:30 | a run of bracketed sizes reads back as the same sizes |
| Gen.ArrayTypeTextParts | gen.py:26-32 | an emitted array type is the element type followed by one bracket per range |
| Gen.ArrayTypeReadBack | gen.py:26-40 | after the element type, the text reads back as the sizes, one per range, each the range's right bound minus its left bound |
| Gen.TypeDeclarationText | gen.py:278-286 | a rendered type declaration adds its name to the recorded names; a crash leaves them as they were |
| Gen.TypeDeclarationRecordsName | gen.py:278-286 | after a type declaration its name is emitted verbatim wherever it is used |
| Gen.DeclarationText | gen.py:291-299 | only a type declaration changes the recorded names |
| Gen.DeclarationsRecordTypes | gen.py:288-301 | once all declarations render, the recorded names have grown by the type declarations' names in order |
| Gen.GlobalDeclarationText | gen.py:288-301 | the global declaration part records what its declarations record |
| Gen.ConstantPrefixed | gen.py:288-305 | a global constant is emitted as "const " and its declaration, ending in ";\n" |
| Gen.StatementPartText | gen.py:209-241 | every rendered statement part ends with "}\n" |
| Gen.SwitchNeedsBlocks | gen.py:150-168 | a switch renders only with at least one case block and an ELSE block, and then opens with its header |
| Gen.GenerateText | gen.py:307-319 | the recorded names after a program are those its global declarations record |
| Gen.AssembledLayout | gen.py:312-317 | the program text keeps the declarations and "int main(){" in front and ends by returning 0 |
| Gen.GenerateLayout | gen.py:307-319 | a generated program opens with its declarations and "int main(){" and closes with "return 0;" and a brace |
| Gen.TypeRegistry.constructor | gen.py:19 | the shared registry of declared type names starts empty |
| Gen.Gen.constructor | gen.py:22-24 | the generator keeps the shared registry, holds the program's generated text and records its type names there |
| Gen.Gen.IndentBy | gen.py:245-246 | the indentation loop appends the piece `level` times |
| Gen.Gen.RangesText | gen.py:29-38 | the range loop yields the joined brackets of the ranges, or the first crash |
| Gen.Gen.RangeBracketOf | gen.py:30 | one pass of the range loop yields that range's bracketed size |
| Gen.Gen.ArrayTypeDeclaration | gen.py:26-32 | `array_type_declaration` yields the element type with one bracket per range, as `ArrayTypeText` reads back |
| Gen.Gen.ArrayType | gen.py:34-40 | `array_type` renders the array node of a declaration, and crashes when the type is not an array node |
| Gen.Gen.Var | gen.py:243-251 | `var` yields the indentation and then the array type, or the type and the name |
| Gen.Gen.Const | gen.py:303-305 | `const` yields "const " and the `var` text |
| Gen.Gen.TypeDeclaration | gen.py:278-286 | `type_declaration` yields "using NAME = TYPE;\n" and records NAME in the shared registry |
| Gen.Gen.Subroutine | gen.py:253-276 | `subroutine` yields the header, parameters, locals and body, with a function's return of its own name |
| Gen.Gen.FormalParams | gen.py:258-260 | the parameter loop yields the parameters' texts run together, the ", " being cut again each pass |
| Gen.Gen.FormalParam | gen.py:259 | one pass yields the parameter's `var` text at level 0 |
| Gen.Gen.LocalDeclarations | gen.py:263-264 | the local loop yields each local's `var` text at level 1 with ";\n", in order |
| Gen.Gen.LocalDeclaration | gen.py:264 | one pass yields one local's text |
| Gen.Gen.GlobalDeclaration | gen.py:288-301 | `global_declaration` yields the declarations' texts and records the type names they declare, in order |
| Gen.Gen.BinOperation | gen.py:170-207 | `bin_operation` yields the expression's infix text, or the crash its node shapes cause |
| Gen.Gen.Indices | gen.py:186-191 | the ARRAY_CALL loop yields one bracket per index, a value or an identifier |
| Gen.Gen.Arguments | gen.py:192-196 | the SUBROUTINE_CALL loop yields the identifiers joined by ", " |
| Gen.Gen.StatementPart | gen.py:209-241 | `statement_part` yields the statements with their indentation and a closing "}\n" |
| Gen.Gen.Statement | gen.py:213-237 | one pass yields the statement's indentation and its own text |
| Gen.Gen.IfStatement | gen.py:104-111 | `if_statement` yields the condition, the then part and an else part only when it has statements |
| Gen.Gen.WhileStatement | gen.py:113-117 | `while_statement` yields the condition and the body |
| Gen.Gen.RepeatStatement | gen.py:119-125 | `repeat_statement` yields a `do` body and the condition in a trailing `while` |
| Gen.Gen.ForStatement | gen.py:127-148 | `for_statement` yields an ascending C++ `for` whatever the direction, with the bounds' texts |
| Gen.Gen.SwitchCondition | gen.py:150-168 | `switch_condition` yields the header, every case block but the popped last one, and the default block |
| Gen.Gen.CaseBlocks | gen.py:154-161 | the case-block loop yields the blocks but the last, in order |
| Gen.Gen.CaseBlockItem | gen.py:155-161 | one pass yields the indentation, "case LABELS:" and the block's statement part cut by three characters |
| Gen.Gen.Generate | gen.py:307-319 | `generate` yields the program text and records the program's type names in the shared registry |
| NodeRepr.Find | other/Node.py:4-5 | `find` gives -1 when the character is absent past `from`, else the first position holding it |
| NodeRepr.FindAt | other/Node.py:4-5 | `find` stops at the first match |
| NodeRepr.Slice | other/Node.py:6 | a Python slice within bounds is the substring between them |
| NodeRepr.ClassNameOfClass | other/Node.py:2-6 | for `<class 'M.N'>` with a dotless module part the class name is `N` |
| NodeRepr.Guide | other/Node.py:17-24 | the guides in front of a line are four characters per level and three more |
| NodeRepr.ReprStartsWithClassName | other/Node.py:14 | every repr opens with the class name and a newline |
| NodeRepr.SequenceRepr | other/Node.py:10-20 | a node wrapping one list prints exactly when every element is a node that prints, and then prints them in order one level deeper behind its guides |
| NodeRepr.AttributesRepr | other/Node.py:21-28 | any other node prints each attribute in order behind its guides: a nested node's repr, or the value's text and a newline |
| NodeRepr.Repr | other/Node.py:8-30 | the loops of `__repr__` yield the text `ReprText` describes |

## Left out

- Text.IsDigit, Text.IsAlpha, Text.Lower: they cover ASCII only; Python's `isdigit`, `isalpha` and `lower` also accept or fold other Unicode letters and digits.  An identifier that starts with a non-ASCII letter lexes in the source and gives `LexicalError` in the model.
- SemanticTools.ConvertValueToBoolean: `float()` is not modelled for numerals with an exponent or other float syntax.  The model returns `Err(FloatTextNotModelled)` where the source computes `bool(float(v))`.  Integers and plain decimal numerals are modelled exactly, including a decimal so small that `float()` rounds it to 0.0.
- Lexer.TextUntil, Lexer.QuotedToken, Lexer.ParenToken, Lexer.Lexer.ReadUntil: an unterminated string or comment makes the source loop forever at the end of the input.  The model stops there with `Err(Diverges)` instead.
- Semantic.ConvoluteSpec, Semantic.ConvoluteTypeOperatorVector, Semantic.CheckItemSupport: a pass of the fold that makes no progress, and an operator item that reaches the support check, make the source loop forever.  The model gives `Err(Diverges)` instead.
- Parsing.Parser.constructor: the source lexes on demand, one token per step of the parser.  The model's parser reads the whole token sequence the lexer gives, and reading past its end gives `EOF`, as the lexer keeps returning it.  The source lexes only one token past the final `.` (Parser.py:75).  So an input such as `end. x @` or `end. x (*` translates in the source, while the model's whole-input token sequence fails with `LexicalError` or `Diverges`.
- Semantic.SemanticModule.PredictConditionType, Semantic.PredictSpec, Parsing.Parser.ParseAssignment, Parsing.Parser.DeclareConstant, Parsing.Parser.ParseConstStatement, Parsing.Parser.ParseCall, Parsing.Parser.ParseIndexing, Parsing.Parser.ParseArrayCall: type prediction folds with the corrected `Semantic.FoldTypes`, not the fold as written (see Findings).  The source raises IndexError on `a+b+c+d` and rejects `a-b*c`; the model accepts both, and so do the assignment, constant, call and index checks built on the prediction.
- Gen.Gen.BinOperation, Gen.BinText: MOD is rendered with the corrected `Gen.Condition` as " % ".  The source tests the name "NOD" and renders `a mod b` as `ab` (see Findings).
- Semantic.SemanticModule.CheckTypeOperationSupport, Semantic.SemanticModule.ArgumentTypedStep, Semantic.SemanticModule.CheckSubroutineCall, Semantic.SemanticModule.CheckArgument, Semantic.SemanticModule.IndexTypeStep, Semantic.SemanticModule.CheckArrayAccess, Semantic.SemanticModule.CheckAssign: their contracts state the result exactly but not the `use_count` changes the lookups inside them leave.  Only the lookups (`GetObject`, `GetType`, `GetVariable`) and the type walk (`PostOrderCondition`, `PredictConditionType`) state those changes.
- Parsing.Parser.Parse and every other parsing method that modifies the symbols: the contracts state the node, the stopping position and the declared names.  On success they also state that `use_count_score` is back where it started.  They do not state the per-symbol `use_count` changes a parse leaves, nor the counter after a failure, which in the source ends the translation.
- Parsing.Parser.ParseSubroutineSignature, Parsing.Parser.ParseSubroutineHeader, Parsing.Parser.ParseSubroutine, Parsing.Parser.ParseSubroutineTail, Parsing.Parser.ParseSubroutineBody, Parsing.Parser.ParseDeclarationPart, Parsing.Parser.ParseDeclarationPiece, Parsing.Parser.ParseSubroutinePart, Parsing.Parser.ParseProg, Parsing.Parser.ParseProgramBody, Parsing.Parser.Parse: the failure side is stated only in part.  The contracts give the failures of a clause, a section, a parameter list, a missing subroutine name or `(`, a missing `;` after a subroutine header, any other token in a declaration part and a bad `program` heading.  A subroutine that fails after its head, a body or block that fails, and a missing final `.` leave the stopping error unstated.
- `return_value_type` and `convert_to_bool` (SemanticModule.py:87-88, 199-200) only call `SemanticTools.GetValueType` and `SemanticTools.ConvertValueToBoolean`, and `get_scope_table` (SemanticModule.py:102-105) only returns the table.  The model calls those functions, and reads the `table` field, directly.
- Gen.Gen.SwitchCondition: `case_blocks.pop()` mutates the node in the source.  The model leaves the node's list as it is and renders every block but the last.  `current_function_variable` is written but never read, so it is not modelled.
- Optimizer.NotUsedVariableOptimize.ProcessOptimization, Processor.CodeOptimizationProcessor.StartOptimization: they may modify each link object of the chain as a whole.  The contracts state the links' order and results, not which fields of each link stay untouched.
- Optimizer.NotUsedVariableOptimize.Optimize, Processor.CodeOptimizationProcessor.StartOptimization: they require every link to be idle, with an empty scope.  A crash inside a subroutine leaves that link's scope non-empty, so the model does not run a chain again after a crash.  In the source such a rerun would qualify names under the stale scope.
- Semantic.SemanticModule.PostOrderCondition: the identity set `visited` of the walk is modelled by frames that are done.  This agrees with the source for trees whose nodes are distinct objects, which is what the parser builds.
- Nodes.TypeStr: `str()` of an array type node is `hex(id(self))`, its address (other/SupportClasses.py:217-218).  The model prints `0x` and the hex digits of a per-parse counter instead.
- Gen.Gen.constructor: it takes only a `Program`.  On empty input `parse` returns the bare main node, which main.py passes to `Gen` unchanged; `generate` then reads `global_declaration` of it and raises AttributeError.  The model does not build a `Gen` from the bare main node, so that crash is not modelled.
- Processor.CodeOptimizationProcessor.AddNewChain: it requires the added chain's links to be disjoint from those already linked.  The source also accepts a link that is already in the chain; that makes a cycle, and `start_optimization` then recurses until RecursionError.  Every call in the source adds a freshly built link.
- Reading the source file, `write_to_file`, the `sys.path` set-up, the `__main__` blocks and the window front end are not modelled; they are I/O.  The lexer's message and `sys.exit` after a lexical error become `Err(LexicalError)`.

## Findings

| source | as written | input that shows it | evidently intended | confidence | as-written member | corrected member |
|---|---|---|---|---|---|---|
| SemanticModule.py:234-257 | each pass reads its operands at the scan index, but always stores the result at position 0 and pops positions 1 and 2 | `a + b + c + d` over integer literals raises IndexError; `a - b * c` is rejected as an unsupported operation | every well-formed expression gets the type of its operators applied bottom-up | not executed | Semantic.ConvoluteSpec, Semantic.AsWrittenFoldCrashesOnFourOperands, Semantic.AsWrittenFoldRejectsRightNesting | Semantic.FoldTypes, Semantic.PredictComputesTypeOf |
| gen.py:87 | the MOD case compares the operator's name with "NOD" | `a mod b` is emitted as `ab` | `a % b` | not executed | Gen.ConditionAsWritten, Gen.ConditionAsWrittenDropsMod | Gen.Condition, Gen.ConditionInjective |
