/** Option and Result helpers, and the failure kinds of the translator.
    Every exception the source raises (or the runtime raises for it) becomes an
    `Err` with the kind of failure; the exact message text is not modelled. */
module Wrappers {

  datatype Option<+T> = None | Some(value: T)

  /** Why a step of the translator stopped. */
  datatype ErrorKind =
    | LexicalError        // the lexer's `error`, which prints and exits
    | SyntaxError         // an unexpected token kind
    | DuplicateName       // redeclaration under the same qualified name; the source's message
                          // formats an undefined `name`, so it raises NameError there
    | Undeclared          // no scope level holds a matching entry
    | NotCallable         // call of a non-subroutine, indexing of a non-array
    | ArityMismatch       // argument or index count differs from the declaration
    | TypeMismatch        // incompatible types, or a non-integer array index
    | BoundsError         // a literal index outside the declared range
    | ImmutableAssign     // assignment to a constant
    | UnsupportedOperator // operator not in the operand kind's operator tuple
    | MissingUpcast       // the promotion table has no entry for the key (KeyError)
    | NoKindOfWidth       // no integer kind of the requested byte width (IndexError)
    | OutOfRange          // a literal outside every integer range
    | NotImplemented      // a construct the source explicitly does not implement
    | RuntimeCrash        // any other runtime error of the source (attribute, name, value, key errors)
    | Diverges            // the source loops forever on this input
    | FloatTextNotModelled // float() of a text that is not a plain decimal numeral

  datatype Result<+T> = Ok(value: T) | Err(error: ErrorKind) {
    predicate IsFailure() { Err? }
    function PropagateFailure<U>(): Result<U>
      requires Err?
    {
      Err(error)
    }
    function Extract(): T
      requires Ok?
    {
      value
    }
  }

  /** Success or failure of a step without a value. */
  datatype Outcome = Pass | Fail(error: ErrorKind) {
    predicate IsFailure() { Fail? }
    function PropagateFailure<U>(): Result<U>
      requires Fail?
    {
      Err(error)
    }
  }

  function Need(condition: bool, error: ErrorKind): (r: Outcome)
    ensures r.Pass? <==> condition
    ensures r.Fail? ==> r.error == error
  {
    if condition then Pass else Fail(error)
  }

  /** Concatenation regrouped; stated once so that proofs need not unfold
      sequence equality. */
  lemma AppendAssoc<T>(a: seq<T>, b: seq<T>, c: seq<T>)
    ensures (a + b) + c == a + (b + c)
  {
  }

  /** Texts one after the other. */
  function Concat(texts: seq<string>): string {
    if |texts| == 0 then "" else Concat(texts[..|texts| - 1]) + texts[|texts| - 1]
  }

  /** The first `n` rendered items one after the other, or the first
      crash among them: the loops that append one rendered item per
      element. */
  function Join(items: seq<Result<string>>, n: nat): Result<string>
    requires n <= |items|
  {
    if n == 0 then Ok("")
    else
      var prev :- Join(items, n - 1);
      var item :- items[n - 1];
      Ok(prev + item)
  }

  /** A crash among the first `n` items is the crash of the first `m`. */
  lemma {:induction false} JoinCrash(items: seq<Result<string>>, n: nat, m: nat)
    requires n <= m <= |items| && Join(items, n).Err?
    ensures Join(items, m) == Join(items, n)
    decreases m
  {
    if m > n {
      JoinCrash(items, n, m - 1);
    }
  }

  /** One more item: its text is appended, or its crash is the result of
      the whole loop. */
  lemma JoinStep(items: seq<Result<string>>, i: nat, c: string)
    requires i < |items| && Join(items, i) == Ok(c)
    ensures items[i].Ok? ==> Join(items, i + 1) == Ok(c + items[i].value)
    ensures items[i].Err? ==> Join(items, |items|) == Err(items[i].error)
  {
    if items[i].Err? {
      JoinCrash(items, i + 1, |items|);
    }
  }

  /** The joined items succeed exactly when every item does. */
  lemma {:induction false} JoinOk(items: seq<Result<string>>, n: nat)
    requires n <= |items|
    ensures Join(items, n).Ok? <==> forall i :: 0 <= i < n ==> items[i].Ok?
  {
    if n > 0 {
      JoinOk(items, n - 1);
    }
  }

  /** Items that all succeed join to their values one after the other. */
  lemma {:induction false} JoinValues(items: seq<Result<string>>, texts: seq<string>, n: nat)
    requires n <= |items| == |texts|
    requires forall i :: 0 <= i < |items| ==> items[i] == Ok(texts[i])
    ensures Join(items, n) == Ok(Concat(texts[..n]))
  {
    if n > 0 {
      JoinValues(items, texts, n - 1);
      assert texts[..n][..n - 1] == texts[..n - 1];
    }
  }
}
