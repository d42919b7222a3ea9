/** The tree printer every syntax node inherits: the class name, then one
    line per attribute (or per element, for a node that only wraps a list),
    each prefixed by the nesting guides of its level.  A node is modelled
    as its `str(self.__class__)` text and its attributes in insertion
    order; a value that is neither a node nor a list carries its own
    `str()` and `repr()` texts. */
module NodeRepr {
  import opened Wrappers
  import opened Text

  /** An attribute value: a node, a list, or any other value. */
  datatype Value =
    | NodeVal(node: ReprNode)
    | ListVal(items: seq<Value>)
    | OtherVal(str: string, repr: string)

  datatype Attribute = Attribute(name: string, value: Value)

  /** A node: the text of its class object and its `__dict__`. */
  datatype ReprNode = ReprNode(classText: string, attrs: seq<Attribute>)

  // ---------------------------------------------------------------------
  // `__get_class_name`

  /** `s.find(c, from)`: the first position at or after `from` holding
      `c`, or -1. */
  function Find(s: string, c: char, from: nat): (r: int)
    ensures r == -1 || (from <= r < |s| && s[r] == c)
    ensures r == -1 ==> forall k :: from <= k < |s| ==> s[k] != c
    ensures r != -1 ==> forall k :: from <= k < r ==> s[k] != c
    decreases |s| - from
  {
    if from >= |s| then -1 else if s[from] == c then from else Find(s, c, from + 1)
  }

  /** A slice bound as Python reads it: negative counts from the end, and
      the result is clamped to the string. */
  function SliceBound(i: int, n: nat): (r: nat)
    ensures r <= n
  {
    var j := if i < 0 then i + n else i;
    if j < 0 then 0 else if j > n then n else j
  }

  /** `s[a:b]`. */
  function Slice(s: string, a: int, b: int): (r: string)
    ensures 0 <= a <= b <= |s| ==> r == s[a..b]
  {
    var lo := SliceBound(a, |s|);
    var hi := SliceBound(b, |s|);
    if lo < hi then s[lo..hi] else ""
  }

  /** `__get_class_name`: `str(self.__class__)` from just after its first
      '.' up to the next quote. */
  function ClassName(classText: string): string {
    var first := Find(classText, '.', 0) + 1;
    var last := Find(classText, '\'', first);
    Slice(classText, first, last)
  }

  /** For a class `<class 'M.N'>` whose module part `M` has no dot and whose
      name part `N` has no quote, the class name is `N`.  A class of a
      nested module, `<class 'a.b.C'>`, is therefore named `b.C`. */
  lemma ClassNameOfClass(m: string, n: string)
    requires '.' !in m && '\'' !in n
    ensures ClassName("<class '" + m + "." + n + "'>") == n
  {
    var c := "<class '" + m + "." + n + "'>";
    var dot := |"<class '" + m|;
    assert forall k :: 0 <= k < dot ==> c[k] != '.' by {
      forall k | 0 <= k < dot
        ensures c[k] != '.'
      {
        if k >= 8 {
          assert c[k] == m[k - 8];
        }
      }
    }
    assert c[dot] == '.';
    FindAt(c, '.', 0, dot);
    var quote := dot + 1 + |n|;
    assert forall k :: dot + 1 <= k < quote ==> c[k] != '\'' by {
      forall k | dot + 1 <= k < quote
        ensures c[k] != '\''
      {
        assert c[k] == n[k - dot - 1];
      }
    }
    assert c[quote] == '\'';
    FindAt(c, '\'', dot + 1, quote);
    assert c[dot + 1..quote] == n;
  }

  /** `find` stops at the first match. */
  lemma {:induction false} FindAt(s: string, c: char, from: nat, j: nat)
    requires from <= j < |s| && s[j] == c
    requires forall k :: from <= k < j ==> s[k] != c
    ensures Find(s, c, from) == j
    decreases j - from
  {
    if from < j {
      FindAt(s, c, from + 1, j);
    }
  }

  // ---------------------------------------------------------------------
  // `__repr__`, as text

  /** `'|   ' * level + "|+-"`: the guides in front of a line. */
  function Guide(level: nat): (r: string)
    ensures |r| == 4 * level + 3
  {
    Repeat("|   ", level) + "|+-"
  }

  /** The node wraps exactly one attribute and it is a list. */
  predicate IsSequence(n: ReprNode) {
    |n.attrs| == 1 && n.attrs[0].value.ListVal?
  }

  /** `n.__repr__(level)`: the class name and a newline, then the
      elements or the attributes. */
  function ReprText(n: ReprNode, level: nat): (r: Result<string>)
    decreases n, 3
  {
    var head := ClassName(n.classText) + "\n";
    if IsSequence(n) then
      var elements :- Join(ElementItems(n, level), |n.attrs[0].value.items|);
      Ok(head + elements)
    else
      var attributes :- Join(AttributeItems(n, level), |n.attrs|);
      Ok(head + attributes)
  }

  /** One element of a wrapped list: its guide, then its own repr one level
      deeper; an element that is not a node has no `__repr__(level)` and
      the call raises. */
  function ElementText(n: ReprNode, i: nat, level: nat): Result<string>
    requires IsSequence(n) && i < |n.attrs[0].value.items|
    decreases n, 1
  {
    var el := n.attrs[0].value.items[i];
    if el.NodeVal? then
      var sub :- ReprText(el.node, level + 1);
      Ok(Guide(level) + sub)
    else Err(RuntimeCrash)
  }

  function ElementItems(n: ReprNode, level: nat): (r: seq<Result<string>>)
    requires IsSequence(n)
    ensures |r| == |n.attrs[0].value.items|
    decreases n, 2
  {
    seq(|n.attrs[0].value.items|,
        i requires 0 <= i < |n.attrs[0].value.items| => ElementText(n, i, level))
  }

  /** One attribute: its guide and name, then a node's repr one level
      deeper, or any other value's `str()` and a newline. */
  function AttributeText(n: ReprNode, i: nat, level: nat): Result<string>
    requires i < |n.attrs|
    decreases n, 1
  {
    var a := n.attrs[i];
    var shown :- Shown(a.value, level);
    Ok(Guide(level) + a.name + ": " + shown)
  }

  /** What follows an attribute's name: a nested node's repr one level
      deeper, or any other value's `str()` and a newline. */
  function Shown(v: Value, level: nat): Result<string>
    decreases v, 5
  {
    if v.NodeVal? then ReprText(v.node, level + 1)
    else
      var t :- StrText(v);
      Ok(t + "\n")
  }

  function AttributeItems(n: ReprNode, level: nat): (r: seq<Result<string>>)
    ensures |r| == |n.attrs|
    decreases n, 2
  {
    seq(|n.attrs|, i requires 0 <= i < |n.attrs| => AttributeText(n, i, level))
  }

  /** `str(v)`: a node prints its repr at level 0, a list prints the
      `repr()` of its elements between brackets, separated by ", ". */
  function StrText(v: Value): Result<string>
    decreases v, 4
  {
    match v
    case NodeVal(node) => ReprText(node, 0)
    case ListVal(_) =>
      var inner :- ListReprText(v, |v.items|);
      Ok("[" + inner + "]")
    case OtherVal(str, _) => Ok(str)
  }

  /** `repr(v)`: a node's repr at level 0, a list as `str`, any other
      value its own `repr()` text. */
  function ReprOf(v: Value): Result<string>
    decreases v, 6
  {
    match v
    case OtherVal(_, repr) => Ok(repr)
    case _ => StrText(v)
  }

  /** The first `k` elements' `repr()`, separated by ", ". */
  function ListReprText(v: Value, k: nat): Result<string>
    requires v.ListVal? && k <= |v.items|
    decreases v, 3, k
  {
    if k == 0 then Ok("")
    else
      var prev :- ListReprText(v, k - 1);
      var last :- ReprOf(v.items[k - 1]);
      Ok(if k == 1 then last else prev + ", " + last)
  }

  // ---------------------------------------------------------------------
  // Properties of the printed tree

  /** Whatever the node, a successful repr opens with its class name and a
      newline. */
  lemma ReprStartsWithClassName(n: ReprNode, level: nat)
    requires ReprText(n, level).Ok?
    ensures var head := ClassName(n.classText) + "\n";
            |ReprText(n, level).value| >= |head| && ReprText(n, level).value[..|head|] == head
  {
    var head := ClassName(n.classText) + "\n";
    var rest := if IsSequence(n) then Join(ElementItems(n, level), |n.attrs[0].value.items|).value
                else Join(AttributeItems(n, level), |n.attrs|).value;
    assert ReprText(n, level).value == head + rest;
  }

  /** A node that wraps one list prints exactly when every element is a
      node that prints, and then prints each element's repr one level
      deeper behind the guides of its own level, in list order. */
  lemma SequenceRepr(n: ReprNode, level: nat)
    requires IsSequence(n)
    ensures var items := n.attrs[0].value.items;
            ReprText(n, level).Ok? <==>
            forall i :: 0 <= i < |items| ==> items[i].NodeVal? && ReprText(items[i].node, level + 1).Ok?
    ensures var items := n.attrs[0].value.items;
            ReprText(n, level).Ok? ==>
            ReprText(n, level).value ==
            ClassName(n.classText) + "\n" +
            Concat(seq(|items|, i requires 0 <= i < |items| && items[i].NodeVal? && ReprText(items[i].node, level + 1).Ok? =>
                             Guide(level) + ReprText(items[i].node, level + 1).value))
  {
    var items := n.attrs[0].value.items;
    var texts := ElementItems(n, level);
    JoinOk(texts, |items|);
    forall i | 0 <= i < |items|
      ensures texts[i].Ok? <==> items[i].NodeVal? && ReprText(items[i].node, level + 1).Ok?
    {
      assert texts[i] == ElementText(n, i, level);
    }
    if ReprText(n, level).Ok? {
      var lines := seq(|items|, i requires 0 <= i < |items| && items[i].NodeVal? && ReprText(items[i].node, level + 1).Ok? =>
                                Guide(level) + ReprText(items[i].node, level + 1).value);
      forall i | 0 <= i < |items|
        ensures texts[i] == Ok(lines[i])
      {
        assert texts[i] == ElementText(n, i, level);
      }
      JoinValues(texts, lines, |items|);
      assert lines[..|items|] == lines;
    }
  }

  /** Any other node prints exactly when every attribute prints, and then
      prints each attribute behind the guides of its level, in insertion
      order: a node's repr one level deeper, or the value's `str()` and a
      newline. */
  lemma AttributesRepr(n: ReprNode, level: nat)
    requires !IsSequence(n)
    ensures ReprText(n, level).Ok? <==>
            forall i :: 0 <= i < |n.attrs| ==> Shown(n.attrs[i].value, level).Ok?
    ensures ReprText(n, level).Ok? ==>
            ReprText(n, level).value ==
            ClassName(n.classText) + "\n" +
            Concat(seq(|n.attrs|, i requires 0 <= i < |n.attrs| && Shown(n.attrs[i].value, level).Ok? =>
                                  Guide(level) + n.attrs[i].name + ": " + Shown(n.attrs[i].value, level).value))
  {
    var texts := AttributeItems(n, level);
    JoinOk(texts, |n.attrs|);
    forall i | 0 <= i < |n.attrs|
      ensures texts[i].Ok? <==> Shown(n.attrs[i].value, level).Ok?
    {
      assert texts[i] == AttributeText(n, i, level);
    }
    if ReprText(n, level).Ok? {
      var lines := seq(|n.attrs|, i requires 0 <= i < |n.attrs| && Shown(n.attrs[i].value, level).Ok? =>
                                  Guide(level) + n.attrs[i].name + ": " + Shown(n.attrs[i].value, level).value);
      forall i | 0 <= i < |n.attrs|
        ensures texts[i] == Ok(lines[i])
      {
        assert texts[i] == AttributeText(n, i, level);
      }
      JoinValues(texts, lines, |n.attrs|);
      assert lines[..|n.attrs|] == lines;
    }
  }

  // ---------------------------------------------------------------------
  // `__repr__`, as the source writes it

  /** `__repr__(level)`, with the loops that append to `res`. */
  method Repr(n: ReprNode, level: nat) returns (r: Result<string>)
    ensures r == ReprText(n, level)
    decreases n, 1
  {
    var isSequence := |n.attrs| == 1 && n.attrs[0].value.ListVal?;
    var head := ClassName(n.classText) + "\n";
    var res := head;
    if isSequence {
      var elements := n.attrs[0].value.items;
      ghost var items := ElementItems(n, level);
      var i := 0;
      while i < |elements|
        invariant i <= |elements| && Join(items, i).Ok? && res == head + Join(items, i).value
      {
        JoinStep(items, i, Join(items, i).value);
        var el := elements[i];
        assert items[i] == ElementText(n, i, level);
        res := res + Repeat("|   ", level);
        res := res + "|+-";
        if !el.NodeVal? {
          return Err(RuntimeCrash);
        }
        var sub := Repr(el.node, level + 1);
        if sub.Err? {
          return sub;
        }
        assert items[i] == Ok(Guide(level) + sub.value);
        GuideAppended(head + Join(items, i).value, level, sub.value);
        AppendAssoc(head, Join(items, i).value, Guide(level) + sub.value);
        res := res + sub.value;
        i := i + 1;
      }
    } else {
      ghost var items := AttributeItems(n, level);
      var i := 0;
      while i < |n.attrs|
        invariant i <= |n.attrs| && Join(items, i).Ok? && res == head + Join(items, i).value
      {
        JoinStep(items, i, Join(items, i).value);
        var a := n.attrs[i];
        res := res + Repeat("|   ", level);
        res := res + "|+-";
        var shown: Result<string>;
        if a.value.NodeVal? {
          shown := Repr(a.value.node, level + 1);
        } else {
          var t := StrText(a.value);
          shown := if t.Ok? then Ok(t.value + "\n") else t;
        }
        assert shown == Shown(a.value, level);
        assert items[i] == AttributeText(n, i, level);
        if shown.Err? {
          return shown;
        }
        var line := a.name + ": " + shown.value;
        assert items[i] == Ok(Guide(level) + line) by {
          AppendAssoc(Guide(level), a.name, ": ");
          AppendAssoc(Guide(level), a.name + ": ", shown.value);
        }
        GuideAppended(head + Join(items, i).value, level, line);
        AppendAssoc(head, Join(items, i).value, Guide(level) + line);
        res := res + line;
        i := i + 1;
      }
    }
    r := Ok(res);
  }

  /** Appending the level's guides and then a text appends the guided
      text. */
  lemma GuideAppended(prefix: string, level: nat, text: string)
    ensures prefix + Repeat("|   ", level) + "|+-" + text == prefix + (Guide(level) + text)
  {
    AppendAssoc(prefix, Repeat("|   ", level), "|+-");
    AppendAssoc(prefix, Guide(level), text);
  }
}
