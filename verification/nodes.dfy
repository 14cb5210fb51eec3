/** The expression tree the parser builds and the text each node renders as
    (`GetStringExpression`, which `ToString` forwards to). Every node class is
    an immutable datatype here; each fluent mutator returns the updated value
    instead of updating the node in place. A null string or node reference
    (an unset title, value, endpoint or slicer) is `None` and renders as the
    empty string, as `string.Format`, `string.Join` and `StringBuilder.Append`
    do with null. */
module Nodes {
  import opened Wrappers
  import opened Text

  /** The exceptions the node classes throw. */
  datatype Error =
    | ArgumentNull(parameter: string)
    | InvalidOperation(message: string)
    | Argument(message: string)
    | InvalidCast
    | Overflow

  const NoOperandMessage := "Expression must have at least one operand!"
  const MissingOperandMessage := "Expression expects more operands that specified!"

  /** A possibly-null string as `string.Format` prints it. */
  function OrEmpty(s: Option<string>): string {
    s.GetOr("")
  }

  // ---------------------------------------------------------------------
  // Navigation functions (MdxNavigationFunction.cs)

  /** A navigation function applied to an identifier, e.g. `CHILDREN` or
      `LAG(1)`: a title set by `Titled` and plain-text parameters. */
  datatype NavFunction = NavFunction(title: Option<string>, parameters: seq<string>)

  /** The constructor: no title, no parameters. */
  const NewNavFunction := NavFunction(None, [])

  /** `Titled` replaces the title. */
  function NavTitled(f: NavFunction, title: string): (r: NavFunction)
    ensures r.title == Some(title) && r.parameters == f.parameters
  {
    f.(title := Some(title))
  }

  /** `WithParameters` appends in order and never touches the title. */
  function NavWithParameters(f: NavFunction, parameters: seq<string>): (r: NavFunction)
    ensures r.title == f.title && r.parameters == f.parameters + parameters
  {
    f.(parameters := f.parameters + parameters)
  }

  /** The bare title without parameters, `title(p1, p2)` with them. */
  function RenderNav(f: NavFunction): string {
    if f.parameters == [] then OrEmpty(f.title)
    else OrEmpty(f.title) + "(" + Join(", ", f.parameters) + ")"
  }

  /** Rendering after `Titled` depends only on the new title: the last call
      wins, whatever title was there before. */
  lemma NavTitledLastWins(f: NavFunction, a: string, b: string)
    ensures NavTitled(NavTitled(f, a), b) == NavTitled(f, b)
    ensures RenderNav(NavTitled(f, b)) == RenderNav(NavTitled(f.(title := None), b))
  {
  }

  /** Adding a parameter to a navigation function: the first one opens a
      parenthesised list after the title, each later one joins the list. */
  lemma NavParameterAppended(f: NavFunction, p: string)
    ensures f.parameters == [] ==>
              RenderNav(NavWithParameters(f, [p])) == RenderNav(f) + "(" + p + ")"
    ensures f.parameters != [] ==>
              RenderNav(NavWithParameters(f, [p]))
              == RenderNav(f)[..|RenderNav(f)| - 1] + ", " + p + ")"
  {
    JoinSnoc(", ", f.parameters, p);
    if f.parameters != [] {
      var t := OrEmpty(f.title) + "(" + Join(", ", f.parameters);
      assert RenderNav(f) == t + ")";
      assert RenderNav(f)[..|RenderNav(f)| - 1] == t;
    }
  }

  // ---------------------------------------------------------------------
  // Identifiers and members (MdxIdentifier.cs, MdxMember.cs,
  // MdxAxisParameter.cs, MdxValueMember.cs, MdxRangeMember.cs)

  /** A bracketed identifier path plus the navigation functions applied to it. */
  datatype Identifier = Identifier(names: seq<string>, functions: seq<NavFunction>)

  /** `[t1].[t2]`. */
  function RenderPath(names: seq<string>): (r: string)
    ensures |r| >= 2 && r[0] == '[' && r[|r| - 1] == ']'
  {
    "[" + Join("].[", names) + "]"
  }

  /** The rendered navigation functions, in order. */
  function NavTexts(fs: seq<NavFunction>): (r: seq<string>)
    ensures |r| == |fs|
    ensures forall i :: 0 <= i < |fs| ==> r[i] == RenderNav(fs[i])
  {
    if fs == [] then [] else [RenderNav(fs[0])] + NavTexts(fs[1..])
  }

  /** `[i1].[i2]`, followed by `.f1.f2` when functions are applied. */
  function RenderIdentifier(id: Identifier): string {
    if id.functions == [] then RenderPath(id.names)
    else RenderPath(id.names) + "." + Join(".", NavTexts(id.functions))
  }

  /** The public constructor: the given titles, no functions. */
  function NewIdentifier(titles: seq<string>): (r: Identifier)
    ensures r.names == titles && r.functions == []
    ensures RenderIdentifier(r) == RenderPath(titles)
  {
    Identifier(titles, [])
  }

  /** `AppendNames` appends name parts in order and keeps the functions. */
  function AppendNames(id: Identifier, parts: seq<string>): (r: Identifier)
    ensures r.names == id.names + parts && r.functions == id.functions
  {
    id.(names := id.names + parts)
  }

  /** `ApplyFunction` appends one function and keeps the names. */
  function ApplyFunction(id: Identifier, f: NavFunction): (r: Identifier)
    ensures r.names == id.names && r.functions == id.functions + [f]
  {
    id.(functions := id.functions + [f])
  }

  /** A name appended to a non-empty path goes inside the path, before any
      applied function. */
  lemma PathAppended(names: seq<string>, n: string)
    ensures names == [] ==> RenderPath(names + [n]) == "[" + n + "]"
    ensures names != [] ==>
              RenderPath(names + [n]) == RenderPath(names)[..|RenderPath(names)| - 1] + "].[" + n + "]"
  {
    JoinSnoc("].[", names, n);
    if names != [] {
      var t := "[" + Join("].[", names);
      assert RenderPath(names) == t + "]";
      assert RenderPath(names)[..|RenderPath(names)| - 1] == t;
    }
  }

  /** Applying a function to an identifier appends `.` and the function's
      text to what the identifier rendered as before. */
  lemma ApplyFunctionAppends(id: Identifier, f: NavFunction)
    ensures RenderIdentifier(ApplyFunction(id, f)) == RenderIdentifier(id) + "." + RenderNav(f)
  {
    assert NavTexts(id.functions + [f]) == NavTexts(id.functions) + [RenderNav(f)];
    JoinSnoc(".", NavTexts(id.functions), RenderNav(f));
  }

  /** `GetHashCode`: 13 plus the checked sum of 17 times the hash of each
      name. The products and the final `13 +` wrap around in 32 bits; the sum
      itself is `Enumerable.Sum`, which throws `OverflowException` as soon as
      a running total leaves the 32-bit range. The string hash is a
      parameter. */
  function IdentifierHash(id: Identifier, hash: string -> int): (r: Result<int, Error>)
    ensures r.Success? <==> forall k :: 0 <= k <= |id.names| ==> InInt32(Sum(HashTerms(id.names, hash)[..k]))
    ensures r.Success? ==> r.value == Wrap32(13 + Sum(HashTerms(id.names, hash)))
    ensures r.Failure? ==> r.error == Overflow
  {
    var terms := HashTerms(id.names, hash);
    match CheckedSum(terms)
    case None => Failure(Overflow)
    case Some(total) => Success(Wrap32(13 + total))
  }

  /** The summands: each name's hash times 17, wrapped to 32 bits. */
  function HashTerms(names: seq<string>, hash: string -> int): (r: seq<int>)
    ensures |r| == |names| && forall i :: 0 <= i < |names| ==> r[i] == Wrap32(Wrap32(hash(names[i])) * 17)
  {
    seq(|names|, i requires 0 <= i < |names| => Wrap32(Wrap32(hash(names[i])) * 17))
  }

  predicate InInt32(x: int) {
    -0x8000_0000 <= x < 0x8000_0000
  }

  /** The exact sum, the reference for the checked one. */
  function Sum(xs: seq<int>): int
    decreases |xs|
  {
    if xs == [] then 0 else Sum(xs[..|xs| - 1]) + xs[|xs| - 1]
  }

  /** `Enumerable.Sum` on `int`: adds left to right and fails as soon as a
      running total overflows. */
  function CheckedSum(xs: seq<int>): (r: Option<int>)
    ensures r.Some? <==> forall k :: 0 <= k <= |xs| ==> InInt32(Sum(xs[..k]))
    ensures r.Some? ==> r.value == Sum(xs)
    decreases |xs|
  {
    if xs == [] then
      assert forall k :: 0 <= k <= |xs| ==> xs[..k] == [];
      Some(0)
    else
      var init := xs[..|xs| - 1];
      assert forall k :: 0 <= k <= |init| ==> init[..k] == xs[..k];
      assert xs[..|xs|] == xs;
      match CheckedSum(init)
      case None => None
      case Some(s) => if InInt32(s + xs[|xs| - 1]) then Some(s + xs[|xs| - 1]) else None
  }

  /** Two's-complement 32-bit wrap-around. */
  function Wrap32(x: int): (r: int)
    ensures -0x8000_0000 <= r < 0x8000_0000
    ensures (r - x) % 0x1_0000_0000 == 0
    ensures InInt32(x) ==> r == x
  {
    (x + 0x8000_0000) % 0x1_0000_0000 - 0x8000_0000
  }

  /** The hash depends only on the names, never on applied functions. */
  lemma HashIgnoresFunctions(a: Identifier, b: Identifier, hash: string -> int)
    requires a.names == b.names
    ensures IdentifierHash(a, hash) == IdentifierHash(b, hash)
    ensures IdentifierHash(ApplyFunction(a, NewNavFunction), hash) == IdentifierHash(a, hash)
  {
  }

  /** A single name whose hash times 17 stays in range hashes to
      `13 + 17 * h`, wrapped. */
  lemma SingleNameHash(n: string, hash: string -> int)
    requires InInt32(hash(n)) && InInt32(hash(n) * 17)
    ensures IdentifierHash(Identifier([n], []), hash) == Success(Wrap32(13 + hash(n) * 17))
  {
    var terms := HashTerms([n], hash);
    assert terms == [hash(n) * 17];
    assert terms[..0] == [] && terms[..1] == terms;
    assert Sum(terms) == hash(n) * 17;
  }

  /** Two names that both hash to `0x4000_0000` overflow the checked sum:
      17 times that hash wraps back to `0x4000_0000`, and the second running
      total is `2^31`. */
  lemma HashOverflowExample(a: string, b: string, hash: string -> int)
    requires hash(a) == 0x4000_0000 && hash(b) == 0x4000_0000
    ensures IdentifierHash(Identifier([a, b], []), hash) == Failure(Overflow)
  {
    var terms := HashTerms([a, b], hash);
    var t := Wrap32(0x4000_0000 * 17);
    assert t == 0x4000_0000;
    assert terms == [t, t];
    assert terms[..2] == terms && terms[..1] == [t];
    assert Sum([t]) == t by { assert [t][..0] == []; }
    assert Sum(terms) == 2 * t;
    assert !InInt32(Sum(terms[..2]));
  }

  /** A member's key: none (a plain member), a single value (`MdxValueMember`)
      or a value range (`MdxRangeMember`). */
  datatype Key = NoKey | Value(value: string) | Between(low: string, high: string)

  /** A member: an identifier path with its applied functions and its key. */
  datatype Member = Member(id: Identifier, key: Key)

  /** A plain member renders as its identifier; a keyed one as the path plus
      `.&[v]`, never with its functions; a range member as two keyed members
      sharing the path, joined by `:`. */
  function RenderMember(m: Member): string {
    match m.key
    case NoKey => RenderIdentifier(m.id)
    case Value(v) => RenderPath(m.id.names) + ".&[" + v + "]"
    case Between(a, b) =>
      RenderPath(m.id.names) + ".&[" + a + "]:" + RenderPath(m.id.names) + ".&[" + b + "]"
  }

  /** `MdxMember(titles)` and `MdxAxisParameter(titles)`: the titles as the
      path, no functions, no key. */
  function NewMember(titles: seq<string>): (r: Member)
    ensures r.id == NewIdentifier(titles) && r.key == NoKey
    ensures RenderMember(r) == RenderPath(titles)
  {
    Member(Identifier(titles, []), NoKey)
  }

  /** `MdxValueMember(title, value)`: a one-name path keyed by `value`. */
  function NewValueMember(title: string, value: string): (r: Member)
    ensures r.id.names == [title] && r.id.functions == [] && r.key == Value(value)
    ensures RenderMember(r) == "[" + title + "].&[" + value + "]"
  {
    Member(Identifier([title], []), Value(value))
  }

  /** `MdxRangeMember(title, from, to)`: a one-name path keyed by a range. */
  function NewRangeMember(title: string, low: string, high: string): (r: Member)
    ensures r.id.names == [title] && r.id.functions == [] && r.key == Between(low, high)
  {
    Member(Identifier([title], []), Between(low, high))
  }

  /** A range member renders as the value member at its low end, `:`, and the
      value member at its high end; applied functions show in neither. */
  lemma RangeMemberIsTwoValueMembers(id: Identifier, low: string, high: string, fs: seq<NavFunction>)
    ensures RenderMember(Member(id, Between(low, high)))
            == RenderMember(Member(id.(functions := fs), Value(low))) + ":"
               + RenderMember(Member(id, Value(high)))
  {
  }

  /** The parser's `Titled` on a member appends a name to the path. */
  function MemberTitled(m: Member, title: string): (r: Member)
    ensures r.id == AppendNames(m.id, [title]) && r.key == m.key
  {
    m.(id := AppendNames(m.id, [title]))
  }

  /** The parser's `WithFunction` on a member applies a navigation function. */
  function MemberWithFunction(m: Member, f: NavFunction): (r: Member)
    ensures r.id == ApplyFunction(m.id, f) && r.key == m.key
  {
    m.(id := ApplyFunction(m.id, f))
  }

  /** The parser's `WithValue` on a member keys it by a single value. */
  function MemberWithValue(m: Member, v: string): (r: Member)
    ensures r.id == m.id && r.key == Value(v)
  {
    m.(key := Value(v))
  }

  /** A keyed member's text does not change when functions are applied. */
  lemma KeyedMemberIgnoresFunctions(m: Member, f: NavFunction)
    requires !m.key.NoKey?
    ensures RenderMember(MemberWithFunction(m, f)) == RenderMember(m)
  {
  }

  // ---------------------------------------------------------------------
  // Function parameters (MdxFunctionParameter.cs)

  /** A fixed textual value; no mutator exists. */
  datatype FunctionParameter = FunctionParameter(value: string)

  /** `GetStringExpression` and `ToString`: the value verbatim. */
  function RenderParameter(p: FunctionParameter): (r: string)
    ensures r == p.value
  {
    p.value
  }

  /** `GetHashCode`: the hash of the value, which is the parameter's text, so
      parameters that render alike hash alike. */
  function ParameterHash(p: FunctionParameter, hash: string -> int): (r: int)
    ensures r == hash(RenderParameter(p))
  {
    hash(p.value)
  }

  // ---------------------------------------------------------------------
  // The expression tree

  /** `MdxFunction`: dotted titles and expression parameters. */
  datatype Function = Function(titles: seq<string>, parameters: seq<Node>)

  /** `MdxRange`: two endpoints, each unset until `From`/`To` is called. */
  datatype Range = Range(low: Option<Member>, high: Option<Member>)

  /** `MdxTuple`: an ordered list of children. */
  datatype Tuple = Tuple(children: seq<Node>)

  /** `MdxSet`: an ordered list of children. */
  datatype Set = Set(children: seq<Node>)

  /** `MdxExpression`: operands, the operators between them and two flags. */
  datatype Expression = Expression(operands: seq<Node>, operators: seq<string>,
                                   negative: bool, negated: bool)

  /** Any node that can stand where the library accepts an `IMdxMember` or an
      `IMdxExpression`. */
  datatype Node =
    | MemberNode(member: Member)
    | FunctionNode(func: Function)
    | RangeNode(range: Range)
    | TupleNode(tuple: Tuple)
    | SetNode(members: Set)
    | ExpressionNode(expression: Expression)
    | ConstantNode(constant: Option<string>)
    | ParameterNode(parameter: FunctionParameter)

  /** The first failure among rendered parts, or all their texts. */
  function Collect(rs: seq<Result<string, Error>>): (r: Result<seq<string>, Error>)
    ensures r.Success? <==> forall i :: 0 <= i < |rs| ==> rs[i].Success?
    ensures r.Success? ==> |r.value| == |rs| && forall i :: 0 <= i < |rs| ==> rs[i] == Success(r.value[i])
    ensures r.Failure? ==> exists i :: 0 <= i < |rs| && rs[i] == Failure(r.error)
                                       && forall j :: 0 <= j < i ==> rs[j].Success?
    decreases |rs|
  {
    if rs == [] then Success([])
    else
      var init := rs[..|rs| - 1];
      var last := rs[|rs| - 1];
      assert forall j :: 0 <= j < |init| ==> rs[j] == init[j];
      match Collect(init)
      case Failure(e) => Failure(e)
      case Success(texts) =>
        if last.Failure? then Failure(last.error)
        else
          var r := texts + [last.value];
          assert forall i :: 0 <= i < |init| ==> rs[i] == Success(r[i]);
          Success(r)
  }

  /** Rendering one more part either keeps the earlier failure, reports the
      new part's failure, or appends the new text. */
  lemma CollectSnoc(rs: seq<Result<string, Error>>, x: Result<string, Error>)
    ensures Collect(rs + [x])
            == if Collect(rs).Failure? then Collect(rs)
               else if x.Failure? then Failure(x.error)
               else Success(Collect(rs).value + [x.value])
  {
    assert (rs + [x])[..|rs|] == rs;
  }

  /** Every child rendered, in order. */
  function Texts(cs: seq<Node>): (r: seq<Result<string, Error>>)
    ensures |r| == |cs|
    decreases cs
  {
    seq(|cs|, i requires 0 <= i < |cs| => Render(cs[i]))
  }

  /** `open c1, c2 close`, or the first child's failure. */
  function Bracket(open: string, close: string, rs: seq<Result<string, Error>>): Result<string, Error> {
    var texts :- Collect(rs);
    Success(open + Join(", ", texts) + close)
  }

  /** An operand as an expression prints it: nested expressions in parentheses. */
  function OperandText(n: Node, text: string): string {
    if n.ExpressionNode? then "(" + text + ")" else text
  }

  /** `o0 op1 o1 ... opk ok`. */
  function Interleave(texts: seq<string>, ops: seq<string>): string
    requires |texts| == |ops| + 1
    decreases |ops|
  {
    if ops == [] then texts[0]
    else Interleave(texts[..|texts| - 1], ops[..|ops| - 1]) + " " + ops[|ops| - 1] + " " + texts[|texts| - 1]
  }

  /** The negative flag wraps the text as `-(...)`, the negated flag as
      `NOT (...)`, the negative wrapping outermost. */
  function Decorate(negative: bool, negated: bool, body: string): string {
    (if negative then "-(" else "") + (if negated then "NOT (" else "") + body
    + (if negative then ")" else "") + (if negated then ")" else "")
  }

  /** An expression's text given its operands' renderings: the first
      operand, then for each operator the operator and the next operand,
      failing when it runs out of operands. Operands beyond the operators'
      reach are never rendered, so their failures never surface. */
  function ExpressionText(e: Expression, rs: seq<Result<string, Error>>): Result<string, Error>
    requires |rs| == |e.operands|
  {
    if e.operands == [] then Failure(InvalidOperation(NoOperandMessage))
    else
      var k := if |e.operators| < |e.operands| then |e.operators| + 1 else |e.operands|;
      var texts :- Collect(rs[..k]);
      if |e.operators| >= |e.operands| then Failure(InvalidOperation(MissingOperandMessage))
      else
        var shown := seq(k, i requires 0 <= i < k => OperandText(e.operands[i], texts[i]));
        Success(Decorate(e.negative, e.negated, Interleave(shown, e.operators)))
  }

  /** A possibly-null member as text. */
  function MemberText(m: Option<Member>): string {
    match m
    case None => ""
    case Some(x) => RenderMember(x)
  }

  /** `GetStringExpression` of every node kind. */
  function Render(n: Node): Result<string, Error>
    decreases n
  {
    match n
    case MemberNode(m) => Success(RenderMember(m))
    case FunctionNode(f) => Bracket(Join(".", f.titles) + "(", ")", Texts(f.parameters))
    case RangeNode(r) => Success(MemberText(r.low) + ":" + MemberText(r.high))
    case TupleNode(t) => Bracket("{ ", " }", Texts(t.children))
    case SetNode(s) => Bracket("( ", " )", Texts(s.children))
    case ExpressionNode(e) => ExpressionText(e, Texts(e.operands))
    case ConstantNode(v) => Success(OrEmpty(v))
    case ParameterNode(p) => Success(RenderParameter(p))
  }

  /** Appending a child appends its text. */
  lemma TextsAppended(cs: seq<Node>, c: Node)
    ensures Texts(cs + [c]) == Texts(cs) + [Render(c)]
  {
    assert |Texts(cs + [c])| == |Texts(cs) + [Render(c)]|;
  }

  /** The children's texts after appending a child. */
  lemma TextsSnoc(cs: seq<Node>, c: Node)
    ensures Collect(Texts(cs + [c]))
            == if Collect(Texts(cs)).Failure? then Collect(Texts(cs))
               else if Render(c).Failure? then Failure(Render(c).error)
               else Success(Collect(Texts(cs)).value + [Render(c).value])
  {
    assert Texts(cs + [c]) == Texts(cs) + [Render(c)];
    CollectSnoc(Texts(cs), Render(c));
  }

  /** Appending a part that renders as `p` to a bracketed list adds `p`
      just before the closing text, after a comma unless the list was empty. */
  lemma BracketAppended(open: string, close: string, rs: seq<Result<string, Error>>, x: Result<string, Error>)
    requires Bracket(open, close, rs).Success? && x.Success?
    ensures var before := Bracket(open, close, rs).value;
            |before| >= |close|
            && Bracket(open, close, rs + [x])
               == Success(before[..|before| - |close|] + (if rs == [] then "" else ", ") + x.value + close)
  {
    CollectSnoc(rs, x);
    var parts := Collect(rs).value;
    assert |parts| == |rs|;
    assert Collect(rs + [x]) == Success(parts + [x.value]);
    JoinSnoc(", ", parts, x.value);
    var before := Bracket(open, close, rs).value;
    assert before == open + Join(", ", parts) + close;
    assert before[..|before| - |close|] == open + Join(", ", parts);
    assert Bracket(open, close, rs + [x]) == Success(open + Join(", ", parts + [x.value]) + close);
    if rs == [] {
      assert parts == [];
      assert Join(", ", parts + [x.value]) == x.value;
      assert open + Join(", ", parts) == open;
      assert before[..|before| - |close|] + "" + x.value + close == open + x.value + close;
    } else {
      assert Join(", ", parts + [x.value]) == Join(", ", parts) + ", " + x.value;
      assert open + Join(", ", parts + [x.value]) + close
             == (open + Join(", ", parts)) + ", " + x.value + close;
    }
  }

  /** The empty list renders as the opening and closing text alone. */
  lemma BracketEmpty(open: string, close: string)
    ensures Bracket(open, close, []) == Success(open + close)
  {
    assert Collect([]) == Success([]);
    assert open + Join(", ", []) + close == open + close;
  }

  // ---------------------------------------------------------------------
  // Functions (MdxFunction.cs)

  /** The constructor: no titles, no parameters. */
  const NewFunction := Function([], [])

  /** `Titled` appends titles in order and never replaces. */
  function FunctionTitled(f: Function, titles: seq<string>): (r: Function)
    ensures r.titles == f.titles + titles && r.parameters == f.parameters
  {
    f.(titles := f.titles + titles)
  }

  /** `WithParameters` appends parameters in order and keeps the titles. */
  function FunctionWithParameters(f: Function, parameters: seq<Node>): (r: Function)
    ensures r.titles == f.titles && r.parameters == f.parameters + parameters
  {
    f.(parameters := f.parameters + parameters)
  }

  /** A function with no parameters renders as its dotted titles and `()`. */
  lemma FunctionWithoutParameters(f: Function)
    requires f.parameters == []
    ensures Render(FunctionNode(f)) == Success(Join(".", f.titles) + "()")
  {
    assert Texts(f.parameters) == [];
    BracketEmpty(Join(".", f.titles) + "(", ")");
    assert Join(".", f.titles) + "(" + ")" == Join(".", f.titles) + "()";
  }

  /** Appending a parameter that renders as `p` adds `p` to the end of the
      list inside the parentheses. */
  lemma FunctionParameterAppended(f: Function, x: Node)
    requires Render(FunctionNode(f)).Success? && Render(x).Success?
    ensures var before := Render(FunctionNode(f)).value;
            |before| >= 1
            && Render(FunctionNode(FunctionWithParameters(f, [x])))
               == Success(before[..|before| - 1] + (if f.parameters == [] then "" else ", ")
                          + Render(x).value + ")")
  {
    var open := Join(".", f.titles) + "(";
    var g := FunctionWithParameters(f, [x]);
    TextsAppended(f.parameters, x);
    assert Render(FunctionNode(f)) == Bracket(open, ")", Texts(f.parameters));
    assert Render(FunctionNode(g)) == Bracket(open, ")", Texts(f.parameters) + [Render(x)]);
    BracketAppended(open, ")", Texts(f.parameters), Render(x));
  }

  /** Appending a title inserts `.title` after the existing titles and
      leaves the parameter list as it was. */
  lemma FunctionTitleAppended(f: Function, t: string)
    requires f.titles != []
    ensures Render(FunctionNode(FunctionTitled(f, [t])))
            == Bracket(Join(".", f.titles) + "." + t + "(", ")", Texts(f.parameters))
  {
    JoinSnoc(".", f.titles, t);
  }

  // ---------------------------------------------------------------------
  // Ranges (MdxRange.cs)

  /** The constructor: both endpoints unset. */
  const NewRange := Range(None, None)

  /** `From` sets only the start. */
  function RangeFrom(r: Range, m: Member): (q: Range)
    ensures q.low == Some(m) && q.high == r.high
  {
    r.(low := Some(m))
  }

  /** `To` sets only the end. */
  function RangeTo(r: Range, m: Member): (q: Range)
    ensures q.high == Some(m) && q.low == r.low
  {
    r.(high := Some(m))
  }

  /** A range renders as `from:to` with no spaces, an unset end as nothing;
      each setter's last call wins. */
  lemma RangeRendering(r: Range, a: Member, b: Member, c: Member)
    ensures Render(RangeNode(RangeTo(RangeFrom(r, a), b))) == Success(RenderMember(a) + ":" + RenderMember(b))
    ensures Render(RangeNode(NewRange)) == Success(":")
    ensures Render(RangeNode(RangeFrom(NewRange, a))) == Success(RenderMember(a) + ":")
    ensures RangeFrom(RangeFrom(r, a), c) == RangeFrom(r, c) && RangeTo(RangeTo(r, b), c) == RangeTo(r, c)
  {
    assert Render(RangeNode(NewRange)) == Success(MemberText(None) + ":" + MemberText(None));
    assert MemberText(None) + ":" + MemberText(None) == "" + ":" + "" == ":";
    assert Render(RangeNode(RangeFrom(NewRange, a))) == Success(MemberText(Some(a)) + ":" + MemberText(None));
    assert MemberText(Some(a)) + ":" + MemberText(None) == RenderMember(a) + ":" + "" == RenderMember(a) + ":";
  }

  // ---------------------------------------------------------------------
  // Tuples (the single tuple node the parser builds)

  /** An empty tuple. */
  const NewTuple := Tuple([])

  /** `With` appends a child of any kind. */
  function TupleWith(t: Tuple, c: Node): (r: Tuple)
    ensures r.children == t.children + [c]
  {
    t.(children := t.children + [c])
  }

  /** An empty tuple renders as `{  }`. */
  lemma EmptyTupleRendering()
    ensures Render(TupleNode(NewTuple)) == Success("{  }")
  {
    assert Texts(NewTuple.children) == [];
    BracketEmpty("{ ", " }");
    assert Render(TupleNode(NewTuple)) == Bracket("{ ", " }", Texts(NewTuple.children));
    assert "{ " + " }" == "{  }";
  }

  /** Appending a child that renders as `c` adds `c` at the end, inside the
      braces. */
  lemma TupleChildAppended(t: Tuple, x: Node)
    requires Render(TupleNode(t)).Success? && Render(x).Success?
    ensures var before := Render(TupleNode(t)).value;
            |before| >= 2
            && Render(TupleNode(TupleWith(t, x)))
               == Success(before[..|before| - 2] + (if t.children == [] then "" else ", ")
                          + Render(x).value + " }")
  {
    assert Texts(t.children + [x]) == Texts(t.children) + [Render(x)];
    BracketAppended("{ ", " }", Texts(t.children), Render(x));
  }

  // ---------------------------------------------------------------------
  // Sets (MdxSet.cs)

  /** An empty set. */
  const NewSet := Set([])

  /** The kinds of child `MdxSet.With` has an overload for. */
  predicate IsSetChild(x: Node) {
    x.MemberNode? || x.FunctionNode? || x.RangeNode? || x.TupleNode? || x.SetNode?
  }

  /** The position of the last tuple among the children, if there is one. */
  function LastTuple(cs: seq<Node>): (r: Option<nat>)
    ensures r.None? <==> forall i :: 0 <= i < |cs| ==> !cs[i].TupleNode?
    ensures r.Some? ==> r.value < |cs| && cs[r.value].TupleNode?
                        && forall i :: r.value < i < |cs| ==> !cs[i].TupleNode?
    decreases |cs|
  {
    if cs == [] then None
    else if cs[|cs| - 1].TupleNode? then Some(|cs| - 1)
    else
      assert forall i :: 0 <= i < |cs| - 1 ==> cs[..|cs| - 1][i] == cs[i];
      LastTuple(cs[..|cs| - 1])
  }

  /** The children that satisfy `keep`, in their original order. */
  function Keep(cs: seq<Node>, keep: Node -> bool): (r: seq<Node>)
    ensures |r| <= |cs|
    ensures forall n :: n in r <==> n in cs && keep(n)
    decreases |cs|
  {
    if cs == [] then []
    else if keep(cs[0]) then [cs[0]] + Keep(cs[1..], keep)
    else Keep(cs[1..], keep)
  }

  /** Filtering distributes over appending a child. */
  lemma {:induction false} KeepSnoc(cs: seq<Node>, c: Node, keep: Node -> bool)
    ensures Keep(cs + [c], keep) == Keep(cs, keep) + (if keep(c) then [c] else [])
    decreases |cs|
  {
    if cs != [] {
      assert (cs + [c])[1..] == cs[1..] + [c];
      KeepSnoc(cs[1..], c, keep);
    }
  }

  function IsMember(n: Node): bool { n.MemberNode? }
  function IsFunction(n: Node): bool { n.FunctionNode? }

  /** The tuple a flat set is folded into when its first tuple arrives: the
      member children in order, then the function children in order. */
  function Folded(cs: seq<Node>): Tuple {
    Tuple(Keep(cs, IsMember) + Keep(cs, IsFunction))
  }

  /** `With`, by overload. A member, function, range or set goes to the end
      of the set while it holds no tuple, and otherwise to the end of its
      last tuple. A tuple goes to the end when the set is empty or already
      holds a tuple; otherwise the flat children are first folded into one
      tuple, so the set becomes that tuple followed by the new one. */
  function SetWith(s: Set, x: Node): (r: Set)
    requires IsSetChild(x)
    ensures !x.TupleNode? && LastTuple(s.children).None? ==> r.children == s.children + [x]
    ensures !x.TupleNode? && LastTuple(s.children).Some? ==>
              var i := LastTuple(s.children).value;
              |r.children| == |s.children|
              && r.children[i] == TupleNode(TupleWith(s.children[i].tuple, x))
              && forall j :: 0 <= j < |s.children| && j != i ==> r.children[j] == s.children[j]
    ensures x.TupleNode? && (s.children == [] || LastTuple(s.children).Some?) ==>
              r.children == s.children + [x]
    ensures x.TupleNode? && s.children != [] && LastTuple(s.children).None? ==>
              r.children == [TupleNode(Folded(s.children)), x]
  {
    if !x.TupleNode? then
      match LastTuple(s.children)
      case None => Set(s.children + [x])
      case Some(i) => Set(s.children[i := TupleNode(TupleWith(s.children[i].tuple, x))])
    else if s.children == [] || LastTuple(s.children).Some? then Set(s.children + [x])
    else Set([TupleNode(Folded(s.children)), x])
  }

  /** A set's children are all tuples or none is. */
  predicate Homogeneous(s: Set) {
    (forall i :: 0 <= i < |s.children| ==> s.children[i].TupleNode?)
    || (forall i :: 0 <= i < |s.children| ==> !s.children[i].TupleNode?)
  }

  /** `With` never mixes tuples with other children. */
  lemma SetWithKeepsHomogeneous(s: Set, x: Node)
    requires Homogeneous(s) && IsSetChild(x)
    ensures Homogeneous(SetWith(s, x))
    ensures x.TupleNode? ==> forall i :: 0 <= i < |SetWith(s, x).children| ==> SetWith(s, x).children[i].TupleNode?
  {
  }

  /** The set a sequence of `With` calls builds, starting from an empty set. */
  function BuildSet(xs: seq<Node>): Set
    requires forall i :: 0 <= i < |xs| ==> IsSetChild(xs[i])
    decreases |xs|
  {
    if xs == [] then NewSet else SetWith(BuildSet(xs[..|xs| - 1]), xs[|xs| - 1])
  }

  /** Every set built by `With` calls is homogeneous, and once a tuple has
      been added every child is a tuple. */
  lemma {:induction false} BuiltSetsHomogeneous(xs: seq<Node>)
    requires forall i :: 0 <= i < |xs| ==> IsSetChild(xs[i])
    ensures Homogeneous(BuildSet(xs))
    ensures (exists i :: 0 <= i < |xs| && xs[i].TupleNode?) ==>
              forall j :: 0 <= j < |BuildSet(xs).children| ==> BuildSet(xs).children[j].TupleNode?
    decreases |xs|
  {
    if xs != [] {
      var init := xs[..|xs| - 1];
      assert forall i :: 0 <= i < |init| ==> init[i] == xs[i];
      BuiltSetsHomogeneous(init);
      SetWithKeepsHomogeneous(BuildSet(init), xs[|xs| - 1]);
      if exists i :: 0 <= i < |xs| && xs[i].TupleNode? {
        var i :| 0 <= i < |xs| && xs[i].TupleNode?;
        if i < |init| {
          assert init[i].TupleNode?;
          var s := BuildSet(init);
          assert LastTuple(s.children).Some? || s.children == [];
        }
      }
    }
  }

  /** Folding keeps every member and function child, in order, and drops the
      ranges and nested sets. */
  lemma FoldKeepsMembersAndFunctions(cs: seq<Node>)
    ensures forall n :: n in Folded(cs).children <==> n in cs && (n.MemberNode? || n.FunctionNode?)
    ensures forall n :: n in cs && (n.RangeNode? || n.SetNode?) ==> n !in Folded(cs).children
  {
  }

  /** `With` keeps a set well formed: the fold only regroups children the set
      already had. */
  lemma SetWithKeepsWellFormed(s: Set, x: Node)
    requires WellFormed(SetNode(s)) && WellFormed(x) && IsSetChild(x)
    ensures WellFormed(SetNode(SetWith(s, x)))
  {
    if !x.TupleNode? && LastTuple(s.children).Some? {
      var i := LastTuple(s.children).value;
      assert WellFormed(s.children[i]);
      assert WellFormed(TupleNode(TupleWith(s.children[i].tuple, x)));
    } else if x.TupleNode? && s.children != [] && LastTuple(s.children).None? {
      var t := Folded(s.children);
      FoldKeepsMembersAndFunctions(s.children);
      forall j | 0 <= j < |t.children|
        ensures WellFormed(t.children[j])
      {
        assert t.children[j] in s.children;
      }
      assert WellFormed(TupleNode(t));
    }
  }

  /** Every set built by `With` calls from well-formed children is well
      formed. */
  lemma {:induction false} BuiltSetsWellFormed(xs: seq<Node>)
    requires forall i :: 0 <= i < |xs| ==> IsSetChild(xs[i]) && WellFormed(xs[i])
    ensures WellFormed(SetNode(BuildSet(xs)))
    decreases |xs|
  {
    if xs != [] {
      var init := xs[..|xs| - 1];
      assert forall i :: 0 <= i < |init| ==> init[i] == xs[i];
      BuiltSetsWellFormed(init);
      SetWithKeepsWellFormed(BuildSet(init), xs[|xs| - 1]);
    }
  }

  /** Adding children none of which is a tuple, one by one, lists them in
      order: with no tuple there is nothing to fold into. */
  lemma {:induction false} BuildSetWithoutTuples(xs: seq<Node>)
    requires forall i :: 0 <= i < |xs| ==> IsSetChild(xs[i]) && !xs[i].TupleNode?
    ensures BuildSet(xs) == Set(xs)
    decreases |xs|
  {
    hide SetWith, LastTuple;
    if xs != [] {
      var init, last := xs[..|xs| - 1], xs[|xs| - 1];
      assert forall i :: 0 <= i < |init| ==> init[i] == xs[i];
      BuildSetWithoutTuples(init);
      assert LastTuple(init).None?;
      assert SetWith(Set(init), last).children == init + [last];
      assert init + [last] == xs;
    }
  }


  /** A set renders as `( c1, c2 )`, an empty one as `(  )`; a child added to a
      set without tuples joins the end of the list. */
  lemma EmptySetRendering()
    ensures Render(SetNode(NewSet)) == Success("(  )")
  {
    assert Texts(NewSet.children) == [];
    BracketEmpty("( ", " )");
    assert Render(SetNode(NewSet)) == Bracket("( ", " )", Texts(NewSet.children));
    assert "( " + " )" == "(  )";
  }

  lemma SetChildAppended(s: Set, x: Node)
    requires IsSetChild(x) && !x.TupleNode? && LastTuple(s.children).None?
    requires Render(SetNode(s)).Success? && Render(x).Success?
    ensures var before := Render(SetNode(s)).value;
            |before| >= 2
            && Render(SetNode(SetWith(s, x)))
               == Success(before[..|before| - 2] + (if s.children == [] then "" else ", ")
                          + Render(x).value + " )")
  {
    assert Texts(s.children + [x]) == Texts(s.children) + [Render(x)];
    BracketAppended("( ", " )", Texts(s.children), Render(x));
  }

  // ---------------------------------------------------------------------
  // Expressions (MdxExpression.cs)

  /** The constructor: no operands, no operators, neither flag. */
  const NewExpression := Expression([], [], false, false)

  /** `WithOperator` appends an operator and nothing else. */
  function WithOperator(e: Expression, op: string): (r: Expression)
    ensures r.operators == e.operators + [op] && r.operands == e.operands
    ensures r.negative == e.negative && r.negated == e.negated
  {
    e.(operators := e.operators + [op])
  }

  /** `WithOperand` appends an operand and nothing else. */
  function WithOperand(e: Expression, x: Node): (r: Expression)
    ensures r.operands == e.operands + [x] && r.operators == e.operators
    ensures r.negative == e.negative && r.negated == e.negated
  {
    e.(operands := e.operands + [x])
  }

  /** `WithOperation` is `WithOperator` followed by `WithOperand`. */
  function WithOperation(e: Expression, op: string, x: Node): (r: Expression)
    ensures r == WithOperand(WithOperator(e, op), x)
  {
    Expression(e.operands + [x], e.operators + [op], e.negative, e.negated)
  }

  /** `AsNegative` sets the negative flag. */
  function AsNegative(e: Expression): (r: Expression)
    ensures r.negative && r.operands == e.operands && r.operators == e.operators && r.negated == e.negated
  {
    e.(negative := true)
  }

  /** `AsNegated` sets the `NOT` flag. */
  function AsNegated(e: Expression): (r: Expression)
    ensures r.negated && r.operands == e.operands && r.operators == e.operators && r.negative == e.negative
  {
    e.(negated := true)
  }

  /** One operand more than operators: the shape every complete expression
      has, and the one `WithOperation` keeps. */
  predicate Balanced(e: Expression) {
    |e.operands| == |e.operators| + 1
  }

  lemma WithOperationKeepsBalance(e: Expression, op: string, x: Node)
    ensures Balanced(WithOperation(e, op, x)) <==> Balanced(e)
    ensures Balanced(WithOperand(NewExpression, x))
  {
  }

  /** Both flags are idempotent and independent of each other. */
  lemma FlagsIdempotent(e: Expression)
    ensures AsNegative(AsNegative(e)) == AsNegative(e) && AsNegated(AsNegated(e)) == AsNegated(e)
    ensures AsNegative(AsNegated(e)) == AsNegated(AsNegative(e))
  {
  }

  /** When an expression fails to render and why: no operands, a failing
      operand among those the operators reach (the first one), or more
      operators than operands allow. */
  lemma ExpressionOutcome(e: Expression)
    ensures e.operands == [] ==> Render(ExpressionNode(e)) == Failure(InvalidOperation(NoOperandMessage))
    ensures e.operands != [] && (forall i :: 0 <= i < |e.operands| ==> Render(e.operands[i]).Success?) ==>
              (Render(ExpressionNode(e)).Success? <==> |e.operators| < |e.operands|)
    ensures e.operands != [] && (forall i :: 0 <= i < |e.operands| ==> Render(e.operands[i]).Success?)
            && |e.operators| >= |e.operands| ==>
              Render(ExpressionNode(e)) == Failure(InvalidOperation(MissingOperandMessage))
    ensures forall i :: 0 <= i < |e.operands| && i <= |e.operators| && Render(e.operands[i]).Failure?
                        && (forall j :: 0 <= j < i ==> Render(e.operands[j]).Success?) ==>
              Render(ExpressionNode(e)) == Failure(Render(e.operands[i]).error)
  {
    var rs := Texts(e.operands);
    if e.operands != [] {
      var k := if |e.operators| < |e.operands| then |e.operators| + 1 else |e.operands|;
      forall i | 0 <= i < |e.operands| && i <= |e.operators| && Render(e.operands[i]).Failure?
                 && (forall j :: 0 <= j < i ==> Render(e.operands[j]).Success?)
        ensures Render(ExpressionNode(e)) == Failure(Render(e.operands[i]).error)
      {
        FirstFailure(rs[..k], i);
      }
    }
  }

  /** `Collect` reports the first failing part. */
  lemma FirstFailure(rs: seq<Result<string, Error>>, i: int)
    requires 0 <= i < |rs| && rs[i].Failure? && forall j :: 0 <= j < i ==> rs[j].Success?
    ensures Collect(rs) == Failure(rs[i].error)
  {
    var k :| 0 <= k < |rs| && rs[k] == Failure(Collect(rs).error) && forall j :: 0 <= j < k ==> rs[j].Success?;
    assert k == i;
  }

  /** Without flags, an expression's text is its operands interleaved with
      its operators; appending an operation to a complete expression appends
      ` op ` and the new operand's text (parenthesised when it is itself an
      expression). */
  lemma OperationAppended(e: Expression, op: string, x: Node)
    requires Balanced(e) && !e.negative && !e.negated
    requires Render(ExpressionNode(e)).Success? && Render(x).Success?
    ensures Render(ExpressionNode(WithOperation(e, op, x)))
            == Success(Render(ExpressionNode(e)).value + " " + op + " " + OperandText(x, Render(x).value))
  {
    var e' := WithOperation(e, op, x);
    assert e'.operands == e.operands + [x] && e'.operators == e.operators + [op];
    var rs := Texts(e.operands);
    var rs' := rs + [Render(x)];
    assert Texts(e'.operands) == rs';
    assert Render(ExpressionNode(e)) == ExpressionText(e, rs);
    assert Render(ExpressionNode(e')) == ExpressionText(e', rs');
    CollectSnoc(rs, Render(x));
    var texts := Collect(rs).value;
    var t := Render(x).value;
    assert Collect(rs').value == texts + [t];
    PlainBalancedText(e, rs);
    PlainBalancedText(e', rs');
    ShownSnoc(e.operands, texts, x, t);
    InterleaveSnoc(Shown(e.operands, texts), e.operators, OperandText(x, t), op);
    assert Shown(e'.operands, texts + [t]) == Shown(e.operands, texts) + [OperandText(x, t)];
  }

  /** One more operand shows one more text. */
  lemma ShownSnoc(operands: seq<Node>, texts: seq<string>, x: Node, t: string)
    requires |texts| == |operands|
    ensures Shown(operands + [x], texts + [t]) == Shown(operands, texts) + [OperandText(x, t)]
  {
  }

  /** One more operator and operand extend the interleaving at its end. */
  lemma InterleaveSnoc(texts: seq<string>, ops: seq<string>, t: string, op: string)
    requires |texts| == |ops| + 1
    ensures Interleave(texts + [t], ops + [op]) == Interleave(texts, ops) + " " + op + " " + t
  {
    assert (texts + [t])[..|texts|] == texts;
    assert (ops + [op])[..|ops|] == ops;
  }

  /** The operands' texts as an expression shows them. */
  function Shown(operands: seq<Node>, texts: seq<string>): (r: seq<string>)
    requires |texts| == |operands|
    ensures |r| == |operands|
    ensures forall i :: 0 <= i < |operands| ==> r[i] == OperandText(operands[i], texts[i])
  {
    seq(|operands|, i requires 0 <= i < |operands| => OperandText(operands[i], texts[i]))
  }

  /** A balanced expression without flags whose operands render is its
      operands' texts interleaved with its operators. */
  lemma PlainBalancedText(e: Expression, rs: seq<Result<string, Error>>)
    requires Balanced(e) && !e.negative && !e.negated
    requires |rs| == |e.operands| && Collect(rs).Success?
    ensures ExpressionText(e, rs) == Success(Interleave(Shown(e.operands, Collect(rs).value), e.operators))
  {
    var k := |e.operands|;
    assert rs[..k] == rs;
    var texts := Collect(rs).value;
    var shown := seq(k, i requires 0 <= i < k => OperandText(e.operands[i], texts[i]));
    assert shown == Shown(e.operands, texts);
    DecorateCases(Interleave(shown, e.operators));
  }

  /** The flags wrap the unflagged text: `-(` ... `)` for negative,
      `NOT (` ... `)` for negated, the negative wrapping outermost; they never
      change whether the expression renders. */
  lemma FlagsWrapRendering(e: Expression)
    ensures var plain := Render(ExpressionNode(e.(negative := false, negated := false)));
            var flagged := Render(ExpressionNode(e));
            (flagged.Success? <==> plain.Success?)
            && (flagged.Failure? ==> flagged == plain)
            && (flagged.Success? ==> flagged.value == Decorate(e.negative, e.negated, plain.value))
  {
  }

  /** What `Decorate` produces for each combination of flags. */
  lemma DecorateCases(b: string)
    ensures Decorate(false, false, b) == b
    ensures Decorate(true, false, b) == "-(" + b + ")"
    ensures Decorate(false, true, b) == "NOT (" + b + ")"
    ensures Decorate(true, true, b) == "-(NOT (" + b + "))"
  {
    assert Decorate(false, false, b) == "" + "" + b + "" + "";
    assert Decorate(true, false, b) == "-(" + "" + b + ")" + "";
    assert Decorate(false, true, b) == "" + "NOT (" + b + "" + ")";
  }

  /** Operands past the one the last operator needs are never rendered: they
      change neither the text nor whether rendering succeeds. */
  lemma ExtraOperandsIgnored(e: Expression, extra: seq<Node>)
    requires Balanced(e)
    ensures Render(ExpressionNode(e.(operands := e.operands + extra))) == Render(ExpressionNode(e))
  {
    var e' := e.(operands := e.operands + extra);
    var k := |e.operands|;
    var rs := Texts(e.operands);
    var rs' := Texts(e'.operands);
    assert rs'[..k] == rs;
    assert e'.operands[..k] == e.operands;
    ExpressionTextPrefix(e, rs, e', rs');
  }

  /** The text only looks at the operands (and their renderings) the
      operators reach. */
  lemma ExpressionTextPrefix(e: Expression, rs: seq<Result<string, Error>>,
                             e': Expression, rs': seq<Result<string, Error>>)
    requires Balanced(e) && |rs| == |e.operands| && |rs'| == |e'.operands|
    requires e'.operators == e.operators && e'.negative == e.negative && e'.negated == e.negated
    requires |e'.operands| >= |e.operands|
    requires e'.operands[..|e.operands|] == e.operands && rs'[..|e.operands|] == rs
    ensures ExpressionText(e', rs') == ExpressionText(e, rs)
  {
    var k := |e.operands|;
    assert rs[..k] == rs;
    if Collect(rs).Success? {
      var texts := Collect(rs).value;
      var shown := seq(k, i requires 0 <= i < k => OperandText(e.operands[i], texts[i]));
      var shown' := seq(k, i requires 0 <= i < k => OperandText(e'.operands[i], texts[i]));
      forall i | 0 <= i < k
        ensures shown'[i] == shown[i]
      {
        assert e'.operands[i] == e'.operands[..k][i];
      }
      assert shown' == shown;
    }
  }

  // ---------------------------------------------------------------------
  // Constants (MdxConstantExpression.cs)

  /** An unset constant renders as the empty string. */
  const NewConstant: Option<string> := None

  /** `WithValue` replaces the value; the constant renders as it verbatim. */
  function WithValue(c: Option<string>, v: string): (r: Option<string>)
    ensures Render(ConstantNode(r)) == Success(v)
  {
    Some(v)
  }

  /** An unset constant renders as nothing, and the last `WithValue` wins. */
  lemma ConstantRendering(c: Option<string>, v: string, w: string)
    ensures Render(ConstantNode(NewConstant)) == Success("")
    ensures WithValue(WithValue(c, v), w) == WithValue(c, w)
  {
  }

  // ---------------------------------------------------------------------
  // Well-formed trees

  /** Every expression in the tree has at least one operand and exactly one
      operator fewer. This is the shape the parser builds. */
  predicate WellFormed(n: Node)
    decreases n
  {
    match n
    case FunctionNode(f) => forall i :: 0 <= i < |f.parameters| ==> WellFormed(f.parameters[i])
    case TupleNode(t) => forall i :: 0 <= i < |t.children| ==> WellFormed(t.children[i])
    case SetNode(s) => forall i :: 0 <= i < |s.children| ==> WellFormed(s.children[i])
    case ExpressionNode(e) =>
      Balanced(e) && forall i :: 0 <= i < |e.operands| ==> WellFormed(e.operands[i])
    case _ => true
  }

  /** Rendering a well-formed tree never throws. */
  lemma {:induction false} WellFormedRenders(n: Node)
    requires WellFormed(n)
    ensures Render(n).Success?
    decreases n
  {
    match n
    case FunctionNode(f) =>
      ChildrenRender(f.parameters, n);
    case TupleNode(t) =>
      ChildrenRender(t.children, n);
    case SetNode(s) =>
      ChildrenRender(s.children, n);
    case ExpressionNode(e) =>
      ChildrenRender(e.operands, n);
      ExpressionOutcome(e);
    case _ =>
  }

  lemma {:induction false} ChildrenRender(cs: seq<Node>, parent: Node)
    requires forall i :: 0 <= i < |cs| ==> cs[i] < parent && WellFormed(cs[i])
    ensures Collect(Texts(cs)).Success?
    ensures forall i :: 0 <= i < |cs| ==> Render(cs[i]).Success?
    decreases parent, 0
  {
    forall i | 0 <= i < |cs|
      ensures Render(cs[i]).Success?
    {
      WellFormedRenders(cs[i]);
    }
  }
}
