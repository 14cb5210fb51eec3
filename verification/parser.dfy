/** The recursive-descent parser (MdxParser.cs). Each rule is a function of
    the token list and the number of tokens already consumed. It answers
    `None` when the rule does not match, which is when the source restores
    its cursor to where the rule started (`StatedCursor.RollbackExact` shows
    that restore is exact), and otherwise the value it built together with
    the position after the last token it consumed. */
module Parser {
  import opened Wrappers
  import opened Text
  import opened Tokens
  import opened Nodes
  import opened Queries
  import Lexer
  import MdxRules
  import StatedCursor

  /** A rule's result and the position after it. */
  datatype Parsed<T> = Parsed(node: T, pos: nat)

  // ---------------------------------------------------------------------
  // Single tokens

  /** `IsNextTokenValid` on the position: consumes the next token when it has
      kind `k`. */
  function Next(toks: seq<Token>, p: nat, k: TokenKind): (r: Option<nat>)
    ensures r.Some? <==> p < |toks| && toks[p].kind == k
    ensures r.Some? ==> r.value == p + 1
  {
    if p < |toks| && toks[p].kind == k then Some(p + 1) else None
  }

  /** A chain of `IsNextTokenValid` calls joined by `||`: consumes the next
      token when its kind is one of `ks`. */
  function NextIn(toks: seq<Token>, p: nat, ks: set<TokenKind>): (r: Option<nat>)
    ensures r.Some? <==> p < |toks| && toks[p].kind in ks
    ensures r.Some? ==> r.value == p + 1
  {
    if p < |toks| && toks[p].kind in ks then Some(p + 1) else None
  }

  /** `IsNextTokenValid` on the backtracking cursor: step forward, and step
      back again when the token there has another kind. It moves exactly like
      `Next` on the position after the cursor's index, and never touches the
      saved positions. */
  function NextTokenValid(c: StatedCursor.Cursor<Token>, k: TokenKind): (r: (bool, StatedCursor.Cursor<Token>))
    requires StatedCursor.Valid(c)
    ensures StatedCursor.Valid(r.1) && r.1.source == c.source
    ensures r.0 <==> Next(c.source, c.index + 1, k).Some?
    ensures r.1.index == if r.0 then c.index + 1 else c.index
    ensures StatedCursor.SavedPositions(r.1) == StatedCursor.SavedPositions(c)
  {
    var (moved, d) := StatedCursor.MoveNext(c);
    if !moved then (false, d)
    else if StatedCursor.Current(d).value.kind == k then (true, d)
    else (false, StatedCursor.MovePrevious(d).value)
  }

  /** The kinds a member value or a navigation-function parameter may have. */
  const ValueKinds: set<TokenKind> :=
    {LogicalExpression, DateExpression, NumberExpression, IdentifierExpression, MathsOperator}

  /** The kinds a constant may have. */
  const ConstantKinds: set<TokenKind> :=
    {LogicalExpression, DateExpression, NumberExpression, IdentifierExpression, Ordering}

  /** A value token, with an identifier token right after it glued on: the
      tokens `1` and `x` read as `1x`. */
  function ParseValue(toks: seq<Token>, p: nat, kinds: set<TokenKind>): (r: Option<Parsed<string>>)
    requires p <= |toks|
    ensures r.Some? <==> p < |toks| && toks[p].kind in kinds
    ensures r.Some? ==> p < r.value.pos <= |toks| && r.value.pos <= p + 2
    ensures r.Some? && p + 1 < |toks| && toks[p + 1].kind == IdentifierExpression
            ==> r.value == Parsed(toks[p].value + toks[p + 1].value, p + 2)
    ensures r.Some? && !(p + 1 < |toks| && toks[p + 1].kind == IdentifierExpression)
            ==> r.value == Parsed(toks[p].value, p + 1)
  {
    var p1 :- NextIn(toks, p, kinds);
    match Next(toks, p1, IdentifierExpression)
    case Some(p2) => Some(Parsed(toks[p].value + toks[p1].value, p2))
    case None => Some(Parsed(toks[p].value, p1))
  }

  // ---------------------------------------------------------------------
  // Paths, constants and navigation functions

  /** `[a]` followed by any number of `.[b]`: the titles of a cube or a
      declaration. A `.` that is not followed by a bracketed name fails the
      whole path. */
  function ParsePath(toks: seq<Token>, p: nat): (r: Option<Parsed<seq<string>>>)
    requires p <= |toks|
    ensures r.Some? ==> p < r.value.pos <= |toks| && |r.value.node| >= 1
    decreases |toks| - p
  {
    var p1 :- Next(toks, p, LeftSquareBracket);
    var p2 :- Next(toks, p1, IdentifierExpression);
    var p3 :- Next(toks, p2, RightSquareBracket);
    match Next(toks, p3, IdentifierSeparator)
    case None => Some(Parsed([toks[p1].value], p3))
    case Some(p4) =>
      var rest :- ParsePath(toks, p4);
      Some(Parsed([toks[p1].value] + rest.node, rest.pos))
  }

  /** `TryParseConstantValue`. */
  function ParseConstant(toks: seq<Token>, p: nat): (r: Option<Parsed<Option<string>>>)
    requires p <= |toks|
    ensures r.Some? <==> p < |toks| && toks[p].kind in ConstantKinds
    ensures r.Some? ==> p < r.value.pos <= |toks| && r.value.node.Some?
  {
    var v :- ParseValue(toks, p, ConstantKinds);
    Some(Parsed(WithValue(NewConstant, v.node), v.pos))
  }

  /** The comma-separated parameters of a navigation function. */
  function ParseNavParameters(toks: seq<Token>, p: nat): (r: Option<Parsed<seq<string>>>)
    requires p <= |toks|
    ensures r.Some? ==> p < r.value.pos <= |toks| && |r.value.node| >= 1
    decreases |toks| - p
  {
    var v :- ParseValue(toks, p, ValueKinds);
    match Next(toks, v.pos, MemberSeparator)
    case None => Some(Parsed([v.node], v.pos))
    case Some(p1) =>
      var rest :- ParseNavParameters(toks, p1);
      Some(Parsed([v.node] + rest.node, rest.pos))
  }

  /** `TryParseNavigationFunction`: a title, and when a `(` follows it, a
      non-empty parameter list closed by `)`. */
  function ParseNavFunction(toks: seq<Token>, p: nat): (r: Option<Parsed<NavFunction>>)
    requires p <= |toks|
    ensures r.Some? ==> p < |toks| && toks[p].kind in {IdentifierExpression, DimensionProperty}
    ensures r.Some? ==> p < r.value.pos <= |toks| && r.value.node.title == Some(toks[p].value)
  {
    var p1 :- NextIn(toks, p, {IdentifierExpression, DimensionProperty});
    var f := NavTitled(NewNavFunction, toks[p].value);
    match Next(toks, p1, LeftRoundBracket)
    case None => Some(Parsed(f, p1))
    case Some(p2) =>
      var ps :- ParseNavParameters(toks, p2);
      var p3 :- Next(toks, ps.pos, RightRoundBracket);
      Some(Parsed(NavWithParameters(f, ps.node), p3))
  }

  // ---------------------------------------------------------------------
  // Members and ranges

  /** The loop after a member's first name: each `.` is followed by a
      navigation function or by a bracketed name. */
  function ParseMemberSteps(toks: seq<Token>, p: nat, m: Member): (r: Option<Parsed<Member>>)
    requires p <= |toks|
    ensures r.Some? ==> p <= r.value.pos <= |toks|
    ensures r.Some? ==> r.value.node.key == m.key
    ensures r.Some? ==> m.id.names <= r.value.node.id.names && m.id.functions <= r.value.node.id.functions
    decreases |toks| - p
  {
    match Next(toks, p, IdentifierSeparator)
    case None => Some(Parsed(m, p))
    case Some(p1) =>
      match ParseNavFunction(toks, p1)
      case Some(f) => ParseMemberSteps(toks, f.pos, MemberWithFunction(m, f.node))
      case None =>
        var p2 :- Next(toks, p1, LeftSquareBracket);
        var p3 :- Next(toks, p2, IdentifierExpression);
        var p4 :- Next(toks, p3, RightSquareBracket);
        ParseMemberSteps(toks, p4, MemberTitled(m, toks[p2].value))
  }

  /** The loop after a member's value: every `.` must be followed by a
      navigation function. */
  function ParseMemberFunctions(toks: seq<Token>, p: nat, m: Member): (r: Option<Parsed<Member>>)
    requires p <= |toks|
    ensures r.Some? ==> p <= r.value.pos <= |toks|
    ensures r.Some? ==> r.value.node.key == m.key && r.value.node.id.names == m.id.names
    ensures r.Some? ==> m.id.functions <= r.value.node.id.functions
    decreases |toks| - p
  {
    match Next(toks, p, IdentifierSeparator)
    case None => Some(Parsed(m, p))
    case Some(p1) =>
      var f :- ParseNavFunction(toks, p1);
      ParseMemberFunctions(toks, f.pos, MemberWithFunction(m, f.node))
  }

  /** What may follow a member's names: nothing, or `.&[value]` and then
      navigation functions. */
  function ParseMemberKey(toks: seq<Token>, p: nat, m: Member): (r: Option<Parsed<Member>>)
    requires p <= |toks|
    ensures r.Some? ==> p <= r.value.pos <= |toks|
    ensures r.Some? && !m.key.Between? ==> !r.value.node.key.Between?
    ensures Next(toks, p, ValueSeparator).None? ==> r == Some(Parsed(m, p))
    ensures Next(toks, p, ValueSeparator).Some? && r.Some? ==>
              p + 4 <= r.value.pos && r.value.node.key.Value? && r.value.node.id.names == m.id.names
  {
    match Next(toks, p, ValueSeparator)
    case None => Some(Parsed(m, p))
    case Some(p1) =>
      var p2 :- Next(toks, p1, LeftSquareBracket);
      var v :- ParseValue(toks, p2, ValueKinds);
      var p3 :- Next(toks, v.pos, RightSquareBracket);
      ParseMemberFunctions(toks, p3, MemberWithValue(m, v.node))
  }

  /** `TryParseMember`: `[name]`, then steps, then optionally `.&[value]`
      followed by navigation functions. */
  function ParseMember(toks: seq<Token>, p: nat): (r: Option<Parsed<Member>>)
    requires p <= |toks|
    ensures r.Some? ==> p < r.value.pos <= |toks|
    ensures r.Some? ==> toks[p].kind == LeftSquareBracket && !r.value.node.key.Between?
  {
    var p1 :- Next(toks, p, LeftSquareBracket);
    var p2 :- Next(toks, p1, IdentifierExpression);
    var p3 :- Next(toks, p2, RightSquareBracket);
    match ParseMemberSteps(toks, p3, MemberTitled(NewMember([]), toks[p1].value))
    case None => None
    case Some(steps) => ParseMemberKey(toks, steps.pos, steps.node)
  }

  /** `TryParseRange`: two members around a `:`. */
  function ParseRange(toks: seq<Token>, p: nat): (r: Option<Parsed<Range>>)
    requires p <= |toks|
    ensures r.Some? ==> p < r.value.pos <= |toks| && r.value.node.low.Some? && r.value.node.high.Some?
  {
    var a :- ParseMember(toks, p);
    var p1 :- Next(toks, a.pos, RangeSeparator);
    var b :- ParseMember(toks, p1);
    Some(Parsed(RangeTo(RangeFrom(NewRange, a.node), b.node), b.pos))
  }

  // ---------------------------------------------------------------------
  // Tuples, sets, functions and expressions

  /** Every node of the list is well formed. */
  predicate AllWellFormed(cs: seq<Node>) {
    forall i :: 0 <= i < |cs| ==> WellFormed(cs[i])
  }

  /** `TryParseTuple`: `{ }`, or `{` children separated by `,` then `}`. */
  function ParseTuple(toks: seq<Token>, p: nat): (r: Option<Parsed<Tuple>>)
    requires p <= |toks|
    ensures r.Some? ==> p < r.value.pos <= |toks| && WellFormed(TupleNode(r.value.node))
    decreases |toks| - p, 0
  {
    var p1 :- Next(toks, p, LeftCurlyBracket);
    match Next(toks, p1, RightCurlyBracket)
    case Some(p2) => Some(Parsed(NewTuple, p2))
    case None =>
      var cs :- ParseChildren(toks, p1);
      var p3 :- Next(toks, cs.pos, RightCurlyBracket);
      Some(Parsed(Tuple(cs.node), p3))
  }

  /** `TryParseSet`: `( )`, or `(` children separated by `,` then `)`, added
      one by one with the set's `With`. */
  function ParseSet(toks: seq<Token>, p: nat): (r: Option<Parsed<Nodes.Set>>)
    requires p <= |toks|
    ensures r.Some? ==> p < r.value.pos <= |toks| && WellFormed(SetNode(r.value.node)) && Homogeneous(r.value.node)
    decreases |toks| - p, 0
  {
    var p1 :- Next(toks, p, LeftRoundBracket);
    match Next(toks, p1, RightRoundBracket)
    case Some(p2) => Some(Parsed(NewSet, p2))
    case None =>
      var cs :- ParseChildren(toks, p1);
      var p3 :- Next(toks, cs.pos, RightRoundBracket);
      BuiltSetsWellFormed(cs.node);
      BuiltSetsHomogeneous(cs.node);
      Some(Parsed(BuildSet(cs.node), p3))
  }

  /** One child of a tuple or set, trying range, member, tuple, set and
      function in that order. */
  function ParseChild(toks: seq<Token>, p: nat): (r: Option<Parsed<Node>>)
    requires p <= |toks|
    ensures r.Some? ==> p < r.value.pos <= |toks| && WellFormed(r.value.node) && IsSetChild(r.value.node)
    decreases |toks| - p, 1
  {
    match ParseRange(toks, p)
    case Some(x) => Some(Parsed(RangeNode(x.node), x.pos))
    case None =>
    match ParseMember(toks, p)
    case Some(x) => Some(Parsed(MemberNode(x.node), x.pos))
    case None =>
    match ParseTuple(toks, p)
    case Some(x) => Some(Parsed(TupleNode(x.node), x.pos))
    case None =>
    match ParseSet(toks, p)
    case Some(x) => Some(Parsed(SetNode(x.node), x.pos))
    case None =>
    var x :- ParseFunction(toks, p);
    Some(Parsed(FunctionNode(x.node), x.pos))
  }

  /** Children separated by `,`; a `,` not followed by a child fails. */
  function ParseChildren(toks: seq<Token>, p: nat): (r: Option<Parsed<seq<Node>>>)
    requires p <= |toks|
    ensures r.Some? ==> p < r.value.pos <= |toks| && |r.value.node| >= 1
    ensures r.Some? ==> forall i :: 0 <= i < |r.value.node| ==> WellFormed(r.value.node[i]) && IsSetChild(r.value.node[i])
    decreases |toks| - p, 2
  {
    var c :- ParseChild(toks, p);
    match Next(toks, c.pos, MemberSeparator)
    case None => Some(Parsed([c.node], c.pos))
    case Some(p1) =>
      var rest :- ParseChildren(toks, p1);
      Some(Parsed([c.node] + rest.node, rest.pos))
  }

  /** The dotted titles of a function: `a` followed by any number of `.b`. */
  function ParseTitles(toks: seq<Token>, p: nat): (r: Option<Parsed<seq<string>>>)
    requires p <= |toks|
    ensures r.Some? ==> p < r.value.pos <= |toks| && |r.value.node| >= 1
    decreases |toks| - p
  {
    var p1 :- Next(toks, p, IdentifierExpression);
    match Next(toks, p1, IdentifierSeparator)
    case None => Some(Parsed([toks[p].value], p1))
    case Some(p2) =>
      var rest :- ParseTitles(toks, p2);
      Some(Parsed([toks[p].value] + rest.node, rest.pos))
  }

  /** `TryParseFunction`: titles, then `()` or `(` expressions separated by
      `,` then `)`. Every parameter is an expression. */
  function ParseFunction(toks: seq<Token>, p: nat): (r: Option<Parsed<Function>>)
    requires p <= |toks|
    ensures r.Some? ==> p < r.value.pos <= |toks| && WellFormed(FunctionNode(r.value.node))
    ensures r.Some? ==> forall i :: 0 <= i < |r.value.node.parameters| ==> r.value.node.parameters[i].ExpressionNode?
    decreases |toks| - p, 0
  {
    var titles :- ParseTitles(toks, p);
    var p1 :- Next(toks, titles.pos, LeftRoundBracket);
    var f := FunctionTitled(NewFunction, titles.node);
    match Next(toks, p1, RightRoundBracket)
    case Some(p2) => Some(Parsed(f, p2))
    case None =>
      var args :- ParseArguments(toks, p1);
      var p3 :- Next(toks, args.pos, RightRoundBracket);
      Some(Parsed(FunctionWithParameters(f, args.node), p3))
  }

  /** Function arguments: expressions separated by `,`. */
  function ParseArguments(toks: seq<Token>, p: nat): (r: Option<Parsed<seq<Node>>>)
    requires p <= |toks|
    ensures r.Some? ==> p < r.value.pos <= |toks| && AllWellFormed(r.value.node)
    ensures r.Some? ==> forall i :: 0 <= i < |r.value.node| ==> r.value.node[i].ExpressionNode?
    decreases |toks| - p, 4
  {
    var e :- ParseExpression(toks, p);
    match Next(toks, e.pos, MemberSeparator)
    case None => Some(Parsed([ExpressionNode(e.node)], e.pos))
    case Some(p1) =>
      var rest :- ParseArguments(toks, p1);
      Some(Parsed([ExpressionNode(e.node)] + rest.node, rest.pos))
  }

  /** A complete expression with the `NOT` flag set, as a tree node. */
  function NegatedNode(e: Expression): (r: Node)
    requires WellFormed(ExpressionNode(e))
    ensures r == ExpressionNode(AsNegated(e)) && WellFormed(r)
  {
    ExpressionNode(AsNegated(e))
  }

  /** One operand, trying function, tuple, set, range, member, constant,
      `NOT` expression and parenthesised expression in that order. */
  function ParseOperand(toks: seq<Token>, p: nat): (r: Option<Parsed<Node>>)
    requires p <= |toks|
    ensures r.Some? ==> p < r.value.pos <= |toks| && WellFormed(r.value.node)
    decreases |toks| - p, 1
  {
    match ParseFunction(toks, p)
    case Some(x) => Some(Parsed(FunctionNode(x.node), x.pos))
    case None =>
    match ParseTuple(toks, p)
    case Some(x) => Some(Parsed(TupleNode(x.node), x.pos))
    case None =>
    match ParseSet(toks, p)
    case Some(x) => Some(Parsed(SetNode(x.node), x.pos))
    case None =>
    match ParseRange(toks, p)
    case Some(x) => Some(Parsed(RangeNode(x.node), x.pos))
    case None =>
    match ParseMember(toks, p)
    case Some(x) => Some(Parsed(MemberNode(x.node), x.pos))
    case None =>
    match ParseConstant(toks, p)
    case Some(x) => Some(Parsed(ConstantNode(x.node), x.pos))
    case None =>
    match Next(toks, p, NotOperator)
    case Some(p1) =>
      var e :- ParseExpression(toks, p1);
      Some(Parsed(NegatedNode(e.node), e.pos))
    case None =>
      var p1 :- Next(toks, p, LeftRoundBracket);
      var e :- ParseExpression(toks, p1);
      var p2 :- Next(toks, e.pos, RightRoundBracket);
      Some(Parsed(ExpressionNode(e.node), p2))
  }

  /** The operand loop of `TryParseExpression`, entered with as many
      operators as operands: an operand, then either the end or an operator
      and another round. An operator with no operand after it fails the
      whole expression. */
  function ParseOperations(toks: seq<Token>, p: nat, e: Expression): (r: Option<Parsed<Expression>>)
    requires p <= |toks|
    requires |e.operands| == |e.operators| && AllWellFormed(e.operands)
    ensures r.Some? ==> p < r.value.pos <= |toks| && WellFormed(ExpressionNode(r.value.node))
    ensures r.Some? ==> e.operands < r.value.node.operands && e.operators <= r.value.node.operators
                        && r.value.node.negative == e.negative && r.value.node.negated == e.negated
    decreases |toks| - p, 2
  {
    var x :- ParseOperand(toks, p);
    var e1 := WithOperand(e, x.node);
    match NextIn(toks, x.pos, {MathsOperator, LogicsOperator})
    case None => Some(Parsed(e1, x.pos))
    case Some(p1) => ParseOperations(toks, p1, WithOperator(e1, toks[x.pos].value))
  }

  /** `TryParseExpression`. */
  function ParseExpression(toks: seq<Token>, p: nat): (r: Option<Parsed<Expression>>)
    requires p <= |toks|
    ensures r.Some? ==> p < r.value.pos <= |toks| && WellFormed(ExpressionNode(r.value.node))
    ensures r.Some? ==> !r.value.node.negative && !r.value.node.negated
    decreases |toks| - p, 3
  {
    ParseOperations(toks, p, NewExpression)
  }

  // ---------------------------------------------------------------------
  // Axes, cubes and declarations

  /** A node as the only child of a new tuple. */
  function Alone(x: Node, pos: nat): (r: Parsed<Tuple>)
    requires WellFormed(x)
    ensures r.node == Tuple([x]) && r.node == TupleWith(NewTuple, x) && r.pos == pos
    ensures WellFormed(TupleNode(r.node))
  {
    var t := TupleWith(NewTuple, x);
    assert t.children == [x];
    Parsed(t, pos)
  }

  /** The slicer of an axis: a tuple as it is, or a set, range, member or
      function as the only child of a new tuple. */
  function ParseSlicer(toks: seq<Token>, p: nat): (r: Option<Parsed<Tuple>>)
    requires p <= |toks|
    ensures r.Some? ==> p < r.value.pos <= |toks| && WellFormed(TupleNode(r.value.node))
  {
    match ParseTuple(toks, p)
    case Some(x) => Some(x)
    case None =>
    match ParseSet(toks, p)
    case Some(x) => Some(Alone(SetNode(x.node), x.pos))
    case None =>
    match ParseRange(toks, p)
    case Some(x) => Some(Alone(RangeNode(x.node), x.pos))
    case None =>
    match ParseMember(toks, p)
    case Some(x) => Some(Alone(MemberNode(x.node), x.pos))
    case None =>
    var x :- ParseFunction(toks, p);
    Some(Alone(FunctionNode(x.node), x.pos))
  }

  /** Dimension properties separated by `,`. */
  function ParseProperties(toks: seq<Token>, p: nat): (r: Option<Parsed<seq<string>>>)
    requires p <= |toks|
    ensures r.Some? ==> p < r.value.pos <= |toks| && |r.value.node| >= 1
    decreases |toks| - p
  {
    var p1 :- Next(toks, p, DimensionProperty);
    match Next(toks, p1, MemberSeparator)
    case None => Some(Parsed([toks[p].value], p1))
    case Some(p2) =>
      var rest :- ParseProperties(toks, p2);
      Some(Parsed([toks[p].value] + rest.node, rest.pos))
  }

  /** The optional `DIMENSION PROPERTIES` or `PROPERTIES` clause. */
  function ParsePropertiesClause(toks: seq<Token>, p: nat): (r: Option<Parsed<seq<string>>>)
    requires p <= |toks|
    ensures r.Some? ==> p <= r.value.pos <= |toks|
  {
    match Next(toks, p, Dimension)
    case Some(p1) =>
      var p2 :- Next(toks, p1, Properties);
      ParseProperties(toks, p2)
    case None =>
      match Next(toks, p, Properties)
      case Some(p1) => ParseProperties(toks, p1)
      case None => Some(Parsed([], p))
  }

  /** `TryParseAxis`: `[NON EMPTY] slicer [properties] ON name`. */
  function ParseAxis(toks: seq<Token>, p: nat): (r: Option<Parsed<Axis>>)
    requires p <= |toks|
    ensures r.Some? ==> p < r.value.pos <= |toks|
    ensures r.Some? ==> r.value.node.title.Some? && r.value.node.slicer.Some?
                        && WellFormed(TupleNode(r.value.node.slicer.value))
    ensures r.Some? ==> (r.value.node.nonEmpty <==> toks[p].kind == Non)
  {
    var start :- match Next(toks, p, Non)
                 case None => Some(Parsed(false, p))
                 case Some(p1) =>
                   var p2 :- Next(toks, p1, Empty);
                   Some(Parsed(true, p2));
    var slicer :- ParseSlicer(toks, start.pos);
    var props :- ParsePropertiesClause(toks, slicer.pos);
    var p3 :- Next(toks, props.pos, TokenKind.On);
    var p4 :- NextIn(toks, p3, {AxisNameIdentifier, NumberExpression});
    var a := WithProperties(WithSlicer(NewAxis, slicer.node), props.node);
    Some(Parsed(AxisTitled(if start.node then AsNonEmpty(a) else a, toks[p3].value), p4))
  }

  /** Axes separated by `,`. */
  function ParseAxes(toks: seq<Token>, p: nat): (r: Option<Parsed<seq<Axis>>>)
    requires p <= |toks|
    ensures r.Some? ==> p < r.value.pos <= |toks| && |r.value.node| >= 1
    ensures r.Some? ==> forall i :: 0 <= i < |r.value.node| ==>
                          r.value.node[i].slicer.Some? && WellFormed(TupleNode(r.value.node[i].slicer.value))
    decreases |toks| - p
  {
    match ParseAxis(toks, p)
    case None => None
    case Some(a) =>
      match Next(toks, a.pos, MemberSeparator)
      case None => Some(Parsed([a.node], a.pos))
      case Some(p1) =>
        match ParseAxes(toks, p1)
        case None => None
        case Some(rest) =>
          SlicersKept(a.node, rest.node);
          Some(Parsed([a.node] + rest.node, rest.pos))
  }

  /** An axis with a well-formed slicer in front of others keeps every
      slicer well formed. */
  lemma SlicersKept(a: Axis, rest: seq<Axis>)
    requires a.slicer.Some? && WellFormed(TupleNode(a.slicer.value))
    requires forall i :: 0 <= i < |rest| ==> rest[i].slicer.Some? && WellFormed(TupleNode(rest[i].slicer.value))
    ensures forall i :: 0 <= i < |[a] + rest| ==>
              ([a] + rest)[i].slicer.Some? && WellFormed(TupleNode(([a] + rest)[i].slicer.value))
  {
  }

  /** `TryParseCube`. */
  function ParseCube(toks: seq<Token>, p: nat): (r: Option<Parsed<Cube>>)
    requires p <= |toks|
    ensures r.Some? ==> p < r.value.pos <= |toks|
    ensures r.Some? <==> ParsePath(toks, p).Some?
    ensures r.Some? ==> RenderCube(r.value.node) == RenderPath(ParsePath(toks, p).value.node)
  {
    var path :- ParsePath(toks, p);
    assert CubeTitled(NewCube, path.node).titles == path.node;
    Some(Parsed(CubeTitled(NewCube, path.node), path.pos))
  }

  /** Cubes separated by `,`. */
  function ParseCubes(toks: seq<Token>, p: nat): (r: Option<Parsed<seq<Cube>>>)
    requires p <= |toks|
    ensures r.Some? ==> p < r.value.pos <= |toks| && |r.value.node| >= 1
    decreases |toks| - p
  {
    var c :- ParseCube(toks, p);
    match Next(toks, c.pos, MemberSeparator)
    case None => Some(Parsed([c.node], c.pos))
    case Some(p1) =>
      var rest :- ParseCubes(toks, p1);
      Some(Parsed([c.node] + rest.node, rest.pos))
  }

  /** `TryParseWithDeclaration`: `MEMBER` or `SET`, a path, `AS`, and a
      tuple or else an expression. */
  function ParseDeclaration(toks: seq<Token>, p: nat): (r: Option<Parsed<Declaration>>)
    requires p <= |toks|
    ensures r.Some? ==> p < r.value.pos <= |toks|
    ensures r.Some? ==> r.value.node.expression.Some? && WellFormed(r.value.node.expression.value)
  {
    var p1 :- NextIn(toks, p, {TokenKind.Member, TokenKind.Set});
    var path :- ParsePath(toks, p1);
    var p2 :- Next(toks, path.pos, As);
    var d := DeclarationTitled(NewDeclaration, path.node);
    match ParseTuple(toks, p2)
    case Some(t) => Some(Parsed(DeclaredAs(d, TupleNode(t.node)), t.pos))
    case None =>
      var e :- ParseExpression(toks, p2);
      Some(Parsed(DeclaredAs(d, ExpressionNode(e.node)), e.pos))
  }

  /** Declarations, as many as parse, at least one. */
  function ParseDeclarations(toks: seq<Token>, p: nat): (r: Option<Parsed<seq<Declaration>>>)
    requires p <= |toks|
    ensures r.Some? ==> p < r.value.pos <= |toks| && |r.value.node| >= 1
    decreases |toks| - p
  {
    var d :- ParseDeclaration(toks, p);
    match ParseDeclarations(toks, d.pos)
    case None => Some(Parsed([d.node], d.pos))
    case Some(rest) => Some(Parsed([d.node] + rest.node, rest.pos))
  }

  // ---------------------------------------------------------------------
  // Queries

  /** The `WHERE` slicer up to its last alternative: a range, member or set
      as the only child of a new tuple, or a tuple as it is. */
  function ParseWhereSlicerBeforeFunction(toks: seq<Token>, p: nat): (r: Option<Parsed<Tuple>>)
    requires p <= |toks|
    ensures r.Some? ==> p < r.value.pos <= |toks| && WellFormed(TupleNode(r.value.node))
  {
    match ParseRange(toks, p)
    case Some(x) => Some(Alone(RangeNode(x.node), x.pos))
    case None =>
    match ParseMember(toks, p)
    case Some(x) => Some(Alone(MemberNode(x.node), x.pos))
    case None =>
    match ParseSet(toks, p)
    case Some(x) => Some(Alone(SetNode(x.node), x.pos))
    case None =>
    ParseTuple(toks, p)
  }

  /** The `WHERE` slicer, with a function, the last alternative, as the only
      child of a new tuple like the other non-tuple alternatives. */
  function ParseWhereSlicer(toks: seq<Token>, p: nat): (r: Option<Parsed<Tuple>>)
    requires p <= |toks|
    ensures r.Some? ==> p < r.value.pos <= |toks| && WellFormed(TupleNode(r.value.node))
    ensures ParseWhereSlicerBeforeFunction(toks, p).Some? ==> r == ParseWhereSlicerBeforeFunction(toks, p)
    ensures ParseWhereSlicerBeforeFunction(toks, p).None? ==>
              (r.Some? <==> ParseFunction(toks, p).Some?)
              && (r.Some? ==> r.value == Parsed(Tuple([FunctionNode(ParseFunction(toks, p).value.node)]),
                                                ParseFunction(toks, p).value.pos))
  {
    match ParseWhereSlicerBeforeFunction(toks, p)
    case Some(x) => Some(x)
    case None =>
      match ParseFunction(toks, p)
      case None => None
      case Some(x) =>
        Some(Alone(FunctionNode(x.node), x.pos))
  }

  /** The optional `WHERE` clause, adding its slicer to the query. */
  function ParseWhere(toks: seq<Token>, p: nat, q: Query): (r: Option<Parsed<Query>>)
    requires p <= |toks| && QueryWellFormed(q)
    ensures r.Some? ==> p <= r.value.pos <= |toks| && QueryWellFormed(r.value.node)
    ensures r.Some? ==> r.value.node.(whereTuples := q.whereTuples) == q
    ensures r.Some? ==> r.value.node.axes == q.axes && r.value.node.cubes == q.cubes && r.value.node.inner == q.inner
    ensures r.Some? ==> |r.value.node.whereTuples| <= |q.whereTuples| + 1
    ensures Next(toks, p, TokenKind.Where).None? ==> r == Some(Parsed(q, p))
  {
    match Next(toks, p, TokenKind.Where)
    case None => Some(Parsed(q, p))
    case Some(p1) =>
      match ParseWhereSlicer(toks, p1)
      case None => None
      case Some(t) => Some(Parsed(Queries.Where(q, t.node), t.pos))
  }

  /** What the `WHERE` step does as written: it casts a parsed function to a
      tuple, which throws. */
  datatype Outcome = NoMatch | Matched(query: Query, pos: nat) | CastFailure

  function ParseWhereAsWritten(toks: seq<Token>, p: nat, q: Query): (r: Outcome)
    requires p <= |toks|
    ensures r.CastFailure? <==>
              Next(toks, p, TokenKind.Where).Some? && ParseWhereSlicerBeforeFunction(toks, p + 1).None?
              && ParseFunction(toks, p + 1).Some?
  {
    match Next(toks, p, TokenKind.Where)
    case None => Matched(q, p)
    case Some(p1) =>
      match ParseWhereSlicerBeforeFunction(toks, p1)
      case Some(t) => Matched(Queries.Where(q, t.node), t.pos)
      case None => if ParseFunction(toks, p1).Some? then CastFailure else NoMatch
  }

  /** Apart from the throwing function branch, the `WHERE` step as written
      and the corrected one agree; where the written one throws, the
      corrected one adds the function wrapped in a tuple. */
  lemma WhereAsWrittenAgrees(toks: seq<Token>, p: nat, q: Query)
    requires p <= |toks| && QueryWellFormed(q)
    ensures ParseWhereAsWritten(toks, p, q).NoMatch? <==> ParseWhere(toks, p, q).None?
    ensures ParseWhereAsWritten(toks, p, q).Matched? ==>
              ParseWhere(toks, p, q) == Some(Parsed(ParseWhereAsWritten(toks, p, q).query, ParseWhereAsWritten(toks, p, q).pos))
    ensures ParseWhereAsWritten(toks, p, q).CastFailure? ==>
              var f := ParseFunction(toks, p + 1).value;
              ParseWhere(toks, p, q) == Some(Parsed(Queries.Where(q, Tuple([FunctionNode(f.node)])), f.pos))
  {
  }

  /** `[WITH declarations] SELECT axes FROM`: the query before its source. */
  function ParseHead(toks: seq<Token>, p: nat): (r: Option<Parsed<Query>>)
    requires p <= |toks|
    ensures r.Some? ==> p < r.value.pos <= |toks| && |r.value.node.axes| >= 1
    ensures r.Some? ==> r.value.node.cubes == [] && r.value.node.inner.None? && r.value.node.whereTuples == []
                        && QueryWellFormed(r.value.node)
    ensures r.Some? ==> (Next(toks, p, With).Some? <==> r.value.node.declarations != [])
  {
    match ParseWithClause(toks, p)
    case None => None
    case Some(decls) =>
      match Next(toks, decls.pos, Select)
      case None => None
      case Some(p2) =>
        match ParseAxes(toks, p2)
        case None => None
        case Some(axes) =>
          match Next(toks, axes.pos, From)
          case None => None
          case Some(p3) => Some(Parsed(Query(decls.node, axes.node, [], None, []), p3))
  }

  /** The optional `WITH` clause: no declarations when `WITH` is absent. */
  function ParseWithClause(toks: seq<Token>, p: nat): (r: Option<Parsed<seq<Declaration>>>)
    requires p <= |toks|
    ensures r.Some? ==> p <= r.value.pos <= |toks|
    ensures Next(toks, p, With).None? ==> r == Some(Parsed([], p))
    ensures Next(toks, p, With).Some? && r.Some? ==> |r.value.node| >= 1
  {
    match Next(toks, p, With)
    case None => Some(Parsed([], p))
    case Some(p1) => ParseDeclarations(toks, p1)
  }

  /** `TryParseQuery`: the head, then `( query )` or cubes separated by `,`,
      then the optional `WHERE` clause. */
  function ParseQueryTokens(toks: seq<Token>, p: nat): (r: Option<Parsed<Query>>)
    requires p <= |toks|
    ensures r.Some? ==> p < r.value.pos <= |toks| && QueryWellFormed(r.value.node)
    ensures r.Some? ==> |r.value.node.axes| >= 1 && (r.value.node.cubes == [] <==> r.value.node.inner.Some?)
    ensures r.Some? ==> |r.value.node.whereTuples| <= 1
    ensures r.Some? ==> (Next(toks, p, With).Some? <==> r.value.node.declarations != [])
    decreases |toks| - p
  {
    match ParseHead(toks, p)
    case None => None
    case Some(head) =>
      match ParseSource(toks, head.pos, head.node)
      case None => None
      case Some(body) => ParseWhere(toks, body.pos, body.node)
  }

  /** The source after `FROM`: `( query )` or cubes separated by `,`. */
  function ParseSource(toks: seq<Token>, p: nat, q: Query): (r: Option<Parsed<Query>>)
    requires 0 < p <= |toks|
    requires q.cubes == [] && q.inner.None? && q.whereTuples == [] && QueryWellFormed(q)
    ensures r.Some? ==> p < r.value.pos <= |toks| && QueryWellFormed(r.value.node)
    ensures r.Some? ==> r.value.node.axes == q.axes && r.value.node.whereTuples == []
                        && r.value.node.declarations == q.declarations
                        && (r.value.node.cubes == [] <==> r.value.node.inner.Some?)
    decreases |toks| - p + 1
  {
    match Next(toks, p, LeftRoundBracket)
    case Some(p1) =>
      var inner :- ParseQueryTokens(toks, p1);
      var p2 :- Next(toks, inner.pos, RightRoundBracket);
      Some(Parsed(FromQuery(q, inner.node), p2))
    case None =>
      var cubes :- ParseCubes(toks, p);
      Some(Parsed(q.(cubes := cubes.node), cubes.pos))
  }

  /** The exceptions `ParseQuery` throws: the lexer's, or an argument
      exception with a message listing tokens. */
  datatype ParseError = LexicalError(error: Lexer.LexError) | ArgumentError(message: string)

  /** The tokens as the messages list them: `Kind[value]`, separated by `, `. */
  function TokenList(toks: seq<Token>): (r: string)
    ensures toks == [] ==> r == ""
    ensures |toks| == 1 ==> r == TokenToString(toks[0])
  {
    Join(", ", TokenTexts(toks))
  }

  function TokenTexts(toks: seq<Token>): (r: seq<string>)
    ensures |r| == |toks| && forall i :: 0 <= i < |toks| ==> r[i] == TokenToString(toks[i])
  {
    seq(|toks|, i requires 0 <= i < |toks| => TokenToString(toks[i]))
  }

  /** Listing one more token adds `, ` and that token's text at the end. */
  lemma TokenListSnoc(toks: seq<Token>, t: Token)
    requires toks != []
    ensures TokenList(toks + [t]) == TokenList(toks) + ", " + TokenToString(t)
  {
    assert TokenTexts(toks + [t]) == TokenTexts(toks) + [TokenToString(t)];
    JoinSnoc(", ", TokenTexts(toks), TokenToString(t));
  }

  function NoRulesMessage(toks: seq<Token>): string {
    "Cannot parse the expression. There are no such rules. " + TokenList(toks) + "."
  }

  function TokensLeftMessage(toks: seq<Token>): string {
    "There are tokens left in expression. " + TokenList(toks) + "."
  }

  /** The lexer's guarantee about its output: the end-of-input token last and
      nowhere else. */
  predicate Terminated(toks: seq<Token>) {
    |toks| >= 1 && toks[|toks| - 1] == Sentinel
    && forall k :: 0 <= k < |toks| - 1 ==> toks[k].kind != LastToken
  }

  /** Parsing the token list: a query followed by the end-of-input token. When
      no query parses, the cursor is back at the start and every token is
      listed; when tokens are left, the ones after the query are. */
  function ParseTokens(toks: seq<Token>): (r: Result<Query, ParseError>)
    requires Terminated(toks)
    ensures ParseQueryTokens(toks, 0).None? ==> r == Failure(ArgumentError(NoRulesMessage(toks)))
    ensures r.Success? <==> ParseQueryTokens(toks, 0).Some? && ParseQueryTokens(toks, 0).value.pos == |toks| - 1
    ensures r.Success? ==> r.value == ParseQueryTokens(toks, 0).value.node && RenderQuery(r.value).Success?
    ensures ParseQueryTokens(toks, 0).Some? && r.Failure? ==>
              r.error == ArgumentError(TokensLeftMessage(toks[ParseQueryTokens(toks, 0).value.pos..]))
  {
    match ParseQueryTokens(toks, 0)
    case None => Failure(ArgumentError(NoRulesMessage(toks)))
    case Some(x) =>
      if Next(toks, x.pos, LastToken).Some? then
        WellFormedQueryRenders(x.node);
        Success(x.node)
      else Failure(ArgumentError(TokensLeftMessage(toks[x.pos..])))
  }

  /** `ParseQuery`: trim, tokenize, and parse the tokens. A returned query
      always renders. */
  function ParseQuery(source: string): (r: Result<Query, ParseError>)
    ensures MdxRules.MdxTokenize(Trim(source)).Failure? ==>
              r == Failure(LexicalError(MdxRules.MdxTokenize(Trim(source)).error))
    ensures MdxRules.MdxTokenize(Trim(source)).Success? ==>
              Terminated(MdxRules.MdxTokenize(Trim(source)).value)
              && r == ParseTokens(MdxRules.MdxTokenize(Trim(source)).value)
    ensures r.Success? ==> RenderQuery(r.value).Success?
  {
    match MdxRules.MdxTokenize(Trim(source))
    case Failure(e) => Failure(LexicalError(e))
    case Success(toks) => ParseTokens(toks)
  }
}
