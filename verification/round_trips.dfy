/** Round trips above the member level. Token lists are spelled the way the
    lexer produces them: tuples and sets of members, functions of constants,
    axes and whole statements. Each parses back into the node it spells, and
    that node prints as the text the library's tests expect. */
module RoundTrips {
  import opened Wrappers
  import opened Text
  import opened Tokens
  import opened Nodes
  import opened Queries
  import opened Parser
  import opened ParserProperties

  // ---------------------------------------------------------------------
  // Occurrences

  /** An occurrence of `a + b` is an occurrence of `a` followed by one of `b`. */
  lemma AtSplit(toks: seq<Token>, p: nat, a: seq<Token>, b: seq<Token>)
    requires At(toks, p, a + b)
    ensures At(toks, p, a) && At(toks, p + |a|, b)
  {
    forall i | 0 <= i < |a|
      ensures a[i] == toks[p + i]
    {
      assert a[i] == (a + b)[i];
    }
    forall i | 0 <= i < |b|
      ensures b[i] == toks[p + |a| + i]
    {
      assert b[i] == (a + b)[|a| + i];
    }
  }

  /** No token of the list is the end-of-input token. */
  predicate NoSentinel(t: seq<Token>) {
    forall i :: 0 <= i < |t| ==> t[i].kind != LastToken
  }

  lemma NoSentinelJoined(a: seq<Token>, b: seq<Token>)
    requires NoSentinel(a) && NoSentinel(b)
    ensures NoSentinel(a + b)
  {
    forall i | 0 <= i < |a + b|
      ensures (a + b)[i].kind != LastToken
    {
      if i < |a| {
        assert (a + b)[i] == a[i];
      } else {
        assert (a + b)[i] == b[i - |a|];
      }
    }
  }

  lemma {:induction false} DotPathNoSentinel(names: seq<string>)
    ensures NoSentinel(DotPathTokens(names))
    decreases |names|
  {
    if names != [] {
      DotPathNoSentinel(names[1..]);
      NoSentinelJoined([Token(IdentifierSeparator, ".")] + NameTokens(names[0]), DotPathTokens(names[1..]));
    }
  }

  lemma PathNoSentinel(names: seq<string>)
    requires names != []
    ensures NoSentinel(PathTokens(names))
  {
    DotPathNoSentinel(names[1..]);
    NoSentinelJoined(NameTokens(names[0]), DotPathTokens(names[1..]));
  }

  const Comma := Token(MemberSeparator, ",")

  // ---------------------------------------------------------------------
  // Lists of member paths, tuples and sets

  /** The kinds that close a member inside a list: `,`, `}` and `)`. */
  const Closers: set<TokenKind> := {MemberSeparator, RightCurlyBracket, RightRoundBracket}

  /** A member with no `:` after it is a child of its own. */
  lemma MemberNotRange(toks: seq<Token>, p: nat, a: Parsed<Member>)
    requires p <= |toks| && ParseMember(toks, p) == Some(a)
    requires Next(toks, a.pos, RangeSeparator).None?
    ensures ParseChild(toks, p) == Some(Parsed(MemberNode(a.node), a.pos))
  {
    assert ParseRange(toks, p).None?;
  }

  /** Inside a tuple or set, a member path followed by a closer is read as
      that member, not as a range, which needs a `:`. */
  lemma PathChild(names: seq<string>, toks: seq<Token>, p: nat, e: nat)
    requires names != [] && At(toks, p, PathTokens(names)) && e == p + |PathTokens(names)|
    requires e < |toks| && toks[e].kind in Closers
    ensures ParseChild(toks, p) == Some(Parsed(MemberNode(NewMember(names)), e))
  {
    MemberRoundTrip(names, toks, p, e);
    assert Next(toks, e, RangeSeparator).None?;
    MemberNotRange(toks, p, Parsed(NewMember(names), e));
  }

  /** The last child of a list: no `,` after it. */
  lemma ChildrenLast(toks: seq<Token>, p: nat, c: Parsed<Node>)
    requires p <= |toks| && ParseChild(toks, p) == Some(c)
    requires Next(toks, c.pos, MemberSeparator).None?
    ensures ParseChildren(toks, p) == Some(Parsed([c.node], c.pos))
  {
  }

  /** A child, a `,` and the rest of the list. */
  lemma ChildrenCons(toks: seq<Token>, p: nat, c: Parsed<Node>, rest: Parsed<seq<Node>>)
    requires p <= |toks| && ParseChild(toks, p) == Some(c)
    requires Next(toks, c.pos, MemberSeparator) == Some(c.pos + 1)
    requires ParseChildren(toks, c.pos + 1) == Some(rest)
    ensures ParseChildren(toks, p) == Some(Parsed([c.node] + rest.node, rest.pos))
  {
  }

  predicate Paths(ps: seq<seq<string>>) {
    forall i :: 0 <= i < |ps| ==> ps[i] != []
  }

  /** `m1 , m2 , ...` for member paths `m1`, `m2`. */
  function ListTokens(ps: seq<seq<string>>): (r: seq<Token>)
    requires ps != [] && Paths(ps)
    ensures |r| >= 3 && r[0] == Token(LeftSquareBracket, "[")
    decreases |ps|
  {
    if |ps| == 1 then PathTokens(ps[0]) else PathTokens(ps[0]) + [Comma] + ListTokens(ps[1..])
  }

  lemma {:induction false} ListNoSentinel(ps: seq<seq<string>>)
    requires ps != [] && Paths(ps)
    ensures NoSentinel(ListTokens(ps))
    decreases |ps|
  {
    PathNoSentinel(ps[0]);
    if |ps| > 1 {
      ListNoSentinel(ps[1..]);
      NoSentinelJoined(PathTokens(ps[0]), [Comma]);
      NoSentinelJoined(PathTokens(ps[0]) + [Comma], ListTokens(ps[1..]));
    }
  }

  function MemberNodes(ps: seq<seq<string>>): seq<Node> {
    seq(|ps|, i requires 0 <= i < |ps| => MemberNode(NewMember(ps[i])))
  }

  function PathTexts(ps: seq<seq<string>>): seq<string> {
    seq(|ps|, i requires 0 <= i < |ps| => RenderPath(ps[i]))
  }

  /** A comma-separated list of member paths, closed by `}` or `)`, parses to
      those members, in order. */
  lemma {:induction false} ChildrenRoundTrip(ps: seq<seq<string>>, toks: seq<Token>, p: nat, e: nat)
    requires ps != [] && Paths(ps) && At(toks, p, ListTokens(ps)) && e == p + |ListTokens(ps)|
    requires e < |toks| && toks[e].kind in {RightCurlyBracket, RightRoundBracket}
    ensures ParseChildren(toks, p) == Some(Parsed(MemberNodes(ps), e))
    decreases |ps|
  {
    hide ParseChildren, ParseChild, PathTokens, MemberNodes;
    var head := PathTokens(ps[0]);
    if |ps| == 1 {
      ChildrenOne(ps, toks, p, e);
    } else {
      var tail := ListTokens(ps[1..]);
      ListTokensSplit(ps, toks, p, head, tail);
      ChildrenRoundTrip(ps[1..], toks, p + |head| + 1, e);
      ChildrenMore(ps, toks, p, e, head);
    }
  }

  /** A list of one member path is that member alone. */
  lemma ChildrenOne(ps: seq<seq<string>>, toks: seq<Token>, p: nat, e: nat)
    requires |ps| == 1 && Paths(ps) && At(toks, p, ListTokens(ps)) && e == p + |ListTokens(ps)|
    requires e < |toks| && toks[e].kind in {RightCurlyBracket, RightRoundBracket}
    ensures ParseChildren(toks, p) == Some(Parsed(MemberNodes(ps), e))
  {
    var c := Parsed(MemberNode(NewMember(ps[0])), e);
    PathChild(ps[0], toks, p, e);
    assert Next(toks, e, MemberSeparator).None?;
    ChildrenLast(toks, p, c);
    assert MemberNodes(ps) == [c.node];
  }

  /** The first path of a longer list, then a `,`, then the rest of the list
      read as its members. */
  lemma ChildrenMore(ps: seq<seq<string>>, toks: seq<Token>, p: nat, e: nat, head: seq<Token>)
    requires |ps| > 1 && Paths(ps) && head == PathTokens(ps[0]) && At(toks, p, head)
    requires p + |head| < |toks| && toks[p + |head|].kind in Closers
    requires Next(toks, p + |head|, MemberSeparator) == Some(p + |head| + 1)
    requires ParseChildren(toks, p + |head| + 1) == Some(Parsed(MemberNodes(ps[1..]), e))
    ensures ParseChildren(toks, p) == Some(Parsed(MemberNodes(ps), e))
  {
    hide ParseChild, ParseChildren;
    PathChild(ps[0], toks, p, p + |head|);
    ChildrenStep(ps, toks, p, Parsed(MemberNode(NewMember(ps[0])), p + |head|), Parsed(MemberNodes(ps[1..]), e));
  }

  /** The tokens of a longer list are the first path, a `,` and the rest. */
  lemma ListTokensSplit(ps: seq<seq<string>>, toks: seq<Token>, p: nat, head: seq<Token>, tail: seq<Token>)
    requires |ps| > 1 && Paths(ps) && head == PathTokens(ps[0]) && tail == ListTokens(ps[1..])
    requires At(toks, p, ListTokens(ps))
    ensures At(toks, p, head) && At(toks, p + |head| + 1, tail)
    ensures p + |head| < |toks| && toks[p + |head|].kind in Closers
    ensures Next(toks, p + |head|, MemberSeparator) == Some(p + |head| + 1)
    ensures |ListTokens(ps)| == |head| + 1 + |tail|
  {
    ListTokensCons(ps);
    CommaSplit(head, tail, toks, p);
  }

  lemma ListTokensCons(ps: seq<seq<string>>)
    requires |ps| > 1 && Paths(ps)
    ensures ListTokens(ps) == PathTokens(ps[0]) + [Comma] + ListTokens(ps[1..])
  {
  }

  /** An occurrence of `a , b` splits at the comma. */
  lemma CommaSplit(a: seq<Token>, b: seq<Token>, toks: seq<Token>, p: nat)
    requires At(toks, p, a + [Comma] + b)
    ensures At(toks, p, a) && At(toks, p + |a| + 1, b)
    ensures p + |a| < |toks| && toks[p + |a|] == Comma
  {
    AtSplit(toks, p, a + [Comma], b);
    AtSplit(toks, p, a, [Comma]);
    AtIndex(toks, p + |a|, [Comma], 0);
  }

  /** The first member, a `,` and the other members. */
  lemma ChildrenStep(ps: seq<seq<string>>, toks: seq<Token>, p: nat, c: Parsed<Node>, rest: Parsed<seq<Node>>)
    requires p <= |toks| && ps != []
    requires ParseChild(toks, p) == Some(c) && c.node == MemberNode(NewMember(ps[0]))
    requires Next(toks, c.pos, MemberSeparator) == Some(c.pos + 1)
    requires ParseChildren(toks, c.pos + 1) == Some(rest) && rest.node == MemberNodes(ps[1..])
    ensures ParseChildren(toks, p) == Some(Parsed(MemberNodes(ps), rest.pos))
  {
    ChildrenCons(toks, p, c, rest);
    MemberNodesCons(ps);
  }

  lemma MemberNodesCons(ps: seq<seq<string>>)
    requires ps != []
    ensures MemberNodes(ps) == [MemberNode(NewMember(ps[0]))] + MemberNodes(ps[1..])
  {
  }

  /** Member paths print as their paths. */
  lemma MemberNodesRendering(ps: seq<seq<string>>)
    ensures Collect(Texts(MemberNodes(ps))) == Success(PathTexts(ps))
  {
    var rs := Texts(MemberNodes(ps));
    forall i | 0 <= i < |ps|
      ensures rs[i] == Success(PathTexts(ps)[i])
    {
      PathRendering(ps, i);
    }
    var r := Collect(rs);
    assert r.value == PathTexts(ps);
  }

  lemma PathRendering(ps: seq<seq<string>>, i: nat)
    requires i < |ps|
    ensures Texts(MemberNodes(ps))[i] == Success(PathTexts(ps)[i])
  {
    var m := NewMember(ps[i]);
    assert MemberNodes(ps)[i] == MemberNode(m);
    assert Render(MemberNode(m)) == Success(RenderMember(m));
  }

  /** An occurrence of `open list close`, where the list does not start with
      the closer: the opener is next, the list follows, the closer is not
      next after the opener and it is next after the list. */
  lemma BracketSplit(open: Token, list: seq<Token>, close: Token, toks: seq<Token>, p: nat)
    requires list != [] && list[0].kind != close.kind
    requires At(toks, p, [open] + list + [close])
    ensures Next(toks, p, open.kind) == Some(p + 1)
    ensures At(toks, p + 1, list) && Next(toks, p + 1, close.kind).None?
    ensures p + 1 + |list| < |toks| && toks[p + 1 + |list|] == close
    ensures Next(toks, p + 1 + |list|, close.kind) == Some(p + 2 + |list|)
  {
    AtSplit(toks, p, [open] + list, [close]);
    AtSplit(toks, p, [open], list);
    AtIndex(toks, p, [open], 0);
    AtIndex(toks, p + 1, list, 0);
    AtIndex(toks, p + 1 + |list|, [close], 0);
  }

  /** `{ m1 , m2 }`. */
  function TupleTokens(ps: seq<seq<string>>): (r: seq<Token>)
    requires ps != [] && Paths(ps)
    ensures |r| >= 5 && r[0] == Token(LeftCurlyBracket, "{")
  {
    [Token(LeftCurlyBracket, "{")] + ListTokens(ps) + [Token(RightCurlyBracket, "}")]
  }

  /** The tuple of the members, which prints as `{ m1, m2 }`. */
  function PathTuple(ps: seq<seq<string>>): Tuple {
    Tuple(MemberNodes(ps))
  }

  /** The tokens of `{ m1, m2 }` parse to the tuple of those members, in
      order, which prints as `{ m1, m2 }` again. */
  lemma TupleRoundTrip(ps: seq<seq<string>>, toks: seq<Token>, p: nat)
    requires ps != [] && Paths(ps) && At(toks, p, TupleTokens(ps))
    ensures ParseTuple(toks, p) == Some(Parsed(PathTuple(ps), p + |TupleTokens(ps)|))
    ensures Render(TupleNode(PathTuple(ps))) == Success("{ " + Join(", ", PathTexts(ps)) + " }")
  {
    hide ParseChildren, ParseTuple, Render;
    var list := ListTokens(ps);
    var e := p + 1 + |list|;
    BracketSplit(Token(LeftCurlyBracket, "{"), list, Token(RightCurlyBracket, "}"), toks, p);
    ChildrenRoundTrip(ps, toks, p + 1, e);
    TupleStep(toks, p, Parsed(MemberNodes(ps), e));
    TupleRendering(ps);
  }

  lemma TupleRendering(ps: seq<seq<string>>)
    ensures Render(TupleNode(PathTuple(ps))) == Success("{ " + Join(", ", PathTexts(ps)) + " }")
  {
    MemberNodesRendering(ps);
  }

  /** `{`, a child list and `}`. */
  lemma TupleStep(toks: seq<Token>, p: nat, cs: Parsed<seq<Node>>)
    requires p + 1 <= |toks| && Next(toks, p, LeftCurlyBracket) == Some(p + 1)
    requires Next(toks, p + 1, RightCurlyBracket).None?
    requires ParseChildren(toks, p + 1) == Some(cs)
    requires Next(toks, cs.pos, RightCurlyBracket) == Some(cs.pos + 1)
    ensures ParseTuple(toks, p) == Some(Parsed(Tuple(cs.node), cs.pos + 1))
  {
  }

  /** `( m1 , m2 )`. */
  function SetTokens(ps: seq<seq<string>>): (r: seq<Token>)
    requires ps != [] && Paths(ps)
    ensures |r| >= 5 && r[0] == Token(LeftRoundBracket, "(")
  {
    [Token(LeftRoundBracket, "(")] + ListTokens(ps) + [Token(RightRoundBracket, ")")]
  }

  /** `(`, a child list and `)`, the children added one by one. */
  lemma SetStep(toks: seq<Token>, p: nat, cs: Parsed<seq<Node>>)
    requires p + 1 <= |toks| && Next(toks, p, LeftRoundBracket) == Some(p + 1)
    requires Next(toks, p + 1, RightRoundBracket).None?
    requires ParseChildren(toks, p + 1) == Some(cs)
    requires Next(toks, cs.pos, RightRoundBracket) == Some(cs.pos + 1)
    ensures ParseSet(toks, p) == Some(Parsed(BuildSet(cs.node), cs.pos + 1))
  {
  }

  /** The tokens of `( m1, m2 )` parse to the set of those members, in order:
      with no tuple among them the set's `With` only appends. The set prints
      as `( m1, m2 )` again. */
  lemma SetRoundTrip(ps: seq<seq<string>>, toks: seq<Token>, p: nat)
    requires ps != [] && Paths(ps) && At(toks, p, SetTokens(ps))
    ensures ParseSet(toks, p) == Some(Parsed(Nodes.Set(MemberNodes(ps)), p + |SetTokens(ps)|))
    ensures Render(SetNode(Nodes.Set(MemberNodes(ps)))) == Success("( " + Join(", ", PathTexts(ps)) + " )")
  {
    hide ParseChildren, ParseSet, Render, BuildSet;
    var list := ListTokens(ps);
    var e := p + 1 + |list|;
    BracketSplit(Token(LeftRoundBracket, "("), list, Token(RightRoundBracket, ")"), toks, p);
    ChildrenRoundTrip(ps, toks, p + 1, e);
    SetStep(toks, p, Parsed(MemberNodes(ps), e));
    MemberSetChildren(ps);
    SetRendering(ps);
  }

  lemma SetRendering(ps: seq<seq<string>>)
    ensures Render(SetNode(Nodes.Set(MemberNodes(ps)))) == Success("( " + Join(", ", PathTexts(ps)) + " )")
  {
    MemberNodesRendering(ps);
  }

  /** Members are set children and none is a tuple. */
  lemma MemberSetChildren(ps: seq<seq<string>>)
    ensures BuildSet(MemberNodes(ps)) == Nodes.Set(MemberNodes(ps))
  {
    var xs := MemberNodes(ps);
    assert forall i :: 0 <= i < |xs| ==> xs[i] == MemberNode(NewMember(ps[i]));
    BuildSetWithoutTuples(xs);
  }

  // ---------------------------------------------------------------------
  // Functions of constants

  /** Value tokens: numbers, identifiers, dates, logical values, orderings. */
  predicate Constants(vs: seq<Token>) {
    forall i :: 0 <= i < |vs| ==> vs[i].kind in ConstantKinds
  }

  /** `v1 , v2 , ...` for value tokens `v1`, `v2`. */
  function ArgumentTokens(vs: seq<Token>): (r: seq<Token>)
    requires vs != []
    ensures |r| >= 1 && r[0] == vs[0]
    decreases |vs|
  {
    if |vs| == 1 then [vs[0]] else [vs[0], Comma] + ArgumentTokens(vs[1..])
  }

  /** The expression of one constant operand, as a function argument. */
  function ConstantArgument(v: string): Node {
    ExpressionNode(Expression([ConstantNode(Some(v))], [], false, false))
  }

  function ArgumentNodes(vs: seq<Token>): seq<Node> {
    seq(|vs|, i requires 0 <= i < |vs| => ConstantArgument(vs[i].value))
  }

  function Values(vs: seq<Token>): seq<string> {
    seq(|vs|, i requires 0 <= i < |vs| => vs[i].value)
  }

  /** A value token is read as a constant operand when a `,` or `)` follows
      it: a function needs `(` after its name, every container starts with a
      bracket and a member with `[`, and there is no identifier to glue on. */
  lemma ConstantOperand(toks: seq<Token>, p: nat)
    requires p + 1 < |toks| && toks[p].kind in ConstantKinds
    requires toks[p + 1].kind in {MemberSeparator, RightRoundBracket}
    ensures ParseOperand(toks, p) == Some(Parsed(ConstantNode(Some(toks[p].value)), p + 1))
  {
    hide ParseFunction, ParseMember, ParseConstant;
    NoFunctionAtConstant(toks, p);
    NoMemberAtConstant(toks, p);
    ConstantAlone(toks, p);
  }

  lemma NoFunctionAtConstant(toks: seq<Token>, p: nat)
    requires p + 1 < |toks| && toks[p + 1].kind in {MemberSeparator, RightRoundBracket}
    ensures ParseFunction(toks, p).None?
  {
    assert Next(toks, p + 1, LeftRoundBracket).None?;
    assert Next(toks, p + 1, IdentifierSeparator).None?;
  }

  lemma NoMemberAtConstant(toks: seq<Token>, p: nat)
    requires p < |toks| && toks[p].kind in ConstantKinds
    ensures ParseMember(toks, p).None? && ParseRange(toks, p).None?
  {
    hide ParseMemberSteps, ParseMemberKey;
    assert Next(toks, p, LeftSquareBracket).None?;
    assert ParseMember(toks, p).None?;
  }

  lemma ConstantAlone(toks: seq<Token>, p: nat)
    requires p + 1 < |toks| && toks[p].kind in ConstantKinds
    requires toks[p + 1].kind in {MemberSeparator, RightRoundBracket}
    ensures ParseConstant(toks, p) == Some(Parsed(Some(toks[p].value), p + 1))
  {
  }

  /** ... and then as an expression of that one operand. */
  lemma ConstantExpression(toks: seq<Token>, p: nat)
    requires p + 1 < |toks| && toks[p].kind in ConstantKinds
    requires toks[p + 1].kind in {MemberSeparator, RightRoundBracket}
    ensures ParseExpression(toks, p) == Some(Parsed(Expression([ConstantNode(Some(toks[p].value))], [], false, false), p + 1))
  {
    hide ParseOperand, ParseExpression;
    ConstantOperand(toks, p);
    assert NextIn(toks, p + 1, {MathsOperator, LogicsOperator}).None?;
    SingleOperandExpression(toks, p, Parsed(ConstantNode(Some(toks[p].value)), p + 1));
  }

  /** The last argument: no `,` after it. */
  lemma ArgumentsLast(toks: seq<Token>, p: nat, x: Parsed<Expression>)
    requires p <= |toks| && ParseExpression(toks, p) == Some(x)
    requires Next(toks, x.pos, MemberSeparator).None?
    ensures ParseArguments(toks, p) == Some(Parsed([ExpressionNode(x.node)], x.pos))
  {
  }

  /** An argument, a `,` and the other arguments. */
  lemma ArgumentsCons(toks: seq<Token>, p: nat, x: Parsed<Expression>, rest: Parsed<seq<Node>>)
    requires p <= |toks| && ParseExpression(toks, p) == Some(x)
    requires Next(toks, x.pos, MemberSeparator) == Some(x.pos + 1)
    requires ParseArguments(toks, x.pos + 1) == Some(rest)
    ensures ParseArguments(toks, p) == Some(Parsed([ExpressionNode(x.node)] + rest.node, rest.pos))
  {
  }

  /** The tokens of a longer argument list are a value, a `,` and the rest. */
  lemma ArgumentTokensSplit(vs: seq<Token>, toks: seq<Token>, p: nat, tail: seq<Token>)
    requires |vs| > 1 && tail == ArgumentTokens(vs[1..]) && At(toks, p, ArgumentTokens(vs))
    ensures p + 1 < |toks| && toks[p] == vs[0] && toks[p + 1] == Comma
    ensures Next(toks, p + 1, MemberSeparator) == Some(p + 2)
    ensures At(toks, p + 2, tail) && |ArgumentTokens(vs)| == 2 + |tail|
  {
    ArgumentTokensCons(vs);
    hide ArgumentTokens;
    CommaSplit([vs[0]], tail, toks, p);
    AtIndex(toks, p, [vs[0]], 0);
  }

  lemma ArgumentTokensCons(vs: seq<Token>)
    requires |vs| > 1
    ensures ArgumentTokens(vs) == [vs[0]] + [Comma] + ArgumentTokens(vs[1..])
  {
  }

  /** A comma-separated list of value tokens, closed by `)`, parses to one
      constant expression per value, in order. */
  lemma {:induction false} ArgumentsRoundTrip(vs: seq<Token>, toks: seq<Token>, p: nat, e: nat)
    requires vs != [] && Constants(vs) && At(toks, p, ArgumentTokens(vs)) && e == p + |ArgumentTokens(vs)|
    requires e < |toks| && toks[e].kind == RightRoundBracket
    ensures ParseArguments(toks, p) == Some(Parsed(ArgumentNodes(vs), e))
    decreases |vs|
  {
    hide ParseArguments, ParseExpression;
    if |vs| == 1 {
      ArgumentsOne(vs, toks, p, e);
    } else {
      var tail := ArgumentTokens(vs[1..]);
      ArgumentTokensSplit(vs, toks, p, tail);
      ArgumentsRoundTrip(vs[1..], toks, p + 2, e);
      ArgumentsMore(vs, toks, p, e);
    }
  }

  lemma ArgumentsOne(vs: seq<Token>, toks: seq<Token>, p: nat, e: nat)
    requires |vs| == 1 && Constants(vs) && At(toks, p, ArgumentTokens(vs)) && e == p + |ArgumentTokens(vs)|
    requires e < |toks| && toks[e].kind == RightRoundBracket
    ensures ParseArguments(toks, p) == Some(Parsed(ArgumentNodes(vs), e))
  {
    AtIndex(toks, p, ArgumentTokens(vs), 0);
    ConstantExpression(toks, p);
    ArgumentsLast(toks, p, Parsed(Expression([ConstantNode(Some(vs[0].value))], [], false, false), e));
    assert ArgumentNodes(vs) == [ConstantArgument(vs[0].value)];
  }

  lemma ArgumentsMore(vs: seq<Token>, toks: seq<Token>, p: nat, e: nat)
    requires |vs| > 1 && Constants(vs) && p + 1 < |toks| && toks[p] == vs[0] && toks[p + 1] == Comma
    requires Next(toks, p + 1, MemberSeparator) == Some(p + 2)
    requires ParseArguments(toks, p + 2) == Some(Parsed(ArgumentNodes(vs[1..]), e))
    ensures ParseArguments(toks, p) == Some(Parsed(ArgumentNodes(vs), e))
  {
    hide ParseArguments, ParseExpression;
    ConstantExpression(toks, p);
    var x := Parsed(Expression([ConstantNode(Some(vs[0].value))], [], false, false), p + 1);
    ArgumentsCons(toks, p, x, Parsed(ArgumentNodes(vs[1..]), e));
    assert ArgumentNodes(vs) == [ExpressionNode(x.node)] + ArgumentNodes(vs[1..]);
  }

  /** `F ( v1 , v2 )`. */
  function FunctionTokens(title: string, vs: seq<Token>): (r: seq<Token>)
    requires vs != []
  {
    [Token(IdentifierExpression, title), Token(LeftRoundBracket, "(")] + ArgumentTokens(vs)
    + [Token(RightRoundBracket, ")")]
  }

  /** The pieces of an occurrence of `F ( arguments )`. */
  lemma FunctionSplit(title: string, vs: seq<Token>, toks: seq<Token>, p: nat, args: seq<Token>)
    requires vs != [] && Constants(vs) && args == ArgumentTokens(vs) && At(toks, p, FunctionTokens(title, vs))
    ensures ParseTitles(toks, p) == Some(Parsed([title], p + 1))
    ensures Next(toks, p + 1, LeftRoundBracket) == Some(p + 2)
    ensures Next(toks, p + 2, RightRoundBracket).None?
    ensures At(toks, p + 2, args) && p + 2 + |args| < |toks| && toks[p + 2 + |args|].kind == RightRoundBracket
    ensures Next(toks, p + 2 + |args|, RightRoundBracket) == Some(p + 3 + |args|)
    ensures |FunctionTokens(title, vs)| == 3 + |args|
  {
    var open := [Token(IdentifierExpression, title), Token(LeftRoundBracket, "(")];
    assert FunctionTokens(title, vs) == open + args + [Token(RightRoundBracket, ")")];
    AtSplit(toks, p, open + args, [Token(RightRoundBracket, ")")]);
    AtSplit(toks, p, open, args);
    AtIndex(toks, p, open, 0);
    AtIndex(toks, p, open, 1);
    AtIndex(toks, p + 2, args, 0);
    AtIndex(toks, p + 2 + |args|, [Token(RightRoundBracket, ")")], 0);
  }

  /** A name, `(`, arguments and `)`. */
  lemma FunctionStep(toks: seq<Token>, p: nat, title: string, args: Parsed<seq<Node>>)
    requires p + 2 <= |toks| && ParseTitles(toks, p) == Some(Parsed([title], p + 1))
    requires Next(toks, p + 1, LeftRoundBracket) == Some(p + 2)
    requires Next(toks, p + 2, RightRoundBracket).None?
    requires ParseArguments(toks, p + 2) == Some(args)
    requires Next(toks, args.pos, RightRoundBracket) == Some(args.pos + 1)
    ensures ParseFunction(toks, p) == Some(Parsed(Function([title], args.node), args.pos + 1))
  {
    hide ParseArguments, ParseTitles;
    assert FunctionTitled(NewFunction, [title]) == Function([title], []);
    assert [] + args.node == args.node;
  }

  /** A constant argument prints as its value. */
  lemma ConstantArgumentRendering(vs: seq<Token>)
    ensures Collect(Texts(ArgumentNodes(vs))) == Success(Values(vs))
  {
    var rs := Texts(ArgumentNodes(vs));
    forall i | 0 <= i < |vs|
      ensures rs[i] == Success(Values(vs)[i])
    {
      ArgumentRendering(vs, i);
    }
    var r := Collect(rs);
    assert r.value == Values(vs);
  }

  lemma ArgumentRendering(vs: seq<Token>, i: nat)
    requires i < |vs|
    ensures Texts(ArgumentNodes(vs))[i] == Success(Values(vs)[i])
  {
    var v := vs[i].value;
    var e := Expression([ConstantNode(Some(v))], [], false, false);
    assert ArgumentNodes(vs)[i] == ExpressionNode(e);
    var rs := Texts(e.operands);
    assert Render(ConstantNode(Some(v))) == Success(v);
    assert |rs| == 1 && rs[0] == Success(v);
    assert rs == [Success(v)] && rs[..1] == rs;
    var c := Collect(rs);
    assert c.Success? && c.value[0] == v;
    assert c.value == [v];
    assert Interleave([OperandText(ConstantNode(Some(v)), v)], []) == v;
    assert Decorate(false, false, v) == v;
    assert ExpressionText(e, rs) == Success(v);
  }

  /** `F(v1, v2)`. */
  lemma FunctionRendering(title: string, vs: seq<Token>)
    ensures Render(FunctionNode(Function([title], ArgumentNodes(vs)))) == Success(title + "(" + Join(", ", Values(vs)) + ")")
  {
    ConstantArgumentRendering(vs);
    assert Join(".", [title]) == title;
  }

  /** The tokens of `F(v1, v2)` parse to the function `F` of one constant
      expression per value, which prints as `F(v1, v2)` again. */
  lemma FunctionRoundTrip(title: string, vs: seq<Token>, toks: seq<Token>, p: nat)
    requires vs != [] && Constants(vs) && At(toks, p, FunctionTokens(title, vs))
    ensures ParseFunction(toks, p) == Some(Parsed(Function([title], ArgumentNodes(vs)), p + |FunctionTokens(title, vs)|))
    ensures Render(FunctionNode(Function([title], ArgumentNodes(vs)))) == Success(title + "(" + Join(", ", Values(vs)) + ")")
  {
    hide ParseArguments, ParseFunction, ParseTitles, Render;
    var args := ArgumentTokens(vs);
    var e := p + 2 + |args|;
    FunctionSplit(title, vs, toks, p, args);
    ArgumentsRoundTrip(vs, toks, p + 2, e);
    FunctionStep(toks, p, title, Parsed(ArgumentNodes(vs), e));
    FunctionRendering(title, vs);
  }

  // ---------------------------------------------------------------------
  // Axes

  /** An axis spelled `[NON EMPTY] { m1, m2 } ON title`. */
  datatype AxisSpec = AxisSpec(nonEmpty: bool, paths: seq<seq<string>>, title: string)

  predicate ValidAxis(a: AxisSpec) {
    a.paths != [] && Paths(a.paths)
  }

  function NonEmptyTokens(nonEmpty: bool): (r: seq<Token>)
    ensures |r| == if nonEmpty then 2 else 0
  {
    if nonEmpty then [Token(Non, "NON"), Token(Empty, "EMPTY")] else []
  }

  function AxisTokens(a: AxisSpec): seq<Token>
    requires ValidAxis(a)
  {
    NonEmptyTokens(a.nonEmpty) + TupleTokens(a.paths) + [Token(TokenKind.On, "ON"), Token(AxisNameIdentifier, a.title)]
  }

  /** The axis the parser builds for it: titled, sliced by the tuple, no
      dimension properties. */
  function SpecAxis(a: AxisSpec): Axis {
    Axis(Some(a.title), Some(PathTuple(a.paths)), a.nonEmpty, [])
  }

  function SpecText(a: AxisSpec): string {
    (if a.nonEmpty then "NON EMPTY " else "") + "{ " + Join(", ", PathTexts(a.paths)) + " } ON " + a.title
  }

  /** The pieces of an occurrence of an axis: the optional `NON EMPTY`, the
      tuple at `s`, and `ON title` at `t`. */
  lemma AxisSplit(a: AxisSpec, toks: seq<Token>, p: nat, tup: seq<Token>, s: nat, t: nat)
    requires ValidAxis(a) && tup == TupleTokens(a.paths) && At(toks, p, AxisTokens(a))
    requires s == p + |NonEmptyTokens(a.nonEmpty)| && t == s + |tup|
    ensures a.nonEmpty ==> Next(toks, p, Non) == Some(p + 1) && Next(toks, p + 1, Empty) == Some(s)
    ensures !a.nonEmpty ==> Next(toks, p, Non).None? && s == p
    ensures p <= s <= |toks| && At(toks, s, tup)
    ensures t + 1 < |toks| && toks[t] == Token(TokenKind.On, "ON") && toks[t + 1] == Token(AxisNameIdentifier, a.title)
    ensures |AxisTokens(a)| == t + 2 - p
  {
    var ne := NonEmptyTokens(a.nonEmpty);
    var tail := [Token(TokenKind.On, "ON"), Token(AxisNameIdentifier, a.title)];
    AtSplit(toks, p, ne + tup, tail);
    AtSplit(toks, p, ne, tup);
    AtIndex(toks, t, tail, 0);
    AtIndex(toks, t, tail, 1);
    AtIndex(toks, s, tup, 0);
    if a.nonEmpty {
      AtIndex(toks, p, ne, 0);
      AtIndex(toks, p, ne, 1);
    }
  }

  /** After the slicer: no properties clause, then `ON` and the title. */
  lemma AxisEnd(toks: seq<Token>, t: nat, title: string)
    requires t + 1 < |toks| && toks[t] == Token(TokenKind.On, "ON") && toks[t + 1] == Token(AxisNameIdentifier, title)
    ensures ParsePropertiesClause(toks, t) == Some(Parsed([], t))
    ensures Next(toks, t, TokenKind.On) == Some(t + 1)
    ensures NextIn(toks, t + 1, {AxisNameIdentifier, NumberExpression}) == Some(t + 2)
  {
  }

  /** A tuple is the first slicer tried. */
  lemma TupleSlicer(toks: seq<Token>, s: nat, x: Parsed<Tuple>)
    requires s <= |toks| && ParseTuple(toks, s) == Some(x)
    ensures ParseSlicer(toks, s) == Some(x)
  {
    hide ParseTuple;
  }

  /** `[NON EMPTY]`, a slicer, no properties, `ON` and a title. */
  lemma AxisStep(toks: seq<Token>, p: nat, s: nat, nonEmpty: bool, x: Parsed<Tuple>, title: string)
    requires p <= s <= |toks|
    requires nonEmpty ==> Next(toks, p, Non) == Some(p + 1) && Next(toks, p + 1, Empty) == Some(s)
    requires !nonEmpty ==> Next(toks, p, Non).None? && s == p
    requires ParseSlicer(toks, s) == Some(x)
    requires x.pos + 1 < |toks| && toks[x.pos + 1] == Token(AxisNameIdentifier, title)
    requires ParsePropertiesClause(toks, x.pos) == Some(Parsed([], x.pos))
    requires Next(toks, x.pos, TokenKind.On) == Some(x.pos + 1)
    requires NextIn(toks, x.pos + 1, {AxisNameIdentifier, NumberExpression}) == Some(x.pos + 2)
    ensures ParseAxis(toks, p) == Some(Parsed(Axis(Some(title), Some(x.node), nonEmpty, []), x.pos + 2))
  {
    hide ParseSlicer, ParsePropertiesClause, WellFormed;
    var b := WithProperties(WithSlicer(NewAxis, x.node), []);
    assert b == Axis(None, Some(x.node), false, []);
  }

  /** `[NON EMPTY ]{ m1, m2 } ON title`. */
  lemma AxisTextRendering(a: AxisSpec)
    requires ValidAxis(a)
    ensures RenderAxis(SpecAxis(a)) == Success(SpecText(a))
  {
    hide Render, Join, PathTexts, MemberNodes;
    TupleRendering(a.paths);
    var ne := if a.nonEmpty then "NON EMPTY " else "";
    var j := Join(", ", PathTexts(a.paths));
    var t := "{ " + j + " }";
    assert SlicerText(SpecAxis(a).slicer) == Success(t);
    assert AxisTail(SpecAxis(a)) == " ON " + a.title;
    assert RenderAxis(SpecAxis(a)) == Success(ne + t + (" ON " + a.title));
    assert ne + t + (" ON " + a.title) == ne + "{ " + j + " } ON " + a.title;
  }

  /** The tokens of `[NON EMPTY] { m1, m2 } ON title` parse to the axis of
      that flag, tuple and title, which prints as `[NON EMPTY ]{ m1, m2 } ON
      title` again. */
  lemma AxisRoundTrip(a: AxisSpec, toks: seq<Token>, p: nat)
    requires ValidAxis(a) && At(toks, p, AxisTokens(a))
    ensures ParseAxis(toks, p) == Some(Parsed(SpecAxis(a), p + |AxisTokens(a)|))
    ensures RenderAxis(SpecAxis(a)) == Success(SpecText(a))
  {
    hide ParseAxis, ParseTuple, ParseSlicer, ParsePropertiesClause, RenderAxis;
    var tup := TupleTokens(a.paths);
    var s := p + |NonEmptyTokens(a.nonEmpty)|;
    var t := s + |tup|;
    AxisSplit(a, toks, p, tup, s, t);
    TupleRoundTrip(a.paths, toks, s);
    AxisEnd(toks, t, a.title);
    TupleSlicer(toks, s, Parsed(PathTuple(a.paths), t));
    AxisStep(toks, p, s, a.nonEmpty, Parsed(PathTuple(a.paths), t), a.title);
    AxisTextRendering(a);
  }

  predicate ValidAxes(axes: seq<AxisSpec>) {
    axes != [] && forall i :: 0 <= i < |axes| ==> ValidAxis(axes[i])
  }

  /** `a1 , a2 , ...` for axes `a1`, `a2`. */
  function AxesTokens(axes: seq<AxisSpec>): seq<Token>
    requires ValidAxes(axes)
    decreases |axes|
  {
    if |axes| == 1 then AxisTokens(axes[0]) else AxisTokens(axes[0]) + [Comma] + AxesTokens(axes[1..])
  }

  function SpecAxes(axes: seq<AxisSpec>): seq<Axis> {
    seq(|axes|, i requires 0 <= i < |axes| => SpecAxis(axes[i]))
  }

  function SpecTexts(axes: seq<AxisSpec>): seq<string> {
    seq(|axes|, i requires 0 <= i < |axes| => SpecText(axes[i]))
  }

  /** A comma-separated list of axes, followed by `FROM`, parses to those
      axes, in order. */
  lemma {:induction false} AxesRoundTrip(axes: seq<AxisSpec>, toks: seq<Token>, p: nat, e: nat)
    requires ValidAxes(axes) && At(toks, p, AxesTokens(axes)) && e == p + |AxesTokens(axes)|
    requires e < |toks| && toks[e].kind == From
    ensures ParseAxes(toks, p) == Some(Parsed(SpecAxes(axes), e))
    decreases |axes|
  {
    hide ParseAxes, ParseAxis, AxisTokens, SpecAxis;
    var head := AxisTokens(axes[0]);
    if |axes| == 1 {
      AxesOne(axes, toks, p, e);
    } else {
      var tail := AxesTokens(axes[1..]);
      AxesTokensSplit(axes, toks, p, head, tail);
      AxesRoundTrip(axes[1..], toks, p + |head| + 1, e);
      AxesMore(axes, toks, p, e, head);
    }
  }

  lemma AxesOne(axes: seq<AxisSpec>, toks: seq<Token>, p: nat, e: nat)
    requires |axes| == 1 && ValidAxes(axes) && At(toks, p, AxesTokens(axes)) && e == p + |AxesTokens(axes)|
    requires e < |toks| && toks[e].kind == From
    ensures ParseAxes(toks, p) == Some(Parsed(SpecAxes(axes), e))
  {
    hide ParseAxis, AxisTokens, SpecAxis, ValidAxis, WellFormed;
    assert AxesTokens(axes) == AxisTokens(axes[0]);
    AxisRoundTrip(axes[0], toks, p);
    assert Next(toks, e, MemberSeparator).None?;
    assert SpecAxes(axes) == [SpecAxis(axes[0])];
  }

  /** The first axis of a longer list, then a `,`, then the rest of the list
      read as its axes. */
  lemma AxesMore(axes: seq<AxisSpec>, toks: seq<Token>, p: nat, e: nat, head: seq<Token>)
    requires |axes| > 1 && ValidAxes(axes) && head == AxisTokens(axes[0]) && At(toks, p, head)
    requires Next(toks, p + |head|, MemberSeparator) == Some(p + |head| + 1)
    requires ParseAxes(toks, p + |head| + 1) == Some(Parsed(SpecAxes(axes[1..]), e))
    ensures ParseAxes(toks, p) == Some(Parsed(SpecAxes(axes), e))
  {
    hide ParseAxis, ParseAxes, AxisTokens, SpecAxis;
    AxisRoundTrip(axes[0], toks, p);
    AxesStep(toks, p, Parsed(SpecAxis(axes[0]), p + |head|), Parsed(SpecAxes(axes[1..]), e));
    assert SpecAxes(axes) == [SpecAxis(axes[0])] + SpecAxes(axes[1..]);
  }

  /** An axis, a `,` and the rest of the list. */
  lemma AxesStep(toks: seq<Token>, p: nat, a: Parsed<Axis>, rest: Parsed<seq<Axis>>)
    requires p <= |toks| && ParseAxis(toks, p) == Some(a)
    requires Next(toks, a.pos, MemberSeparator) == Some(a.pos + 1)
    requires ParseAxes(toks, a.pos + 1) == Some(rest)
    ensures ParseAxes(toks, p) == Some(Parsed([a.node] + rest.node, rest.pos))
  {
    hide ParseAxis, WellFormed;
  }

  /** The tokens of a longer axis list are the first axis, a `,` and the
      rest. */
  lemma AxesTokensSplit(axes: seq<AxisSpec>, toks: seq<Token>, p: nat, head: seq<Token>, tail: seq<Token>)
    requires |axes| > 1 && ValidAxes(axes) && head == AxisTokens(axes[0]) && tail == AxesTokens(axes[1..])
    requires At(toks, p, AxesTokens(axes))
    ensures At(toks, p, head) && At(toks, p + |head| + 1, tail)
    ensures Next(toks, p + |head|, MemberSeparator) == Some(p + |head| + 1)
    ensures |AxesTokens(axes)| == |head| + 1 + |tail|
  {
    assert AxesTokens(axes) == head + [Comma] + tail;
    CommaSplit(head, tail, toks, p);
  }

  /** The axes print one by one. */
  lemma AxesRendering(axes: seq<AxisSpec>)
    requires ValidAxes(axes)
    ensures Collect(AxisTexts(SpecAxes(axes))) == Success(SpecTexts(axes))
  {
    var rs := AxisTexts(SpecAxes(axes));
    forall i | 0 <= i < |axes|
      ensures rs[i] == Success(SpecTexts(axes)[i])
    {
      AxisTextRendering(axes[i]);
    }
    var r := Collect(rs);
    assert r.value == SpecTexts(axes);
  }

  // ---------------------------------------------------------------------
  // Statements

  /** `SELECT a1 , a2 FROM [c1].[c2]` followed by the end-of-input token. */
  function StatementTokens(axes: seq<AxisSpec>, cube: seq<string>): seq<Token>
    requires ValidAxes(axes) && cube != []
  {
    [Token(Select, "SELECT")] + AxesTokens(axes) + [Token(From, "FROM")] + PathTokens(cube) + [Sentinel]
  }

  /** The query the parser builds for it: no declarations, the axes, one
      cube, no inner query and no `WHERE` tuples. */
  function SpecQuery(axes: seq<AxisSpec>, cube: seq<string>): Query {
    Query([], SpecAxes(axes), [Cube(cube)], None, [])
  }

  /** The tokens of `SELECT axes FROM cube` end in the end-of-input token, parse
      to the query of those axes and that cube, and the query prints as
      `SELECT axes FROM cube` again, each axis as it was spelled. */
  lemma StatementRoundTrip(axes: seq<AxisSpec>, cube: seq<string>)
    requires ValidAxes(axes) && cube != []
    ensures Terminated(StatementTokens(axes, cube))
    ensures ParseTokens(StatementTokens(axes, cube)) == Success(SpecQuery(axes, cube))
    ensures RenderQuery(SpecQuery(axes, cube)) == Success("SELECT " + Join(", ", SpecTexts(axes)) + " FROM " + RenderPath(cube))
  {
    hide ParseTokens, ParseQueryTokens, ParseHead, ParseSource, ParseAxes, ParseCube, RenderQuery, StatementTokens;
    hide QueryWellFormed, WellFormed, SpecAxes, AxesTokens, PathTokens;
    var toks := StatementTokens(axes, cube);
    var ax := AxesTokens(axes);
    var c := PathTokens(cube);
    var e := 2 + |ax| + |c|;
    StatementSplit(axes, cube, toks, ax, c);
    StatementTerminated(axes, cube, toks, ax, c);
    AxesRoundTrip(axes, toks, 1, 1 + |ax|);
    HeadStep(toks, Parsed(SpecAxes(axes), 1 + |ax|));
    SourceStep(toks, 2 + |ax|, cube, c, Query([], SpecAxes(axes), [], None, []));
    StatementStep(toks, SpecQuery(axes, cube), e);
    StatementRendering(axes, cube);
  }

  /** Where the pieces of a statement sit. */
  lemma StatementSplit(axes: seq<AxisSpec>, cube: seq<string>, toks: seq<Token>, ax: seq<Token>, c: seq<Token>)
    requires ValidAxes(axes) && cube != [] && toks == StatementTokens(axes, cube)
    requires ax == AxesTokens(axes) && c == PathTokens(cube)
    ensures |toks| == 3 + |ax| + |c| && toks[0] == Token(Select, "SELECT")
    ensures At(toks, 1, ax) && toks[1 + |ax|] == Token(From, "FROM")
    ensures At(toks, 2 + |ax|, c) && toks[2 + |ax| + |c|] == Sentinel
  {
    assert toks == [Token(Select, "SELECT")] + ax + [Token(From, "FROM")] + c + [Sentinel];
    forall i | 0 <= i < |ax|
      ensures ax[i] == toks[1 + i]
    {
    }
    forall i | 0 <= i < |c|
      ensures c[i] == toks[2 + |ax| + i]
    {
    }
  }

  /** No token of an axis is the end-of-input token. */
  lemma AxisNoSentinel(a: AxisSpec)
    requires ValidAxis(a)
    ensures NoSentinel(AxisTokens(a))
  {
    ListNoSentinel(a.paths);
    var ne := NonEmptyTokens(a.nonEmpty);
    NoSentinelJoined([Token(LeftCurlyBracket, "{")], ListTokens(a.paths));
    NoSentinelJoined([Token(LeftCurlyBracket, "{")] + ListTokens(a.paths), [Token(RightCurlyBracket, "}")]);
    NoSentinelJoined(ne, TupleTokens(a.paths));
    NoSentinelJoined(ne + TupleTokens(a.paths), [Token(TokenKind.On, "ON"), Token(AxisNameIdentifier, a.title)]);
  }

  lemma {:induction false} AxesNoSentinel(axes: seq<AxisSpec>)
    requires ValidAxes(axes)
    ensures NoSentinel(AxesTokens(axes))
    decreases |axes|
  {
    AxisNoSentinel(axes[0]);
    if |axes| > 1 {
      AxesNoSentinel(axes[1..]);
      NoSentinelJoined(AxisTokens(axes[0]), [Comma]);
      NoSentinelJoined(AxisTokens(axes[0]) + [Comma], AxesTokens(axes[1..]));
    }
  }

  /** Only the last token of a statement is the end-of-input token. */
  lemma StatementTerminated(axes: seq<AxisSpec>, cube: seq<string>, toks: seq<Token>, ax: seq<Token>, c: seq<Token>)
    requires ValidAxes(axes) && cube != [] && toks == StatementTokens(axes, cube)
    requires ax == AxesTokens(axes) && c == PathTokens(cube)
    ensures Terminated(toks)
  {
    AxesNoSentinel(axes);
    PathNoSentinel(cube);
    var body := [Token(Select, "SELECT")] + ax + [Token(From, "FROM")] + c;
    NoSentinelJoined([Token(Select, "SELECT")], ax);
    NoSentinelJoined([Token(Select, "SELECT")] + ax, [Token(From, "FROM")]);
    NoSentinelJoined([Token(Select, "SELECT")] + ax + [Token(From, "FROM")], c);
    assert toks == body + [Sentinel];
    assert forall k :: 0 <= k < |toks| - 1 ==> toks[k] == body[k];
  }

  /** `SELECT`, the axes and `FROM`, with no `WITH` clause. */
  lemma {:induction false} HeadStep(toks: seq<Token>, axs: Parsed<seq<Axis>>)
    requires 1 <= |toks| && toks[0] == Token(Select, "SELECT")
    requires ParseAxes(toks, 1) == Some(axs)
    requires axs.pos < |toks| && toks[axs.pos] == Token(From, "FROM")
    ensures ParseHead(toks, 0) == Some(Parsed(Query([], axs.node, [], None, []), axs.pos + 1))
    ensures QueryWellFormed(Query([], axs.node, [], None, []))
  {
    hide ParseAxes, ParseDeclarations;
  }

  /** A single cube as the source. */
  lemma {:induction false} SourceStep(toks: seq<Token>, h: nat, cube: seq<string>, c: seq<Token>, q: Query)
    requires 0 < h && cube != [] && c == PathTokens(cube) && At(toks, h, c)
    requires h + |c| < |toks| && toks[h + |c|] == Sentinel
    requires q.cubes == [] && q.inner.None? && q.whereTuples == [] && QueryWellFormed(q)
    ensures ParseSource(toks, h, q) == Some(Parsed(q.(cubes := [Cube(cube)]), h + |c|))
  {
    hide ParseCube, ParseCubes, ParseQueryTokens, QueryWellFormed;
    CubesOne(toks, h, cube, c);
    AtIndex(toks, h, c, 0);
    assert Next(toks, h, LeftRoundBracket).None?;
  }

  /** A cube list of one cube, up to the end-of-input token. */
  lemma {:induction false} CubesOne(toks: seq<Token>, h: nat, cube: seq<string>, c: seq<Token>)
    requires cube != [] && c == PathTokens(cube) && At(toks, h, c)
    requires h + |c| < |toks| && toks[h + |c|] == Sentinel
    ensures ParseCubes(toks, h) == Some(Parsed([Cube(cube)], h + |c|))
  {
    hide ParseCube;
    CubeRoundTrip(cube, toks, h, h + |c|);
    assert Next(toks, h + |c|, MemberSeparator).None?;
  }

  /** A head, a source and no `WHERE`, up to the end-of-input token. */
  lemma {:induction false} StatementStep(toks: seq<Token>, q: Query, e: nat)
    requires e + 1 == |toks| && toks[e] == Sentinel && QueryWellFormed(q)
    requires q.cubes != [] && q.inner.None? && q.whereTuples == []
    requires ParseHead(toks, 0).Some? && ParseHead(toks, 0).value.node == q.(cubes := [])
    requires ParseSource(toks, ParseHead(toks, 0).value.pos, q.(cubes := [])) == Some(Parsed(q, e))
    ensures Terminated(toks) ==> ParseTokens(toks) == Success(q)
  {
    hide ParseHead, ParseSource, QueryWellFormed;
    assert Next(toks, e, TokenKind.Where).None?;
    assert ParseQueryTokens(toks, 0) == Some(Parsed(q, e));
  }

  /** The parsed statement prints as its axes and its cube. */
  lemma StatementRendering(axes: seq<AxisSpec>, cube: seq<string>)
    requires ValidAxes(axes) && cube != []
    ensures RenderQuery(SpecQuery(axes, cube)) == Success("SELECT " + Join(", ", SpecTexts(axes)) + " FROM " + RenderPath(cube))
  {
    hide SpecAxes, SpecTexts, AxisTexts, Join;
    var q := SpecQuery(axes, cube);
    AxesRendering(axes);
    assert Collect(TupleTexts(q.whereTuples)) == Success([]);
    assert CubeTexts(q.cubes) == [RenderPath(cube)];
    assert Join(", ", CubeTexts(q.cubes)) == RenderPath(cube);
    assert RenderQuery(q) == Success(Assemble(SpecTexts(axes), RenderPath(cube), []));
    var text := "SELECT " + Join(", ", SpecTexts(axes)) + " FROM " + RenderPath(cube);
    assert Assemble(SpecTexts(axes), RenderPath(cube), []) == text + "";
    assert text + "" == text;
  }

  // ---------------------------------------------------------------------
  // The library's examples

  /** `SELECT NON EMPTY { [Measures].[Measure] } ON COLUMNS FROM [Cube]`
      parses and prints back unchanged (the text is split in three only to
      keep each literal short). */
  lemma MeasureQueryExample()
    ensures var toks := StatementTokens([AxisSpec(true, [["Measures", "Measure"]], "COLUMNS")], ["Cube"]);
            Terminated(toks) && ParseTokens(toks).Success?
            && RenderQuery(ParseTokens(toks).value)
               == Success("SELECT " + "NON EMPTY { [Measures].[Measure] } ON COLUMNS" + " FROM [Cube]")
  {
    hide ParseTokens, RenderQuery, StatementTokens, Terminated, SpecText, RenderPath, SpecQuery, SpecTexts, Join;
    var a := AxisSpec(true, [["Measures", "Measure"]], "COLUMNS");
    StatementRoundTrip([a], ["Cube"]);
    MeasureAxesText(a);
    CubeText();
    FromCubeText("NON EMPTY { [Measures].[Measure] } ON COLUMNS");
  }

  lemma FromCubeText(x: string)
    ensures "SELECT " + x + " FROM " + "[Cube]" == "SELECT " + x + " FROM [Cube]"
  {
    assert " FROM " + "[Cube]" == " FROM [Cube]";
  }

  lemma CubeText()
    ensures RenderPath(["Cube"]) == "[Cube]"
  {
  }

  lemma MeasurePath()
    ensures RenderPath(["Measures", "Measure"]) == "[Measures].[Measure]"
  {
    var names := ["Measures", "Measure"];
    assert names[1..] == ["Measure"];
    assert Join("].[", names) == "Measures].[Measure";
  }

  lemma MeasureAxisText(a: AxisSpec)
    requires a == AxisSpec(true, [["Measures", "Measure"]], "COLUMNS")
    ensures SpecText(a) == "NON EMPTY { [Measures].[Measure] } ON COLUMNS"
  {
    hide RenderPath;
    MeasurePath();
    assert PathTexts(a.paths) == ["[Measures].[Measure]"];
    assert Join(", ", PathTexts(a.paths)) == "[Measures].[Measure]";
  }

  lemma MeasureAxesText(a: AxisSpec)
    requires a == AxisSpec(true, [["Measures", "Measure"]], "COLUMNS")
    ensures Join(", ", SpecTexts([a])) == "NON EMPTY { [Measures].[Measure] } ON COLUMNS"
  {
    hide SpecText;
    MeasureAxisText(a);
    assert SpecTexts([a]) == [SpecText(a)];
  }

  // ---------------------------------------------------------------------
  // Function examples

  /** `FUNCTION ( 1 , 2 )` parses to a function of two constants and prints
      back as `FUNCTION(1, 2)`. */
  lemma FunctionExample(vs: seq<Token>, toks: seq<Token>)
    requires vs == [Token(IdentifierExpression, "1"), Token(IdentifierExpression, "2")]
    requires toks == FunctionTokens("FUNCTION", vs)
    ensures ParseFunction(toks, 0).Some? && ParseFunction(toks, 0).value.pos == |toks|
    ensures Render(FunctionNode(ParseFunction(toks, 0).value.node)) == Success("FUNCTION(1, 2)")
  {
    hide ParseFunction, FunctionTokens, Render, ArgumentNodes;
    AtWhole(toks);
    FunctionRoundTrip("FUNCTION", vs, toks, 0);
    OneTwoText(vs);
    assert "FUNCTION" + "(" + "1, 2" + ")" == "FUNCTION(1, 2)";
  }

  lemma AtWhole(toks: seq<Token>)
    ensures At(toks, 0, toks)
  {
  }

  lemma OneTwoText(vs: seq<Token>)
    requires vs == [Token(IdentifierExpression, "1"), Token(IdentifierExpression, "2")]
    ensures Join(", ", Values(vs)) == "1, 2"
  {
    assert Values(vs) == ["1", "2"];
    assert Join(", ", ["1", "2"]) == "1, 2";
  }

  /** `( )` as an operand is the empty set. */
  lemma EmptySetOperand(toks: seq<Token>, p: nat)
    requires p + 1 < |toks| && toks[p].kind == LeftRoundBracket && toks[p + 1].kind == RightRoundBracket
    ensures ParseOperand(toks, p) == Some(Parsed(SetNode(NewSet), p + 2))
  {
    assert ParseTitles(toks, p).None?;
    assert ParseFunction(toks, p).None?;
    assert ParseTuple(toks, p).None?;
    assert ParseSet(toks, p) == Some(Parsed(NewSet, p + 2));
  }

  /** `MYFUNCTION ( ( ) )`: the inner brackets are an empty set argument,
      printed with the set's two inner spaces. */
  lemma EmptySetArgumentExample(toks: seq<Token>)
    requires toks == [Token(IdentifierExpression, "MYFUNCTION"), Token(LeftRoundBracket, "("),
                      Token(LeftRoundBracket, "("), Token(RightRoundBracket, ")"), Token(RightRoundBracket, ")")]
    ensures ParseFunction(toks, 0).Some? && ParseFunction(toks, 0).value.pos == |toks|
    ensures Render(FunctionNode(ParseFunction(toks, 0).value.node)) == Success("MYFUNCTION((  ))")
  {
    hide ParseFunction, Render;
    var e := Expression([SetNode(NewSet)], [], false, false);
    EmptySetArguments(toks, e);
    EmptySetFunction(toks, e);
    EmptySetArgumentText(e);
  }

  lemma EmptySetArguments(toks: seq<Token>, e: Expression)
    requires |toks| == 5 && toks[2].kind == LeftRoundBracket && toks[3].kind == RightRoundBracket
    requires toks[4].kind == RightRoundBracket
    requires e == Expression([SetNode(NewSet)], [], false, false)
    ensures ParseArguments(toks, 2) == Some(Parsed([ExpressionNode(e)], 4))
  {
    hide ParseOperand, ParseExpression, ParseArguments;
    EmptySetOperand(toks, 2);
    assert NextIn(toks, 4, {MathsOperator, LogicsOperator}).None?;
    SingleOperandExpression(toks, 2, Parsed(SetNode(NewSet), 4));
    ArgumentsLast(toks, 2, Parsed(e, 4));
  }

  lemma EmptySetFunction(toks: seq<Token>, e: Expression)
    requires |toks| == 5 && toks[0] == Token(IdentifierExpression, "MYFUNCTION")
    requires toks[1].kind == LeftRoundBracket && toks[2].kind == LeftRoundBracket && toks[4].kind == RightRoundBracket
    requires ParseArguments(toks, 2) == Some(Parsed([ExpressionNode(e)], 4))
    ensures ParseFunction(toks, 0) == Some(Parsed(Function(["MYFUNCTION"], [ExpressionNode(e)]), 5))
  {
    hide ParseArguments, ParseTitles, ParseFunction;
    TitleAlone(toks, 0);
    FunctionStep(toks, 0, "MYFUNCTION", Parsed([ExpressionNode(e)], 4));
  }


  lemma TitleAlone(toks: seq<Token>, p: nat)
    requires p + 1 < |toks| && toks[p].kind == IdentifierExpression && toks[p + 1].kind != IdentifierSeparator
    ensures ParseTitles(toks, p) == Some(Parsed([toks[p].value], p + 1))
  {
  }

  lemma EmptySetArgumentText(e: Expression)
    requires e == Expression([SetNode(NewSet)], [], false, false)
    ensures Render(FunctionNode(Function(["MYFUNCTION"], [ExpressionNode(e)]))) == Success("MYFUNCTION((  ))")
  {
    EmptySetExpressionText(e);
    var rs := Texts([ExpressionNode(e)]);
    assert rs == [Success("(  )")];
    var c := Collect(rs);
    assert c.Success? && c.value[0] == "(  )";
    assert c.value == ["(  )"];
    assert Join(", ", ["(  )"]) == "(  )";
    assert Join(".", ["MYFUNCTION"]) == "MYFUNCTION";
    assert "MYFUNCTION" + "(" + "(  )" + ")" == "MYFUNCTION((  ))";
  }

  lemma EmptySetExpressionText(e: Expression)
    requires e == Expression([SetNode(NewSet)], [], false, false)
    ensures Render(ExpressionNode(e)) == Success("(  )")
  {
    EmptySetText();
    var rs := Texts(e.operands);
    assert rs == [Success("(  )")] && rs[..1] == rs;
    var c := Collect(rs);
    assert c.Success? && c.value[0] == "(  )";
    assert c.value == ["(  )"];
    assert Interleave([OperandText(SetNode(NewSet), "(  )")], []) == "(  )";
    assert Decorate(false, false, "(  )") == "(  )";
  }

  lemma EmptySetText()
    ensures Render(SetNode(NewSet)) == Success("(  )")
  {
    assert Texts(NewSet.children) == [];
    BracketEmpty("( ", " )");
    assert "( " + " )" == "(  )";
  }


  // ---------------------------------------------------------------------
  // WHERE clause

  /** `WHERE` and a keyed member add that member, alone in a new tuple, to the
      query; the WHERE clause then prints the member inside three brackets,
      `{ ( { member } ) }`. */
  lemma WhereMemberRoundTrip(names: seq<string>, v: string, toks: seq<Token>, p: nat, e: nat, q: Query)
    requires names != [] && QueryWellFormed(q)
    requires p < |toks| && toks[p].kind == TokenKind.Where
    requires At(toks, p + 1, PathTokens(names)) && e == p + 1 + |PathTokens(names)|
    requires At(toks, e, KeyTokens(NumberExpression, v)) && EndsBefore(toks, e + 4, {IdentifierSeparator, RangeSeparator})
    ensures var t := Tuple([MemberNode(Nodes.Member(NewIdentifier(names), Value(v)))]);
            ParseWhere(toks, p, q) == Some(Parsed(Queries.Where(q, t), e + 4))
            && Render(TupleNode(t)) == Success("{ " + RenderPath(names) + ".&[" + v + "] }")
            && WhereText([Render(TupleNode(t)).value]) == " WHERE { ( { " + RenderPath(names) + ".&[" + v + "] } ) }"
  {
    hide ParseWhereSlicer, ParseWhereSlicerBeforeFunction, ParseFunction, ParseWhere;
    hide PathTokens, KeyTokens, QueryWellFormed, Render, WhereText;
    var m := Nodes.Member(NewIdentifier(names), Value(v));
    WhereMemberSlicer(names, v, toks, p + 1, e, m);
    WhereStep(toks, p, q, Parsed(Tuple([MemberNode(m)]), e + 4));
    WhereMemberText(names, v, m);
  }

  lemma WhereMemberSlicer(names: seq<string>, v: string, toks: seq<Token>, p: nat, e: nat, m: Nodes.Member)
    requires names != [] && m == Nodes.Member(NewIdentifier(names), Value(v))
    requires At(toks, p, PathTokens(names)) && e == p + |PathTokens(names)|
    requires At(toks, e, KeyTokens(NumberExpression, v)) && EndsBefore(toks, e + 4, {IdentifierSeparator, RangeSeparator})
    ensures ParseWhereSlicer(toks, p) == Some(Parsed(Tuple([MemberNode(m)]), e + 4))
  {
    hide ParseMember, ParseRange, ParseWhereSlicer, ParseWhereSlicerBeforeFunction, PathTokens, KeyTokens;
    assert EndsBefore(toks, e + 4, {IdentifierSeparator});
    ValueMemberRoundTrip(names, NumberExpression, v, toks, p, e);
    RangeAfterMember(toks, p, Parsed(m, e + 4));
    WhereSlicerMember(toks, p, Parsed(m, e + 4));
  }

  /** `WHERE` and a slicer add the slicer's tuple to the query. */
  lemma WhereStep(toks: seq<Token>, p: nat, q: Query, t: Parsed<Tuple>)
    requires p < |toks| && toks[p].kind == TokenKind.Where && QueryWellFormed(q)
    requires ParseWhereSlicer(toks, p + 1) == Some(t)
    ensures ParseWhere(toks, p, q) == Some(Parsed(Queries.Where(q, t.node), t.pos))
  {
    hide ParseWhereSlicer;
  }

  /** A member that no `:` follows is the WHERE slicer, alone in a tuple. */
  lemma WhereSlicerMember(toks: seq<Token>, p: nat, a: Parsed<Nodes.Member>)
    requires p <= |toks| && ParseMember(toks, p) == Some(a) && ParseRange(toks, p).None?
    ensures ParseWhereSlicer(toks, p) == Some(Parsed(Tuple([MemberNode(a.node)]), a.pos))
  {
    hide ParseMember, ParseRange;
  }

  lemma WhereMemberText(names: seq<string>, v: string, m: Nodes.Member)
    requires names != [] && m == Nodes.Member(NewIdentifier(names), Value(v))
    ensures Render(TupleNode(Tuple([MemberNode(m)]))) == Success("{ " + RenderPath(names) + ".&[" + v + "] }")
    ensures WhereText(["{ " + RenderPath(names) + ".&[" + v + "] }"]) == " WHERE { ( { " + RenderPath(names) + ".&[" + v + "] } ) }"
  {
    var x := RenderPath(names) + ".&[" + v + "]";
    assert RenderMember(m) == x;
    MemberTupleText(m, x);
    BracedKey(RenderPath(names), v);
    assert Join(", ", ["{ " + x + " }"]) == "{ " + x + " }";
  }

  lemma BracedKey(a: string, v: string)
    ensures "{ " + (a + ".&[" + v + "]") + " }" == "{ " + a + ".&[" + v + "] }"
    ensures " WHERE { ( " + ("{ " + a + ".&[" + v + "] }") + " ) }" == " WHERE { ( { " + a + ".&[" + v + "] } ) }"
  {
    assert "]" + " }" == "] }";
    assert "] }" + " ) }" == "] } ) }";
    assert " WHERE { ( " + "{ " == " WHERE { ( { ";
  }

  lemma MemberTupleText(m: Nodes.Member, x: string)
    requires RenderMember(m) == x
    ensures Render(TupleNode(Tuple([MemberNode(m)]))) == Success("{ " + x + " }")
  {
    hide RenderMember;
    assert Render(MemberNode(m)) == Success(x);
    var rs := Texts([MemberNode(m)]);
    assert rs[0] == Render(MemberNode(m));
    assert rs == [Success(x)];
    var c := Collect(rs);
    assert c.Success? && c.value[0] == x;
    assert c.value == [x];
    assert Join(", ", [x]) == x;
  }
}
