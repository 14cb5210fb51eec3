/** Properties of the parser: token lists that spell a path or a member parse
    back to it, the order in which alternatives are tried decides what a
    token list means, and the error paths of `ParseQuery`. */
module ParserProperties {
  import opened Wrappers
  import opened Text
  import opened Tokens
  import opened Nodes
  import opened Queries
  import opened Parser

  // ---------------------------------------------------------------------
  // Token lists that spell paths

  /** The tokens of `[n]`. */
  function NameTokens(n: string): (r: seq<Token>)
    ensures |r| == 3
  {
    [Token(LeftSquareBracket, "["), Token(IdentifierExpression, n), Token(RightSquareBracket, "]")]
  }

  /** The tokens of `.[n1].[n2]...`, one `.[n]` per name. */
  function DotPathTokens(names: seq<string>): (r: seq<Token>)
    ensures |r| == 4 * |names|
    decreases |names|
  {
    if names == [] then []
    else [Token(IdentifierSeparator, ".")] + NameTokens(names[0]) + DotPathTokens(names[1..])
  }

  /** The tokens of the path `[n1].[n2]...`. */
  function PathTokens(names: seq<string>): (r: seq<Token>)
    requires names != []
    ensures |r| == 4 * |names| - 1
  {
    NameTokens(names[0]) + DotPathTokens(names[1..])
  }

  /** `t` occurs in `toks` at position `p`. */
  predicate At(toks: seq<Token>, p: nat, t: seq<Token>) {
    p + |t| <= |toks| && forall i :: 0 <= i < |t| ==> t[i] == toks[p + i]
  }

  /** Position `at` is the end of the list or holds a token of none of the
      given kinds. */
  predicate EndsBefore(toks: seq<Token>, at: nat, kinds: set<TokenKind>) {
    at <= |toks| && (at == |toks| || toks[at].kind !in kinds)
  }

  /** Reading one token of an occurrence. */
  lemma AtIndex(toks: seq<Token>, p: nat, t: seq<Token>, i: nat)
    requires At(toks, p, t) && i < |t|
    ensures toks[p + i] == t[i]
  {
  }

  /** A path that is a single bracketed name. */
  lemma PathEnd(toks: seq<Token>, p: nat, n: string)
    requires p + 3 <= |toks|
    requires toks[p] == Token(LeftSquareBracket, "[") && toks[p + 1] == Token(IdentifierExpression, n)
             && toks[p + 2] == Token(RightSquareBracket, "]")
    requires p + 3 == |toks| || toks[p + 3].kind != IdentifierSeparator
    ensures ParsePath(toks, p) == Some(Parsed([n], p + 3))
  {
    assert Next(toks, p, LeftSquareBracket) == Some(p + 1);
    assert Next(toks, p + 1, IdentifierExpression) == Some(p + 2);
    assert Next(toks, p + 2, RightSquareBracket) == Some(p + 3);
  }

  /** A bracketed name followed by a dot and a path. */
  lemma PathCons(toks: seq<Token>, p: nat, n: string, rest: Parsed<seq<string>>)
    requires p + 4 <= |toks|
    requires toks[p] == Token(LeftSquareBracket, "[") && toks[p + 1] == Token(IdentifierExpression, n)
             && toks[p + 2] == Token(RightSquareBracket, "]") && toks[p + 3].kind == IdentifierSeparator
    requires ParsePath(toks, p + 4) == Some(rest)
    ensures ParsePath(toks, p) == Some(Parsed([n] + rest.node, rest.pos))
  {
    assert Next(toks, p, LeftSquareBracket) == Some(p + 1);
    assert Next(toks, p + 1, IdentifierExpression) == Some(p + 2);
    assert Next(toks, p + 2, RightSquareBracket) == Some(p + 3);
    assert Next(toks, p + 3, IdentifierSeparator) == Some(p + 4);
  }

  /** What an occurrence of a path's tokens holds: its first name, and when
      more names follow, a dot and the occurrence of the remaining path. */
  lemma PathAt(toks: seq<Token>, p: nat, names: seq<string>)
    requires names != [] && At(toks, p, PathTokens(names))
    ensures p + 3 <= |toks|
    ensures toks[p] == Token(LeftSquareBracket, "[") && toks[p + 1] == Token(IdentifierExpression, names[0])
            && toks[p + 2] == Token(RightSquareBracket, "]")
    ensures |names| > 1 ==> toks[p + 3].kind == IdentifierSeparator && At(toks, p + 4, PathTokens(names[1..]))
  {
    var t := PathTokens(names);
    AtIndex(toks, p, t, 0);
    AtIndex(toks, p, t, 1);
    AtIndex(toks, p, t, 2);
    if |names| > 1 {
      var u := PathTokens(names[1..]);
      assert t == NameTokens(names[0]) + [Token(IdentifierSeparator, ".")] + u;
      AtIndex(toks, p, t, 3);
      forall i | 0 <= i < |u|
        ensures u[i] == toks[p + 4 + i]
      {
        assert u[i] == t[4 + i];
      }
    }
  }

  /** The tokens of a path parse back to its names, and the parse stops right
      after them, at `e`. */
  lemma {:induction false} PathRoundTrip(names: seq<string>, toks: seq<Token>, p: nat, e: nat)
    requires names != [] && At(toks, p, PathTokens(names)) && e == p + |PathTokens(names)|
    requires EndsBefore(toks, e, {IdentifierSeparator})
    ensures ParsePath(toks, p) == Some(Parsed(names, e))
    decreases |names|
  {
    PathAt(toks, p, names);
    if |names| == 1 {
      PathEnd(toks, p, names[0]);
      assert names == [names[0]];
    } else {
      var rest := names[1..];
      PathRoundTrip(rest, toks, p + 4, e);
      PathCons(toks, p, names[0], Parsed(rest, e));
      ConsFirst(names);
    }
  }

  /** A cube named by a path's tokens renders as that path: parsing and
      printing a cube are inverse. */
  lemma CubeRoundTrip(names: seq<string>, toks: seq<Token>, p: nat, e: nat)
    requires names != [] && At(toks, p, PathTokens(names)) && e == p + |PathTokens(names)|
    requires EndsBefore(toks, e, {IdentifierSeparator})
    ensures ParseCube(toks, p) == Some(Parsed(Cube(names), e))
    ensures RenderCube(ParseCube(toks, p).value.node) == RenderPath(names)
  {
    PathRoundTrip(names, toks, p, e);
    assert CubeTitled(NewCube, names) == Cube(names);
  }

  // ---------------------------------------------------------------------
  // Token lists that spell members

  /** A non-empty sequence is its first element followed by the rest. */
  lemma ConsFirst<T>(xs: seq<T>)
    requires xs != []
    ensures [xs[0]] + xs[1..] == xs
  {
  }

  /** Appending the first element and then the rest appends the whole. */
  lemma AppendFirst<T>(a: seq<T>, xs: seq<T>)
    requires xs != []
    ensures a + [xs[0]] + xs[1..] == a + xs
  {
    assert xs == [xs[0]] + xs[1..];
  }

  /** Naming one more level of a plain member. */
  lemma TitledNewMember(prefix: seq<string>, n: string)
    ensures MemberTitled(NewMember(prefix), n) == NewMember(prefix + [n])
  {
  }

  /** The end of the name loop: it stops at the first token that is not a
      `.`. */
  lemma MemberStepEnd(toks: seq<Token>, p: nat, m: Member)
    requires p <= |toks| && (p == |toks| || toks[p].kind != IdentifierSeparator)
    ensures ParseMemberSteps(toks, p, m) == Some(Parsed(m, p))
  {
    assert Next(toks, p, IdentifierSeparator).None?;
  }

  /** One `.[n]` step of the name loop. */
  lemma MemberStepCons(toks: seq<Token>, p: nat, m: Member, n: string, rest: Parsed<Member>)
    requires p + 4 <= |toks| && toks[p].kind == IdentifierSeparator
    requires toks[p + 1] == Token(LeftSquareBracket, "[") && toks[p + 2] == Token(IdentifierExpression, n)
             && toks[p + 3] == Token(RightSquareBracket, "]")
    requires ParseMemberSteps(toks, p + 4, MemberTitled(m, n)) == Some(rest)
    ensures ParseMemberSteps(toks, p, m) == Some(rest)
  {
    assert Next(toks, p, IdentifierSeparator) == Some(p + 1);
    assert ParseNavFunction(toks, p + 1).None?;
    assert Next(toks, p + 1, LeftSquareBracket) == Some(p + 2);
    assert Next(toks, p + 2, IdentifierExpression) == Some(p + 3);
    assert Next(toks, p + 3, RightSquareBracket) == Some(p + 4);
  }

  /** The name loop, started after the first name of a path's tokens, appends
      all of the path's names and stops right after them: from the member
      named `prefix` and the path's first name, it reaches the member named
      `prefix` and the whole path. */
  lemma {:induction false} MemberStepsOnPath(prefix: seq<string>, names: seq<string>, toks: seq<Token>, p: nat,
                                             first: seq<string>, whole: seq<string>, e: nat)
    requires names != [] && At(toks, p, PathTokens(names)) && e == p + |PathTokens(names)|
    requires EndsBefore(toks, e, {IdentifierSeparator})
    requires first == prefix + [names[0]] && whole == prefix + names
    ensures ParseMemberSteps(toks, p + 3, NewMember(first)) == Some(Parsed(NewMember(whole), e))
    decreases |names|
  {
    PathAt(toks, p, names);
    if |names| == 1 {
      MemberStepEnd(toks, p + 3, NewMember(first));
      assert names == [names[0]];
    } else {
      var rest := names[1..];
      PathAt(toks, p + 4, rest);
      AppendFirst(prefix, names);
      MemberStepsOnPath(first, rest, toks, p + 4, first + [rest[0]], whole, e);
      TitledNewMember(first, rest[0]);
      MemberStepCons(toks, p + 3, NewMember(first), rest[0], Parsed(NewMember(whole), e));
    }
  }

  /** A member's first name and name loop: what follows is the key part. */
  lemma MemberHead(toks: seq<Token>, p: nat, n: string, m: Member, e: nat)
    requires p + 3 <= |toks|
    requires toks[p].kind == LeftSquareBracket && toks[p + 2].kind == RightSquareBracket
    requires toks[p + 1].kind == IdentifierExpression && toks[p + 1].value == n
    requires ParseMemberSteps(toks, p + 3, NewMember([n])) == Some(Parsed(m, e))
    ensures e <= |toks| && ParseMember(toks, p) == ParseMemberKey(toks, e, m)
  {
    hide ParseMemberSteps, ParseMemberKey, ParseValue;
    TitledNewMember([], n);
    assert MemberTitled(NewMember([]), toks[p + 1].value) == NewMember([n]);
    assert Next(toks, p, LeftSquareBracket) == Some(p + 1);
    assert Next(toks, p + 1, IdentifierExpression) == Some(p + 2);
    assert Next(toks, p + 2, RightSquareBracket) == Some(p + 3);
  }

  /** A path's tokens take the member rule through its name loop to the key
      part right after them. */
  lemma MemberOnPath(names: seq<string>, toks: seq<Token>, p: nat, e: nat)
    requires names != [] && At(toks, p, PathTokens(names)) && e == p + |PathTokens(names)|
    requires EndsBefore(toks, e, {IdentifierSeparator})
    ensures ParseMember(toks, p) == ParseMemberKey(toks, e, NewMember(names))
  {
    PathAt(toks, p, names);
    MemberStepsOnPath([], names, toks, p, [names[0]], names, e);
    MemberHead(toks, p, names[0], NewMember(names), e);
  }

  /** The tokens of a path, followed by neither `.` nor `.&`, parse as the
      plain member with that path, which renders as the path. */
  lemma MemberRoundTrip(names: seq<string>, toks: seq<Token>, p: nat, e: nat)
    requires names != [] && At(toks, p, PathTokens(names)) && e == p + |PathTokens(names)|
    requires EndsBefore(toks, e, {IdentifierSeparator, ValueSeparator})
    ensures ParseMember(toks, p) == Some(Parsed(NewMember(names), e))
    ensures RenderMember(ParseMember(toks, p).value.node) == RenderPath(names)
  {
    MemberOnPath(names, toks, p, e);
    assert Next(toks, e, ValueSeparator).None?;
  }

  /** Once a member's names are followed by `.&`, the member is keyed: the
      rule never falls back to the member without its key, so a `.&` not
      followed by `[` fails the whole member. */
  lemma ValueSeparatorCommits(toks: seq<Token>, p: nat, n: string, m: Member, e: nat)
    requires p + 3 <= |toks|
    requires toks[p].kind == LeftSquareBracket && toks[p + 2].kind == RightSquareBracket
    requires toks[p + 1].kind == IdentifierExpression && toks[p + 1].value == n
    requires ParseMemberSteps(toks, p + 3, NewMember([n])) == Some(Parsed(m, e))
    requires e < |toks| && toks[e].kind == ValueSeparator
    ensures ParseMember(toks, p).Some? ==>
              e + 4 <= ParseMember(toks, p).value.pos && ParseMember(toks, p).value.node.key.Value?
    ensures (e + 1 == |toks| || toks[e + 1].kind != LeftSquareBracket) ==> ParseMember(toks, p).None?
  {
    MemberHead(toks, p, n, m, e);
  }

  /** The tokens of `.&[v]`. */
  function KeyTokens(kind: TokenKind, v: string): (r: seq<Token>)
    ensures |r| == 4
  {
    [Token(ValueSeparator, ".&"), Token(LeftSquareBracket, "["), Token(kind, v), Token(RightSquareBracket, "]")]
  }

  /** What an occurrence of `.&[v]` holds. */
  lemma KeyAt(toks: seq<Token>, e: nat, kind: TokenKind, v: string)
    requires At(toks, e, KeyTokens(kind, v))
    ensures e + 4 <= |toks| && toks[e] == Token(ValueSeparator, ".&") && toks[e + 1] == Token(LeftSquareBracket, "[")
            && toks[e + 2] == Token(kind, v) && toks[e + 3] == Token(RightSquareBracket, "]")
  {
    var t := KeyTokens(kind, v);
    AtIndex(toks, e, t, 0);
    AtIndex(toks, e, t, 1);
    AtIndex(toks, e, t, 2);
    AtIndex(toks, e, t, 3);
  }

  /** The key part `.&[v]` with no navigation function after it. */
  lemma KeyedTail(toks: seq<Token>, e: nat, kind: TokenKind, v: string, m: Member)
    requires kind in ValueKinds
    requires e + 4 <= |toks| && toks[e] == Token(ValueSeparator, ".&") && toks[e + 1] == Token(LeftSquareBracket, "[")
             && toks[e + 2] == Token(kind, v) && toks[e + 3] == Token(RightSquareBracket, "]")
    requires e + 4 == |toks| || toks[e + 4].kind != IdentifierSeparator
    ensures ParseMemberKey(toks, e, m) == Some(Parsed(MemberWithValue(m, v), e + 4))
  {
    assert Next(toks, e, ValueSeparator) == Some(e + 1);
    assert Next(toks, e + 1, LeftSquareBracket) == Some(e + 2);
    assert ParseValue(toks, e + 2, ValueKinds) == Some(Parsed(v, e + 3));
    assert Next(toks, e + 3, RightSquareBracket) == Some(e + 4);
    assert Next(toks, e + 4, IdentifierSeparator).None?;
  }

  /** The tokens of a path followed by `.&[v]`, for any value kind a member
      key allows, parse as the member keyed by `v`, which renders as those
      tokens' text. */
  lemma ValueMemberRoundTrip(names: seq<string>, kind: TokenKind, v: string, toks: seq<Token>, p: nat, e: nat)
    requires names != [] && kind in ValueKinds
    requires At(toks, p, PathTokens(names)) && e == p + |PathTokens(names)| && At(toks, e, KeyTokens(kind, v))
    requires EndsBefore(toks, e + 4, {IdentifierSeparator})
    ensures ParseMember(toks, p) == Some(Parsed(Nodes.Member(NewIdentifier(names), Value(v)), e + 4))
    ensures RenderMember(ParseMember(toks, p).value.node) == RenderPath(names) + ".&[" + v + "]"
  {
    KeyAt(toks, e, kind, v);
    MemberOnPath(names, toks, p, e);
    KeyedTail(toks, e, kind, v, NewMember(names));
  }

  /** `[Aaa].[Bbb].[Ccc].&[1]` parses as a keyed member and prints as the
      same text. */
  lemma KeyedMemberExample()
    ensures var toks := PathTokens(["Aaa", "Bbb", "Ccc"]) + KeyTokens(NumberExpression, "1") + [Sentinel];
            ParseMember(toks, 0).Some?
            && RenderMember(ParseMember(toks, 0).value.node) == "[Aaa].[Bbb].[Ccc].&[1]"
  {
    var names := ["Aaa", "Bbb", "Ccc"];
    var path := PathTokens(names);
    var key := KeyTokens(NumberExpression, "1");
    var toks := path + key + [Sentinel];
    assert At(toks, 0, path) by {
      forall i | 0 <= i < |path|
        ensures path[i] == toks[0 + i]
      {
      }
    }
    assert At(toks, 11, key) by {
      forall i | 0 <= i < |key|
        ensures key[i] == toks[11 + i]
      {
      }
    }
    assert toks[15] == Sentinel;
    ValueMemberRoundTrip(names, NumberExpression, "1", toks, 0, 11);
    ThreeNamesText();
  }

  /** The text of the path `[Aaa].[Bbb].[Ccc]`. */
  lemma ThreeNamesText()
    ensures RenderPath(["Aaa", "Bbb", "Ccc"]) + ".&[" + "1" + "]" == "[Aaa].[Bbb].[Ccc].&[1]"
  {
    var names := ["Aaa", "Bbb", "Ccc"];
    assert names[1..] == ["Bbb", "Ccc"];
    assert names[1..][1..] == ["Ccc"];
    assert Join("].[", names) == "Aaa].[Bbb].[Ccc";
  }

  // ---------------------------------------------------------------------
  // The order of alternatives

  /** Neither a function, a tuple nor a set starts at a `[`. */
  lemma NoContainerAtBracket(toks: seq<Token>, p: nat)
    requires p < |toks| && toks[p].kind == LeftSquareBracket
    ensures ParseFunction(toks, p).None? && ParseTuple(toks, p).None? && ParseSet(toks, p).None?
  {
    assert Next(toks, p, IdentifierExpression).None?;
    assert ParseTitles(toks, p).None?;
  }

  /** A range starts with its first member: after a member, the range
      matches exactly when `:` and a second member follow. */
  lemma RangeAfterMember(toks: seq<Token>, p: nat, a: Parsed<Member>)
    requires p <= |toks| && ParseMember(toks, p) == Some(a)
    ensures ParseRange(toks, p).Some?
            <==> a.pos < |toks| && toks[a.pos].kind == RangeSeparator && ParseMember(toks, a.pos + 1).Some?
    ensures ParseRange(toks, p).Some? ==>
              var b := ParseMember(toks, a.pos + 1).value;
              ParseRange(toks, p) == Some(Parsed(Range(Some(a.node), Some(b.node)), b.pos))
  {
    hide ParseMember, ParseMemberSteps, ParseMemberKey, ParseValue;
    if a.pos < |toks| && toks[a.pos].kind == RangeSeparator && ParseMember(toks, a.pos + 1).Some? {
      var b := ParseMember(toks, a.pos + 1).value;
      assert RangeTo(RangeFrom(NewRange, a.node), b.node) == Range(Some(a.node), Some(b.node));
    }
  }

  /** Where a member starts, a tuple child and an operand are the same. */
  lemma ChildIsOperandAtMember(toks: seq<Token>, p: nat, a: Parsed<Member>)
    requires p <= |toks| && ParseMember(toks, p) == Some(a)
    ensures ParseChild(toks, p) == ParseOperand(toks, p)
    ensures ParseRange(toks, p).Some? ==> ParseChild(toks, p) == Some(Parsed(RangeNode(ParseRange(toks, p).value.node), ParseRange(toks, p).value.pos))
    ensures ParseRange(toks, p).None? ==> ParseChild(toks, p) == Some(Parsed(MemberNode(a.node), a.pos))
  {
    NoContainerAtBracket(toks, p);
  }

  /** A member followed by `:` and a second member is read as a range, both
      inside a tuple or set and as an operand; a member with anything else
      after it is read as the member alone. */
  lemma RangeBeforeMember(toks: seq<Token>, p: nat, a: Parsed<Member>)
    requires p <= |toks| && ParseMember(toks, p) == Some(a)
    ensures ParseChild(toks, p) == ParseOperand(toks, p)
    ensures a.pos < |toks| && toks[a.pos].kind == RangeSeparator && ParseMember(toks, a.pos + 1).Some? ==>
              var b := ParseMember(toks, a.pos + 1).value;
              ParseChild(toks, p) == Some(Parsed(RangeNode(Range(Some(a.node), Some(b.node))), b.pos))
    ensures !(a.pos < |toks| && toks[a.pos].kind == RangeSeparator && ParseMember(toks, a.pos + 1).Some?) ==>
              ParseChild(toks, p) == Some(Parsed(MemberNode(a.node), a.pos))
  {
    RangeAfterMember(toks, p, a);
    ChildIsOperandAtMember(toks, p, a);
  }

  /** A `(` that starts a set is read as the set, never as a parenthesised
      expression: sets are tried before expressions. */
  lemma SetBeforeParentheses(toks: seq<Token>, p: nat, s: Parsed<Nodes.Set>)
    requires p < |toks| && toks[p].kind == LeftRoundBracket
    requires ParseSet(toks, p) == Some(s)
    ensures ParseOperand(toks, p) == Some(Parsed(SetNode(s.node), s.pos))
  {
    assert Next(toks, p, IdentifierExpression).None?;
    assert ParseTitles(toks, p).None?;
    assert ParseFunction(toks, p).None?;
  }

  /** A constant value token followed by an identifier token reads as one
      constant: `5` `x` is the constant `5x`. */
  lemma ConstantGluesIdentifier(toks: seq<Token>, p: nat)
    requires p + 1 < |toks| && toks[p].kind in ConstantKinds && toks[p + 1].kind == IdentifierExpression
    ensures ParseConstant(toks, p) == Some(Parsed(Some(toks[p].value + toks[p + 1].value), p + 2))
  {
  }

  /** A number not followed by an identifier is a constant of its own. */
  lemma NumberConstant(toks: seq<Token>, p: nat)
    requires p < |toks| && toks[p].kind == NumberExpression
    requires p + 1 == |toks| || toks[p + 1].kind != IdentifierExpression
    ensures ParseConstant(toks, p) == Some(Parsed(Some(toks[p].value), p + 1))
  {
  }

  /** A number is read as a constant operand: no function, tuple, set,
      range or member starts with it. */
  lemma NumberOperand(toks: seq<Token>, p: nat)
    requires p < |toks| && toks[p].kind == NumberExpression
    requires p + 1 == |toks| || toks[p + 1].kind != IdentifierExpression
    ensures ParseOperand(toks, p) == Some(Parsed(ConstantNode(Some(toks[p].value)), p + 1))
  {
    assert Next(toks, p, IdentifierExpression).None?;
    assert ParseTitles(toks, p).None?;
    assert ParseMember(toks, p).None?;
    NumberConstant(toks, p);
  }

  /** An operand and nothing to continue it is an expression of one
      operand. */
  lemma SingleOperandExpression(toks: seq<Token>, p: nat, x: Parsed<Node>)
    requires p <= |toks| && ParseOperand(toks, p) == Some(x)
    requires NextIn(toks, x.pos, {MathsOperator, LogicsOperator}).None?
    ensures ParseExpression(toks, p) == Some(Parsed(Expression([x.node], [], false, false), x.pos))
  {
    assert WithOperand(NewExpression, x.node) == Expression([x.node], [], false, false);
  }

  /** After an operand and an operator, the loop goes on at the next token
      with both added. */
  lemma OperationsStep(toks: seq<Token>, p: nat, e: Expression, x: Parsed<Node>, e2: Expression)
    requires p <= |toks| && |e.operands| == |e.operators| && AllWellFormed(e.operands)
    requires ParseOperand(toks, p) == Some(x)
    requires NextIn(toks, x.pos, {MathsOperator, LogicsOperator}) == Some(x.pos + 1)
    requires e2 == WithOperator(WithOperand(e, x.node), toks[x.pos].value)
    ensures ParseOperations(toks, p, e) == ParseOperations(toks, x.pos + 1, e2)
  {
  }

  /** Where no operand starts, the operand loop fails. */
  lemma NoOperandNoOperations(toks: seq<Token>, p: nat, e: Expression)
    requires p <= |toks| && |e.operands| == |e.operators| && AllWellFormed(e.operands)
    requires ParseOperand(toks, p).None?
    ensures ParseOperations(toks, p, e).None?
  {
  }

  /** An operator token is the next operator. */
  lemma NextOperator(toks: seq<Token>, q: nat)
    requires q < |toks| && toks[q].kind in {MathsOperator, LogicsOperator}
    ensures NextIn(toks, q, {MathsOperator, LogicsOperator}) == Some(q + 1)
  {
  }

  /** One well-formed operand and one operator make a well-formed start of
      the operand loop. */
  lemma FirstOperation(x: Node, op: string, e2: Expression)
    requires WellFormed(x) && e2 == WithOperator(WithOperand(NewExpression, x), op)
    ensures |e2.operands| == |e2.operators| && AllWellFormed(e2.operands)
  {
    assert e2.operands == [x];
  }

  /** An operator that no operand follows fails the whole expression. */
  lemma OperatorWithoutOperand(toks: seq<Token>, p: nat, x: Parsed<Node>, q: nat, e2: Expression)
    requires p <= |toks| && ParseOperand(toks, p) == Some(x)
    requires x.pos < |toks| && toks[x.pos].kind in {MathsOperator, LogicsOperator}
    requires q == x.pos + 1 && ParseOperand(toks, q).None?
    requires e2 == WithOperator(WithOperand(NewExpression, x.node), toks[x.pos].value)
    ensures ParseExpression(toks, p).None?
  {
    NextOperator(toks, x.pos);
    FirstOperation(x.node, toks[x.pos].value, e2);
    NoOperandNoOperations(toks, q, e2);
    OperationsStep(toks, p, NewExpression, x, e2);
  }

  /** The tokens `1 +` and then the end of the statement. */
  const TrailingOperatorTokens: seq<Token> :=
    [Token(NumberExpression, "1"), Token(MathsOperator, "+"), Sentinel]

  /** Nothing is an operand at the end-of-input token, wherever it is. */
  lemma NoOperandAtSentinel(toks: seq<Token>, p: nat)
    requires p < |toks| && toks[p].kind == LastToken
    ensures ParseOperand(toks, p).None?
  {
    assert Next(toks, p, IdentifierExpression).None?;
    assert ParseTitles(toks, p).None?;
    assert ParseMember(toks, p).None?;
  }

  /** `1 +` and then the end of the statement is not an expression. */
  lemma TrailingOperatorFails()
    ensures ParseExpression(TrailingOperatorTokens, 0).None?
  {
    var toks := TrailingOperatorTokens;
    NumberOperand(toks, 0);
    NoOperandAtSentinel(toks, 2);
    var x := Parsed(ConstantNode(Some("1")), 1);
    OperatorWithoutOperand(toks, 0, x, 2, WithOperator(WithOperand(NewExpression, x.node), "+"));
  }

  // ---------------------------------------------------------------------
  // The WHERE clause

  /** `WHERE F()`: the tokens after `WHERE`. */
  const WhereFunctionTokens: seq<Token> :=
    [Token(TokenKind.Where, "WHERE"), Token(IdentifierExpression, "F"),
     Token(LeftRoundBracket, "("), Token(RightRoundBracket, ")"), Sentinel]

  /** `F()` parses as the function `F` with no parameters. */
  lemma WhereFunctionParses()
    ensures ParseFunction(WhereFunctionTokens, 1) == Some(Parsed(Function(["F"], []), 4))
  {
    var toks := WhereFunctionTokens;
    assert Next(toks, 1, IdentifierExpression) == Some(2);
    assert Next(toks, 2, IdentifierSeparator).None?;
    assert ParseTitles(toks, 1) == Some(Parsed(["F"], 2));
    assert Next(toks, 2, LeftRoundBracket) == Some(3);
    assert Next(toks, 3, RightRoundBracket) == Some(4);
    assert FunctionTitled(NewFunction, ["F"]) == Function(["F"], []);
  }

  /** No range, member, set or tuple starts at `F`. */
  lemma WhereFunctionNotSlicer()
    ensures ParseWhereSlicerBeforeFunction(WhereFunctionTokens, 1).None?
  {
    var toks := WhereFunctionTokens;
    assert Next(toks, 1, LeftSquareBracket).None?;
    assert ParseMember(toks, 1).None?;
    assert ParseRange(toks, 1).None?;
    assert Next(toks, 1, LeftRoundBracket).None?;
    assert Next(toks, 1, LeftCurlyBracket).None?;
  }

  /** As written, `WHERE F()` throws an invalid cast; the corrected step
      adds the function as the only child of a `WHERE` tuple. */
  lemma WhereFunctionThrows(q: Query)
    requires QueryWellFormed(q)
    ensures ParseWhereAsWritten(WhereFunctionTokens, 0, q) == CastFailure
    ensures ParseWhere(WhereFunctionTokens, 0, q)
            == Some(Parsed(Queries.Where(q, Tuple([FunctionNode(Function(["F"], []))])), 4))
  {
    WhereFunctionParses();
    WhereFunctionNotSlicer();
    WhereAsWrittenAgrees(WhereFunctionTokens, 0, q);
  }

  // ---------------------------------------------------------------------
  // Errors of the whole statement

  /** The end-of-input token as the messages list it. */
  lemma SentinelListed()
    ensures TokenList([Sentinel]) == "LastToken[]"
  {
    assert TokenToString(Sentinel) == "LastToken[]";
    var ts := seq(1, i requires 0 <= i < 1 => TokenToString([Sentinel][i]));
    assert ts == ["LastToken[]"];
  }

  /** The message for a statement of only the end-of-input token. */
  lemma SentinelMessage()
    ensures NoRulesMessage([Sentinel]) == "Cannot parse the expression. There are no such rules. LastToken[]."
  {
    SentinelListed();
  }

  /** No query starts at the end-of-input token. */
  lemma NoQueryAtEnd()
    ensures ParseQueryTokens([Sentinel], 0).None?
  {
    assert Next([Sentinel], 0, With).None?;
    assert Next([Sentinel], 0, Select).None?;
    assert ParseHead([Sentinel], 0).None?;
  }

  /** An empty statement is only the end-of-input token: no rule matches,
      and the message lists that token. */
  lemma EmptyStatementRejected()
    ensures ParseTokens([Sentinel])
            == Failure(ArgumentError("Cannot parse the expression. There are no such rules. LastToken[]."))
  {
    NoQueryAtEnd();
    SentinelMessage();
  }
}
