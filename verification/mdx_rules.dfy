/** The MDX rule table of Lexer/Lexer.cs (lines 14-47): twenty-eight ordered
    rules, each a token kind, a pattern and whether its matches are dropped. */
module MdxRules {
  import opened Wrappers
  import opened Tokens
  import opened Patterns
  import opened Lexer

  /** A rule of the table before it becomes a matcher. */
  datatype Definition = Definition(kind: TokenKind, pattern: Pattern, ignored: bool)

  const DimensionProperties: seq<string> := [
    "CATALOG_NAME", "CHILDREN_CARDINALITY", "CUSTOM_ROLLUP_PROPERTIES", "DESCRIPTION",
    "DIMENSION_UNIQUE_NAME", "HIERARCHY_UNIQUE_NAME", "IS_DATAMEMBER", "IS_PLACEHOLDERMEMBER",
    "KEY0", "LCID", "LEVEL_NUMBER", "LEVEL_UNIQUE_NAME", "MEMBER_CAPTION", "MEMBER_KEY",
    "MEMBER_NAME", "MEMBER_TYPE", "MEMBER_UNIQUE_NAME", "MEMBER_VALUE", "PARENT_COUNT",
    "PARENT_LEVEL", "PARENT_UNIQUE_NAME", "SKIPPED_LEVELS", "UNARY_OPERATOR", "UNIQUE_NAME",
    "CUSTOM_ROLLUP"]

  const MathsOperators: seq<string> := ["+", "-", "*", "/", "<=", ">=", "<>", "<", "=", ">"]

  /** The rules in priority order. Only end-of-line characters are ignored. */
  const Definitions: seq<Definition> := [
    Definition(EndOfLine, OneOf("\n|\r"), true),
    Definition(Properties, Words(["PROPERTIES"]), false),
    Definition(DimensionProperty, Words(DimensionProperties), false),
    Definition(Dimension, Words(["DIMENSION"]), false),
    Definition(AxisNameIdentifier, AxisName, false),
    Definition(Select, Words(["SELECT"]), false),
    Definition(Non, Words(["NON"]), false),
    Definition(Empty, Words(["EMPTY"]), false),
    Definition(On, Words(["ON"]), false),
    Definition(From, Words(["FROM"]), false),
    Definition(Where, Words(["WHERE"]), false),
    Definition(LeftCurlyBracket, OneOf("{"), false),
    Definition(RightCurlyBracket, OneOf("}"), false),
    Definition(LeftRoundBracket, OneOf("("), false),
    Definition(RightRoundBracket, OneOf(")"), false),
    Definition(LeftSquareBracket, OneOf("["), false),
    Definition(RightSquareBracket, OneOf("]"), false),
    Definition(MemberSeparator, OneOf(","), false),
    Definition(RangeSeparator, OneOf(":"), false),
    Definition(ValueSeparator, Words([".&"]), false),
    Definition(IdentifierSeparator, OneOf("."), false),
    Definition(DateExpression, Date, false),
    Definition(NumberExpression, Number, false),
    Definition(LogicalExpression, Words(["TRUE", "FALSE"]), false),
    Definition(NotOperator, Words(["NOT"]), false),
    Definition(LogicsOperator, Words(["AND"]), false),
    Definition(MathsOperator, Words(MathsOperators), false),
    Definition(IdentifierExpression, Identifier, false)
  ]

  /** The matcher of a definition; a regular expression never matches at the
      end of the input. */
  function RuleOf(d: Definition): Rule {
    Rule(d.kind, (s: string, pos: nat) => if pos < |s| then Run(d.pattern, s, pos) else None, d.ignored)
  }

  /** The matchers of the definitions, in the same order. */
  function RulesOf(ds: seq<Definition>): (r: seq<Rule>)
    ensures |r| == |ds|
    ensures forall i :: 0 <= i < |ds| ==> r[i] == RuleOf(ds[i])
  {
    if ds == [] then [] else [RuleOf(ds[0])] + RulesOf(ds[1..])
  }

  const MdxTable: seq<Rule> := RulesOf(Definitions)

  /** The matcher of rule `i` runs the rule's pattern. */
  lemma RuleRuns(i: nat, s: string, pos: nat)
    requires i < |Definitions| && pos < |s|
    ensures MdxTable[i].matcher(s, pos) == Run(Definitions[i].pattern, s, pos)
    ensures MdxTable[i].kind == Definitions[i].kind
  {
    assert MdxTable[i] == RuleOf(Definitions[i]);
  }

  /** Every alternative in the table is a non-empty literal. */
  lemma DefinitionsOk()
    ensures forall i :: 0 <= i < |Definitions| ==> PatternOk(Definitions[i].pattern)
  {
  }

  /** The table only reports non-empty matches inside the source, on every
      input, so the scan always terminates. */
  lemma MdxTableWellFormed(s: string)
    ensures WellFormedOn(MdxTable, s)
  {
    DefinitionsOk();
    forall i: int, pos: nat | 0 <= i < |MdxTable| && pos < |s|
      ensures ProperMatch(MdxTable[i].matcher(s, pos), s, pos)
    {
      RuleRuns(i, s, pos);
    }
  }

  /** No rule of the table produces the sentinel kind. */
  lemma MdxTableHasNoSentinelRule()
    ensures NoSentinelRule(MdxTable)
  {
    DefinitionsAvoidSentinel();
    forall i | 0 <= i < |MdxTable|
      ensures MdxTable[i].kind != LastToken
    {
      assert MdxTable[i] == RuleOf(Definitions[i]);
    }
  }

  lemma DefinitionsAvoidSentinel()
    ensures forall i :: 0 <= i < |Definitions| ==> Definitions[i].kind != LastToken
  {
  }

  /** `Lexer.Tokenize` with the MDX table: a successful result ends with
      the sentinel, which occurs nowhere else. */
  function MdxTokenize(s: string): (r: Result<seq<Token>, LexError>)
    ensures r.Success? ==>
              && |r.value| >= 1
              && r.value[|r.value| - 1] == Sentinel
              && forall k :: 0 <= k < |r.value| - 1 ==> r.value[k].kind != LastToken
  {
    MdxTableWellFormed(s);
    MdxTableHasNoSentinelRule();
    SentinelOnSuccess(s);
    Tokenize(MdxTable, s)
  }

  lemma SentinelOnSuccess(s: string)
    requires WellFormedOn(MdxTable, s)
    requires NoSentinelRule(MdxTable)
    ensures Tokenize(MdxTable, s).Success? ==>
              var ts := Tokenize(MdxTable, s).value;
              |ts| >= 1 && ts[|ts| - 1] == Sentinel
              && forall k :: 0 <= k < |ts| - 1 ==> ts[k].kind != LastToken
  {
    if Tokenize(MdxTable, s).Success? {
      TokenizeEndsWithSingleSentinel(MdxTable, s);
    }
  }

  /** A rule of the table can only match where its pattern can start. */
  lemma RuleStartsWithInitial(i: nat, s: string, pos: nat)
    requires i < |Definitions| && pos < |s|
    ensures MdxTable[i].matcher(s, pos).Some? ==> CanStart(Definitions[i].pattern, s[pos])
  {
    DefinitionsOk();
    RuleRuns(i, s, pos);
    RunStartsWithInitial(Definitions[i].pattern, s, pos);
  }

  /** The rules before `k` cannot start with `c`. */
  predicate NoneStartBefore(k: nat, c: char)
    requires k <= |Definitions|
  {
    forall j :: 0 <= j < k ==> !CanStart(Definitions[j].pattern, c)
  }

  /** When no rule before `k` can start with the character at `pos`, the
      first match is searched from `k` on. */
  lemma SkipRulesBefore(k: nat, s: string, pos: nat)
    requires k <= |Definitions| && pos < |s|
    requires NoneStartBefore(k, s[pos])
    ensures FirstMatch(MdxTable, s, pos, 0) == FirstMatch(MdxTable, s, pos, k)
  {
    forall j | 0 <= j < k
      ensures MdxTable[j].matcher(s, pos).None?
    {
      RuleStartsWithInitial(j, s, pos);
    }
    FirstMatchSkips(MdxTable, s, pos, 0, k);
  }

  lemma DotNotEarlier()
    ensures NoneStartBefore(19, '.')
  {
    KeywordsNotPreempting('.');
    forall j | 11 <= j < 19
      ensures !CanStart(Definitions[j].pattern, '.')
    {
    }
  }

  /** A single-literal rule matches exactly where its literal occurs. */
  lemma SingleWord(w: string, s: string, pos: nat)
    requires pos < |s|
    ensures Run(Words([w]), s, pos) == if LiteralAt(w, s, pos) then Some(|w|) else None
  {
    assert [w][0] == w;
  }

  /** Rule 19 matches `.&` and nothing else. */
  lemma Rule19(s: string, pos: nat)
    requires pos < |s| && s[pos] == '.'
    ensures MdxTable[19].matcher(s, pos) == if pos + 1 < |s| && s[pos + 1] == '&' then Some(2) else None
    ensures MdxTable[19].kind == ValueSeparator
  {
    RuleRuns(19, s, pos);
    SingleWord(".&", s, pos);
    if pos + 1 < |s| && s[pos + 1] == '&' {
      assert LiteralAt(".&", s, pos);
    } else {
      if pos + 1 < |s| {
        assert Upper(s[pos + 1]) != Upper(".&"[1]);
      }
      assert !LiteralAt(".&", s, pos);
    }
  }

  /** `.&` is the value separator: its two-character rule comes before the
      one-character identifier separator. */
  lemma ValueSeparatorFirst(s: string, pos: nat)
    requires pos + 1 < |s| && s[pos] == '.' && s[pos + 1] == '&'
    ensures FirstMatch(MdxTable, s, pos, 0) == Some((19, 2))
    ensures MdxTable[19].kind == ValueSeparator
  {
    DotNotEarlier();
    SkipRulesBefore(19, s, pos);
    Rule19(s, pos);
    FirstMatchHit(MdxTable, s, pos, 19, 2);
  }

  /** A dot not followed by `&` is the identifier separator. */
  lemma IdentifierSeparatorOtherwise(s: string, pos: nat)
    requires pos < |s| && s[pos] == '.'
    requires !(pos + 1 < |s| && s[pos + 1] == '&')
    ensures FirstMatch(MdxTable, s, pos, 0) == Some((20, 1))
    ensures MdxTable[20].kind == IdentifierSeparator
  {
    DotNotEarlier();
    SkipRulesBefore(19, s, pos);
    DotFromValueSeparator(s, pos);
  }

  /** From the value-separator rule on, a dot not followed by `&` is first
      matched by the identifier-separator rule. */
  lemma DotFromValueSeparator(s: string, pos: nat)
    requires pos < |s| && s[pos] == '.'
    requires !(pos + 1 < |s| && s[pos + 1] == '&')
    ensures FirstMatch(MdxTable, s, pos, 19) == Some((20, 1))
    ensures MdxTable[20].kind == IdentifierSeparator
  {
    Rule19(s, pos);
    FirstMatchSkips(MdxTable, s, pos, 19, 20);
    RuleRuns(20, s, pos);
    FirstMatchHit(MdxTable, s, pos, 20, 1);
  }

  /** The first rule that could take the text `DIMENSION_UNIQUE_NAME`. */
  lemma DimensionPropertyWord(s: string, pos: nat)
    requires pos < |s| && LiteralAt("DIMENSION_UNIQUE_NAME", s, pos)
    ensures FirstWord(DimensionProperties, s, pos, 0) == Some(4)
    ensures Run(Words(DimensionProperties), s, pos) == Some(21)
  {
    var w := "DIMENSION_UNIQUE_NAME";
    assert Upper(s[pos]) == Upper(w[0]) && Upper(s[pos + 1]) == Upper(w[1]);
    assert !LiteralAt(DimensionProperties[0], s, pos) by {
      assert Upper(DimensionProperties[0][0]) == 'C';
    }
    assert !LiteralAt(DimensionProperties[1], s, pos) by {
      assert Upper(DimensionProperties[1][0]) == 'C';
    }
    assert !LiteralAt(DimensionProperties[2], s, pos) by {
      assert Upper(DimensionProperties[2][0]) == 'C';
    }
    assert !LiteralAt(DimensionProperties[3], s, pos) by {
      assert Upper(DimensionProperties[3][1]) == 'E';
    }
    assert DimensionProperties[4] == w;
  }

  /** Neither the line-break rule nor `PROPERTIES` can start with a `D`. */
  lemma NothingBeforePropertiesAtD(c: char)
    requires Upper(c) == 'D'
    ensures NoneStartBefore(2, c)
  {
    assert !CanStart(Definitions[1].pattern, c) by {
      assert Definitions[1].pattern.words == ["PROPERTIES"];
    }
  }

  /** At `DIMENSION_UNIQUE_NAME` the search for the first match starts at
      the dimension-property rule. */
  lemma SkipToDimensionProperties(s: string, pos: nat)
    requires pos < |s| && LiteralAt("DIMENSION_UNIQUE_NAME", s, pos)
    ensures FirstMatch(MdxTable, s, pos, 0) == FirstMatch(MdxTable, s, pos, 2)
  {
    assert Upper(s[pos + 0]) == Upper("DIMENSION_UNIQUE_NAME"[0]);
    NothingBeforePropertiesAtD(s[pos]);
    SkipRulesBefore(2, s, pos);
  }

  /** The dimension-property rule matches all of `DIMENSION_UNIQUE_NAME`. */
  lemma DimensionPropertyRuleMatches(s: string, pos: nat)
    requires pos < |s| && LiteralAt("DIMENSION_UNIQUE_NAME", s, pos)
    ensures MdxTable[2].kind == DimensionProperty && MdxTable[2].matcher(s, pos) == Some(21)
  {
    DimensionEntries();
    RuleRuns(2, s, pos);
    DimensionPropertyWord(s, pos);
  }

  /** The table's entries for dimension properties and `DIMENSION`. */
  lemma DimensionEntries()
    ensures Definitions[2] == Definition(DimensionProperty, Words(DimensionProperties), false)
    ensures Definitions[3] == Definition(Dimension, Words(["DIMENSION"]), false)
  {
  }

  /** A literal occurs wherever a literal it begins with occurs. */
  lemma LiteralPrefix(w: string, v: string, s: string, pos: nat)
    requires LiteralAt(w, s, pos) && v <= w
    ensures LiteralAt(v, s, pos)
  {
    forall k | 0 <= k < |v|
      ensures Upper(s[pos + k]) == Upper(v[k])
    {
      assert v[k] == w[k];
    }
  }

  /** The `DIMENSION` rule matches the first nine characters of
      `DIMENSION_UNIQUE_NAME`. */
  lemma DimensionRuleMatches(s: string, pos: nat)
    requires pos < |s| && LiteralAt("DIMENSION_UNIQUE_NAME", s, pos)
    ensures MdxTable[3].kind == Dimension && MdxTable[3].matcher(s, pos) == Some(9)
  {
    DimensionEntries();
    RuleRuns(3, s, pos);
    LiteralPrefix("DIMENSION_UNIQUE_NAME", "DIMENSION", s, pos);
    SingleWord("DIMENSION", s, pos);
  }

  /** First-match priority decides between two keyword rules: the text
      `DIMENSION_UNIQUE_NAME` is a dimension property, because that rule
      comes before the `DIMENSION` rule, which would also match there. */
  lemma DimensionUniqueNameIsProperty(s: string, pos: nat)
    requires pos < |s| && LiteralAt("DIMENSION_UNIQUE_NAME", s, pos)
    ensures FirstMatch(MdxTable, s, pos, 0) == Some((2, 21))
    ensures MdxTable[2].kind == DimensionProperty
    ensures MdxTable[3].kind == Dimension && MdxTable[3].matcher(s, pos) == Some(9)
  {
    SkipToDimensionProperties(s, pos);
    DimensionPropertyRuleMatches(s, pos);
    FirstMatchHit(MdxTable, s, pos, 2, 21);
    DimensionRuleMatches(s, pos);
  }


  /** The characters some rule can begin a match with: the identifier
      class (space included), the ignored line-break class, the brackets and
      separators, and the operator symbols. */
  predicate InAlphabet(c: char) {
    IsIdentifierRunChar(c) || c in "\n|\r{}()[],:.+*<>="
  }

  /** Upper-casing leaves every character outside `a`-`z` alone. */
  lemma UpperKeepsNonLetters(c: char)
    requires !('a' <= c <= 'z')
    ensures Upper(c) == c
  {
  }

  /** Every word begins with a character of the alphabet that upper-casing
      leaves alone. */
  predicate InitialsInAlphabet(words: seq<string>) {
    forall k :: 0 <= k < |words| ==> |words[k]| > 0 && InAlphabet(words[k][0]) && !('a' <= words[k][0] <= 'z')
  }

  /** No word of such a list starts with a character outside the alphabet. */
  lemma NoWordStarts(words: seq<string>, c: char)
    requires !InAlphabet(c) && InitialsInAlphabet(words)
    ensures !SomeWordStartsWith(words, c)
  {
    UpperKeepsNonLetters(c);
    if SomeWordStartsWith(words, c) {
      var k :| 0 <= k < |words| && |words[k]| > 0 && Upper(words[k][0]) == Upper(c);
      UpperKeepsNonLetters(words[k][0]);
    }
  }

  /** The word lists of the table all begin inside the alphabet. */
  lemma TableInitials(j: nat)
    requires j < |Definitions| && Definitions[j].pattern.Words?
    ensures InitialsInAlphabet(Definitions[j].pattern.words)
  {
    if j == 2 {
      assert Definitions[j].pattern.words == DimensionProperties;
      PropertyInitials();
    } else if j == 26 {
      assert Definitions[j].pattern.words == MathsOperators;
      OperatorInitials();
    }
  }

  /** Every word begins with an upper-case letter. */
  predicate LetterInitials(words: seq<string>) {
    forall k :: 0 <= k < |words| ==> |words[k]| > 0 && 'A' <= words[k][0] <= 'Z'
  }

  /** No word of such a list starts with a character that is not a letter. */
  lemma NoLetterWordStarts(words: seq<string>, c: char)
    requires !('a' <= c <= 'z') && !('A' <= c <= 'Z') && LetterInitials(words)
    ensures !SomeWordStartsWith(words, c)
  {
    UpperKeepsNonLetters(c);
    if SomeWordStartsWith(words, c) {
      var k :| 0 <= k < |words| && |words[k]| > 0 && Upper(words[k][0]) == Upper(c);
      UpperKeepsNonLetters(words[k][0]);
    }
  }

  lemma PropertyInitials()
    ensures LetterInitials(DimensionProperties) && InitialsInAlphabet(DimensionProperties)
  {
    forall k | 0 <= k < |DimensionProperties|
      ensures |DimensionProperties[k]| > 0 && 'A' <= DimensionProperties[k][0] <= 'Z'
    {
    }
    LettersInAlphabet(DimensionProperties);
  }

  /** Capital initials lie in the alphabet. */
  lemma LettersInAlphabet(words: seq<string>)
    requires LetterInitials(words)
    ensures InitialsInAlphabet(words)
  {
  }

  /** The keyword rules, before the brackets, are word lists with letter
      initials; the axis-name rule's words are too. */
  lemma KeywordInitials(j: nat)
    requires 1 <= j < 11
    ensures Definitions[j].pattern.Words? || Definitions[j].pattern.AxisName?
    ensures Definitions[j].pattern.Words? ==> LetterInitials(Definitions[j].pattern.words)
    ensures Definitions[j].pattern.AxisName? ==> LetterInitials(AxisWords + ["AXIS("])
  {
    if j == 2 {
      assert Definitions[j].pattern.words == DimensionProperties;
      PropertyInitials();
    } else if j == 4 {
      assert LetterInitials(AxisWords + ["AXIS("]);
    }
  }

  lemma OperatorInitials()
    ensures InitialsInAlphabet(MathsOperators)
  {
    forall k | 0 <= k < |MathsOperators|
      ensures |MathsOperators[k]| > 0 && MathsOperators[k][0] in "+-*/<>="
    {
    }
  }

  /** No rule can start with a character outside the alphabet. */
  lemma OutsideAlphabetStartsNothing(c: char)
    requires !InAlphabet(c)
    ensures NoneStartBefore(|Definitions|, c)
  {
    forall j | 0 <= j < |Definitions|
      ensures !CanStart(Definitions[j].pattern, c)
    {
      var p := Definitions[j].pattern;
      if p.Words? {
        TableInitials(j);
        NoWordStarts(p.words, c);
      } else if p.AxisName? {
        assert InitialsInAlphabet(AxisWords + ["AXIS("]);
        NoWordStarts(AxisWords + ["AXIS("], c);
      }
    }
  }

  /** The identifier rule matches at every identifier character. */
  lemma IdentifierMatchesAtIdentifierChar(s: string, pos: nat)
    requires pos < |s| && IsIdentifierChar(s[pos])
    ensures Run(Identifier, s, pos).Some?
  {
    assert IdentifierRun(s, pos) >= 1;
  }

  /** The index of a rule whose one-character class holds `c`. */
  function ClassRuleFor(c: char): (i: nat)
    requires c in "\n|\r{}()[],."
    ensures i < |Definitions| && Definitions[i].pattern.OneOf? && c in Definitions[i].pattern.chars
  {
    if c in "\n|\r" then 0
    else if c == '{' then 11
    else if c == '}' then 12
    else if c == '(' then 13
    else if c == ')' then 14
    else if c == '[' then 15
    else if c == ']' then 16
    else if c == ',' then 17
    else 20
  }

  /** The operator rule matches at every operator symbol outside the
      identifier class. */
  lemma OperatorMatches(s: string, pos: nat)
    requires pos < |s| && s[pos] in "+*<>="
    ensures Run(Words(MathsOperators), s, pos).Some?
  {
    var c := s[pos];
    var k := if c == '+' then 0 else if c == '*' then 2 else if c == '<' then 7 else if c == '=' then 8 else 9;
    assert LiteralAt(MathsOperators[k], s, pos);
  }

  /** Some rule matches at every non-space character of the alphabet. */
  lemma InsideAlphabetMatches(s: string, pos: nat)
    requires pos < |s| && s[pos] != ' ' && InAlphabet(s[pos])
    ensures FirstMatch(MdxTable, s, pos, 0).Some?
  {
    var c := s[pos];
    var i: nat;
    if IsIdentifierChar(c) {
      i := 27;
      IdentifierMatchesAtIdentifierChar(s, pos);
    } else if c in "\n|\r{}()[],." {
      i := ClassRuleFor(c);
    } else {
      i := 26;
      OperatorMatches(s, pos);
    }
    RuleRuns(i, s, pos);
    assert MdxTable[i].matcher(s, pos).Some?;
  }

  /** The MDX lexer fails at a character exactly when it is not a space and
      lies outside the alphabet. */
  lemma UnmatchedIffOutsideAlphabet(s: string, pos: nat)
    requires pos < |s| && s[pos] != ' '
    ensures FirstMatch(MdxTable, s, pos, 0).None? <==> !InAlphabet(s[pos])
  {
    if InAlphabet(s[pos]) {
      InsideAlphabetMatches(s, pos);
    } else {
      OutsideAlphabetStartsNothing(s[pos]);
      SkipRulesBefore(|Definitions|, s, pos);
    }
  }

  /** No rule matches at a character outside the alphabet. */
  lemma UnmatchedOutsideAlphabet(s: string, pos: nat)
    requires pos < |s| && s[pos] != ' ' && !InAlphabet(s[pos])
    ensures FirstMatch(MdxTable, s, pos, 0).None?
  {
    UnmatchedIffOutsideAlphabet(s, pos);
  }

  /** Text made only of alphabet characters always tokenizes. */
  lemma AlphabetTextTokenizes(s: string)
    requires forall k :: 0 <= k < |s| ==> InAlphabet(s[k])
    ensures MdxTokenize(s).Success?
  {
    MdxTableWellFormed(s);
    forall k | 0 <= k < |s|
      ensures Steppable(MdxTable, s, k)
    {
      if s[k] != ' ' {
        UnmatchedIffOutsideAlphabet(s, k);
      }
    }
    ScanFailsOnlyOnUnmatched(MdxTable, s, 0);
  }

  /** A lexical error names a character of the text that lies outside the
      alphabet. */
  lemma ErrorIsOutsideAlphabet(s: string)
    requires MdxTokenize(s).Failure?
    ensures var e := MdxTokenize(s).error;
            e.at < |s| && s[e.at] == e.symbol && !InAlphabet(e.symbol)
  {
    MdxTableWellFormed(s);
    ScanFailure(MdxTable, s, 0);
    var e := Scan(MdxTable, s, 0).error;
    UnmatchedIffOutsideAlphabet(s, e.at);
  }

  /** The kind each bracket and the comma stand for. */
  function PunctuationKind(c: char): TokenKind
    requires c in "{}()[],"
  {
    match c
    case '{' => LeftCurlyBracket
    case '}' => RightCurlyBracket
    case '(' => LeftRoundBracket
    case ')' => RightRoundBracket
    case '[' => LeftSquareBracket
    case ']' => RightSquareBracket
    case _ => MemberSeparator
  }

  /** A one-character rule that no earlier rule can pre-empt is the first match. */
  lemma OneCharRule(s: string, pos: nat, i: nat)
    requires i < |Definitions| && pos < |s|
    requires NoneStartBefore(i, s[pos])
    requires Definitions[i].pattern == OneOf([s[pos]])
    ensures FirstMatch(MdxTable, s, pos, 0) == Some((i, 1))
    ensures MdxTable[i].kind == Definitions[i].kind
  {
    SkipRulesBefore(i, s, pos);
    RuleRuns(i, s, pos);
    FirstMatchHit(MdxTable, s, pos, i, 1);
  }

  /** No keyword rule and not the line-break rule can start with a
      character that is neither a letter nor a line break. */
  lemma KeywordsNotPreempting(c: char)
    requires !('a' <= c <= 'z') && !('A' <= c <= 'Z') && c !in "\n|\r"
    ensures NoneStartBefore(11, c)
  {
    forall j | 0 <= j < 11
      ensures !CanStart(Definitions[j].pattern, c)
    {
      if j > 0 {
        KeywordInitials(j);
        var p := Definitions[j].pattern;
        if p.Words? {
          NoLetterWordStarts(p.words, c);
        } else {
          NoLetterWordStarts(AxisWords + ["AXIS("], c);
        }
      }
    }
  }

  /** No rule before a bracket's or the comma's own rule can start with it. */
  lemma PunctuationNotPreempted(c: char)
    requires c in "{}()[],"
    ensures NoneStartBefore(ClassRuleFor(c), c)
  {
    KeywordsNotPreempting(c);
    var i := ClassRuleFor(c);
    forall j | 11 <= j < i
      ensures !CanStart(Definitions[j].pattern, c)
    {
    }
  }

  /** Each bracket and the comma is a one-character token of its own kind,
      wherever it occurs. */
  lemma PunctuationToken(s: string, pos: nat)
    requires pos < |s| && s[pos] in "{}()[],"
    ensures var i := ClassRuleFor(s[pos]);
            FirstMatch(MdxTable, s, pos, 0) == Some((i, 1)) && MdxTable[i].kind == PunctuationKind(s[pos])
  {
    PunctuationNotPreempted(s[pos]);
    PunctuationRule(s[pos]);
    OneCharRule(s, pos, ClassRuleFor(s[pos]));
  }

  /** The rule of a bracket or the comma matches that character alone and
      produces its kind. */
  lemma PunctuationRule(c: char)
    requires c in "{}()[],"
    ensures Definitions[ClassRuleFor(c)].pattern == OneOf([c])
    ensures Definitions[ClassRuleFor(c)].kind == PunctuationKind(c)
  {
    PunctuationEntries();
  }

  /** The table's entries for the brackets and the comma. */
  lemma PunctuationEntries()
    ensures Definitions[11] == Definition(LeftCurlyBracket, OneOf("{"), false)
    ensures Definitions[12] == Definition(RightCurlyBracket, OneOf("}"), false)
    ensures Definitions[13] == Definition(LeftRoundBracket, OneOf("("), false)
    ensures Definitions[14] == Definition(RightRoundBracket, OneOf(")"), false)
    ensures Definitions[15] == Definition(LeftSquareBracket, OneOf("["), false)
    ensures Definitions[16] == Definition(RightSquareBracket, OneOf("]"), false)
    ensures Definitions[17] == Definition(MemberSeparator, OneOf(","), false)
  {
  }

  /** A character outside the alphabet right after an opening bracket is
      reported at its own offset. */
  lemma RejectedAfterPunctuation(s: string)
    requires |s| >= 2 && s[0] in "{}()[],"
    requires s[1] != ' ' && !InAlphabet(s[1])
    ensures MdxTokenize(s) == Failure(UnrecognizedSymbol(s[1], 1))
  {
    MdxTableWellFormed(s);
    ScanRejectsAfterPunctuation(s);
    TokenizeFails(MdxTable, s);
  }

  /** The scan behind `RejectedAfterPunctuation`. */
  lemma ScanRejectsAfterPunctuation(s: string)
    requires |s| >= 2 && s[0] in "{}()[],"
    requires s[1] != ' ' && !InAlphabet(s[1])
    requires WellFormedOn(MdxTable, s)
    ensures Scan(MdxTable, s, 0) == Failure(UnrecognizedSymbol(s[1], 1))
  {
    UnmatchedOutsideAlphabet(s, 1);
    PunctuationPiece(s);
    ScanFailsAfterPiece(MdxTable, s);
  }

  /** A bracket or comma at the start is a piece of one character. */
  lemma PunctuationPiece(s: string)
    requires WellFormedOn(MdxTable, s) && |s| >= 1 && s[0] in "{}()[],"
    ensures NextPiece(MdxTable, s, 0).Some? && PieceEnd(MdxTable, s, 0) == 1
  {
    PunctuationToken(s, 0);
  }

  /** `[$]` is rejected at the dollar sign with the library's message. */
  lemma DollarIsRejected()
    ensures MdxTokenize("[$]") == Failure(UnrecognizedSymbol('$', 1))
    ensures MdxTokenize("[$]").error.Message() == "Unrecognized symbol '$'."
  {
    RejectedAfterPunctuation("[$]");
  }
}
