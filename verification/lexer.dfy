/** The ordered-rule tokenizer of Lexer/Lexer.cs, over an arbitrary rule table.

    A rule pairs a token kind with a matcher and an "ignored" flag. The
    library's matchers are regular expressions; here a matcher is any function
    that, given the source and an offset inside it, reports the length of the
    match that starts exactly at that offset, if there is one. Every fact in
    this module holds for every table whose matchers only report non-empty
    matches inside the source. */
module Lexer {
  import opened Wrappers
  import opened Tokens

  /** The length of the match anchored at the offset, if any. */
  type Matcher = (string, nat) -> Option<nat>

  datatype Rule = Rule(kind: TokenKind, matcher: Matcher, ignored: bool)

  /** The exception thrown for a character no rule matches. The offset is kept
      for the statements below; the message names only the character. */
  datatype LexError = UnrecognizedSymbol(symbol: char, at: nat) {
    function Message(): string {
      "Unrecognized symbol '" + [symbol] + "'."
    }
  }

  /** A match the scanner can step over: non-empty and inside the source. */
  predicate ProperMatch(m: Option<nat>, s: string, pos: nat) {
    m.Some? ==> 0 < m.value && pos + m.value <= |s|
  }

  /** Every rule reports only proper matches on `s`. Without this the source
      loops for ever on an empty match, so the scanner needs it to terminate. */
  ghost predicate WellFormedOn(rules: seq<Rule>, s: string) {
    forall i: int, pos: nat :: 0 <= i < |rules| && pos < |s| ==> ProperMatch(rules[i].matcher(s, pos), s, pos)
  }

  /** The first rule at index `from` or later whose match starts at `pos`,
      with its match length. */
  function FirstMatch(rules: seq<Rule>, s: string, pos: nat, from: nat): (r: Option<(nat, nat)>)
    requires from <= |rules|
    decreases |rules| - from
    ensures r.Some? ==>
              && from <= r.value.0 < |rules|
              && rules[r.value.0].matcher(s, pos) == Some(r.value.1)
              && forall j :: from <= j < r.value.0 ==> rules[j].matcher(s, pos).None?
    ensures r.None? <==> forall j :: from <= j < |rules| ==> rules[j].matcher(s, pos).None?
  {
    if from == |rules| then None
    else match rules[from].matcher(s, pos)
      case Some(n) => Some((from, n))
      case None => FirstMatch(rules, s, pos, from + 1)
  }

  /** One step of the scan: a skipped space, a swallowed match of an ignored
      rule, or an emitted token. `at` is the offset the step starts at and
      `rule` the index of the rule that matched. */
  datatype Piece =
    | Space(at: nat)
    | Swallowed(at: nat, text: string, rule: nat)
    | Emitted(at: nat, token: Token, rule: nat)
  {
    function Text(): string {
      match this
      case Space(_) => " "
      case Swallowed(_, text, _) => text
      case Emitted(_, token, _) => token.value
    }
  }

  /** Why a piece was produced: a space is skipped at a space; anything else
      starts at a non-space where the recorded rule is the first one to
      match, its match covers exactly the piece, and the rule is ignored
      exactly when the piece was swallowed; an emitted token has that rule's
      kind. */
  predicate Justified(rules: seq<Rule>, s: string, p: Piece) {
    match p
    case Space(at) => at < |s| && s[at] == ' '
    case Swallowed(at, text, i) =>
      at < |s| && s[at] != ' ' && FirstMatch(rules, s, at, 0) == Some((i, |text|))
      && i < |rules| && rules[i].ignored
    case Emitted(at, token, i) =>
      at < |s| && s[at] != ' ' && FirstMatch(rules, s, at, 0) == Some((i, |token.value|))
      && i < |rules| && !rules[i].ignored && token.kind == rules[i].kind
  }

  /** Rules that cannot match at `pos` do not affect which rule matches first. */
  lemma {:induction false} FirstMatchSkips(rules: seq<Rule>, s: string, pos: nat, from: nat, to: nat)
    requires from <= to <= |rules|
    requires forall j :: from <= j < to ==> rules[j].matcher(s, pos).None?
    ensures FirstMatch(rules, s, pos, from) == FirstMatch(rules, s, pos, to)
    decreases (to as int) - (from as int)
  {
    if from < to {
      FirstMatchSkips(rules, s, pos, from + 1, to);
    }
  }

  /** A rule that matches is the first match from its own index on. */
  lemma FirstMatchHit(rules: seq<Rule>, s: string, pos: nat, k: nat, n: nat)
    requires k < |rules|
    requires rules[k].matcher(s, pos) == Some(n)
    ensures FirstMatch(rules, s, pos, k) == Some((k, n))
  {
  }

  /** One step of the scan at a position inside the source: `None` when the
      character there is not a space and no rule matches it. */
  function NextPiece(rules: seq<Rule>, s: string, pos: nat): (r: Option<Piece>)
    requires WellFormedOn(rules, s)
    requires pos < |s|
    ensures r.Some? ==> r.value.at == pos && 0 < |r.value.Text()| && pos + |r.value.Text()| <= |s|
    ensures r.None? <==> s[pos] != ' ' && FirstMatch(rules, s, pos, 0).None?
  {
    if s[pos] == ' ' then Some(Space(pos))
    else match FirstMatch(rules, s, pos, 0)
      case None => None
      case Some((i, n)) =>
        assert ProperMatch(rules[i].matcher(s, pos), s, pos);
        if rules[i].ignored then Some(Swallowed(pos, s[pos..pos + n], i))
        else Some(Emitted(pos, Token(rules[i].kind, s[pos..pos + n]), i))
  }

  /** Where the piece at `pos` ends. */
  function PieceEnd(rules: seq<Rule>, s: string, pos: nat): (r: nat)
    requires WellFormedOn(rules, s)
    requires pos < |s| && NextPiece(rules, s, pos).Some?
    ensures pos < r <= |s|
  {
    pos + |NextPiece(rules, s, pos).value.Text()|
  }

  /** The scan of `s` from offset `pos`: the pieces in source order, or the
      first character no rule matches. */
  function Scan(rules: seq<Rule>, s: string, pos: nat): (r: Result<seq<Piece>, LexError>)
    requires WellFormedOn(rules, s)
    requires pos <= |s|
    decreases |s| - pos
  {
    if pos == |s| then Success([])
    else match NextPiece(rules, s, pos)
      case None => Failure(UnrecognizedSymbol(s[pos], pos))
      case Some(piece) =>
        match Scan(rules, s, PieceEnd(rules, s, pos))
        case Failure(e) => Failure(e)
        case Success(rest) => Success([piece] + rest)
  }

  /** A piece carries the text at its offset and is justified by first-match
      priority. */
  lemma PieceFacts(rules: seq<Rule>, s: string, pos: nat)
    requires WellFormedOn(rules, s)
    requires pos < |s| && NextPiece(rules, s, pos).Some?
    ensures var p := NextPiece(rules, s, pos).value;
            s[pos..pos + |p.Text()|] == p.Text() && Justified(rules, s, p)
  {
    if s[pos] != ' ' {
      var (i, n) := FirstMatch(rules, s, pos, 0).value;
      assert ProperMatch(rules[i].matcher(s, pos), s, pos);
    }
  }

  /** The scan fails at a non-space character of the source that no rule
      matches, at or after its starting offset. */
  lemma {:induction false} ScanFailure(rules: seq<Rule>, s: string, pos: nat)
    requires WellFormedOn(rules, s)
    requires pos <= |s| && Scan(rules, s, pos).Failure?
    ensures var e := Scan(rules, s, pos).error;
            && pos <= e.at < |s|
            && s[e.at] == e.symbol
            && e.symbol != ' '
            && FirstMatch(rules, s, e.at, 0).None?
    decreases |s| - pos
  {
    if NextPiece(rules, s, pos).Some? {
      ScanFailure(rules, s, PieceEnd(rules, s, pos));
    }
  }

  /** The tokens among the pieces, in order. */
  function EmittedTokens(pieces: seq<Piece>): (r: seq<Token>)
    ensures |r| <= |pieces|
  {
    if pieces == [] then []
    else (if pieces[0].Emitted? then [pieces[0].token] else []) + EmittedTokens(pieces[1..])
  }

  /** `Tokenize`: the emitted tokens followed by the sentinel, or the lexical
      error, which names a non-space character of the source that no rule
      matches and its offset. */
  function Tokenize(rules: seq<Rule>, s: string): (r: Result<seq<Token>, LexError>)
    requires WellFormedOn(rules, s)
    ensures r.Success? ==> |r.value| >= 1 && r.value[|r.value| - 1] == Sentinel
    ensures r.Failure? ==> r.error.at < |s| && s[r.error.at] == r.error.symbol && r.error.symbol != ' '
                           && FirstMatch(rules, s, r.error.at, 0).None?
  {
    match Scan(rules, s, 0)
    case Failure(e) =>
      ScanFailure(rules, s, 0);
      Failure(e)
    case Success(pieces) => Success(EmittedTokens(pieces) + [Sentinel])
  }

  /** The pieces tile `s[pos..]`: each starts where the previous one ended,
      is non-empty, carries exactly the text at its offset, and the last one
      ends at the end of the source. */
  predicate Tiles(pieces: seq<Piece>, s: string, pos: nat)
    decreases |pieces|
  {
    if pieces == [] then pos == |s|
    else
      var t := pieces[0].Text();
      && pieces[0].at == pos
      && 0 < |t|
      && pos + |t| <= |s|
      && s[pos..pos + |t|] == t
      && Tiles(pieces[1..], s, pos + |t|)
  }

  /** The scan stops with an error at a non-space character no rule matches. */
  lemma ScanStopsHere(rules: seq<Rule>, s: string, pos: nat)
    requires WellFormedOn(rules, s)
    requires pos < |s| && s[pos] != ' '
    requires FirstMatch(rules, s, pos, 0).None?
    ensures Scan(rules, s, pos) == Failure(UnrecognizedSymbol(s[pos], pos))
  {
  }

  /** A symbol no rule matches right after a one-character first piece is
      the error of the scan. */
  lemma ScanFailsAfterPiece(rules: seq<Rule>, s: string)
    requires WellFormedOn(rules, s)
    requires |s| >= 2 && s[1] != ' '
    requires NextPiece(rules, s, 0).Some? && PieceEnd(rules, s, 0) == 1
    requires FirstMatch(rules, s, 1, 0).None?
    ensures Scan(rules, s, 0) == Failure(UnrecognizedSymbol(s[1], 1))
  {
    ScanStopsHere(rules, s, 1);
    ScanPassesOnError(rules, s, 0);
  }

  /** A failed scan is the error of the whole tokenization. */
  lemma TokenizeFails(rules: seq<Rule>, s: string)
    requires WellFormedOn(rules, s)
    requires Scan(rules, s, 0).Failure?
    ensures Tokenize(rules, s) == Failure(Scan(rules, s, 0).error)
  {
  }

  /** An error further on is the error of the whole scan. */
  lemma ScanPassesOnError(rules: seq<Rule>, s: string, pos: nat)
    requires WellFormedOn(rules, s)
    requires pos < |s| && NextPiece(rules, s, pos).Some?
    requires Scan(rules, s, PieceEnd(rules, s, pos)).Failure?
    ensures Scan(rules, s, pos) == Scan(rules, s, PieceEnd(rules, s, pos))
  {
  }

  /** A successful scan from inside the source is the next piece followed by
      the successful scan from where that piece ends. */
  lemma ScanCons(rules: seq<Rule>, s: string, pos: nat)
    requires WellFormedOn(rules, s)
    requires pos < |s| && Scan(rules, s, pos).Success?
    ensures NextPiece(rules, s, pos).Some?
    ensures Scan(rules, s, PieceEnd(rules, s, pos)).Success?
    ensures Scan(rules, s, pos).value
            == [NextPiece(rules, s, pos).value] + Scan(rules, s, PieceEnd(rules, s, pos)).value
  {
  }

  /** A scan that goes on successfully after a piece succeeds. */
  lemma ScanGoesOn(rules: seq<Rule>, s: string, pos: nat)
    requires WellFormedOn(rules, s)
    requires pos < |s| && NextPiece(rules, s, pos).Some?
    requires Scan(rules, s, PieceEnd(rules, s, pos)).Success?
    ensures Scan(rules, s, pos).Success?
  {
  }

  /** At the end of the source the scan has nothing left. */
  lemma ScanAtEnd(rules: seq<Rule>, s: string)
    requires WellFormedOn(rules, s)
    ensures Scan(rules, s, |s|) == Success([])
  {
  }

  /** A successful scan partitions the rest of the source into its pieces. */
  lemma {:induction false} ScanTiles(rules: seq<Rule>, s: string, pos: nat)
    requires WellFormedOn(rules, s)
    requires pos <= |s|
    requires Scan(rules, s, pos).Success?
    ensures Tiles(Scan(rules, s, pos).value, s, pos)
    decreases |s| - pos
  {
    hide Scan, Justified, NextPiece, FirstMatch;
    if pos < |s| {
      ScanCons(rules, s, pos);
      PieceFacts(rules, s, pos);
      var piece := NextPiece(rules, s, pos).value;
      var next := PieceEnd(rules, s, pos);
      assert next == pos + |piece.Text()|;
      ScanTiles(rules, s, next);
      TilesCons(piece, Scan(rules, s, next).value, s, pos);
    } else {
      ScanAtEnd(rules, s);
    }
  }

  /** A piece that carries the text at `pos`, in front of pieces tiling the
      rest from where it ends, tiles the source from `pos`. */
  lemma TilesCons(p: Piece, rest: seq<Piece>, s: string, pos: nat)
    requires p.at == pos && 0 < |p.Text()| && pos + |p.Text()| <= |s|
    requires s[pos..pos + |p.Text()|] == p.Text()
    requires Tiles(rest, s, pos + |p.Text()|)
    ensures Tiles([p] + rest, s, pos)
  {
    assert ([p] + rest)[1..] == rest;
  }

  /** Every piece of a successful scan is justified by first-match priority. */
  lemma {:induction false} ScanJustified(rules: seq<Rule>, s: string, pos: nat)
    requires WellFormedOn(rules, s)
    requires pos <= |s|
    requires Scan(rules, s, pos).Success?
    ensures forall p :: p in Scan(rules, s, pos).value ==> Justified(rules, s, p)
    decreases |s| - pos
  {
    if pos < |s| {
      ScanCons(rules, s, pos);
      PieceFacts(rules, s, pos);
      var piece := NextPiece(rules, s, pos).value;
      var next := PieceEnd(rules, s, pos);
      ScanJustified(rules, s, next);
      var ps := Scan(rules, s, pos).value;
      var rest := Scan(rules, s, next).value;
      assert ps == [piece] + rest;
      forall q | q in ps
        ensures Justified(rules, s, q)
      {
        if q != piece {
          assert q in rest;
        }
      }
    }
  }

  /** The scan can step over offset `k`: a space, or some rule matches there. */
  predicate Steppable(rules: seq<Rule>, s: string, k: nat) {
    k < |s| && (s[k] == ' ' || FirstMatch(rules, s, k, 0).Some?)
  }

  /** The scan fails only at a non-space character no rule matches: when
      there is none ahead, it succeeds. */
  lemma {:induction false} ScanFailsOnlyOnUnmatched(rules: seq<Rule>, s: string, pos: nat)
    requires WellFormedOn(rules, s)
    requires pos <= |s|
    requires forall k :: pos <= k < |s| ==> Steppable(rules, s, k)
    ensures Scan(rules, s, pos).Success?
    decreases |s| - pos
  {
    if pos < |s| {
      assert Steppable(rules, s, pos);
      ScanFailsOnlyOnUnmatched(rules, s, PieceEnd(rules, s, pos));
      ScanGoesOn(rules, s, pos);
    } else {
      ScanAtEnd(rules, s);
    }
  }

  /** No rule of the table produces the sentinel's kind. */
  predicate NoSentinelRule(rules: seq<Rule>) {
    forall i :: 0 <= i < |rules| ==> rules[i].kind != LastToken
  }

  /** The emitted tokens of a justified scan never have the sentinel's kind
      when no rule produces it. */
  lemma {:induction false} EmittedAvoidsSentinel(rules: seq<Rule>, s: string, pieces: seq<Piece>)
    requires NoSentinelRule(rules)
    requires forall p :: p in pieces ==> Justified(rules, s, p)
    ensures forall t :: t in EmittedTokens(pieces) ==> t.kind != LastToken
  {
    if pieces != [] {
      assert pieces[0] in pieces;
      EmittedAvoidsSentinel(rules, s, pieces[1..]);
    }
  }

  /** A successful tokenization ends with exactly one sentinel, and it is the
      last token: no table rule produces that kind. */
  lemma TokenizeEndsWithSingleSentinel(rules: seq<Rule>, s: string)
    requires WellFormedOn(rules, s)
    requires NoSentinelRule(rules)
    requires Tokenize(rules, s).Success?
    ensures var ts := Tokenize(rules, s).value;
            |ts| >= 1 && ts[|ts| - 1] == Sentinel
            && forall k :: 0 <= k < |ts| - 1 ==> ts[k].kind != LastToken
  {
    var ps := Scan(rules, s, 0).value;
    ScanJustified(rules, s, 0);
    EmittedAvoidsSentinel(rules, s, ps);
    var ts := Tokenize(rules, s).value;
    assert ts == EmittedTokens(ps) + [Sentinel];
    forall k | 0 <= k < |ts| - 1
      ensures ts[k].kind != LastToken
    {
      assert ts[k] in EmittedTokens(ps);
    }
  }

  /** The tokens of the scan from `pos`, without the sentinel. */
  function TokensFrom(rules: seq<Rule>, s: string, pos: nat): Result<seq<Token>, LexError>
    requires WellFormedOn(rules, s)
    requires pos <= |s|
  {
    var pieces :- Scan(rules, s, pos);
    Success(EmittedTokens(pieces))
  }

  /** `acc` in front of a successful result; a failure passes through. */
  function Prepend(acc: seq<Token>, r: Result<seq<Token>, LexError>): Result<seq<Token>, LexError> {
    match r
    case Success(ts) => Success(acc + ts)
    case Failure(e) => Failure(e)
  }

  /** The tokens a piece contributes. */
  function PieceTokens(p: Piece): seq<Token> {
    if p.Emitted? then [p.token] else []
  }

  /** One step of the scan: the tokens from `pos` are the step's token, if
      any, followed by the tokens from where the step ends. */
  lemma TokensFromStep(rules: seq<Rule>, s: string, pos: nat, acc: seq<Token>)
    requires WellFormedOn(rules, s)
    requires pos < |s|
    requires NextPiece(rules, s, pos).Some?
    ensures var p := NextPiece(rules, s, pos).value;
            Prepend(acc, TokensFrom(rules, s, pos))
            == Prepend(acc + PieceTokens(p), TokensFrom(rules, s, PieceEnd(rules, s, pos)))
  {
    var p := NextPiece(rules, s, pos).value;
    var next := PieceEnd(rules, s, pos);
    if Scan(rules, s, next).Success? {
      var rest := Scan(rules, s, next).value;
      assert ([p] + rest)[1..] == rest;
      assert acc + (PieceTokens(p) + EmittedTokens(rest)) == (acc + PieceTokens(p)) + EmittedTokens(rest);
    }
  }

  /** When the whole scan equals `acc` in front of the empty rest, the
      tokenization is `acc` and the sentinel. */
  lemma TokenizeFromAccumulated(rules: seq<Rule>, s: string, acc: seq<Token>)
    requires WellFormedOn(rules, s)
    requires Prepend([], TokensFrom(rules, s, 0)) == Prepend(acc, TokensFrom(rules, s, |s|))
    ensures Tokenize(rules, s) == Success(acc + [Sentinel])
  {
    assert TokensFrom(rules, s, |s|) == Success([]);
    assert acc + [] == acc;
    var all := TokensFrom(rules, s, 0);
    assert all.Success?;
    assert [] + all.value == all.value;
  }

  /** A space step of the loop keeps the accumulated tokens. */
  lemma SpaceStep(rules: seq<Rule>, s: string, pos: nat, acc: seq<Token>)
    requires WellFormedOn(rules, s)
    requires pos < |s| && s[pos] == ' '
    ensures Prepend(acc, TokensFrom(rules, s, pos)) == Prepend(acc, TokensFrom(rules, s, pos + 1))
  {
    assert NextPiece(rules, s, pos) == Some(Space(pos));
    assert acc + PieceTokens(Space(pos)) == acc;
    StepKeepsRest(rules, s, pos, acc, (acc, pos + 1));
  }

  /** A character no rule matches ends the whole tokenization with its error. */
  lemma UnmatchedStep(rules: seq<Rule>, s: string, pos: nat, acc: seq<Token>)
    requires WellFormedOn(rules, s)
    requires pos < |s| && s[pos] != ' '
    requires FirstMatch(rules, s, pos, 0).None?
    requires Prepend([], TokensFrom(rules, s, 0)) == Prepend(acc, TokensFrom(rules, s, pos))
    ensures Tokenize(rules, s) == Failure(UnrecognizedSymbol(s[pos], pos))
  {
    assert NextPiece(rules, s, pos).None?;
  }

  /** The body of the library's loop at a character that is not a space:
      find the first matching rule, emit its token unless the rule is
      ignored, and advance by the match length. This is one step of the
      scan: `None` exactly when no rule matches, and otherwise the piece's
      tokens appended and the index moved past the piece. */
  method MatchAt(rules: seq<Rule>, source: string, currentIndex: nat, emitted: seq<Token>)
    returns (r: Option<(seq<Token>, nat)>)
    requires WellFormedOn(rules, source)
    requires currentIndex < |source| && source[currentIndex] != ' '
    ensures r.None? <==> NextPiece(rules, source, currentIndex).None?
    ensures r.Some? ==>
              var p := NextPiece(rules, source, currentIndex).value;
              r.value == (emitted + PieceTokens(p), PieceEnd(rules, source, currentIndex))
  {
    var matched := FirstMatch(rules, source, currentIndex, 0);
    if matched.None? {
      return None;
    }
    var (i, matchLength) := matched.value;
    assert ProperMatch(rules[i].matcher(source, currentIndex), source, currentIndex);
    var value := source[currentIndex..currentIndex + matchLength];
    if rules[i].ignored {
      assert emitted + [] == emitted;
      return Some((emitted, currentIndex + matchLength));
    }
    return Some((emitted + [Token(rules[i].kind, value)], currentIndex + matchLength));
  }

  /** The result of a step of the loop leaves the tokens still to come
      unchanged. */
  lemma StepKeepsRest(rules: seq<Rule>, s: string, pos: nat, acc: seq<Token>, next: (seq<Token>, nat))
    requires WellFormedOn(rules, s)
    requires pos < |s| && NextPiece(rules, s, pos).Some?
    requires var p := NextPiece(rules, s, pos).value;
             next == (acc + PieceTokens(p), PieceEnd(rules, s, pos))
    ensures pos < next.1 <= |s|
    ensures Prepend(acc, TokensFrom(rules, s, pos)) == Prepend(next.0, TokensFrom(rules, s, next.1))
  {
    TokensFromStep(rules, s, pos, acc);
  }

  /** The library's loop: skip a space, else find the first matching rule,
      fail on none, emit unless ignored, advance by the match length; append
      the sentinel at the end. It computes exactly `Tokenize`. */
  method TokenizeLoop(rules: seq<Rule>, source: string) returns (r: Result<seq<Token>, LexError>)
    requires WellFormedOn(rules, source)
    ensures r == Tokenize(rules, source)
  {
    var currentIndex: nat := 0;
    var emitted: seq<Token> := [];
    ghost var all := Prepend([], TokensFrom(rules, source, 0));
    while currentIndex < |source|
      invariant currentIndex <= |source|
      invariant all == Prepend(emitted, TokensFrom(rules, source, currentIndex))
      decreases |source| - currentIndex
    {
      if source[currentIndex] == ' ' {
        SpaceStep(rules, source, currentIndex, emitted);
        currentIndex := currentIndex + 1;
        continue;
      }
      var step := MatchAt(rules, source, currentIndex, emitted);
      if step.None? {
        UnmatchedStep(rules, source, currentIndex, emitted);
        return Failure(UnrecognizedSymbol(source[currentIndex], currentIndex));
      }
      StepKeepsRest(rules, source, currentIndex, emitted, step.value);
      emitted, currentIndex := step.value.0, step.value.1;
    }
    TokenizeFromAccumulated(rules, source, emitted);
    return Success(emitted + [Sentinel]);
  }
}
