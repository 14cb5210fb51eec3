/** The regular expressions of the lexer's rule table, written out as
    matchers. Every expression is compiled case-insensitively, which the
    matchers model as ASCII case folding; a match is anchored at the offset
    the scanner has reached and the leftmost-first alternative wins. */
module Patterns {
  import opened Wrappers

  /** ASCII upper case; the fold under which two letters match. */
  function Upper(c: char): char {
    if 'a' <= c <= 'z' then (c as int - 32) as char else c
  }

  predicate IsDigit(c: char) {
    '0' <= c <= '9'
  }

  /** The identifier rule's final character class: ASCII letters and digits
      and the characters `/ \ - : ' "`. */
  predicate IsIdentifierChar(c: char) {
    ('a' <= c <= 'z') || ('A' <= c <= 'Z') || IsDigit(c)
    || c == '/' || c == '\\' || c == '-' || c == ':' || c == '\'' || c == '"'
  }

  /** The identifier rule's repeated class: the final class plus the space. */
  predicate IsIdentifierRunChar(c: char) {
    IsIdentifierChar(c) || c == ' '
  }

  /** The shapes of regular expression the table uses. */
  datatype Pattern =
    | OneOf(chars: string)          // a one-character class
    | Words(words: seq<string>)     // an alternation of literals: the first that matches wins
    | AxisName                      // the axis names, then AXIS(n)
    | Date                          // dddd-dd-ddTdd:dd:dd
    | Number                        // digits, optionally a dot and more digits
    | Identifier                    // a run of the identifier class not ending in a space

  /** `word` occurs at `pos`, letters compared without regard to case. */
  predicate LiteralAt(word: string, s: string, pos: nat) {
    pos + |word| <= |s| && forall k :: 0 <= k < |word| ==> Upper(s[pos + k]) == Upper(word[k])
  }

  /** Index of the first alternative, from `from` on, that occurs at `pos`. */
  function FirstWord(words: seq<string>, s: string, pos: nat, from: nat): (r: Option<nat>)
    requires from <= |words|
    decreases |words| - from
    ensures r.Some? ==> from <= r.value < |words| && LiteralAt(words[r.value], s, pos)
                        && forall j :: from <= j < r.value ==> !LiteralAt(words[j], s, pos)
    ensures r.None? ==> forall j :: from <= j < |words| ==> !LiteralAt(words[j], s, pos)
  {
    if from == |words| then None
    else if LiteralAt(words[from], s, pos) then Some(from)
    else FirstWord(words, s, pos, from + 1)
  }

  /** Number of consecutive digits starting at `pos`. */
  function DigitRun(s: string, pos: nat): (n: nat)
    requires pos <= |s|
    decreases |s| - pos
    ensures pos + n <= |s|
    ensures forall k :: pos <= k < pos + n ==> IsDigit(s[k])
    ensures pos + n < |s| ==> !IsDigit(s[pos + n])
  {
    if pos < |s| && IsDigit(s[pos]) then 1 + DigitRun(s, pos + 1) else 0
  }

  /** Number of consecutive identifier-class characters (spaces included)
      starting at `pos`. */
  function IdentifierRun(s: string, pos: nat): (n: nat)
    requires pos <= |s|
    decreases |s| - pos
    ensures pos + n <= |s|
    ensures forall k :: pos <= k < pos + n ==> IsIdentifierRunChar(s[k])
    ensures pos + n < |s| ==> !IsIdentifierRunChar(s[pos + n])
  {
    if pos < |s| && IsIdentifierRunChar(s[pos]) then 1 + IdentifierRun(s, pos + 1) else 0
  }

  /** The longest prefix of `s[pos..pos + len]` that does not end in a space. */
  function DropTrailingSpaces(s: string, pos: nat, len: nat): (n: nat)
    requires pos + len <= |s|
    ensures n <= len
    ensures n > 0 ==> s[pos + n - 1] != ' '
    ensures forall k :: pos + n <= k < pos + len ==> s[k] == ' '
  {
    if len == 0 then 0
    else if s[pos + len - 1] == ' ' then DropTrailingSpaces(s, pos, len - 1)
    else len
  }

  const AxisWords: seq<string> := ["COLUMNS", "ROWS", "PAGES", "CHAPTERS", "SECTIONS"]

  /** The date expression with `d` standing for a digit. */
  const DateShape: string := "dddd-dd-ddTdd:dd:dd"

  predicate DateAt(s: string, pos: nat) {
    pos + |DateShape| <= |s|
    && forall k :: 0 <= k < |DateShape| ==>
         if DateShape[k] == 'd' then IsDigit(s[pos + k]) else Upper(s[pos + k]) == DateShape[k]
  }

  /** `AXIS(n)` with at least one digit: its length, if it occurs at `pos`. */
  function NumberedAxis(s: string, pos: nat): (r: Option<nat>)
    requires pos <= |s|
    ensures r.Some? ==> 0 < r.value && pos + r.value <= |s|
  {
    if !LiteralAt("AXIS(", s, pos) then None
    else
      var d := DigitRun(s, pos + 5);
      if d > 0 && pos + 5 + d < |s| && s[pos + 5 + d] == ')' then Some(6 + d) else None
  }

  /** The alternatives of a rule must not be empty for its matches to be
      non-empty. */
  predicate PatternOk(p: Pattern) {
    p.Words? ==> forall k :: 0 <= k < |p.words| ==> |p.words[k]| > 0
  }

  /** The length of the leftmost-first match of the pattern anchored at `pos`. */
  function Run(p: Pattern, s: string, pos: nat): (r: Option<nat>)
    requires pos < |s|
    ensures PatternOk(p) && r.Some? ==> 0 < r.value && pos + r.value <= |s|
  {
    match p
    case OneOf(chars) => if s[pos] in chars then Some(1) else None
    case Words(words) =>
      (match FirstWord(words, s, pos, 0)
       case Some(k) => Some(|words[k]|)
       case None => None)
    case AxisName =>
      (match FirstWord(AxisWords, s, pos, 0)
       case Some(k) => Some(|AxisWords[k]|)
       case None => NumberedAxis(s, pos))
    case Date => if DateAt(s, pos) then Some(|DateShape|) else None
    case Number =>
      var d := DigitRun(s, pos);
      if d == 0 then None
      else if pos + d < |s| && s[pos + d] == '.' && DigitRun(s, pos + d + 1) > 0
      then Some(d + 1 + DigitRun(s, pos + d + 1))
      else Some(d)
    case Identifier =>
      var n := DropTrailingSpaces(s, pos, IdentifierRun(s, pos));
      if n == 0 then None else Some(n)
  }

  /** Some non-empty alternative begins with `c`, letters compared without
      regard to case. */
  predicate SomeWordStartsWith(words: seq<string>, c: char) {
    exists k :: 0 <= k < |words| && |words[k]| > 0 && Upper(words[k][0]) == Upper(c)
  }

  /** The characters a match of the pattern can begin with. */
  predicate CanStart(p: Pattern, c: char) {
    match p
    case OneOf(chars) => c in chars
    case Words(words) => SomeWordStartsWith(words, c)
    case AxisName => SomeWordStartsWith(AxisWords + ["AXIS("], c)
    case Date => IsDigit(c)
    case Number => IsDigit(c)
    case Identifier => IsIdentifierRunChar(c)
  }

  /** A match always begins with one of the pattern's initial characters. */
  lemma RunStartsWithInitial(p: Pattern, s: string, pos: nat)
    requires pos < |s|
    requires PatternOk(p)
    ensures Run(p, s, pos).Some? ==> CanStart(p, s[pos])
  {
    match p
    case Words(words) =>
      if FirstWord(words, s, pos, 0).Some? {
        var k := FirstWord(words, s, pos, 0).value;
        assert Upper(s[pos + 0]) == Upper(words[k][0]);
      }
    case AxisName =>
      var all := AxisWords + ["AXIS("];
      if FirstWord(AxisWords, s, pos, 0).Some? {
        var k := FirstWord(AxisWords, s, pos, 0).value;
        assert all[k] == AxisWords[k];
        assert Upper(s[pos + 0]) == Upper(all[k][0]);
      } else if NumberedAxis(s, pos).Some? {
        assert all[5] == "AXIS(";
        assert Upper(s[pos + 0]) == Upper(all[5][0]);
      }
    case OneOf(_) =>
    case Date =>
      if DateAt(s, pos) {
        assert DateShape[0] == 'd';
        assert IsDigit(s[pos + 0]);
      }
    case Number =>
      if DigitRun(s, pos) > 0 {
        assert IsDigit(s[pos + 0]);
      }
    case Identifier =>
      var n := DropTrailingSpaces(s, pos, IdentifierRun(s, pos));
      if n > 0 {
        assert IsIdentifierRunChar(s[pos + 0]);
      }
  }

}
