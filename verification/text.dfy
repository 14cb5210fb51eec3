/** The two string primitives the library leans on: `string.Join` and
    `string.Trim` of the .NET base library. */
module Text {

  /** `string.Join(sep, parts)`: the parts in order, `sep` between neighbours. */
  function Join(sep: string, parts: seq<string>): (r: string)
    ensures parts == [] ==> r == ""
    ensures |parts| == 1 ==> r == parts[0]
  {
    if parts == [] then ""
    else if |parts| == 1 then parts[0]
    else parts[0] + sep + Join(sep, parts[1..])
  }

  /** Appending one part to a joined list adds the separator and the part at
      the end: what an "append then render" step of every list renderer uses. */
  lemma {:induction false} JoinSnoc(sep: string, parts: seq<string>, last: string)
    ensures Join(sep, parts + [last]) ==
            (if parts == [] then last else Join(sep, parts) + sep + last)
  {
    if |parts| <= 1 {
    } else {
      assert (parts + [last])[1..] == parts[1..] + [last];
      JoinSnoc(sep, parts[1..], last);
    }
  }

  /** Regrouping a concatenation. */
  lemma ConcatAssoc<T>(a: seq<T>, b: seq<T>, c: seq<T>, d: seq<T>, e: seq<T>, f: seq<T>)
    ensures a + (b + c + d + e + f) == a + b + c + d + e + f
  {
  }

  /** The characters `char.IsWhiteSpace` accepts, which `string.Trim` strips. */
  predicate IsWhiteSpace(c: char) {
    c == ' ' || c == '\t' || c == '\n' || c == '\r' || c == '\U{000B}' || c == '\U{000C}'
    || c == '\U{0085}' || c == '\U{00A0}' || c == '\U{1680}'
    || ('\U{2000}' <= c <= '\U{200A}')
    || c == '\U{2028}' || c == '\U{2029}' || c == '\U{202F}' || c == '\U{205F}' || c == '\U{3000}'
  }

  /** Number of white-space characters at the front of `s`. */
  function LeadingWhite(s: string): (n: nat)
    ensures n <= |s|
    ensures forall k :: 0 <= k < n ==> IsWhiteSpace(s[k])
    ensures n < |s| ==> !IsWhiteSpace(s[n])
  {
    if s == [] || !IsWhiteSpace(s[0]) then 0 else 1 + LeadingWhite(s[1..])
  }

  /** Number of white-space characters at the back of `s`. */
  function TrailingWhite(s: string): (n: nat)
    ensures n <= |s|
    ensures forall k :: |s| - n <= k < |s| ==> IsWhiteSpace(s[k])
    ensures n < |s| ==> !IsWhiteSpace(s[|s| - n - 1])
  {
    if s == [] || !IsWhiteSpace(s[|s| - 1]) then 0 else 1 + TrailingWhite(s[..|s| - 1])
  }

  /** `string.Trim()`: the longest infix of `s` that neither starts nor ends
      with white space, and everything cut off is white space. */
  function Trim(s: string): (r: string)
    ensures exists i, j :: 0 <= i <= j <= |s| && r == s[i..j]
                        && (forall k :: 0 <= k < i ==> IsWhiteSpace(s[k]))
                        && (forall k :: j <= k < |s| ==> IsWhiteSpace(s[k]))
    ensures r != [] ==> !IsWhiteSpace(r[0]) && !IsWhiteSpace(r[|r| - 1])
    ensures (forall k :: 0 <= k < |s| ==> !IsWhiteSpace(s[k])) ==> r == s
  {
    var i := LeadingWhite(s);
    var j := |s| - TrailingWhite(s[i..]);
    TrimCut(s, i, j);
    if forall k :: 0 <= k < |s| ==> !IsWhiteSpace(s[k]) then
      NothingToTrim(s);
      assert s[0..] == s;
      s[i..j]
    else
      s[i..j]
  }

  /** The cut `Trim` makes: white space before `i` and from `j` on, and the
      kept part neither starts nor ends with white space. */
  lemma TrimCut(s: string, i: nat, j: int)
    requires i == LeadingWhite(s) && j == |s| - TrailingWhite(s[i..])
    ensures i <= j <= |s|
    ensures forall k :: 0 <= k < i ==> IsWhiteSpace(s[k])
    ensures forall k :: j <= k < |s| ==> IsWhiteSpace(s[k])
    ensures i < j ==> !IsWhiteSpace(s[i]) && !IsWhiteSpace(s[j - 1])
  {
    TrailingOfSuffix(s, i);
  }

  /** The white space at the back of a suffix is at the back of the whole. */
  lemma TrailingOfSuffix(s: string, i: nat)
    requires i <= |s|
    ensures var n := TrailingWhite(s[i..]);
            && (forall k :: |s| - n <= k < |s| ==> IsWhiteSpace(s[k]))
            && (i < |s| - n ==> !IsWhiteSpace(s[|s| - n - 1]))
  {
    var t := s[i..];
    var n := TrailingWhite(t);
    forall k | |s| - n <= k < |s|
      ensures IsWhiteSpace(s[k])
    {
      assert s[k] == t[k - i];
    }
    if i < |s| - n {
      assert s[|s| - n - 1] == t[|t| - n - 1];
    }
  }

  /** Text without white space has none to cut at either end. */
  lemma NothingToTrim(s: string)
    requires forall k :: 0 <= k < |s| ==> !IsWhiteSpace(s[k])
    ensures LeadingWhite(s) == 0 && TrailingWhite(s) == 0
  {
    if s != [] {
      assert !IsWhiteSpace(s[0]) && !IsWhiteSpace(s[|s| - 1]);
    }
  }
}
