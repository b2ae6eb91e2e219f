/**
 * The string operations the candidate search uses: `toLowerCase`, lodash's
 * `trim` and `indexOf`, on the ASCII range (and the common non-ASCII spaces
 * for whitespace).
 */
module Text {

  /** White space that `trim` and `parseInt` skip. */
  predicate IsWhiteSpace(ch: char)
  {
    ch == ' ' || ch == '\t' || ch == '\n' || ch == '\r' ||
    ch == '\U{000B}' || ch == '\U{000C}' || ch == '\U{00A0}' || ch == '\U{FEFF}'
  }

  function LowerChar(ch: char): char
  {
    if 'A' <= ch <= 'Z' then (ch as int + 32) as char else ch
  }

  /** s with its upper-case letters lowered. */
  function Lower(s: string): (r: string)
    ensures |r| == |s|
    ensures forall i :: 0 <= i < |s| ==> !('A' <= r[i] <= 'Z')
    ensures forall i :: 0 <= i < |s| && !('A' <= s[i] <= 'Z') ==> r[i] == s[i]
    ensures forall i :: 0 <= i < |s| && 'A' <= s[i] <= 'Z' ==> r[i] as int == s[i] as int + 32
  {
    seq(|s|, i requires 0 <= i < |s| => LowerChar(s[i]))
  }

  /** Lowering a lowered string changes nothing. */
  lemma LowerIdempotent(s: string)
    ensures Lower(Lower(s)) == Lower(s)
  {
    var l := Lower(s);
    assert forall i :: 0 <= i < |l| ==> LowerChar(l[i]) == l[i];
  }

  /** Number of white-space characters at the start of s. */
  function LeadingWhiteSpace(s: string): (n: nat)
    ensures n <= |s|
    ensures forall k :: 0 <= k < n ==> IsWhiteSpace(s[k])
    ensures n < |s| ==> !IsWhiteSpace(s[n])
  {
    if s == [] || !IsWhiteSpace(s[0]) then 0 else 1 + LeadingWhiteSpace(s[1..])
  }

  /** Length of s without its trailing white space. */
  function EndOfText(s: string): (n: nat)
    ensures n <= |s|
    ensures forall k :: n <= k < |s| ==> IsWhiteSpace(s[k])
    ensures n > 0 ==> !IsWhiteSpace(s[n - 1])
  {
    if s == [] || !IsWhiteSpace(s[|s| - 1]) then |s| else EndOfText(s[..|s| - 1])
  }

  /** s without its leading white space. */
  function TrimStart(s: string): (r: string)
    ensures r == [] || !IsWhiteSpace(r[0])
    ensures |r| <= |s| && r == s[|s| - |r|..]
  {
    s[LeadingWhiteSpace(s)..]
  }

  /** TrimStart removes exactly the white space in front of a text that starts otherwise. */
  lemma TrimStartAfterWhiteSpace(ws: string, t: string)
    requires forall i :: 0 <= i < |ws| ==> IsWhiteSpace(ws[i])
    requires t == [] || !IsWhiteSpace(t[0])
    ensures TrimStart(ws + t) == t
  {
    LeadingWhiteSpaceOf(ws, t);
    assert (ws + t)[|ws|..] == t;
  }

  lemma {:induction false} LeadingWhiteSpaceOf(ws: string, t: string)
    requires forall i :: 0 <= i < |ws| ==> IsWhiteSpace(ws[i])
    requires t == [] || !IsWhiteSpace(t[0])
    ensures LeadingWhiteSpace(ws + t) == |ws|
  {
    if ws == [] {
      assert ws + t == t;
    } else {
      assert (ws + t)[1..] == ws[1..] + t;
      LeadingWhiteSpaceOf(ws[1..], t);
    }
  }

  /** s without leading and trailing white space, as lodash's trim. */
  function Trim(s: string): (r: string)
    ensures r == [] || (!IsWhiteSpace(r[0]) && !IsWhiteSpace(r[|r| - 1]))
    ensures var i := LeadingWhiteSpace(s);
      i + |r| <= |s| && r == s[i..i + |r|] &&
      forall k :: i + |r| <= k < |s| ==> IsWhiteSpace(s[k])
  {
    var i := LeadingWhiteSpace(s);
    var t := s[i..];
    var j := EndOfText(t);
    assert t[..j] == s[i..i + j];
    t[..j]
  }

  /** needle occurs in hay starting at position i. */
  predicate OccursAt(needle: string, hay: string, i: int)
  {
    0 <= i && i + |needle| <= |hay| && hay[i..i + |needle|] == needle
  }

  /** needle is a substring of hay. */
  ghost predicate Contains(hay: string, needle: string)
  {
    exists i :: OccursAt(needle, hay, i)
  }

  /** The first position at or after `from` where needle occurs in hay, or -1. */
  function IndexFrom(hay: string, needle: string, from: nat): (r: int)
    decreases |hay| - from
    ensures r == -1 || (from <= r && OccursAt(needle, hay, r))
    ensures r == -1 ==> forall k :: from <= k ==> !OccursAt(needle, hay, k)
    ensures r >= 0 ==> forall k :: from <= k < r ==> !OccursAt(needle, hay, k)
  {
    if from + |needle| > |hay| then -1
    else if hay[from..from + |needle|] == needle then from
    else IndexFrom(hay, needle, from + 1)
  }

  /** The first position where needle occurs in hay, or -1. */
  function IndexOf(hay: string, needle: string): (r: int)
    ensures r == -1 <==> !Contains(hay, needle)
    ensures r >= 0 ==> OccursAt(needle, hay, r) && forall k :: 0 <= k < r ==> !OccursAt(needle, hay, k)
  {
    IndexFrom(hay, needle, 0)
  }
}
