/**
 * The few string services of the .NET base library that the route uses:
 * String.IndexOf on one character, String.Replace of a one-character
 * string, and the character classes that appear in its patterns.
 */
module Text {

  /** `[a-zA-Z0-9_-]`: the characters a placeholder capture may consume. */
  predicate IsCaptureChar(c: char)
  {
    ('a' <= c <= 'z') || ('A' <= c <= 'Z') || ('0' <= c <= '9') || c == '_' || c == '-'
  }

  /** `[a-zA-Z0-9_]`: the characters of a placeholder name. */
  predicate IsNameChar(c: char)
  {
    ('a' <= c <= 'z') || ('A' <= c <= 'Z') || ('0' <= c <= '9') || c == '_'
  }

  /** char.IsNumber, restricted to the ASCII digits. */
  predicate IsDigit(c: char)
  {
    '0' <= c <= '9'
  }

  /** Every character of s belongs to the capture class. */
  predicate IsCaptureText(s: string)
  {
    forall i :: 0 <= i < |s| ==> IsCaptureChar(s[i])
  }

  /** String.IndexOf(c): the position of the first c in s, or -1 when there is none. */
  function IndexOf(s: string, c: char): (r: int)
    ensures -1 <= r < |s|
    ensures r == -1 <==> c !in s
    ensures 0 <= r ==> s[r] == c && c !in s[..r]
  {
    if s == [] then -1
    else if s[0] == c then 0
    else
      var k := IndexOf(s[1..], c);
      if k < 0 then -1
      else
        assert s[..k + 1] == [s[0]] + s[1..][..k];
        k + 1
  }

  /**
   * String.Replace(old, rep) where old is the one-character string [c]:
   * every occurrence of c, scanning left to right, becomes rep.
   */
  function Replace(s: string, c: char, rep: string): (r: string)
    ensures c !in s ==> r == s
    ensures c !in rep ==> c !in r
  {
    if s == [] then []
    else (if s[0] == c then rep else [s[0]]) + Replace(s[1..], c, rep)
  }

  /** A character found neither in s (other than as c) nor in rep is not in the result. */
  lemma {:induction false} ReplaceAbsent(s: string, c: char, rep: string, x: char)
    requires x !in s || x == c
    requires x !in rep
    ensures x !in Replace(s, c, rep)
  {
    if s != [] {
      assert s[0] in s;
      assert x !in s[1..] || x == c by {
        if x in s[1..] {
          var i :| 0 <= i < |s[1..]| && s[1..][i] == x;
          assert s[i + 1] == x;
        }
      }
      ReplaceAbsent(s[1..], c, rep, x);
    }
  }

  /** Replace on a one-character string. */
  lemma ReplaceSingle(x: char, c: char, rep: string)
    ensures Replace([x], c, rep) == if x == c then rep else [x]
  {
    assert [x][1..] == [];
  }

  /** Replacing a character distributes over concatenation. */
  lemma {:induction false} ReplaceAppend(a: string, b: string, c: char, rep: string)
    ensures Replace(a + b, c, rep) == Replace(a, c, rep) + Replace(b, c, rep)
  {
    if a == [] {
      assert a + b == b;
    } else {
      assert (a + b)[0] == a[0];
      assert (a + b)[1..] == a[1..] + b;
      ReplaceAppend(a[1..], b, c, rep);
    }
  }

  /** Length of the longest prefix of s whose characters all satisfy inClass. */
  function Span(s: string, inClass: char -> bool): (n: nat)
    ensures n <= |s|
    ensures forall i :: 0 <= i < n ==> inClass(s[i])
    ensures n < |s| ==> !inClass(s[n])
  {
    if s == [] || !inClass(s[0]) then 0 else 1 + Span(s[1..], inClass)
  }
}
