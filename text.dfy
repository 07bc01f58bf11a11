/** `String.prototype.trim`, which the game applies to a player's name before saving it. */
module Text {

  /** ECMAScript WhiteSpace and LineTerminator code points, the ones `trim` removes. */
  predicate IsWhiteSpace(c: char) {
    c == '\t' || c == '\n' || c == '\U{B}' || c == '\U{C}' || c == '\r' || c == ' '
    || c == '\U{A0}' || c == '\U{1680}' || ('\U{2000}' <= c <= '\U{200A}')
    || c == '\U{2028}' || c == '\U{2029}' || c == '\U{202F}' || c == '\U{205F}'
    || c == '\U{3000}' || c == '\U{FEFF}'
  }

  /** The length of the white-space run at the start of `s`. */
  function LeadingSpace(s: string): (n: nat)
    ensures n <= |s|
    ensures forall k :: 0 <= k < n ==> IsWhiteSpace(s[k])
    ensures n < |s| ==> !IsWhiteSpace(s[n])
  {
    if s == [] || !IsWhiteSpace(s[0]) then 0 else 1 + LeadingSpace(s[1..])
  }

  /** The length of the white-space run at the end of `s`. */
  function TrailingSpace(s: string): (n: nat)
    ensures n <= |s|
    ensures forall k :: |s| - n <= k < |s| ==> IsWhiteSpace(s[k])
    ensures n < |s| ==> !IsWhiteSpace(s[|s| - 1 - n])
  {
    if s == [] || !IsWhiteSpace(s[|s| - 1]) then 0 else 1 + TrailingSpace(s[..|s| - 1])
  }

  /**
   * `trim`: `s` without the white space at either end. What is left
   * starts and ends with a non-white-space character.
   */
  function Trim(s: string): (r: string)
    ensures LeadingSpace(s) + |r| <= |s|
    ensures r == [] || (!IsWhiteSpace(r[0]) && !IsWhiteSpace(r[|r| - 1]))
  {
    var rest := s[LeadingSpace(s)..];
    rest[..|rest| - TrailingSpace(rest)]
  }

  /** What `trim` cuts off at either end is white space, and the rest is kept in place. */
  lemma TrimIsInfix(s: string)
    ensures LeadingSpace(s) + |Trim(s)| <= |s|
    ensures s == s[..LeadingSpace(s)] + Trim(s) + s[LeadingSpace(s) + |Trim(s)|..]
    ensures forall k :: 0 <= k < LeadingSpace(s) ==> IsWhiteSpace(s[k])
    ensures forall k :: LeadingSpace(s) + |Trim(s)| <= k < |s| ==> IsWhiteSpace(s[k])
  {
    var a := LeadingSpace(s);
    var rest := s[a..];
    var b := a + |Trim(s)|;
    assert Trim(s) == s[a..b];
    assert s == s[..a] + s[a..b] + s[b..];
    TrailingIsSpace(s, a, |rest| - TrailingSpace(rest));
  }

  lemma TrailingIsSpace(s: string, a: nat, m: nat)
    requires a <= |s| && m <= |s| - a
    requires forall k :: m <= k < |s[a..]| ==> IsWhiteSpace(s[a..][k])
    ensures forall k :: a + m <= k < |s| ==> IsWhiteSpace(s[k])
  {
    forall k | a + m <= k < |s| ensures IsWhiteSpace(s[k]) {
      assert s[k] == s[a..][k - a];
    }
  }

  /** A name trims to nothing exactly when it is all white space. */
  lemma TrimEmptyIff(s: string)
    ensures Trim(s) == [] <==> forall k :: 0 <= k < |s| ==> IsWhiteSpace(s[k])
  {
    TrimIsInfix(s);
    if Trim(s) == [] {
      assert s == s[..LeadingSpace(s)] + s[LeadingSpace(s)..];
    } else {
      assert s[LeadingSpace(s)] == Trim(s)[0];
    }
  }

  /** Trimming twice is trimming once. */
  lemma TrimIdempotent(s: string)
    ensures Trim(Trim(s)) == Trim(s)
  {
    var r := Trim(s);
    if r != [] {
      assert LeadingSpace(r) == 0;
      assert TrailingSpace(r) == 0;
    }
  }
}
