/**
 * String trimming as JavaScript's `String.prototype.trim` does it: strip every
 * leading and trailing character of the ECMAScript WhiteSpace and LineTerminator
 * productions, and nothing else.
 */
module Text {

  /** The ECMAScript WhiteSpace (TAB, VT, FF, SP, NBSP, ZWNBSP and the Unicode Zs
      category) and LineTerminator (LF, CR, LS, PS) code points. */
  predicate IsWhitespace(c: char) {
    c == '\t' || c == '\n' || c == '\U{B}' || c == '\U{C}' || c == '\r' || c == ' '
    || c == '\U{A0}' || c == '\U{1680}' || ('\U{2000}' <= c <= '\U{200A}')
    || c == '\U{2028}' || c == '\U{2029}' || c == '\U{202F}' || c == '\U{205F}'
    || c == '\U{3000}' || c == '\U{FEFF}'
  }

  predicate AllWhitespace(s: string) {
    forall k :: 0 <= k < |s| ==> IsWhitespace(s[k])
  }

  /** The number of whitespace characters `s` starts with. */
  function LeadingWhitespace(s: string): (n: nat)
    ensures n <= |s|
    ensures AllWhitespace(s[..n])
    ensures n < |s| ==> !IsWhitespace(s[n])
  {
    if s == [] || !IsWhitespace(s[0]) then 0
    else
      var m := LeadingWhitespace(s[1..]);
      assert s[..m + 1] == [s[0]] + s[1..][..m];
      m + 1
  }

  /** The number of whitespace characters `s` ends with. */
  function TrailingWhitespace(s: string): (n: nat)
    ensures n <= |s|
    ensures AllWhitespace(s[|s| - n..])
    ensures n < |s| ==> !IsWhitespace(s[|s| - n - 1])
  {
    if s == [] || !IsWhitespace(s[|s| - 1]) then 0
    else
      var front := s[..|s| - 1];
      var m := TrailingWhitespace(front);
      assert s[|s| - (m + 1)..] == front[|front| - m..] + [s[|s| - 1]];
      m + 1
  }

  /** `r` is what is left of `s` once its whitespace ends are cut off: a slice of
      `s` between two all-whitespace ends that neither starts nor ends with
      whitespace itself. */
  ghost predicate StripsTo(s: string, r: string) {
    exists i, j :: 0 <= i <= j <= |s| && r == s[i..j]
      && AllWhitespace(s[..i]) && AllWhitespace(s[j..])
      && (r == [] || (!IsWhitespace(r[0]) && !IsWhitespace(r[|r| - 1])))
  }

  /** JavaScript's `s.trim()`. */
  function Trim(s: string): (r: string)
    ensures StripsTo(s, r)
  {
    var i := LeadingWhitespace(s);
    if i == |s| then
      assert s[..|s|] == s && s[|s|..] == [];
      []
    else
      var n := TrailingWhitespace(s);
      var r := s[i..|s| - n];
      assert r[0] == s[i] && r[|r| - 1] == s[|s| - n - 1];
      r
  }

  lemma WhitespacePrefix(s: string, i: nat)
    requires i <= |s| && AllWhitespace(s[..i])
    ensures forall k :: 0 <= k < i ==> IsWhitespace(s[k])
  {
    forall k | 0 <= k < i ensures IsWhitespace(s[k]) {
      assert s[..i][k] == s[k];
    }
  }

  lemma WhitespaceSuffix(s: string, j: nat)
    requires j <= |s| && AllWhitespace(s[j..])
    ensures forall k :: j <= k < |s| ==> IsWhitespace(s[k])
  {
    forall k | j <= k < |s| ensures IsWhitespace(s[k]) {
      assert s[j..][k - j] == s[k];
    }
  }

  /** The whitespace run at the front of `s` ends exactly at `i`. */
  lemma LeadingExact(s: string, i: nat)
    requires i <= |s|
    requires forall k :: 0 <= k < i ==> IsWhitespace(s[k])
    requires i < |s| ==> !IsWhitespace(s[i])
    ensures LeadingWhitespace(s) == i
  {
    WhitespacePrefix(s, LeadingWhitespace(s));
  }

  /** The whitespace run at the back of `s` starts exactly at `j`. */
  lemma TrailingExact(s: string, j: nat)
    requires j <= |s|
    requires forall k :: j <= k < |s| ==> IsWhitespace(s[k])
    requires 0 < j ==> !IsWhitespace(s[j - 1])
    ensures TrailingWhitespace(s) == |s| - j
  {
    WhitespaceSuffix(s, |s| - TrailingWhitespace(s));
  }

  /** Trim is the only function with the property above: whatever string `s`
      strips to is `Trim(s)`. */
  lemma TrimUnique(s: string, r: string)
    requires StripsTo(s, r)
    ensures r == Trim(s)
  {
    var i, j :| 0 <= i <= j <= |s| && r == s[i..j]
      && AllWhitespace(s[..i]) && AllWhitespace(s[j..])
      && (r == [] || (!IsWhitespace(r[0]) && !IsWhitespace(r[|r| - 1])));
    WhitespacePrefix(s, i);
    WhitespaceSuffix(s, j);
    if r == [] {
      LeadingExact(s, |s|);
      assert Trim(s) == [];
    } else {
      assert s[i] == r[0] && s[j - 1] == r[|r| - 1];
      LeadingExact(s, i);
      TrailingExact(s, j);
      assert Trim(s) == s[i..j];
    }
  }

  /** Trimming twice is trimming once. */
  lemma TrimIdempotent(s: string)
    ensures Trim(Trim(s)) == Trim(s)
  {
    var r := Trim(s);
    assert r[..0] == [] && r[|r|..] == [] && r[0..|r|] == r;
    assert StripsTo(r, r);
    TrimUnique(r, r);
  }

  /** Whitespace around a string with non-whitespace ends is exactly what
      trimming removes. */
  lemma TrimPadding(w1: string, t: string, w2: string)
    requires AllWhitespace(w1) && AllWhitespace(w2)
    requires t == [] || (!IsWhitespace(t[0]) && !IsWhitespace(t[|t| - 1]))
    ensures Trim(w1 + t + w2) == t
  {
    var s := w1 + t + w2;
    var i, j := |w1|, |w1| + |t|;
    assert s[i..j] == t && s[..i] == w1 && s[j..] == w2;
    assert StripsTo(s, t);
    TrimUnique(s, t);
  }

  /** Surrounding spaces go. */
  lemma TrimSpacedNumber()
    ensures Trim(" 40 ") == "40"
  {
    assert " 40 " == " " + "40" + " ";
    TrimPadding(" ", "40", " ");
  }

  /** An input made only of whitespace trims to the empty string. */
  lemma TrimBlank(w: string)
    requires AllWhitespace(w)
    ensures Trim(w) == ""
  {
    assert w == w + "" + "";
    TrimPadding(w, "", "");
  }

  /** Inner characters stay: a decimal point is not trimmed away. */
  lemma TrimDecimal()
    ensures Trim("40.0") == "40.0"
  {
    assert "40.0" == [] + "40.0" + [];
    TrimPadding([], "40.0", []);
  }

  lemma TrimYear()
    ensures Trim("1777") == "1777"
  {
    assert "1777" == [] + "1777" + [];
    TrimPadding([], "1777", []);
  }
}
