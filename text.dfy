/**
 * The two string operations the catalog applies to title, description and
 * thumbnail: JavaScript's String.prototype.trim and String.prototype.toLowerCase.
 * A JavaScript string is a sequence of UTF-16 code units; here it is a `string`.
 */
module Text {

  /** ECMAScript WhiteSpace and LineTerminator code points: what `trim` strips. */
  predicate IsWhiteSpace(c: char)
  {
    c == '\t' || c == '\n' || c == '\U{B}' || c == '\U{C}' || c == '\r' || c == ' ' ||
    c == '\U{A0}' || c == '\U{1680}' || ('\U{2000}' <= c <= '\U{200A}') ||
    c == '\U{2028}' || c == '\U{2029}' || c == '\U{202F}' || c == '\U{205F}' ||
    c == '\U{3000}' || c == '\U{FEFF}'
  }

  /** Upper-case letters of Basic Latin and the Latin-1 Supplement (A-Z, and À-Þ without ×). */
  predicate IsUpper(c: char)
  {
    ('A' <= c <= 'Z') || ('\U{C0}' <= c <= '\U{DE}' && c != '\U{D7}')
  }

  /** Lower-case mapping of one character; characters other than IsUpper ones are kept. */
  function ToLowerChar(c: char): (r: char)
    ensures !IsUpper(r)
    ensures IsUpper(c) ==> r != c && r as int == c as int + 32
    ensures !IsUpper(c) ==> r == c
    ensures IsWhiteSpace(r) <==> IsWhiteSpace(c)
  {
    if IsUpper(c) then (c as int + 32) as char else c
  }

  /** `s.toLowerCase()`: character by character, so the length is kept. */
  function ToLower(s: string): (r: string)
    ensures |r| == |s|
    ensures forall i :: 0 <= i < |s| ==> r[i] == ToLowerChar(s[i])
  {
    seq(|s|, i requires 0 <= i < |s| => ToLowerChar(s[i]))
  }

  /** Lower-casing leaves no upper-case letter, and a string without one comes back unchanged. */
  lemma ToLowerLowers(s: string)
    ensures forall i :: 0 <= i < |ToLower(s)| ==> !IsUpper(ToLower(s)[i])
    ensures (forall i :: 0 <= i < |s| ==> !IsUpper(s[i])) ==> ToLower(s) == s
  {
  }

  /**
   * `s.trim()`: white space dropped at both ends. The result starts and ends
   * with a character that is not white space, or is empty.
   */
  function Trim(s: string): (r: string)
    ensures |r| <= |s|
    ensures r == [] || (!IsWhiteSpace(r[0]) && !IsWhiteSpace(r[|r| - 1]))
    decreases |s|
  {
    if s == [] then s
    else if IsWhiteSpace(s[0]) then Trim(s[1..])
    else if IsWhiteSpace(s[|s| - 1]) then Trim(s[..|s| - 1])
    else s
  }

  /** Every character of `s` is white space. */
  predicate AllWhiteSpace(s: string)
  {
    forall i :: 0 <= i < |s| ==> IsWhiteSpace(s[i])
  }

  /** The number of white-space characters `s` starts with. */
  function LeadingWhiteSpace(s: string): (n: nat)
    ensures n <= |s|
    ensures AllWhiteSpace(s[..n])
    ensures n < |s| ==> !IsWhiteSpace(s[n])
  {
    if s == [] || !IsWhiteSpace(s[0]) then 0
    else
      var n := 1 + LeadingWhiteSpace(s[1..]);
      assert s[..n] == [s[0]] + s[1..][..n - 1];
      n
  }

  /**
   * What `trim` keeps is the infix of `s` after its leading white space, and
   * everything after that infix is white space too: only white space is dropped.
   */
  lemma {:induction false} TrimIsInfix(s: string)
    ensures LeadingWhiteSpace(s) + |Trim(s)| <= |s|
    ensures Trim(s) == s[LeadingWhiteSpace(s)..LeadingWhiteSpace(s) + |Trim(s)|]
    ensures AllWhiteSpace(s[LeadingWhiteSpace(s) + |Trim(s)|..])
    decreases |s|
  {
    if s == [] {
    } else if IsWhiteSpace(s[0]) {
      TrimIsInfix(s[1..]);
      TrimInfixDropFirst(s);
    } else if IsWhiteSpace(s[|s| - 1]) {
      TrimIsInfix(s[..|s| - 1]);
      TrimInfixDropLast(s);
    }
  }

  /** The step of TrimIsInfix where `trim` drops a leading white-space character. */
  lemma TrimInfixDropFirst(s: string)
    requires s != [] && IsWhiteSpace(s[0])
    requires var t := s[1..];
      LeadingWhiteSpace(t) + |Trim(t)| <= |t| &&
      Trim(t) == t[LeadingWhiteSpace(t)..LeadingWhiteSpace(t) + |Trim(t)|] &&
      AllWhiteSpace(t[LeadingWhiteSpace(t) + |Trim(t)|..])
    ensures LeadingWhiteSpace(s) + |Trim(s)| <= |s|
    ensures Trim(s) == s[LeadingWhiteSpace(s)..LeadingWhiteSpace(s) + |Trim(s)|]
    ensures AllWhiteSpace(s[LeadingWhiteSpace(s) + |Trim(s)|..])
  {
    var t := s[1..];
    var k, n := LeadingWhiteSpace(t), |Trim(t)|;
    TrimDropsFirst(s);
    DropFirstSlices(s, k, k + n);
  }

  /** Dropping a leading white-space character changes neither what `trim` keeps nor what follows. */
  lemma TrimDropsFirst(s: string)
    requires s != [] && IsWhiteSpace(s[0])
    ensures Trim(s) == Trim(s[1..])
    ensures LeadingWhiteSpace(s) == LeadingWhiteSpace(s[1..]) + 1
  {
  }

  /** Slicing after dropping the first element is slicing one further along. */
  lemma DropFirstSlices<T>(s: seq<T>, a: nat, b: nat)
    requires a <= b < |s|
    ensures s[1..][a..b] == s[a + 1..b + 1]
    ensures s[1..][b..] == s[b + 1..]
  {
  }

  /** The step of TrimIsInfix where `trim` drops a trailing white-space character. */
  lemma TrimInfixDropLast(s: string)
    requires s != [] && !IsWhiteSpace(s[0]) && IsWhiteSpace(s[|s| - 1])
    requires var t := s[..|s| - 1];
      LeadingWhiteSpace(t) + |Trim(t)| <= |t| &&
      Trim(t) == t[LeadingWhiteSpace(t)..LeadingWhiteSpace(t) + |Trim(t)|] &&
      AllWhiteSpace(t[LeadingWhiteSpace(t) + |Trim(t)|..])
    ensures LeadingWhiteSpace(s) + |Trim(s)| <= |s|
    ensures Trim(s) == s[LeadingWhiteSpace(s)..LeadingWhiteSpace(s) + |Trim(s)|]
    ensures AllWhiteSpace(s[LeadingWhiteSpace(s) + |Trim(s)|..])
  {
    var t := s[..|s| - 1];
    assert t[0] == s[0];
    var n := |Trim(t)|;
    assert Trim(s) == Trim(t) && LeadingWhiteSpace(s) == 0 && LeadingWhiteSpace(t) == 0;
    assert t[..n] == s[..n];
    assert s[n..] == t[n..] + [s[|s| - 1]];
  }

  /** The normalisation the catalog applies to its string fields: `s.trim().toLowerCase()`. */
  function Normalize(s: string): string
  {
    ToLower(Trim(s))
  }

  /** A string that normalisation leaves alone: no white space at either end, no upper-case letter. */
  predicate Normalized(s: string)
  {
    (s == [] || (!IsWhiteSpace(s[0]) && !IsWhiteSpace(s[|s| - 1]))) &&
    forall i :: 0 <= i < |s| ==> !IsUpper(s[i])
  }

  /** What `trim().toLowerCase()` produces is normalised. */
  lemma NormalizeIsNormalized(s: string)
    ensures Normalized(Normalize(s))
  {
    var t := Trim(s);
    var r := ToLower(t);
    if r != [] {
      assert r[0] == ToLowerChar(t[0]);
      assert r[|r| - 1] == ToLowerChar(t[|t| - 1]);
    }
  }

  /** A normalised string is a fixed point of `trim().toLowerCase()`. */
  lemma {:induction false} NormalizedIsFixed(s: string)
    requires Normalized(s)
    ensures Normalize(s) == s
  {
    assert Trim(s) == s;
    assert ToLower(s) == s;
  }

  /** Normalising twice is normalising once. */
  lemma NormalizeIdempotent(s: string)
    ensures Normalize(Normalize(s)) == Normalize(s)
  {
    NormalizeIsNormalized(s);
    NormalizedIsFixed(Normalize(s));
  }

  /** Normalisation neither adds nor changes characters other than by lower-casing: an all-space input gives "". */
  lemma AllWhiteSpaceNormalizesToEmpty(s: string)
    requires AllWhiteSpace(s)
    ensures Normalize(s) == []
  {
    TrimIsInfix(s);
  }
}
