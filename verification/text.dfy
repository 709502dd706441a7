/** Text helpers shared by the server and the client: JavaScript's notion of
    white space (the `\s` class and `String.prototype.trim`), trimming, ASCII
    case folding and literal substring search. */
module Text {

  /** The characters JavaScript's `\s` and `trim` treat as white space:
      the ECMAScript WhiteSpace and LineTerminator code points. */
  predicate IsSpace(c: char) {
    || c == ' ' || c == '\t' || c == '\n' || c == '\U{000B}' || c == '\U{000C}' || c == '\r'
    || c == '\U{00A0}' || c == '\U{1680}' || ('\U{2000}' <= c <= '\U{200A}')
    || c == '\U{2028}' || c == '\U{2029}' || c == '\U{202F}' || c == '\U{205F}'
    || c == '\U{3000}' || c == '\U{FEFF}'
  }

  predicate IsUpper(c: char) { 'A' <= c <= 'Z' }
  predicate IsLower(c: char) { 'a' <= c <= 'z' }
  predicate IsDigit(c: char) { '0' <= c <= '9' }
  predicate IsAlphaNumeric(c: char) { IsUpper(c) || IsLower(c) || IsDigit(c) }

  predicate AllSpace(s: string) {
    forall i :: 0 <= i < |s| ==> IsSpace(s[i])
  }

  /** Drops leading white space. */
  function TrimStart(s: string): string {
    if |s| > 0 && IsSpace(s[0]) then TrimStart(s[1..]) else s
  }

  /** Drops trailing white space. */
  function TrimEnd(s: string): string {
    if |s| > 0 && IsSpace(s[|s| - 1]) then TrimEnd(s[..|s| - 1]) else s
  }

  /** `String.prototype.trim`: no longer than the input, and neither
      starting nor ending with white space. */
  function Trim(s: string): (r: string)
    ensures |r| <= |s|
    ensures r == [] || (!IsSpace(r[0]) && !IsSpace(r[|r| - 1]))
  {
    TrimStartSpec(s);
    TrimEndSpec(TrimStart(s));
    TrimEnd(TrimStart(s))
  }

  lemma {:induction false} TrimStartSpec(s: string)
    ensures var r := TrimStart(s);
            && |r| <= |s| && r == s[|s| - |r|..] && AllSpace(s[..|s| - |r|])
            && (r == [] || !IsSpace(r[0]))
  {
    if |s| > 0 && IsSpace(s[0]) {
      TrimStartSpec(s[1..]);
      var r := TrimStart(s);
      forall k | 0 <= k < |s| - |r| ensures IsSpace(s[k]) {
        if k > 0 {
          assert s[k] == s[1..][..|s| - 1 - |r|][k - 1];
        }
      }
    }
  }

  lemma {:induction false} TrimEndSpec(s: string)
    ensures var r := TrimEnd(s);
            && |r| <= |s| && r == s[..|r|] && AllSpace(s[|r|..])
            && (r == [] || !IsSpace(r[|r| - 1]))
  {
    if |s| > 0 && IsSpace(s[|s| - 1]) {
      var p := s[..|s| - 1];
      TrimEndSpec(p);
      var r := TrimEnd(s);
      assert r == p[..|r|];
      forall k | |r| <= k < |s| ensures IsSpace(s[k]) {
        if k < |s| - 1 {
          assert s[k] == p[|r|..][k - |r|];
        }
      }
    }
  }

  /** Trimming removes white space at both ends and changes nothing else:
      the result is a slice of the input, only white space lies outside it,
      it neither starts nor ends with white space, and it is empty exactly
      when the input is all white space. */
  lemma {:induction false} TrimSpec(s: string)
    ensures var r := Trim(s);
            && (exists i :: 0 <= i <= |s| - |r| && r == s[i..i + |r|]
                           && AllSpace(s[..i]) && AllSpace(s[i + |r|..]))
            && (r == [] || (!IsSpace(r[0]) && !IsSpace(r[|r| - 1])))
            && (r == [] <==> AllSpace(s))
  {
    var t := TrimStart(s);
    TrimStartSpec(s);
    TrimEndSpec(t);
    var r := TrimEnd(t);
    var i := |s| - |t|;
    assert r == s[i..i + |r|];
    assert s[i + |r|..] == t[|r|..];
    if r == [] {
      forall k | 0 <= k < |s| ensures IsSpace(s[k]) {
        if k < i {
          assert s[k] == s[..i][k];
        }
      }
    } else {
      assert r[0] == s[i];
    }
  }

  /** A text that neither starts nor ends with white space is its own trim. */
  lemma {:induction false} TrimOfTrimmed(s: string)
    requires s == [] || (!IsSpace(s[0]) && !IsSpace(s[|s| - 1]))
    ensures Trim(s) == s
  {
  }

  /** Trimming twice is trimming once. */
  lemma {:induction false} TrimIdempotent(s: string)
    ensures Trim(Trim(s)) == Trim(s)
  {
    TrimSpec(s);
    TrimOfTrimmed(Trim(s));
  }

  function LowerChar(c: char): char {
    if IsUpper(c) then (c as int + 32) as char else c
  }

  /** ASCII lower-casing, the fold used for case-insensitive comparison. */
  function Lower(s: string): (r: string)
    ensures |r| == |s|
    ensures forall i :: 0 <= i < |s| ==> r[i] == LowerChar(s[i])
  {
    seq(|s|, i requires 0 <= i < |s| => LowerChar(s[i]))
  }

  /** `needle` occurs in `hay` starting at position `i`. */
  predicate OccursAt(hay: string, needle: string, i: int) {
    0 <= i <= |hay| - |needle| && hay[i..i + |needle|] == needle
  }

  /** Literal substring search. */
  predicate Contains(hay: string, needle: string) {
    exists i | 0 <= i <= |hay| :: OccursAt(hay, needle, i)
  }

  /** Case-insensitive literal substring search. */
  predicate ContainsIgnoringCase(hay: string, needle: string) {
    Contains(Lower(hay), Lower(needle))
  }

  /** A text occurring in a string still occurs after anything is added at
      either end: search results are stable under extension. */
  lemma ContainsExtended(pre: string, hay: string, post: string, needle: string)
    requires Contains(hay, needle)
    ensures Contains(pre + hay + post, needle)
  {
    var i :| 0 <= i <= |hay| && OccursAt(hay, needle, i);
    var big := pre + hay + post;
    assert big[|pre| + i..|pre| + i + |needle|] == hay[i..i + |needle|];
    assert OccursAt(big, needle, |pre| + i);
  }

  /** Lower-casing commutes with concatenation. */
  lemma LowerConcat(a: string, b: string)
    ensures Lower(a + b) == Lower(a) + Lower(b)
  {
  }
}
