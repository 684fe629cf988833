/** The JavaScript string operations the route handlers rely on: `trim`, `toUpperCase`,
    `toLowerCase`, `startsWith`, substring search, and the code-point order SQLite uses
    for `ORDER BY ... ASC` on text. */
module Text {
  import opened Wrappers

  /** A string field that JavaScript finds truthy: present and not empty. */
  predicate Given(x: Option<string>) {
    x.Some? && x.value != []
  }

  /** The code points JavaScript treats as white space, both in the regular-expression
      class `\s` and in `String.prototype.trim` (WhiteSpace and LineTerminator of ECMA-262). */
  predicate IsSpace(c: char) {
    || c == '\t' || c == '\n' || c == '\U{B}' || c == '\U{C}' || c == '\r' || c == ' '
    || c == '\U{A0}' || c == '\U{1680}' || ('\U{2000}' <= c <= '\U{200A}')
    || c == '\U{2028}' || c == '\U{2029}' || c == '\U{202F}' || c == '\U{205F}'
    || c == '\U{3000}' || c == '\U{FEFF}'
  }

  /** True when every character of `s` is white space (so `s.trim() === ""`). */
  predicate IsBlank(s: string) {
    forall i :: 0 <= i < |s| ==> IsSpace(s[i])
  }

  /** True when `s` neither starts nor ends with white space. */
  predicate IsTrimmed(s: string) {
    s == [] || (!IsSpace(s[0]) && !IsSpace(s[|s| - 1]))
  }

  /** Drops the leading white space: what is dropped is all white space and what is kept
      is a suffix of `s` that does not start with white space. */
  function TrimStart(s: string): (r: string)
    ensures |r| <= |s| && r == s[|s| - |r|..]
    ensures forall i :: 0 <= i < |s| - |r| ==> IsSpace(s[i])
    ensures r == [] || !IsSpace(r[0])
  {
    if s != [] && IsSpace(s[0]) then TrimStart(s[1..]) else s
  }

  /** Drops the trailing white space: what is dropped is all white space and what is kept
      is a prefix of `s` that does not end with white space. */
  function TrimEnd(s: string): (r: string)
    ensures |r| <= |s| && r == s[..|r|]
    ensures forall i :: |r| <= i < |s| ==> IsSpace(s[i])
    ensures r == [] || !IsSpace(r[|r| - 1])
  {
    if s != [] && IsSpace(s[|s| - 1]) then TrimEnd(s[..|s| - 1]) else s
  }

  /** `String.prototype.trim`. The result has no white space at either end, is empty exactly
      when `s` is blank, and leaves an already trimmed string alone; `TrimContent` shows that
      it is the piece of `s` between the leading and the trailing white space. */
  function Trim(s: string): (r: string)
    ensures |r| <= |s|
    ensures IsTrimmed(r)
    ensures r == [] <==> IsBlank(s)
    ensures IsTrimmed(s) ==> r == s
  {
    TrimEndOfTrimStart(s);
    TrimEnd(TrimStart(s))
  }

  /** What `Trim` needs of its two halves. */
  lemma TrimEndOfTrimStart(s: string)
    ensures IsTrimmed(TrimEnd(TrimStart(s)))
    ensures TrimEnd(TrimStart(s)) == [] <==> IsBlank(s)
    ensures IsTrimmed(s) ==> TrimEnd(TrimStart(s)) == s
  {
    var front := TrimStart(s);
    var r := TrimEnd(front);
    if r != [] {
      assert front != [] && r[0] == front[0];
    }
    if front == [] {
      assert IsBlank(s);
    } else {
      assert !IsBlank(s) by {
        assert s[|s| - |front|] == front[0];
      }
    }
    if IsTrimmed(s) && s != [] {
      assert front == s;
      assert TrimEnd(s) == s;
    }
  }

  /** `trim` removes white space only, and only at the two ends: `s` is the trimmed string
      with some white space before it and some after it. */
  lemma TrimContent(s: string)
    ensures exists lead, trail :: IsBlank(lead) && IsBlank(trail) && s == lead + Trim(s) + trail
  {
    var front := TrimStart(s);
    var r := TrimEnd(front);
    var lead := s[..|s| - |front|];
    var trail := front[|r|..];
    assert IsBlank(lead) && IsBlank(trail);
    assert s == lead + r + trail by {
      SplitAt(s, |s| - |front|);
      SplitAt(front, |r|);
      Regroup(lead, r, trail);
    }
    assert Trim(s) == r;
    BlankAround(s, r, lead, trail);
  }

  /** Names the two blank margins around `mid` as witnesses. */
  lemma BlankAround(s: string, mid: string, lead: string, trail: string)
    requires IsBlank(lead) && IsBlank(trail) && s == lead + mid + trail
    ensures exists l, t :: IsBlank(l) && IsBlank(t) && s == l + mid + t
  {
  }

  /** A sequence is its prefix up to `k` followed by the rest. */
  lemma SplitAt<T>(s: seq<T>, k: nat)
    requires k <= |s|
    ensures s == s[..k] + s[k..]
  {
  }

  /** Concatenation is associative. */
  lemma Regroup<T>(a: seq<T>, b: seq<T>, c: seq<T>)
    ensures a + (b + c) == a + b + c
  {
  }

  /** Trimming twice trims nothing more. */
  lemma TrimIdempotent(s: string)
    ensures Trim(Trim(s)) == Trim(s)
  {
  }

  /** `toUpperCase` on one character, for the ASCII letters. */
  function UpperChar(c: char): char {
    if 'a' <= c <= 'z' then (c as int - 32) as char else c
  }

  /** `toLowerCase` on one character, for the ASCII letters. */
  function LowerChar(c: char): char {
    if 'A' <= c <= 'Z' then (c as int + 32) as char else c
  }

  /** `String.prototype.toUpperCase`, character by character. */
  function ToUpper(s: string): (r: string)
    ensures |r| == |s|
    ensures forall i :: 0 <= i < |s| ==> r[i] == UpperChar(s[i])
  {
    seq(|s|, i requires 0 <= i < |s| => UpperChar(s[i]))
  }

  /** `String.prototype.toLowerCase`, character by character. */
  function ToLower(s: string): (r: string)
    ensures |r| == |s|
    ensures forall i :: 0 <= i < |s| ==> r[i] == LowerChar(s[i])
  {
    seq(|s|, i requires 0 <= i < |s| => LowerChar(s[i]))
  }

  /** True when `s` holds an upper-case ASCII letter. */
  predicate HasUpperLetter(s: string) {
    exists i :: 0 <= i < |s| && 'A' <= s[i] <= 'Z'
  }

  /** A lower-cased string holds no upper-case ASCII letter, and lower-casing it again changes nothing. */
  lemma ToLowerNormalises(s: string)
    ensures !HasUpperLetter(ToLower(s))
    ensures ToLower(ToLower(s)) == ToLower(s)
  {
  }

  /** Two spellings that differ only in letter case have the same upper-case form. */
  lemma ToUpperIgnoresCase(s: string)
    ensures ToUpper(ToLower(s)) == ToUpper(s)
    ensures ToUpper(ToUpper(s)) == ToUpper(s)
  {
  }

  /** Lower-casing an upper-cased string gives the lower-case form of the original. */
  lemma ToLowerIgnoresCase(s: string)
    ensures ToLower(ToUpper(s)) == ToLower(s)
  {
  }

  /** `s.startsWith(prefix)`, case-sensitive. */
  predicate StartsWith(s: string, prefix: string) {
    |prefix| <= |s| && s[..|prefix|] == prefix
  }

  /** `part` occurs in `s` starting at index `i`. */
  predicate OccursAt(s: string, part: string, i: int) {
    0 <= i <= |s| - |part| && s[i..i + |part|] == part
  }

  /** `s` holds `part` as a contiguous substring (a `contains` filter). */
  predicate Contains(s: string, part: string) {
    exists i | 0 <= i <= |s| :: OccursAt(s, part, i)
  }

  /** Strict order of strings by code point, shorter prefix first. */
  predicate Less(a: string, b: string) {
    if a == [] then b != []
    else if b == [] then false
    else if a[0] != b[0] then a[0] < b[0]
    else Less(a[1..], b[1..])
  }

  lemma {:induction false} LessIrreflexive(a: string)
    ensures !Less(a, a)
  {
    if a != [] {
      LessIrreflexive(a[1..]);
    }
  }

  lemma {:induction false} LessTransitive(a: string, b: string, c: string)
    requires Less(a, b) && Less(b, c)
    ensures Less(a, c)
  {
    if a != [] && a[0] == b[0] && b[0] == c[0] {
      LessTransitive(a[1..], b[1..], c[1..]);
    }
  }

  /** Any two different strings are ordered one way or the other. */
  lemma {:induction false} LessTotal(a: string, b: string)
    requires a != b
    ensures Less(a, b) || Less(b, a)
  {
    if a != [] && b != [] && a[0] == b[0] {
      assert a == [a[0]] + a[1..] && b == [b[0]] + b[1..];
      LessTotal(a[1..], b[1..]);
    }
  }

  lemma LessAsymmetric(a: string, b: string)
    requires Less(a, b)
    ensures !Less(b, a)
  {
    if Less(b, a) {
      LessTransitive(a, b, a);
      LessIrreflexive(a);
    }
  }
}
