/**
 * The JavaScript string built-ins the components rely on: `toLowerCase`,
 * `includes`, `trim` and the decimal rendering of an integer `number`.
 * A string is a sequence of `char`s, one per character.
 */
module Text {
  import opened Wrappers

  // ---------------------------------------------------------------- case

  predicate IsUpper(c: char) {
    'A' <= c <= 'Z'
  }

  /** `toLowerCase` of one character; only ASCII letters are mapped. */
  function LowerChar(c: char): (r: char)
    ensures !IsUpper(r)
    ensures !IsUpper(c) ==> r == c
    ensures IsUpper(c) ==> 'a' <= r <= 'z' && r as int - c as int == 'a' as int - 'A' as int
  {
    if IsUpper(c) then (c as int - 'A' as int + 'a' as int) as char else c
  }

  /** `String.prototype.toLowerCase`, applied character by character. */
  function Lower(s: string): (r: string)
    ensures |r| == |s|
    ensures forall i :: 0 <= i < |s| ==> r[i] == LowerChar(s[i])
  {
    if s == [] then [] else [LowerChar(s[0])] + Lower(s[1..])
  }

  lemma LowerIdempotent(s: string)
    ensures Lower(Lower(s)) == Lower(s)
  {
    var l := Lower(s);
    assert forall i :: 0 <= i < |l| ==> LowerChar(l[i]) == l[i];
  }

  // ---------------------------------------------------------- substrings

  /** `t` occurs in `s` starting at index `i`. */
  predicate OccursAt(s: string, t: string, i: int) {
    0 <= i && i + |t| <= |s| && s[i..i + |t|] == t
  }

  predicate IsPrefix(p: string, s: string) {
    |p| <= |s| && s[..|p|] == p
  }

  /**
   * `s.includes(t)`: scan `s` from the left for an occurrence of `t`.
   * The empty string is included in every string.
   */
  predicate Includes(s: string, t: string) {
    IsPrefix(t, s) || (s != [] && Includes(s[1..], t))
  }

  /** `Includes` agrees with the positional definition, in both directions. */
  lemma {:induction false} IncludesIffOccurs(s: string, t: string)
    ensures Includes(s, t) <==> exists i :: OccursAt(s, t, i)
  {
    if IsPrefix(t, s) {
      assert OccursAt(s, t, 0);
    } else if s == [] {
      assert forall i :: !OccursAt(s, t, i);
    } else {
      IncludesIffOccurs(s[1..], t);
      forall i | OccursAt(s[1..], t, i) ensures OccursAt(s, t, i + 1) {
        assert s[i + 1..i + 1 + |t|] == s[1..][i..i + |t|];
      }
      forall i | OccursAt(s, t, i) ensures OccursAt(s[1..], t, i - 1) {
        assert i != 0;
        assert s[i..i + |t|] == s[1..][i - 1..i - 1 + |t|];
      }
    }
  }

  lemma IncludesAt(s: string, t: string, i: int)
    requires OccursAt(s, t, i)
    ensures Includes(s, t)
  {
    IncludesIffOccurs(s, t);
  }

  lemma IncludesEmpty(s: string)
    ensures Includes(s, "")
  {
    assert OccursAt(s, "", 0);
    IncludesAt(s, "", 0);
  }

  /** `t` cannot occur where no position that could start it holds its first character. */
  lemma NotIncludes(s: string, t: string)
    requires t != []
    requires forall i :: 0 <= i <= |s| - |t| ==> s[i] != t[0]
    ensures !Includes(s, t)
  {
    IncludesIffOccurs(s, t);
    forall i ensures !OccursAt(s, t, i) {
      if 0 <= i <= |s| - |t| {
        assert s[i..i + |t|][0] == s[i];
      }
    }
  }

  /** An occurrence of an occurrence is an occurrence. */
  lemma IncludesTransitive(a: string, b: string, c: string)
    requires Includes(a, b) && Includes(b, c)
    ensures Includes(a, c)
  {
    IncludesIffOccurs(a, b);
    IncludesIffOccurs(b, c);
    var i :| OccursAt(a, b, i);
    var j :| OccursAt(b, c, j);
    forall k | 0 <= k < |c| ensures a[i + j + k] == c[k] {
      assert a[i..i + |b|][j + k] == b[j + k];
      assert b[j..j + |c|][k] == c[k];
    }
    assert a[i + j..i + j + |c|] == c;
    IncludesAt(a, c, i + j);
  }

  /** Lower-casing both sides keeps an occurrence. */
  lemma IncludesLower(s: string, t: string)
    requires Includes(s, t)
    ensures Includes(Lower(s), Lower(t))
  {
    IncludesIffOccurs(s, t);
    var i :| OccursAt(s, t, i);
    assert Lower(s)[i..i + |t|] == Lower(t);
    IncludesAt(Lower(s), Lower(t), i);
  }

  // ---------------------------------------------------------------- trim

  /** WhiteSpace and LineTerminator code points, the ones `trim` removes. */
  predicate IsWhitespace(c: char) {
    || c == '\t' || c == '\n' || c == '\U{B}' || c == '\U{C}' || c == '\r'
    || c == ' ' || c == '\U{A0}' || c == '\U{1680}'
    || ('\U{2000}' <= c <= '\U{200A}')
    || c == '\U{2028}' || c == '\U{2029}' || c == '\U{202F}' || c == '\U{205F}'
    || c == '\U{3000}' || c == '\U{FEFF}'
  }

  predicate AllWhitespace(s: string) {
    forall i :: 0 <= i < |s| ==> IsWhitespace(s[i])
  }

  /** Neither end of `s` is whitespace. */
  predicate IsTrimmed(s: string) {
    s == [] || (!IsWhitespace(s[0]) && !IsWhitespace(s[|s| - 1]))
  }

  /** `r` is `s` with the whitespace `s[..i]` and `s[i + |r|..]` cut off. */
  predicate PaddedBy(s: string, r: string, i: int) {
    OccursAt(s, r, i) && AllWhitespace(s[..i]) && AllWhitespace(s[i + |r|..])
  }

  /** Drops the leading whitespace of `s`. */
  function TrimStart(s: string): (r: string)
    ensures |r| <= |s| && r == s[|s| - |r|..]
    ensures AllWhitespace(s[..|s| - |r|])
    ensures r != [] ==> !IsWhitespace(r[0])
  {
    if s != [] && IsWhitespace(s[0]) then TrimStart(s[1..]) else s
  }

  /** Drops the trailing whitespace of `s`. */
  function TrimEnd(s: string): (r: string)
    ensures |r| <= |s| && r == s[..|r|]
    ensures AllWhitespace(s[|r|..])
    ensures r != [] ==> !IsWhitespace(r[|r| - 1])
  {
    if s != [] && IsWhitespace(s[|s| - 1]) then TrimEnd(s[..|s| - 1]) else s
  }

  /** `String.prototype.trim`. */
  function Trim(s: string): (r: string)
    ensures IsTrimmed(r)
  {
    var r := TrimEnd(TrimStart(s));
    assert r != [] ==> r[0] == TrimStart(s)[0];
    r
  }

  /** `trim` removes only whitespace, and only from the two ends. */
  lemma TrimPadded(s: string)
    ensures PaddedBy(s, Trim(s), |s| - |TrimStart(s)|)
  {
    var t := TrimStart(s);
    var r := Trim(s);
    var i := |s| - |t|;
    assert s[i..] == t;
    assert r == t[..|r|] == s[i..i + |r|];
    assert s[i + |r|..] == t[|r|..];
  }

  /** Whatever whitespace `w` precedes `r`, `TrimStart` removes exactly it. */
  lemma {:induction false} TrimStartUnique(w: string, r: string)
    requires AllWhitespace(w)
    requires r != [] ==> !IsWhitespace(r[0])
    ensures TrimStart(w + r) == r
  {
    if w != [] {
      assert (w + r)[1..] == w[1..] + r;
      TrimStartUnique(w[1..], r);
    }
  }

  /** Whatever whitespace `w` follows `r`, `TrimEnd` removes exactly it. */
  lemma {:induction false} TrimEndUnique(r: string, w: string)
    requires AllWhitespace(w)
    requires r != [] ==> !IsWhitespace(r[|r| - 1])
    ensures TrimEnd(r + w) == r
  {
    if w != [] {
      var s := r + w;
      assert s[..|s| - 1] == r + w[..|w| - 1];
      TrimEndUnique(r, w[..|w| - 1]);
    } else {
      assert r + w == r;
    }
  }

  /**
   * The trim of `s` is the one trimmed, non-empty string that `s` pads
   * with whitespace: `Trim` agrees with this independent description.
   */
  lemma TrimUnique(s: string, r: string, i: int)
    requires PaddedBy(s, r, i) && IsTrimmed(r) && r != []
    ensures Trim(s) == r
  {
    var a, b := s[..i], s[i + |r|..];
    assert s[i..i + |r|] == r;
    assert s == a + (r + b);
    TrimStartUnique(a, r + b);
    TrimEndUnique(r, b);
  }

  lemma TrimIdempotent(s: string)
    ensures Trim(Trim(s)) == Trim(s)
  {
    var t := Trim(s);
    if t != [] {
      assert PaddedBy(t, t, 0);
      TrimUnique(t, t, 0);
    }
  }

  /** `trim` yields "" exactly for strings made only of whitespace. */
  lemma TrimEmptyIff(s: string)
    ensures Trim(s) == "" <==> AllWhitespace(s)
  {
    var j := |s| - |TrimStart(s)|;
    TrimPadded(s);
    if Trim(s) == "" {
      var t := TrimStart(s);
      assert t[0..] == t;
      assert j == |s|;
      forall k | 0 <= k < |s| ensures IsWhitespace(s[k]) {
        assert s[..j][k] == s[k];
      }
    } else {
      assert s[j] == Trim(s)[0];
    }
  }

  // ------------------------------------------------------------ numbers

  predicate IsDigit(c: char) {
    '0' <= c <= '9'
  }

  predicate IsDigits(s: string) {
    s != [] && forall i :: 0 <= i < |s| ==> IsDigit(s[i])
  }

  function DigitChar(d: nat): (c: char)
    requires d < 10
    ensures IsDigit(c) && c as int - '0' as int == d
  {
    (d + '0' as int) as char
  }

  function DigitValue(c: char): nat
    requires IsDigit(c)
  {
    c as int - '0' as int
  }

  /** The decimal digits of `n`, most significant first, without leading zeros. */
  function Digits(n: nat): (s: string)
    ensures IsDigits(s)
    ensures s[0] == '0' ==> n == 0
  {
    if n < 10 then [DigitChar(n)] else Digits(n / 10) + [DigitChar(n % 10)]
  }

  /**
   * How JavaScript renders an integral `number` as text, for magnitudes up to
   * 2^53; larger doubles are printed with their shortest digits padded by zeros.
   */
  function DecimalString(n: int): string {
    if n < 0 then "-" + Digits(-n) else Digits(n)
  }

  /** The value of a string of decimal digits, reading most significant first. */
  function ParseDigits(s: string): nat
    requires IsDigits(s)
  {
    if |s| == 1 then DigitValue(s[0]) else ParseDigits(s[..|s| - 1]) * 10 + DigitValue(s[|s| - 1])
  }

  /** Reads back an optionally signed decimal integer; `None` for any other text. */
  function ParseDecimal(s: string): Option<int> {
    if IsDigits(s) then Some(ParseDigits(s))
    else if |s| >= 2 && s[0] == '-' && IsDigits(s[1..]) then Some(0 - ParseDigits(s[1..]) as int)
    else None
  }

  lemma {:induction false} ParseDigitsOfDigits(n: nat)
    ensures ParseDigits(Digits(n)) == n
  {
    if n >= 10 {
      ParseDigitsOfDigits(n / 10);
      var s := Digits(n);
      assert s[..|s| - 1] == Digits(n / 10);
    }
  }

  /** Rendering an integer and reading it back gives the integer. */
  lemma DecimalRoundTrip(n: int)
    ensures ParseDecimal(DecimalString(n)) == Some(n)
  {
    if n < 0 {
      ParseDigitsOfDigits(-n);
      var s := DecimalString(n);
      assert s[1..] == Digits(-n);
      assert !IsDigit(s[0]);
    } else {
      ParseDigitsOfDigits(n);
    }
  }
}
