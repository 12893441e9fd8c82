/**
 * Character and string operations with the meaning the repository relies on:
 * the .NET `String.Trim`, `ToLower`, `Int32.Parse`, `int.ToString` and
 * `bool.ToString`, and the JavaScript `toLowerCase`, `includes` and `split`.
 */
module Text {
  import opened Wrappers

  // ----- case mapping -----

  /** Lower-case mapping of one character (the ASCII letters A to Z). */
  function LowerChar(c: char): char {
    if 'A' <= c <= 'Z' then (c as int + 32) as char else c
  }

  predicate IsUpper(c: char) {
    'A' <= c <= 'Z'
  }

  /** `ToLower()` in C# and `toLowerCase()` in JavaScript, on ASCII letters. */
  function ToLower(s: string): (r: string)
    ensures |r| == |s|
    ensures forall i :: 0 <= i < |s| ==> r[i] == LowerChar(s[i])
    decreases |s|
  {
    if |s| == 0 then "" else [LowerChar(s[0])] + ToLower(s[1..])
  }

  /** Lower-casing leaves no upper-case letter behind, and lower-casing twice changes nothing more. */
  lemma ToLowerNormalises(s: string)
    ensures forall i :: 0 <= i < |s| ==> !IsUpper(ToLower(s)[i])
    ensures ToLower(ToLower(s)) == ToLower(s)
  {
    var t := ToLower(s);
    assert forall i :: 0 <= i < |t| ==> ToLower(t)[i] == t[i];
  }

  // ----- white space and trimming -----

  /** `char.IsWhiteSpace` in .NET: the characters `String.Trim()` removes. */
  predicate IsWhiteSpace(c: char) {
    ('\t' <= c <= '\r') || c == ' ' || c == '\U{85}' || c == '\U{A0}' || c == '\U{1680}'
    || ('\U{2000}' <= c <= '\U{200A}') || c == '\U{2028}' || c == '\U{2029}'
    || c == '\U{202F}' || c == '\U{205F}' || c == '\U{3000}'
  }

  /** The white space `Int32.Parse` skips before and after the number (tab to carriage return, space). */
  predicate IsParseWhite(c: char) {
    ('\t' <= c <= '\r') || c == ' '
  }

  /** Number of leading characters of `s` that satisfy `p`. */
  function LeadingCount(s: string, p: char -> bool): (n: nat)
    ensures n <= |s|
    ensures forall k :: 0 <= k < n ==> p(s[k])
    ensures n < |s| ==> !p(s[n])
    decreases |s|
  {
    if |s| > 0 && p(s[0]) then 1 + LeadingCount(s[1..], p) else 0
  }

  /** Number of trailing characters of `s` that satisfy `p`. */
  function TrailingCount(s: string, p: char -> bool): (n: nat)
    ensures n <= |s|
    ensures forall k :: |s| - n <= k < |s| ==> p(s[k])
    ensures n < |s| ==> !p(s[|s| - 1 - n])
    decreases |s|
  {
    if |s| > 0 && p(s[|s| - 1]) then 1 + TrailingCount(s[..|s| - 1], p) else 0
  }

  /** Removes the characters satisfying `p` from both ends of `s`, and nothing else. */
  function Strip(s: string, p: char -> bool): (r: string)
    ensures r == "" || (!p(r[0]) && !p(r[|r| - 1]))
    ensures exists i :: SliceWithPaddingAt(s, r, i, p)
  {
    var i := LeadingCount(s, p);
    var t := s[i..];
    var j := TrailingCount(t, p);
    var r := t[..|t| - j];
    assert r == s[i..i + |r|];
    assert forall k :: i + |r| <= k < |s| ==> s[k] == t[k - i];
    assert SliceWithPaddingAt(s, r, i, p);
    r
  }

  /** `r` sits in `s` at offset `i`, and every character of `s` outside it satisfies `p`. */
  predicate SliceWithPaddingAt(s: string, r: string, i: int, p: char -> bool) {
    && 0 <= i <= |s| - |r| && r == s[i..i + |r|]
    && (forall k :: 0 <= k < i ==> p(s[k]))
    && (forall k :: i + |r| <= k < |s| ==> p(s[k]))
  }

  /** `String.Trim()` in .NET. */
  function Trim(s: string): string {
    Strip(s, IsWhiteSpace)
  }

  /** A string with no white space at its ends is its own trimmed form. */
  lemma StripUnchanged(s: string, p: char -> bool)
    requires s == "" || (!p(s[0]) && !p(s[|s| - 1]))
    ensures Strip(s, p) == s
  {
    var i := LeadingCount(s, p);
    assert i == 0;
    var j := TrailingCount(s, p);
    assert j == 0;
    assert s[0..][..|s| - 0] == s;
  }

  /** Trimming is idempotent. */
  lemma TrimIdempotent(s: string)
    ensures Trim(Trim(s)) == Trim(s)
  {
    StripUnchanged(Trim(s), IsWhiteSpace);
  }

  // ----- substring search -----

  /** JavaScript `s.includes(sub)`: `sub` occurs somewhere in `s`. */
  predicate Contains(s: string, sub: string)
    decreases |s|
  {
    sub <= s || (|s| > 0 && Contains(s[1..], sub))
  }

  /** `Contains` holds exactly when `sub` starts at some position of `s`. */
  lemma {:induction false} ContainsAt(s: string, sub: string)
    ensures Contains(s, sub) <==> exists i :: 0 <= i <= |s| && sub <= s[i..]
    decreases |s|
  {
    if |s| > 0 {
      ContainsAt(s[1..], sub);
      if Contains(s, sub) {
        if sub <= s {
          assert s[0..] == s;
          assert sub <= s[0..];
        } else {
          var i :| 0 <= i <= |s[1..]| && sub <= s[1..][i..];
          assert s[1..][i..] == s[i + 1..];
          assert sub <= s[i + 1..];
        }
      }
      if exists i :: 0 <= i <= |s| && sub <= s[i..] {
        var i :| 0 <= i <= |s| && sub <= s[i..];
        if i == 0 {
          assert s[i..] == s;
        } else {
          assert s[1..][i - 1..] == s[i..];
          assert Contains(s[1..], sub);
        }
      }
    } else {
      if Contains(s, sub) {
        assert s[0..] == s;
        assert sub <= s[0..];
      }
      if exists i :: 0 <= i <= |s| && sub <= s[i..] {
        var i :| 0 <= i <= |s| && sub <= s[i..];
        assert s[i..] == s;
      }
    }
  }

  // ----- decimal numbers -----

  predicate IsDigit(c: char) {
    '0' <= c <= '9'
  }

  predicate AllDigits(s: string) {
    forall i :: 0 <= i < |s| ==> IsDigit(s[i])
  }

  function DigitChar(d: nat): char
    requires d < 10
  {
    ('0' as int + d) as char
  }

  /** Decimal digits of a natural number, most significant first, no leading zeros. */
  function NatText(n: nat): (r: string)
    ensures |r| > 0 && AllDigits(r)
    ensures n > 0 ==> r[0] != '0'
    decreases n
  {
    if n < 10 then [DigitChar(n)] else NatText(n / 10) + [DigitChar(n % 10)]
  }

  /** `int.ToString()` in .NET and `String(n)` in JavaScript for an integer. */
  function IntText(n: int): (r: string)
    ensures |r| > 0
    ensures forall i :: 0 <= i < |r| ==> IsDigit(r[i]) || r[i] == '-'
  {
    if n < 0 then "-" + NatText(-n) else NatText(n)
  }

  /** Value of a string of decimal digits. */
  function DigitsValue(s: string): nat
    requires AllDigits(s)
    decreases |s|
  {
    if |s| == 0 then 0 else 10 * DigitsValue(s[..|s| - 1]) + (s[|s| - 1] as int - '0' as int)
  }

  lemma {:induction false} DigitsValueOfNatText(n: nat)
    ensures DigitsValue(NatText(n)) == n
    decreases n
  {
    if n >= 10 {
      DigitsValueOfNatText(n / 10);
      var t := NatText(n);
      assert t[..|t| - 1] == NatText(n / 10);
    }
  }

  const Int32Min: int := -0x8000_0000
  const Int32Max: int := 0x7FFF_FFFF

  predicate IsInt32(n: int) {
    Int32Min <= n <= Int32Max
  }

  predicate IsNul(c: char) {
    c == '\0'
  }

  /** `s` without its trailing run of NUL characters. */
  function DropTrailingNuls(s: string): (r: string)
    ensures r <= s
    ensures forall k :: |r| <= k < |s| ==> s[k] == '\0'
    ensures r == "" || r[|r| - 1] != '\0'
  {
    s[..|s| - TrailingCount(s, IsNul)]
  }

  /**
   * `Int32.Parse(s)` with the default number style: optional white space, an
   * optional sign, at least one decimal digit, optional white space, and then
   * any number of NUL characters, which .NET's number parser ignores at the
   * very end. `None` stands for the FormatException or OverflowException it
   * throws.
   */
  function ParseInt32(s: string): (r: Option<int>)
    ensures r.Some? ==> IsInt32(r.value)
  {
    ParseSignedDigits(DropTrailingNuls(s))
  }

  /** The number part: white space, an optional sign, decimal digits, white space. */
  function ParseSignedDigits(s: string): (r: Option<int>)
    ensures r.Some? ==> IsInt32(r.value)
  {
    var t := Strip(s, IsParseWhite);
    var signed := |t| > 0 && (t[0] == '-' || t[0] == '+');
    var digits := if signed then t[1..] else t;
    if |digits| == 0 || !AllDigits(digits) then None
    else
      var v: int := if signed && t[0] == '-' then -(DigitsValue(digits) as int) else DigitsValue(digits);
      if IsInt32(v) then Some(v) else None
  }

  lemma SignedDigitsOfIntText(n: int)
    requires IsInt32(n)
    ensures ParseSignedDigits(IntText(n)) == Some(n)
  {
    var s := IntText(n);
    assert !IsParseWhite(s[0]) && !IsParseWhite(s[|s| - 1]);
    StripUnchanged(s, IsParseWhite);
    if n < 0 {
      var d := NatText(-n);
      assert s[0] == '-' && s[1..] == d;
      DigitsValueOfNatText(-n);
      assert DigitsValue(s[1..]) == -n;
    } else {
      assert s == NatText(n);
      assert s[0] != '-' && s[0] != '+';
      DigitsValueOfNatText(n);
    }
  }

  /** Dropping the NUL run of `s + z` gives `s` back when `z` is all NUL and `s` does not end in one. */
  lemma DropNulSuffix(s: string, z: string)
    requires s == "" || s[|s| - 1] != '\0'
    requires forall k :: 0 <= k < |z| ==> z[k] == '\0'
    ensures DropTrailingNuls(s + z) == s
  {
    var w := s + z;
    var n := TrailingCount(w, IsNul);
    assert forall k :: |s| <= k < |w| ==> IsNul(w[k]);
    assert s != "" ==> !IsNul(w[|s| - 1]);
    assert n == |z|;
    assert w[..|w| - n] == s;
  }

  /**
   * NUL characters after the number are ignored: the decimal text of `n`
   * followed by any run of NULs, the empty run included, parses as `n`.
   */
  lemma ParseIgnoresTrailingNuls(n: int, z: string)
    requires IsInt32(n)
    requires forall k :: 0 <= k < |z| ==> z[k] == '\0'
    ensures ParseInt32(IntText(n) + z) == Some(n)
  {
    var s := IntText(n);
    assert s[|s| - 1] != '\0';
    DropNulSuffix(s, z);
    SignedDigitsOfIntText(n);
  }

  /** Parsing the decimal text of any 32-bit integer gives that integer back. */
  lemma ParseIntText(n: int)
    requires IsInt32(n)
    ensures ParseInt32(IntText(n)) == Some(n)
  {
    ParseIgnoresTrailingNuls(n, "");
    assert IntText(n) + "" == IntText(n);
  }

  /** A character that can stand nowhere in text `Int32.Parse` accepts: not a digit, a sign, white space or NUL. */
  predicate NotNumberChar(c: char) {
    !IsDigit(c) && c != '-' && c != '+' && !IsParseWhite(c) && !IsNul(c)
  }

  /** Text holding a character that is not a digit, a sign, white space or NUL does not parse as a number. */
  lemma ParseRejectsForeign(s: string, i: int)
    requires 0 <= i < |s| && NotNumberChar(s[i])
    ensures ParseInt32(s) == None
  {
    var u := DropTrailingNuls(s);
    assert i < |u| && u[i] == s[i];
    var t := Strip(u, IsParseWhite);
    var j :| SliceWithPaddingAt(u, t, j, IsParseWhite);
    assert j <= i < j + |t| && t[i - j] == s[i];
    if |t| > 0 && (t[0] == '-' || t[0] == '+') {
      assert t[1..][i - j - 1] == s[i];
      assert !AllDigits(t[1..]);
    } else {
      assert !AllDigits(t);
    }
  }

  /** `bool.ToString()` in .NET. */
  function BoolText(b: bool): string {
    if b then "True" else "False"
  }

  // ----- splitting -----

  /** JavaScript `s.split(sep)` for a one-character separator. */
  function Split(s: string, sep: char): (parts: seq<string>)
    ensures |parts| > 0
    decreases |s|
  {
    if |s| == 0 then [""]
    else
      var rest := Split(s[1..], sep);
      if s[0] == sep then [""] + rest else [[s[0]] + rest[0]] + rest[1..]
  }

  lemma {:induction false} SplitNoSeparator(a: string, sep: char)
    requires sep !in a
    ensures Split(a, sep) == [a]
    decreases |a|
  {
    if |a| > 0 {
      SplitNoSeparator(a[1..], sep);
      assert [a[0]] + a[1..] == a;
    }
  }

  /** Splitting at the first separator peels off the text before it. */
  lemma {:induction false} SplitAtSeparator(a: string, sep: char, b: string)
    requires sep !in a
    ensures Split(a + [sep] + b, sep) == [a] + Split(b, sep)
    decreases |a|
  {
    var s := a + [sep] + b;
    if |a| == 0 {
      assert s[1..] == b;
    } else {
      assert s[1..] == a[1..] + [sep] + b;
      SplitAtSeparator(a[1..], sep, b);
      assert [a[0]] + a[1..] == a;
    }
  }
}
