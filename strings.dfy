/**
  The java.lang.String operations the rental core relies on, stated over `seq<char>`:
  `trim`, `length` in UTF-16 units, ASCII case mapping, `equalsIgnoreCase`, `startsWith`, `contains`,
  decimal rendering of integers (`Integer.toString`, `String.format("%03d", n)`),
  digits-only parsing of numeric suffixes and `String.hashCode` with its 32-bit wrap-around.
*/
module Strings {
  import opened Wrappers

  // ---------------------------------------------------------------- trim

  /** `String.trim` removes every leading and trailing character whose code is at most U+0020. */
  predicate IsTrimmable(c: char) { c <= ' ' }

  /** The index of the first character `trim` keeps (|s| when it keeps none). */
  function TrimLo(s: string): (lo: nat)
    ensures lo <= |s|
    ensures forall i :: 0 <= i < lo ==> IsTrimmable(s[i])
    ensures lo == |s| || !IsTrimmable(s[lo])
  {
    if |s| > 0 && IsTrimmable(s[0]) then
      var lo := 1 + TrimLo(s[1..]);
      assert forall i :: 1 <= i < lo ==> s[i] == s[1..][i - 1];
      lo
    else 0
  }

  /** The index just past the last character `trim` keeps, searching down from `hi` to `lo`. */
  function TrimHiFrom(s: string, lo: nat, hi: nat): (r: nat)
    requires lo <= hi <= |s|
    ensures lo <= r <= hi
    ensures forall i :: r <= i < hi ==> IsTrimmable(s[i])
    ensures r == lo || !IsTrimmable(s[r - 1])
    decreases hi
  {
    if hi > lo && IsTrimmable(s[hi - 1]) then TrimHiFrom(s, lo, hi - 1) else hi
  }

  function TrimHi(s: string): (hi: nat)
    ensures TrimLo(s) <= hi <= |s|
    ensures forall i :: hi <= i < |s| ==> IsTrimmable(s[i])
    ensures hi == TrimLo(s) || !IsTrimmable(s[hi - 1])
  {
    TrimHiFrom(s, TrimLo(s), |s|)
  }

  /** `s.trim()`: the infix of `s` between its leading and its trailing trimmable characters. */
  function Trim(s: string): (r: string)
    ensures r == s[TrimLo(s)..TrimHi(s)]
    ensures r == [] || (!IsTrimmable(r[0]) && !IsTrimmable(r[|r| - 1]))
    ensures r == [] <==> forall i :: 0 <= i < |s| ==> IsTrimmable(s[i])
    ensures (forall i :: 0 <= i < |s| ==> !IsTrimmable(s[i])) ==> r == s
  {
    var lo, hi := TrimLo(s), TrimHi(s);
    assert (forall i :: 0 <= i < |s| ==> !IsTrimmable(s[i])) ==> lo == 0 && hi == |s| by {
      assert |s| > 0 ==> (0 < lo ==> IsTrimmable(s[0]));
      assert hi < |s| ==> IsTrimmable(s[hi]);
    }
    s[lo..hi]
  }

  /**
    `s == null || s.trim().isEmpty()`, the blank test of the login form: every character is
    one `trim` removes.
  */
  predicate IsBlank(s: string)
  {
    forall i :: 0 <= i < |s| ==> IsTrimmable(s[i])
  }

  /** A string whose first and last characters are kept is its own trim. */
  lemma TrimKeepsKeptEnds(s: string)
    requires |s| > 0 && !IsTrimmable(s[0]) && !IsTrimmable(s[|s| - 1])
    ensures Trim(s) == s
  {
    assert TrimLo(s) == 0;
    assert TrimHi(s) == |s|;
  }

  /** The blank test is exactly "trimming leaves nothing". */
  lemma BlankIffTrimsToEmpty(s: string)
    ensures IsBlank(s) <==> Trim(s) == []
  {
  }

  // ---------------------------------------------------------------- length

  /** A character outside the Basic Multilingual Plane, which Java stores as two `char`s. */
  predicate IsSupplementary(c: char) { c as int > 0xFFFF }

  /**
    `String.length()`: the number of UTF-16 code units, so a supplementary character
    counts twice.
  */
  function Utf16Length(s: string): (n: nat)
    ensures |s| <= n <= 2 * |s|
    ensures n == |s| <==> forall i :: 0 <= i < |s| ==> !IsSupplementary(s[i])
    ensures n == 2 * |s| <==> forall i :: 0 <= i < |s| ==> IsSupplementary(s[i])
  {
    if s == [] then 0
    else
      var n := (if IsSupplementary(s[0]) then 2 else 1) + Utf16Length(s[1..]);
      assert forall i :: 1 <= i < |s| ==> s[i] == s[1..][i - 1];
      n
  }

  // ---------------------------------------------------------------- case

  predicate IsUpperAscii(c: char) { 'A' <= c <= 'Z' }

  predicate IsLowerAscii(c: char) { 'a' <= c <= 'z' }

  /** `Character.toLowerCase`, restricted to the ASCII letters. */
  function ToLowerChar(c: char): (r: char)
    ensures !IsUpperAscii(r)
    ensures IsUpperAscii(c) ==> r as int == c as int + 32
    ensures !IsUpperAscii(c) ==> r == c
  {
    if IsUpperAscii(c) then (c as int + 32) as char else c
  }

  /** `s.toLowerCase()`, restricted to the ASCII letters. */
  function ToLower(s: string): (r: string)
    ensures |r| == |s|
    ensures forall i :: 0 <= i < |s| ==> r[i] == ToLowerChar(s[i])
  {
    seq(|s|, i requires 0 <= i < |s| => ToLowerChar(s[i]))
  }

  /** `a.equalsIgnoreCase(b)`: equal lengths and equal characters up to case. */
  predicate EqualsIgnoreCase(a: string, b: string)
  {
    |a| == |b| && forall i :: 0 <= i < |a| ==> ToLowerChar(a[i]) == ToLowerChar(b[i])
  }

  /** Case-insensitive equality is equality of the lower-cased strings (in both directions). */
  lemma EqualsIgnoreCaseIsLowerEquality(a: string, b: string)
    ensures EqualsIgnoreCase(a, b) <==> ToLower(a) == ToLower(b)
  {
    if ToLower(a) == ToLower(b) {
      assert |a| == |ToLower(a)| == |ToLower(b)| == |b|;
      forall i | 0 <= i < |a| ensures ToLowerChar(a[i]) == ToLowerChar(b[i]) {
        assert ToLower(a)[i] == ToLower(b)[i];
      }
    }
  }

  lemma EqualsIgnoreCaseSymmetric(a: string, b: string)
    ensures EqualsIgnoreCase(a, b) <==> EqualsIgnoreCase(b, a)
  {
  }

  // ---------------------------------------------------------------- search

  predicate StartsWith(s: string, prefix: string)
  {
    |prefix| <= |s| && s[..|prefix|] == prefix
  }

  /** `s.contains(t)`: `t` occurs in `s` at some offset. */
  predicate Contains(s: string, t: string)
    decreases |s|
  {
    StartsWith(s, t) || (|s| > 0 && Contains(s[1..], t))
  }

  lemma {:induction false} ContainsAt(s: string, t: string, k: nat)
    requires k + |t| <= |s| && s[k..k + |t|] == t
    ensures Contains(s, t)
  {
    if k > 0 {
      assert s[1..][k - 1..k - 1 + |t|] == s[k..k + |t|];
      ContainsAt(s[1..], t, k - 1);
    }
  }

  /** Every string contains itself and the empty string. */
  lemma ContainsSelfAndEmpty(s: string)
    ensures Contains(s, s) && Contains(s, [])
  {
    assert StartsWith(s, s) && StartsWith(s, []);
  }

  // ---------------------------------------------------------------- digits

  predicate IsDigit(c: char) { '0' <= c <= '9' }

  predicate AllDigits(s: string) { forall i :: 0 <= i < |s| ==> IsDigit(s[i]) }

  function DigitValue(c: char): nat
    requires IsDigit(c)
  {
    c as int - '0' as int
  }

  function DigitChar(d: nat): (c: char)
    requires d < 10
    ensures IsDigit(c) && DigitValue(c) == d
  {
    ('0' as int + d) as char
  }

  /** The value of a decimal numeral, leading zeros allowed. */
  function DigitsValue(s: string): nat
    requires AllDigits(s)
  {
    if s == [] then 0 else DigitsValue(s[..|s| - 1]) * 10 + DigitValue(s[|s| - 1])
  }

  /**
    `Integer.parseInt` of an ID suffix, read as a non-empty run of ASCII digits of any
    length; every other input is the skipped `NumberFormatException` case. Java differs at
    the edges: it also accepts a leading '+' or '-' and non-ASCII decimal digits, and it
    rejects a value beyond `Integer.MAX_VALUE`.
  */
  function ParseDigits(s: string): Option<nat>
  {
    if |s| > 0 && AllDigits(s) then Some(DigitsValue(s)) else None
  }

  /** The shortest decimal numeral of `n`, as `Integer.toString` writes it for `n >= 0`. */
  function NatToDecimal(n: nat): (r: string)
    ensures |r| > 0 && AllDigits(r)
    ensures n < 10 <==> |r| == 1
    ensures n < 100 <==> |r| <= 2
    ensures n < 1000 <==> |r| <= 3
  {
    if n < 10 then [DigitChar(n)] else NatToDecimal(n / 10) + [DigitChar(n % 10)]
  }

  /** `Integer.toString(i)`. */
  function IntToString(i: int): string
  {
    if i < 0 then "-" + NatToDecimal(-i) else NatToDecimal(i)
  }

  /** Distinct numbers have distinct numerals. */
  lemma NatToDecimalInjective(m: nat, n: nat)
    ensures NatToDecimal(m) == NatToDecimal(n) <==> m == n
  {
    DecimalRoundTrip(m);
    DecimalRoundTrip(n);
  }

  /** `Integer.toString` writes a minus sign (negative numbers only) and then digits. */
  lemma IntToStringShape(i: int)
    ensures var t := IntToString(i);
            |t| > 0 && (t[0] == '-' <==> i < 0) && AllDigits(if i < 0 then t[1..] else t)
  {
    if i < 0 {
      assert IntToString(i)[1..] == NatToDecimal(-i);
    } else {
      assert IsDigit(NatToDecimal(i)[0]);
    }
  }

  /** `Integer.toString` is injective. */
  lemma IntToStringInjective(i: int, j: int)
    ensures IntToString(i) == IntToString(j) <==> i == j
  {
    if IntToString(i) == IntToString(j) {
      IntToStringShape(i);
      IntToStringShape(j);
      if i < 0 {
        assert IntToString(i)[1..] == NatToDecimal(-i) && IntToString(j)[1..] == NatToDecimal(-j);
        NatToDecimalInjective(-i, -j);
      } else {
        NatToDecimalInjective(i, j);
      }
    }
  }

  function Zeros(k: nat): (r: string)
    ensures |r| == k && AllDigits(r)
    ensures forall i :: 0 <= i < k ==> r[i] == '0'
  {
    if k == 0 then [] else "0" + Zeros(k - 1)
  }

  /** `String.format("%03d", n)` for `n >= 0`: the numeral of `n`, left-padded with zeros to width 3. */
  function Format3(n: nat): (r: string)
    ensures |r| >= 3 && AllDigits(r)
    ensures n < 1000 <==> |r| == 3
    ensures n >= 1000 ==> r == NatToDecimal(n)
  {
    var d := NatToDecimal(n);
    if |d| >= 3 then d else Zeros(3 - |d|) + d
  }

  lemma {:induction false} DecimalRoundTrip(n: nat)
    ensures DigitsValue(NatToDecimal(n)) == n
  {
    if n >= 10 {
      DecimalRoundTrip(n / 10);
      var d := NatToDecimal(n);
      assert d[..|d| - 1] == NatToDecimal(n / 10);
    }
  }

  lemma {:induction false} LeadingZerosIgnored(k: nat, s: string)
    requires AllDigits(s)
    ensures AllDigits(Zeros(k) + s) && DigitsValue(Zeros(k) + s) == DigitsValue(s)
  {
    if k > 0 {
      var rest := Zeros(k - 1) + s;
      LeadingZerosIgnored(k - 1, s);
      LeadingZeroIgnored(rest);
      calc {
        Zeros(k) + s;
        ("0" + Zeros(k - 1)) + s;
        "0" + rest;
      }
    } else {
      assert Zeros(k) + s == s;
    }
  }

  lemma {:induction false} LeadingZeroIgnored(s: string)
    requires AllDigits(s)
    ensures AllDigits("0" + s) && DigitsValue("0" + s) == DigitsValue(s)
    decreases |s|
  {
    if s != [] {
      var z := "0" + s;
      assert z[..|z| - 1] == "0" + s[..|s| - 1];
      LeadingZeroIgnored(s[..|s| - 1]);
    }
  }

  /** Parsing a `%03d` numeral gives the number back. */
  lemma ParseFormat3(n: nat)
    ensures ParseDigits(Format3(n)) == Some(n)
  {
    DecimalRoundTrip(n);
    var d := NatToDecimal(n);
    if |d| < 3 {
      LeadingZerosIgnored(3 - |d|, d);
    }
  }

  /** `%03d` is injective: distinct numbers give distinct numerals. */
  lemma Format3Injective(m: nat, n: nat)
    ensures Format3(m) == Format3(n) <==> m == n
  {
    ParseFormat3(m);
    ParseFormat3(n);
  }

  // ---------------------------------------------------------------- hashCode

  const TwoTo32: int := 0x1_0000_0000
  const TwoTo31: int := 0x8000_0000

  /** `s.hashCode()` as an unsigned 32-bit value: h = 31 * h + c, wrapping modulo 2^32. */
  function UnsignedHashCode(s: string): (h: nat)
    ensures h < TwoTo32
  {
    if s == [] then 0 else (UnsignedHashCode(s[..|s| - 1]) * 31 + s[|s| - 1] as int) % TwoTo32
  }

  /** `s.hashCode()`: the same 32 bits read as a signed Java `int`. */
  function HashCode(s: string): (h: int)
    ensures -TwoTo31 <= h < TwoTo31
  {
    var u := UnsignedHashCode(s);
    if u >= TwoTo31 then u - TwoTo32 else u
  }
}
