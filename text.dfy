/** Character classes and string helpers that stand for the Python built-ins
    the core relies on: `str.strip`, `str.startswith`, `str.endswith`,
    slicing `s[:n]`, `str(int)` and zero-padded `{n:0Nd}` formatting. */
module Text {

  /** `[a-zA-Z]` */
  predicate IsAsciiLetter(c: char) {
    'a' <= c <= 'z' || 'A' <= c <= 'Z'
  }

  /** `[0-9]` */
  predicate IsAsciiDigit(c: char) {
    '0' <= c <= '9'
  }

  /** Stands for Python's `str.isalpha`: Latin and Cyrillic letters. */
  predicate IsAlpha(c: char) {
    IsAsciiLetter(c) || ('А' <= c <= 'я') || c == 'Ё' || c == 'ё'
  }

  /** Stands for Python's `str.isdigit`. */
  predicate IsDigit(c: char) {
    IsAsciiDigit(c)
  }

  /** The characters `str.strip()` removes (ASCII whitespace). */
  predicate IsSpace(c: char) {
    c == ' ' || c == '\t' || c == '\n' || c == '\r' || c == '\U{000B}' || c == '\U{000C}'
  }

  predicate StartsWith(s: string, prefix: string) {
    |prefix| <= |s| && s[..|prefix|] == prefix
  }

  predicate EndsWith(s: string, suffix: string) {
    |suffix| <= |s| && s[|s| - |suffix|..] == suffix
  }

  /** Python's `s[:n]` for `n >= 0`. */
  function Take(s: string, n: nat): (r: string)
    ensures |r| == if |s| <= n then |s| else n
    ensures r == s[..|r|]
  {
    if |s| <= n then s else s[..n]
  }

  /** `s.lstrip()`: drops the leading whitespace and nothing else. */
  function LStrip(s: string): (r: string)
    ensures |r| <= |s| && r == s[|s| - |r|..]
    ensures forall i :: 0 <= i < |s| - |r| ==> IsSpace(s[i])
    ensures r != [] ==> !IsSpace(r[0])
  {
    if s != [] && IsSpace(s[0]) then LStrip(s[1..]) else s
  }

  /** `s.rstrip(ch)` for a single character `ch`. */
  function RStripChar(s: string, ch: char): (r: string)
    ensures |r| <= |s| && r == s[..|r|]
    ensures forall i :: |r| <= i < |s| ==> s[i] == ch
    ensures r != [] ==> r[|r| - 1] != ch
  {
    if s != [] && s[|s| - 1] == ch then RStripChar(s[..|s| - 1], ch) else s
  }

  /** `s.rstrip()`: drops the trailing whitespace and nothing else. */
  function RStrip(s: string): (r: string)
    ensures |r| <= |s| && r == s[..|r|]
    ensures forall i :: |r| <= i < |s| ==> IsSpace(s[i])
    ensures r != [] ==> !IsSpace(r[|r| - 1])
  {
    if s != [] && IsSpace(s[|s| - 1]) then RStrip(s[..|s| - 1]) else s
  }

  /** `s.strip()`: the slice of `s` left once leading and trailing
      whitespace is dropped. */
  function Strip(s: string): (r: string)
    ensures |LStrip(s)| <= |s| && |s| - |LStrip(s)| + |r| <= |s|
    ensures r == s[|s| - |LStrip(s)|..|s| - |LStrip(s)| + |r|]
    ensures r != [] ==> !IsSpace(r[0]) && !IsSpace(r[|r| - 1])
  {
    var l := LStrip(s);
    var r := RStrip(l);
    PrefixOfSuffix(s, |s| - |l|, l, r);
    r
  }

  /** A prefix of the suffix of `s` from `a` is a slice of `s` from `a`. */
  lemma PrefixOfSuffix(s: string, a: nat, l: string, r: string)
    requires a <= |s| && l == s[a..] && |r| <= |l| && r == l[..|r|]
    ensures a + |r| <= |s| && r == s[a..a + |r|]
    ensures r != [] ==> r[0] == l[0] && r[|r| - 1] == l[|r| - 1]
  {
  }

  /** Stripping drops whitespace only: everything before and after the
      slice it keeps is whitespace. */
  lemma StripDropsOnlySpace(s: string)
    ensures var a := |s| - |LStrip(s)|; var r := Strip(s);
      && (forall i :: 0 <= i < a ==> IsSpace(s[i]))
      && (forall i :: a + |r| <= i < |s| ==> IsSpace(s[i]))
  {
    var l := LStrip(s);
    var a := |s| - |l|;
    var r := RStrip(l);
    assert Strip(s) == r;
    forall i | a + |r| <= i < |s| ensures IsSpace(s[i]) {
      assert s[i] == l[i - a];
    }
  }

  /** `s.replace(ch, '')` */
  function RemoveChar(s: string, ch: char): (r: string)
    ensures ch !in r
    ensures forall c :: c in r ==> c in s
    ensures |r| <= |s|
  {
    if s == [] then [] else (if s[0] == ch then [] else [s[0]]) + RemoveChar(s[1..], ch)
  }

  lemma {:induction false} RemoveCharConcat(a: string, b: string, ch: char)
    ensures RemoveChar(a + b, ch) == RemoveChar(a, ch) + RemoveChar(b, ch)
  {
    if a != [] {
      var head := if a[0] == ch then [] else [a[0]];
      assert (a + b)[0] == a[0];
      assert (a + b)[1..] == a[1..] + b;
      RemoveCharConcat(a[1..], b, ch);
      calc {
        RemoveChar(a + b, ch);
        head + RemoveChar(a[1..] + b, ch);
        head + (RemoveChar(a[1..], ch) + RemoveChar(b, ch));
        (head + RemoveChar(a[1..], ch)) + RemoveChar(b, ch);
      }
    } else {
      assert a + b == b;
    }
  }

  lemma {:induction false} RemoveCharAbsent(s: string, ch: char)
    requires ch !in s
    ensures RemoveChar(s, ch) == s
  {
    if s != [] {
      RemoveCharAbsent(s[1..], ch);
    }
  }

  lemma {:induction false} LStripAllSpace(s: string)
    requires forall i :: 0 <= i < |s| ==> IsSpace(s[i])
    ensures LStrip(s) == []
  {
    if s != [] {
      LStripAllSpace(s[1..]);
    }
  }

  /** `Strip(s)` is empty exactly when `s` is all whitespace. */
  lemma {:induction false} StripEmpty(s: string)
    ensures Strip(s) == [] <==> forall i :: 0 <= i < |s| ==> IsSpace(s[i])
  {
    if Strip(s) == [] {
      // an all-space remainder would have been dropped by LStrip
      assert LStrip(s) == [];
    }
    if forall i :: 0 <= i < |s| ==> IsSpace(s[i]) {
      LStripAllSpace(s);
    }
  }

  /** Stripping keeps only characters of the original. */
  lemma StripSubset(s: string)
    ensures forall ch :: ch in Strip(s) ==> ch in s
  {
    var a := |s| - |LStrip(s)|;
    var r := Strip(s);
    forall ch | ch in r ensures ch in s {
      var i :| 0 <= i < |r| && r[i] == ch;
      assert s[a + i] == ch;
    }
  }

  /** Stripping a string that neither begins nor ends with whitespace
      changes nothing. */
  lemma StripUnchanged(s: string)
    requires s != [] ==> !IsSpace(s[0]) && !IsSpace(s[|s| - 1])
    ensures Strip(s) == s
  {
  }

  /** The decimal digit character for `d < 10`. */
  function DigitChar(d: nat): (c: char)
    requires d < 10
    ensures IsAsciiDigit(c)
  {
    ['0', '1', '2', '3', '4', '5', '6', '7', '8', '9'][d]
  }

  /** The value of an ASCII digit. */
  function DigitValue(c: char): (d: nat)
    requires IsAsciiDigit(c)
    ensures d < 10
  {
    (c as int - '0' as int) as nat
  }

  lemma DigitRoundTrip(d: nat)
    requires d < 10
    ensures DigitValue(DigitChar(d)) == d
  {
  }

  predicate AllDigits(s: string) {
    forall i :: 0 <= i < |s| ==> IsAsciiDigit(s[i])
  }

  /** The number a string of decimal digits denotes (leading zeros allowed). */
  function DecimalValue(s: string): nat
    requires AllDigits(s)
  {
    if s == [] then 0 else 10 * DecimalValue(s[..|s| - 1]) + DigitValue(s[|s| - 1])
  }

  /** Python's `str(n)` for `n >= 0`: the shortest decimal spelling. */
  function NatToDecimal(n: nat): (r: string)
    ensures |r| >= 1 && AllDigits(r)
    ensures |r| > 1 ==> r[0] != '0'
  {
    if n < 10 then [DigitChar(n)] else NatToDecimal(n / 10) + [DigitChar(n % 10)]
  }

  /** Python's `str(n)` for any integer. */
  function IntToDecimal(n: int): string {
    if n < 0 then "-" + NatToDecimal(-n) else NatToDecimal(n)
  }

  lemma {:induction false} DecimalRoundTrip(n: nat)
    ensures DecimalValue(NatToDecimal(n)) == n
  {
    if n >= 10 {
      var s := NatToDecimal(n);
      assert s[..|s| - 1] == NatToDecimal(n / 10);
      DecimalRoundTrip(n / 10);
    }
  }

  lemma DecimalAppend(s: string, c: char)
    requires AllDigits(s) && IsAsciiDigit(c)
    ensures AllDigits(s + [c]) && DecimalValue(s + [c]) == 10 * DecimalValue(s) + DigitValue(c)
  {
    assert (s + [c])[..|s|] == s;
  }

  /** Python's `f"{n:0{width}d}"` for `n >= 0`: zeros on the left up to `width`. */
  function ZeroPad(n: nat, width: nat): (r: string)
    ensures AllDigits(r)
    ensures |r| == if |NatToDecimal(n)| < width then width else |NatToDecimal(n)|
  {
    var d := NatToDecimal(n);
    Zeros(width - |d|) + d
  }

  function Zeros(k: int): (r: string)
    ensures |r| == if k < 0 then 0 else k
    ensures forall i :: 0 <= i < |r| ==> r[i] == '0'
  {
    if k <= 0 then [] else ['0'] + Zeros(k - 1)
  }

  lemma {:induction false} DecimalValueLeadingZeros(k: nat, s: string)
    requires AllDigits(s)
    ensures AllDigits(Zeros(k) + s) && DecimalValue(Zeros(k) + s) == DecimalValue(s)
  {
    if s == [] {
      ZerosValue(k);
      assert Zeros(k) + s == Zeros(k);
    } else {
      var t := s[..|s| - 1];
      DecimalValueLeadingZeros(k, t);
      assert (Zeros(k) + s)[..|Zeros(k) + s| - 1] == Zeros(k) + t;
    }
  }

  lemma {:induction false} ZerosValue(k: nat)
    ensures AllDigits(Zeros(k)) && DecimalValue(Zeros(k)) == 0
  {
    if k > 0 {
      ZerosValue(k - 1);
      assert Zeros(k) == Zeros(k - 1) + ['0'] by { ZerosSnoc(k); }
    }
  }

  lemma {:induction false} ZerosSnoc(k: nat)
    requires k > 0
    ensures Zeros(k) == Zeros(k - 1) + ['0']
  {
    if k > 1 {
      ZerosSnoc(k - 1);
    }
  }

  /** Zero-padding loses nothing: the padded spelling still denotes `n`,
      so different numbers get different padded names. */
  lemma ZeroPadValue(n: nat, width: nat)
    ensures DecimalValue(ZeroPad(n, width)) == n
  {
    var d := NatToDecimal(n);
    DecimalValueLeadingZeros(if width - |d| < 0 then 0 else width - |d|, d);
    DecimalRoundTrip(n);
  }

  lemma ZeroPadInjective(n: nat, m: nat, width: nat)
    requires ZeroPad(n, width) == ZeroPad(m, width)
    ensures n == m
  {
    ZeroPadValue(n, width);
    ZeroPadValue(m, width);
  }
}
