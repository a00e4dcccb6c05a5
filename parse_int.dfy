/** JavaScript's global `parseInt(string)` with no radix argument, the way the
    solver's answer is turned into a pixel offset: leading white space is
    skipped, one sign is taken, a "0x"/"0X" prefix switches to base 16, and the
    longest run of digits of the base that follows is read; no digit at all is
    NaN, written None here. The result is an exact integer. */
module ParseInt {
  import opened Wrappers

  /** White space and line terminators that `parseInt` skips: TAB, LF, VT, FF,
      CR, SPACE, NBSP, the ZWNBSP byte-order mark, LINE and PARAGRAPH
      SEPARATOR, and the other space separators of Unicode category Zs. */
  predicate IsJsSpace(c: char) {
    if c <= ' ' then c == ' ' || '\t' <= c <= '\r'
    else if c < '\U{2000}' then c == '\U{00A0}' || c == '\U{1680}'
    else if c <= '\U{200A}' then true
    else (c == '\U{2028}' || c == '\U{2029}' || c == '\U{202F}' || c == '\U{205F}'
          || c == '\U{3000}' || c == '\U{FEFF}')
  }

  /** The value of `c` as a digit of any base up to 36 ("0"-"9", then "a"-"z"
      in either case); 36 for a character that is no digit. */
  function DigitValue(c: char): (d: nat)
    ensures d <= 36
  {
    if '0' <= c <= '9' then c as nat - '0' as nat
    else if 'a' <= c <= 'z' then c as nat - 'a' as nat + 10
    else if 'A' <= c <= 'Z' then c as nat - 'A' as nat + 10
    else 36
  }

  predicate IsDigit(c: char, radix: nat) {
    DigitValue(c) < radix
  }

  predicate IsDecimalDigit(c: char) {
    '0' <= c <= '9'
  }

  /** `s` with its leading white space removed: a suffix of `s`. */
  function TrimStart(s: string): (r: string)
    ensures |r| <= |s| && r == s[|s| - |r|..]
  {
    if |s| > 0 && IsJsSpace(s[0]) then TrimStart(s[1..]) else s
  }

  /** What `TrimStart` removes is white space, and what it keeps does not
      start with white space. */
  lemma {:induction false} TrimStartSkipsSpace(s: string)
    ensures forall k :: 0 <= k < |s| - |TrimStart(s)| ==> IsJsSpace(s[k])
    ensures TrimStart(s) == [] || !IsJsSpace(TrimStart(s)[0])
  {
    if |s| > 0 && IsJsSpace(s[0]) {
      TrimStartSkipsSpace(s[1..]);
      assert forall k :: 1 <= k < |s| ==> s[k] == s[1..][k - 1];
    }
  }

  /** The length of the longest prefix of `s` made of digits of `radix`. */
  function DigitRun(s: string, radix: nat): (n: nat)
    ensures n <= |s|
  {
    if |s| > 0 && IsDigit(s[0], radix) then 1 + DigitRun(s[1..], radix) else 0
  }

  /** The run is made of digits and stops at the first character that is not
      one. */
  lemma {:induction false} DigitRunIsLongest(s: string, radix: nat)
    ensures forall k :: 0 <= k < DigitRun(s, radix) ==> IsDigit(s[k], radix)
    ensures DigitRun(s, radix) < |s| ==> !IsDigit(s[DigitRun(s, radix)], radix)
  {
    if |s| > 0 && IsDigit(s[0], radix) {
      DigitRunIsLongest(s[1..], radix);
      assert forall k :: 1 <= k < |s| ==> s[k] == s[1..][k - 1];
    }
  }

  /** The number written by the digits `ds` in base `radix`, most significant
      digit first; without a radix argument `parseInt` reads base 10 or 16
      only. */
  function DigitsValue(ds: string, radix: nat): nat
    requires radix == 10 || radix == 16
    requires forall k :: 0 <= k < |ds| ==> IsDigit(ds[k], radix)
  {
    if ds == [] then 0
    else
      var high := DigitsValue(ds[..|ds| - 1], radix);
      (if radix == 10 then high * 10 else high * 16) + DigitValue(ds[|ds| - 1])
  }

  /** The text after the optional sign, with the sign's meaning. */
  function Unsigned(t: string): (string, bool) {
    if |t| > 0 && (t[0] == '-' || t[0] == '+') then (t[1..], t[0] == '-') else (t, false)
  }

  predicate HasHexPrefix(u: string) {
    |u| >= 2 && u[0] == '0' && (u[1] == 'x' || u[1] == 'X')
  }

  /** The value of the digit run after the sign: None when there is none. */
  function Magnitude(u: string): Option<nat> {
    var radix := if HasHexPrefix(u) then 16 else 10;
    var body := if HasHexPrefix(u) then u[2..] else u;
    var n := DigitRun(body, radix);
    DigitRunIsLongest(body, radix);
    if n == 0 then None else Some(DigitsValue(body[..n], radix))
  }

  /** `parseInt(s)`: None stands for NaN. */
  function ParseInt(s: string): Option<int> {
    var t := Unsigned(TrimStart(s));
    WithSign(Magnitude(t.0), t.1)
  }

  function WithSign(magnitude: Option<nat>, negative: bool): Option<int> {
    if magnitude.None? then None
    else if negative then Some(-(magnitude.value as int))
    else Some(magnitude.value as int)
  }

  // ---------------------------------------------------------------------------
  // Decimal numerals, the shape the solving service answers with

  function DigitChar(d: nat): (c: char)
    requires d < 10
    ensures IsDecimalDigit(c) && DigitValue(c) == d
  {
    ('0' as nat + d) as char
  }

  /** The decimal numeral of a natural number, without leading zeros. */
  function Numeral(n: nat): (s: string)
    ensures |s| > 0 && IsDecimalDigit(s[0])
    ensures forall k :: 0 <= k < |s| ==> IsDecimalDigit(s[k])
  {
    if n < 10 then [DigitChar(n)] else Numeral(n / 10) + [DigitChar(n % 10)]
  }

  /** The decimal numeral of an integer, with "-" for a negative one. */
  function SignedNumeral(n: int): string {
    if n < 0 then "-" + Numeral(-n) else Numeral(n)
  }

  lemma {:induction false} NumeralValue(n: nat)
    ensures forall k :: 0 <= k < |Numeral(n)| ==> IsDigit(Numeral(n)[k], 10)
    ensures DigitsValue(Numeral(n), 10) == n
  {
    var s := Numeral(n);
    if n >= 10 {
      NumeralValue(n / 10);
      assert s[..|s| - 1] == Numeral(n / 10);
    }
  }

  /** The digits of a numeral followed by a non-digit form exactly one run. */
  lemma {:induction false} NumeralRun(ds: string, rest: string)
    requires forall k :: 0 <= k < |ds| ==> IsDecimalDigit(ds[k])
    requires rest == [] || !IsDigit(rest[0], 10)
    ensures DigitRun(ds + rest, 10) == |ds|
  {
    if ds != [] {
      assert (ds + rest)[1..] == ds[1..] + rest;
      NumeralRun(ds[1..], rest);
    }
  }

  /** A numeral followed by a non-digit is read in base 10 and gives back its
      number, unless it is a zero followed by "x" or "X". */
  lemma MagnitudeOfNumeral(m: nat, rest: string)
    requires rest == [] || !IsDigit(rest[0], 10)
    requires m == 0 && rest != [] ==> rest[0] != 'x' && rest[0] != 'X'
    ensures Magnitude(Numeral(m) + rest) == Some(m)
  {
    var ds := Numeral(m);
    var u := ds + rest;
    NumeralNotHex(m, rest);
    NumeralRun(ds, rest);
    assert u[..|ds|] == ds;
    NumeralValue(m);
  }

  /** Only the numeral "0" followed by "x" or "X" looks like a hexadecimal
      prefix. */
  lemma NumeralNotHex(m: nat, rest: string)
    requires m == 0 && rest != [] ==> rest[0] != 'x' && rest[0] != 'X'
    ensures !HasHexPrefix(Numeral(m) + rest)
  {
    var ds := Numeral(m);
    var u := ds + rest;
    if m >= 10 {
      assert |ds| >= 2 && u[1] == ds[1];
    } else if m > 0 {
      assert u[0] == DigitChar(m);
    } else if |u| >= 2 {
      assert u[1] == rest[0];
    }
  }

  /** The answer the solving service gives, a decimal numeral with an optional
      minus sign and possibly a non-numeric tail ("137", "-42", "137px"),
      parses back to the integer it writes. A zero followed by "x" or "X" is
      excluded: `parseInt` reads "0x" as the start of a hexadecimal number. */
  lemma NumeralRoundTrip(n: int, rest: string)
    requires rest == [] || !IsDigit(rest[0], 10)
    requires n == 0 && rest != [] ==> rest[0] != 'x' && rest[0] != 'X'
    ensures ParseInt(SignedNumeral(n) + rest) == Some(n)
  {
    if n < 0 {
      var m: nat := -n;
      assert SignedNumeral(n) + rest == "-" + (Numeral(m) + rest);
      NegativeRoundTrip(m, rest);
    } else {
      assert SignedNumeral(n) == Numeral(n);
      NonNegativeRoundTrip(n, rest);
    }
  }

  /** A numeral without a sign is read as it is written. */
  lemma NonNegativeRoundTrip(m: nat, rest: string)
    requires rest == [] || !IsDigit(rest[0], 10)
    requires m == 0 && rest != [] ==> rest[0] != 'x' && rest[0] != 'X'
    ensures ParseInt(Numeral(m) + rest) == Some(m)
  {
    var s := Numeral(m) + rest;
    PlainStart(Numeral(m), rest);
    MagnitudeOfNumeral(m, rest);
    ParseIntOfParts(s, s, false, m);
  }

  /** A minus sign before a numeral negates what it writes. */
  lemma NegativeRoundTrip(m: nat, rest: string)
    requires m > 0
    requires rest == [] || !IsDigit(rest[0], 10)
    ensures ParseInt("-" + (Numeral(m) + rest)) == Some(-(m as int))
  {
    var u := Numeral(m) + rest;
    var s := "-" + u;
    assert s[0] == '-' && s[1..] == u;
    assert TrimStart(s) == s;
    MagnitudeOfNumeral(m, rest);
    ParseIntOfParts(s, u, true, m);
  }

  lemma PlainStart(ds: string, rest: string)
    requires ds != [] && IsDecimalDigit(ds[0])
    ensures TrimStart(ds + rest) == ds + rest && Unsigned(ds + rest) == (ds + rest, false)
  {
    var s := ds + rest;
    assert s[0] == ds[0];
  }

  /** `parseInt` put together from its three steps. */
  lemma ParseIntOfParts(s: string, u: string, negative: bool, m: nat)
    requires Unsigned(TrimStart(s)) == (u, negative) && Magnitude(u) == Some(m)
    ensures ParseInt(s) == WithSign(Some(m), negative)
  {
    ParseIntSteps(s);
  }

  lemma ParseIntSteps(s: string)
    ensures ParseInt(s) == WithSign(Magnitude(Unsigned(TrimStart(s)).0), Unsigned(TrimStart(s)).1)
  {
  }

  /** A "0x" prefix switches to base 16: "0x1A" is 26. */
  lemma HexPrefixReadsBase16()
    ensures ParseInt("0x1A") == Some(26)
  {
    var s := "0x1A";
    assert s[0] == '0' && !IsJsSpace(s[0]);
    assert Unsigned(TrimStart(s)) == (s, false);
    var body := s[2..];
    assert body == "1A" && body[1..] == "A" && body[1..][1..] == [];
    assert DigitRun(body, 16) == 2;
    assert body[..2] == "1A" && "1A"[..1] == "1" && "1"[..0] == [];
    assert DigitsValue("1", 16) == 1;
    assert DigitsValue("1A", 16) == 26;
    assert Magnitude(s) == Some(26);
    ParseIntOfParts(s, s, false, 26);
  }

  /** "0x" with no hexadecimal digit after it is NaN, although "0" alone
      would read as 0. */
  lemma BareHexPrefixIsNaN()
    ensures ParseInt("0x") == None
  {
    var s := "0x";
    assert s[0] == '0' && !IsJsSpace(s[0]);
    assert Unsigned(TrimStart(s)) == (s, false);
    assert HasHexPrefix(s) && s[2..] == [];
    assert Magnitude(s) == None;
    ParseIntSteps(s);
  }

  /** An answer without a single decimal digit, an error code such as
      "ERROR_CAPTCHA_UNSOLVABLE" for example, is NaN. */
  lemma NoDigitIsNaN(s: string)
    requires forall k :: 0 <= k < |s| ==> !IsDecimalDigit(s[k])
    ensures ParseInt(s) == None
  {
    var t := TrimStart(s);
    var (u, negative) := Unsigned(t);
    assert forall k :: 0 <= k < |u| ==> !IsDecimalDigit(u[k]) by {
      assert forall k :: 0 <= k < |t| ==> t[k] == s[|s| - |t| + k];
      if |t| > 0 && (t[0] == '-' || t[0] == '+') {
        assert forall k :: 0 <= k < |u| ==> u[k] == t[k + 1];
      }
    }
    assert !HasHexPrefix(u) by {
      if |u| >= 1 { assert !IsDecimalDigit(u[0]); }
    }
  }


}
