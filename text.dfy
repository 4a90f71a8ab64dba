// String helpers shared by the modelled code: Python's str.join and
// str.split on one character, "%x" / "%04x" / "%d" formatting and the
// matching int(s, 16) parse, os.path.basename and an ASCII upper().
module Text {
  import opened Wrappers

  predicate IsAsciiAlpha(c: char)
  {
    ('a' <= c <= 'z') || ('A' <= c <= 'Z')
  }

  predicate IsDecimalDigit(c: char)
  {
    '0' <= c <= '9'
  }

  predicate IsHexDigit(c: char)
  {
    IsDecimalDigit(c) || ('a' <= c <= 'f') || ('A' <= c <= 'F')
  }

  predicate AllHexDigits(s: string)
  {
    forall i :: 0 <= i < |s| ==> IsHexDigit(s[i])
  }

  /** Python's whitespace for str.strip and str.split, restricted to ASCII:
      space, the controls tab to carriage return, and the separators
      U+001C to U+001F. */
  predicate IsSpace(c: char)
  {
    c == ' ' || ('\t' <= c <= '\r') || ('\U{1C}' <= c <= '\U{1F}')
  }

  /** The lower-case digit character for `d`. */
  function DigitChar(d: nat): (c: char)
    requires d < 16
    ensures IsHexDigit(c) && !('A' <= c <= 'F')
    ensures d < 10 <==> IsDecimalDigit(c)
  {
    if d < 10 then ('0' as int + d) as char else ('a' as int + d - 10) as char
  }

  /** The value of a hexadecimal digit, either case. */
  function DigitValue(c: char): (d: nat)
    requires IsHexDigit(c)
    ensures d < 16
    ensures IsDecimalDigit(c) ==> d < 10
  {
    if IsDecimalDigit(c) then c as int - '0' as int
    else if 'a' <= c <= 'f' then c as int - 'a' as int + 10
    else c as int - 'A' as int + 10
  }

  lemma DigitRoundTrip(d: nat)
    requires d < 16
    ensures DigitValue(DigitChar(d)) == d
  {
  }

  lemma DivMod(n: nat, b: nat)
    requires 2 <= b && n >= b
    ensures 0 <= n % b < b && 0 < n / b < n && n == (n / b) * b + n % b
  {
  }

  /** `n` written in base `b` without leading zeros ("%x" for 16, "%d" for 10). */
  function ToBase(n: nat, b: nat): (s: string)
    requires 2 <= b <= 16
    ensures |s| > 0 && AllHexDigits(s)
    ensures forall i :: 0 <= i < |s| ==> !('A' <= s[i] <= 'F')
    decreases n
  {
    if n < b then [DigitChar(n)]
    else
      DivMod(n, b);
      ToBase(n / b, b) + [DigitChar(n % b)]
  }

  /** The value of a digit string in base `b` (int(s, b) without sign or whitespace). */
  function FromBase(s: string, b: nat): nat
    requires AllHexDigits(s) && 2 <= b <= 16
  {
    if |s| == 0 then 0 else FromBase(s[..|s| - 1], b) * b + DigitValue(s[|s| - 1])
  }

  lemma {:induction false} BaseRoundTrip(n: nat, b: nat)
    requires 2 <= b <= 16
    ensures FromBase(ToBase(n, b), b) == n
    decreases n
  {
    if n < b {
      DigitRoundTrip(n);
      assert ToBase(n, b)[..0] == [];
    } else {
      DivMod(n, b);
      var s := ToBase(n, b);
      BaseRoundTrip(n / b, b);
      assert s[..|s| - 1] == ToBase(n / b, b);
      DigitRoundTrip(n % b);
      assert FromBase(s, b) == FromBase(ToBase(n / b, b), b) * b + DigitValue(DigitChar(n % b));
    }
  }

  function Hex(n: nat): string { ToBase(n, 16) }

  /** Appending a digit to a number appends its character to the hexadecimal. */
  lemma HexAppend(n: nat, d: nat)
    requires 0 < n && d < 16
    ensures Hex(16 * n + d) == Hex(n) + [DigitChar(d)]
  {
    var m := 16 * n + d;
    assert m / 16 == n && m % 16 == d;
  }

  function Decimal(n: nat): string { ToBase(n, 10) }

  function Zeros(k: nat): (z: string)
    ensures |z| == k && forall i :: 0 <= i < k ==> z[i] == '0'
  {
    if k == 0 then "" else Zeros(k - 1) + "0"
  }

  /** "%04x": lower-case hexadecimal padded with zeros to at least four digits. */
  function Hex4(n: nat): (s: string)
    ensures |s| >= 4 && AllHexDigits(s)
    ensures forall i :: 0 <= i < |s| ==> !('A' <= s[i] <= 'F')
  {
    var h := Hex(n);
    (if |h| < 4 then Zeros(4 - |h|) else "") + h
  }

  lemma {:induction false} LeadingZeros(k: nat, s: string, b: nat)
    requires AllHexDigits(s) && 2 <= b <= 16
    ensures AllHexDigits(Zeros(k) + s)
    ensures FromBase(Zeros(k) + s, b) == FromBase(s, b)
    decreases |s|
  {
    var z := Zeros(k);
    assert AllHexDigits(z + s) by {
      forall i | 0 <= i < |z + s| ensures IsHexDigit((z + s)[i]) {
        if i >= |z| { assert (z + s)[i] == s[i - |z|]; }
      }
    }
    if |s| == 0 {
      assert z + s == z;
      ZerosValue(k, b);
    } else {
      assert (z + s)[..|z + s| - 1] == z + s[..|s| - 1];
      LeadingZeros(k, s[..|s| - 1], b);
    }
  }

  lemma {:induction false} ZerosValue(k: nat, b: nat)
    requires 2 <= b <= 16
    ensures AllHexDigits(Zeros(k)) && FromBase(Zeros(k), b) == 0
  {
    var z := Zeros(k);
    if k > 0 {
      ZerosValue(k - 1, b);
      assert z[..k - 1] == Zeros(k - 1);
      assert DigitValue(z[k - 1]) == 0;
      assert FromBase(z, b) == FromBase(z[..k - 1], b) * b + DigitValue(z[k - 1]);
      assert FromBase(z[..k - 1], b) * b == 0 * b == 0;
    }
  }

  /** int(s, 16) for a string of hexadecimal digits; None for anything else. */
  function ParseHex(s: string): (r: Option<nat>)
    ensures r.Some? <==> |s| > 0 && AllHexDigits(s)
  {
    if |s| > 0 && AllHexDigits(s) then Some(FromBase(s, 16)) else None
  }



  /** Parsing "%04x" gives back the number. */
  lemma Hex4RoundTrip(n: nat)
    ensures ParseHex(Hex4(n)) == Some(n)
  {
    var h := Hex(n);
    BaseRoundTrip(n, 16);
    if |h| < 4 {
      LeadingZeros(4 - |h|, h, 16);
    } else {
      assert Hex4(n) == h;
    }
  }

  lemma HexRoundTrip(n: nat)
    ensures ParseHex(Hex(n)) == Some(n)
  {
    BaseRoundTrip(n, 16);
  }

  lemma DecimalInjective(m: nat, n: nat)
    ensures Decimal(m) == Decimal(n) ==> m == n
  {
    BaseRoundTrip(m, 10);
    BaseRoundTrip(n, 10);
  }

  /** sep.join(parts) */
  function Join(parts: seq<string>, sep: string): string
  {
    if |parts| == 0 then ""
    else if |parts| == 1 then parts[0]
    else parts[0] + sep + Join(parts[1..], sep)
  }

  /** s.split(c) for a one-character separator. */
  function Split(s: string, c: char): (r: seq<string>)
    ensures |r| >= 1
  {
    if |s| == 0 then [""]
    else
      var rest := Split(s[1..], c);
      if s[0] == c then [""] + rest else [[s[0]] + rest[0]] + rest[1..]
  }

  lemma {:induction false} SplitNoSeparator(s: string, c: char)
    requires c !in s
    ensures Split(s, c) == [s]
  {
    if |s| > 0 {
      SplitNoSeparator(s[1..], c);
      assert [s[0]] + s[1..] == s;
    }
  }

  lemma {:induction false} SplitAfterField(p: string, c: char, rest: string)
    requires c !in p
    ensures Split(p + [c] + rest, c) == [p] + Split(rest, c)
  {
    if |p| == 0 {
      assert p + [c] + rest == [c] + rest;
      assert ([c] + rest)[1..] == rest;
    } else {
      assert (p + [c] + rest)[1..] == p[1..] + [c] + rest;
      SplitAfterField(p[1..], c, rest);
      assert [p[0]] + p[1..] == p;
    }
  }

  /** Splitting on a separator that no field contains undoes joining. */
  lemma {:induction false} SplitJoin(parts: seq<string>, c: char)
    requires |parts| >= 1
    requires forall i :: 0 <= i < |parts| ==> c !in parts[i]
    ensures Split(Join(parts, [c]), c) == parts
  {
    if |parts| == 1 {
      SplitNoSeparator(parts[0], c);
    } else {
      SplitJoin(parts[1..], c);
      SplitAfterField(parts[0], c, Join(parts[1..], [c]));
      assert [parts[0]] + parts[1..] == parts;
    }
  }

  lemma {:induction false} JoinContains(parts: seq<string>, sep: string, ch: char)
    requires forall i :: 0 <= i < |parts| ==> ch !in parts[i]
    requires ch !in sep
    ensures ch !in Join(parts, sep)
  {
    if |parts| > 1 {
      JoinContains(parts[1..], sep, ch);
    }
  }

  function StartsWith(s: string, prefix: string): bool
  {
    |prefix| <= |s| && s[..|prefix|] == prefix
  }

  /** os.path.basename: what follows the last '/'. */
  function Basename(path: string): (r: string)
    ensures '/' !in r
    ensures |r| <= |path| && path[|path| - |r|..] == r
  {
    if |path| == 0 || path[|path| - 1] == '/' then ""
    else Basename(path[..|path| - 1]) + [path[|path| - 1]]
  }

  /** str.upper on ASCII letters. */
  function Upper(s: string): (r: string)
    ensures |r| == |s|
  {
    if |s| == 0 then ""
    else [if 'a' <= s[0] <= 'z' then (s[0] as int - 32) as char else s[0]] + Upper(s[1..])
  }

  /** str.lower on ASCII letters: each upper-case letter becomes its
      lower-case form and every other character stays. */
  function Lower(s: string): (r: string)
    ensures |r| == |s|
    ensures forall k :: 0 <= k < |s| ==> r[k] == if 'A' <= s[k] <= 'Z' then (s[k] as int + 32) as char else s[k]
  {
    if |s| == 0 then ""
    else [if 'A' <= s[0] <= 'Z' then (s[0] as int + 32) as char else s[0]] + Lower(s[1..])
  }

  /** s.strip() */
  function Strip(s: string): (r: string)
    ensures |r| <= |s|
    ensures |r| > 0 ==> !IsSpace(r[0]) && !IsSpace(r[|r| - 1])
  {
    if |s| > 0 && IsSpace(s[0]) then Strip(s[1..])
    else if |s| > 0 && IsSpace(s[|s| - 1]) then Strip(s[..|s| - 1])
    else s
  }

  /** s.lstrip(" ") */
  function StripLeadingSpaces(s: string): (r: string)
    ensures |r| == 0 || r[0] != ' '
  {
    if |s| > 0 && s[0] == ' ' then StripLeadingSpaces(s[1..]) else s
  }

  /** n * s */
  function Repeat(s: string, n: nat): (r: string)
    ensures |r| == n * |s|
  {
    if n == 0 then "" else s + Repeat(s, n - 1)
  }
}
