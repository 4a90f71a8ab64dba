// Codepoint sequences from emoji file names and the "filename,cp,cp"
// lines that record them (src/nanoemoji/codepoints.py).
module Codepoints {
  import opened Wrappers
  import opened Text

  predicate IsSeparator(c: char)
  {
    c == '-' || c == '_'
  }

  predicate NoHexDigit(s: string)
  {
    forall k :: 0 <= k < |s| ==> !IsHexDigit(s[k])
  }

  /** The length of the greedy run of hexadecimal digits that starts t. */
  function HexRunLength(t: string): (n: nat)
    ensures n <= |t| && AllHexDigits(t[..n])
    ensures n == |t| || !IsHexDigit(t[n])
    ensures |t| > 0 && IsHexDigit(t[0]) ==> n > 0
  {
    if |t| > 0 && IsHexDigit(t[0]) then
      var n := 1 + HexRunLength(t[1..]);
      assert t[..n] == [t[0]] + t[1..][..n - 1];
      n
    else 0
  }

  /** The captures of the repeated group `[-_]?([0-9a-fA-F]{1,})` when the
      repetition starts at the beginning of t: each iteration takes an
      optional separator and then a maximal run of digits, and the
      repetition stops as soon as no digit follows. */
  function Runs(t: string): (r: seq<string>)
    ensures forall k :: 0 <= k < |r| ==> |r[k]| > 0 && AllHexDigits(r[k])
    ensures r != [] <==> (|t| > 0 && IsHexDigit(t[0])) || (|t| > 1 && IsSeparator(t[0]) && IsHexDigit(t[1]))
  {
    if |t| > 0 && IsHexDigit(t[0]) then
      var n := HexRunLength(t);
      [t[..n]] + Runs(t[n..])
    else if |t| > 1 && IsSeparator(t[0]) && IsHexDigit(t[1]) then
      Runs(t[1..])
    else []
  }

  /** The captures of the leftmost match inside t, once `^` no longer
      matches (so the "emoji_u" prefix is not tried). */
  function Search(t: string): (r: Option<seq<string>>)
    ensures r.None? <==> NoHexDigit(t)
    ensures r.Some? ==> r.value != [] && forall k :: 0 <= k < |r.value| ==> AllHexDigits(r.value[k])
  {
    if Runs(t) != [] then Some(Runs(t))
    else if |t| > 0 then
      var r := Search(t[1..]);
      assert forall k :: 1 <= k < |t| ==> t[k] == t[1..][k - 1];
      r
    else None
  }

  const NotoPrefix: string := "emoji_u"

  /** regex.search(r"(?:^emoji_u)?(?:[-_]?([0-9a-fA-F]{1,}))+", s).captures(1):
      at the start the optional prefix is tried first, and dropped again when
      no digits follow it; None when nothing matches. */
  function Captures(s: string): (r: Option<seq<string>>)
    ensures r.None? <==> NoHexDigit(s)
    ensures r.Some? ==> r.value != [] && forall k :: 0 <= k < |r.value| ==> AllHexDigits(r.value[k])
  {
    if StartsWith(s, NotoPrefix) && Runs(s[|NotoPrefix|..]) != [] then Some(Runs(s[|NotoPrefix|..]))
    else Search(s)
  }

  function HexValues(caps: seq<string>): (r: seq<nat>)
    requires forall k :: 0 <= k < |caps| ==> AllHexDigits(caps[k])
    ensures |r| == |caps| && forall k :: 0 <= k < |caps| ==> r[k] == FromBase(caps[k], 16)
  {
    seq(|caps|, k requires 0 <= k < |caps| => FromBase(caps[k], 16))
  }

  /** from_filename: the codepoints spelled by the hexadecimal runs of the
      leftmost match; ValueError when the name has no hexadecimal digit. */
  function FromFilename(filename: string): (r: Result<seq<nat>>)
    ensures r.Err? <==> NoHexDigit(filename)
    ensures r.Err? ==> r.error == ValueError
    ensures r.Ok? ==> |r.value| > 0
  {
    match Captures(filename)
    case None => Err(ValueError)
    case Some(caps) => Ok(HexValues(caps))
  }

  function Hex4s(cps: seq<nat>): (r: seq<string>)
    ensures |r| == |cps| && forall k :: 0 <= k < |cps| ==> r[k] == Hex4(cps[k])
  {
    seq(|cps|, k requires 0 <= k < |cps| => Hex4(cps[k]))
  }

  /** csv_line: the base name, then each codepoint as "%04x", comma-separated. */
  function CsvLine(filename: string): (r: Result<string>)
  {
    var name := Basename(filename);
    var cps :- FromFilename(name);
    Ok(name + "," + Join(Hex4s(cps), ","))
  }

  /** No '_' twice in a row, none at either end: where int() accepts them. */
  predicate UnderscoresBetweenDigits(w: string)
  {
    |w| > 0 && w[0] != '_' && w[|w| - 1] != '_' &&
    forall k :: 0 <= k < |w| - 1 ==> w[k] == '_' ==> w[k + 1] != '_'
  }

  function WithoutUnderscores(w: string): (r: string)
    ensures '_' !in r
    ensures '_' !in w ==> r == w
  {
    if |w| == 0 then ""
    else (if w[0] == '_' then "" else [w[0]]) + WithoutUnderscores(w[1..])
  }

  /** int(p, 16): surrounding whitespace, an optional sign, an optional "0x"
      prefix (which one '_' may follow), then hexadecimal digits with single
      underscores between them; None where Python raises ValueError. */
  function IntBase16(p: string): (r: Option<int>)
  {
    var t := Strip(p);
    var signed := |t| > 0 && (t[0] == '-' || t[0] == '+');
    var u := if signed then t[1..] else t;
    var prefixed := |u| >= 2 && u[0] == '0' && (u[1] == 'x' || u[1] == 'X');
    var v := if prefixed then u[2..] else u;
    var w := if prefixed && |v| > 0 && v[0] == '_' then v[1..] else v;
    if !UnderscoresBetweenDigits(w) then None
    else match ParseHex(WithoutUnderscores(w))
      case None => None
      case Some(n) =>
        var m: int := n;
        Some(if signed && t[0] == '-' then -m else m)
  }

  /** The codepoint fields of a line: ValueError as soon as one of them is
      not a number. */
  function ParseFields(fields: seq<string>): (r: Result<seq<int>>)
    ensures r.Ok? <==> forall k :: 0 <= k < |fields| ==> IntBase16(fields[k]).Some?
    ensures r.Err? ==> r.error == ValueError
    ensures r.Ok? ==> |r.value| == |fields| &&
                      forall k :: 0 <= k < |fields| ==> r.value[k] == IntBase16(fields[k]).value
  {
    if |fields| == 0 then Ok([])
    else match IntBase16(fields[0])
      case None => Err(ValueError)
      case Some(n) =>
        var rest := ParseFields(fields[1..]);
        if rest.Err? then Err(rest.error)
        else Ok([n] + rest.value)
  }

  /** parse_csv_line: the first field, then every other field read by int(p, 16). */
  function ParseCsvLine(line: string): (r: Result<(string, seq<int>)>)
  {
    var parts := Split(line, ',');
    var cps :- ParseFields(parts[1..]);
    Ok((parts[0], cps))
  }

  /** csv_line fails exactly when from_filename fails on the base name. */
  lemma CsvLineFails(filename: string)
    ensures CsvLine(filename).Err? <==> NoHexDigit(Basename(filename))
  {
  }

  /** int(p, 16) of at least two hexadecimal digits is their value. */
  lemma HexDigitsParse(h: string)
    requires |h| >= 2 && AllHexDigits(h)
    ensures ParseHex(h).Some? && IntBase16(h) == Some(ParseHex(h).value as int)
  {
    assert IsHexDigit(h[0]) && IsHexDigit(h[1]) && IsHexDigit(h[|h| - 1]);
    assert h[0] != '-' && h[0] != '+' && h[1] != 'x' && h[1] != 'X';
    assert !IsSpace(h[0]) && !IsSpace(h[|h| - 1]);
    assert Strip(h) == h;
    assert '_' !in h by {
      forall k | 0 <= k < |h| ensures h[k] != '_' {
        assert IsHexDigit(h[k]);
      }
    }
    assert UnderscoresBetweenDigits(h);
    assert WithoutUnderscores(h) == h;
  }

  /** "%04x" is read back by int(p, 16). */
  lemma Hex4Parses(n: nat)
    ensures IntBase16(Hex4(n)) == Some(n)
  {
    HexDigitsParse(Hex4(n));
    Hex4RoundTrip(n);
  }

  /** Reading back a line written by csv_line gives the base name and the
      codepoints of the file name, provided the base name has no comma. */
  lemma CsvRoundTrip(filename: string)
    requires ',' !in Basename(filename)
    requires FromFilename(Basename(filename)).Ok?
    ensures CsvLine(filename).Ok?
    ensures ParseCsvLine(CsvLine(filename).value) == Ok((Basename(filename), FromFilename(Basename(filename)).value))
  {
    var name := Basename(filename);
    var cps := FromFilename(name).value;
    var fields := Hex4s(cps);
    forall k | 0 <= k < |fields| ensures ',' !in fields[k] && IntBase16(fields[k]) == Some(cps[k]) {
      Hex4Parses(cps[k]);
    }
    assert name + "," + Join(fields, ",") == Join([name] + fields, ",") by {
      assert ([name] + fields)[1..] == fields;
    }
    assert forall k :: 0 <= k < |[name] + fields| ==> ',' !in ([name] + fields)[k];
    SplitJoin([name] + fields, ',');
    var parts := Split(CsvLine(filename).value, ',');
    assert parts[1..] == fields;
    var parsed := ParseFields(fields).value;
    assert parsed == cps;
  }

  /** A maximal run of digits at the front is the run HexRunLength finds. */
  lemma {:induction false} HexRunLengthIs(a: string, rest: string)
    requires AllHexDigits(a) && (rest == [] || !IsHexDigit(rest[0]))
    ensures HexRunLength(a + rest) == |a|
  {
    if |a| > 0 {
      assert (a + rest)[1..] == a[1..] + rest;
      HexRunLengthIs(a[1..], rest);
    } else {
      assert a + rest == rest;
    }
  }

  /** A maximal run of digits is captured, then the repetition goes on
      after it. */
  lemma RunsCons(a: string, rest: string)
    requires |a| > 0 && AllHexDigits(a) && (rest == [] || !IsHexDigit(rest[0]))
    ensures Runs(a + rest) == [a] + Runs(rest)
  {
    HexRunLengthIs(a, rest);
    assert (a + rest)[..|a|] == a && (a + rest)[|a|..] == rest;
  }

  /** A separator followed by a digit is skipped. */
  lemma RunsSeparator(c: char, t: string)
    requires IsSeparator(c) && |t| > 0 && IsHexDigit(t[0])
    ensures Runs([c] + t) == Runs(t)
  {
    assert ([c] + t)[1..] == t;
  }

  /** The codepoints of a file name whose captures are known. */
  lemma FromCaptures(s: string, caps: seq<string>)
    requires Captures(s) == Some(caps)
    ensures FromFilename(s) == Ok(HexValues(caps))
  {
  }

  predicate HexParts(parts: seq<string>)
  {
    forall k :: 0 <= k < |parts| ==> |parts[k]| > 0 && AllHexDigits(parts[k])
  }

  /** What may follow the last codepoint: nothing, or a character that
      neither extends nor continues the match. */
  predicate EndsMatch(ext: string)
  {
    ext == [] || (!IsHexDigit(ext[0]) && !IsSeparator(ext[0]))
  }

  /** A run, a separator, and what follows: the run is captured and the
      repetition goes on after the separator. */
  lemma RunSeparatorRest(a: string, sep: char, rest: string)
    requires |a| > 0 && AllHexDigits(a) && IsSeparator(sep) && |rest| > 0 && IsHexDigit(rest[0])
    ensures Runs(a + ([sep] + rest)) == [a] + Runs(rest)
  {
    RunsSeparator(sep, rest);
    RunsCons(a, [sep] + rest);
  }

  lemma HexPartsTail(parts: seq<string>)
    requires |parts| > 0 && HexParts(parts)
    ensures HexParts(parts[1..])
  {
    assert forall k :: 0 <= k < |parts| - 1 ==> parts[1..][k] == parts[k + 1];
  }

  lemma JoinCons(parts: seq<string>, sep: string, ext: string)
    requires |parts| > 1
    ensures Join(parts, sep) + ext == parts[0] + (sep + (Join(parts[1..], sep) + ext))
  {
  }

  /** Hexadecimal parts joined by a separator are captured one by one. */
  lemma {:induction false} RunsOfJoin(parts: seq<string>, sep: char, ext: string)
    requires |parts| > 0 && HexParts(parts) && IsSeparator(sep) && EndsMatch(ext)
    ensures Runs(Join(parts, [sep]) + ext) == parts
  {
    if |parts| == 1 {
      RunsCons(parts[0], ext);
    } else {
      var rest := Join(parts[1..], [sep]) + ext;
      HexPartsTail(parts);
      RunsOfJoin(parts[1..], sep, ext);
      JoinStartsWith(parts[1..], [sep], ext);
      JoinCons(parts, [sep], ext);
      RunSeparatorRest(parts[0], sep, rest);
      assert [parts[0]] + parts[1..] == parts;
    }
  }

  /** The first character of a join followed by anything is that of the first part. */
  lemma JoinStartsWith(parts: seq<string>, sep: string, ext: string)
    requires |parts| > 0 && |parts[0]| > 0
    ensures |Join(parts, sep) + ext| > 0 && (Join(parts, sep) + ext)[0] == parts[0][0]
  {
  }

  /** The second character of such a name is a digit, a separator or ".". */
  lemma SecondChar(parts: seq<string>, sep: char, ext: string)
    requires |parts| > 0 && HexParts(parts) && IsSeparator(sep)
    requires ext == [] || ext[0] == '.'
    ensures var s := Join(parts, [sep]) + ext;
            |s| >= 2 ==> IsHexDigit(s[1]) || IsSeparator(s[1]) || s[1] == '.'
  {
    var s := Join(parts, [sep]) + ext;
    if |s| >= 2 {
      if |parts[0]| > 1 {
        JoinStartsWith(parts, [sep], ext);
        assert s == parts[0] + (s[|parts[0]|..]);
        assert s[1] == parts[0][1];
      } else if |parts| > 1 {
        assert s == parts[0] + ([sep] + (Join(parts[1..], [sep]) + ext));
      } else {
        assert s == parts[0] + ext;
      }
    }
  }

  lemma NotPrefixed(s: string)
    requires |s| < 7 || s[1] != 'm'
    ensures !StartsWith(s, NotoPrefix)
  {
    if |s| >= 7 {
      assert s[..7][1] == s[1];
    }
  }

  /** Without the prefix the match starts at the first digit or separator. */
  lemma CapturesPlain(s: string)
    requires !StartsWith(s, NotoPrefix) && Runs(s) != []
    ensures Captures(s) == Some(Runs(s))
  {
  }

  /** With the prefix and digits after it, the captures start after the prefix. */
  lemma CapturesNoto(s: string, t: string)
    requires |s| >= 7 && s[..7] == NotoPrefix && s[7..] == t && Runs(t) != []
    ensures Captures(s) == Some(Runs(t))
  {
  }

  /** A name such as "1f9d1-200d-1f91d.svg": the codepoints of the parts. */
  lemma PlainName(s: string, parts: seq<string>, sep: char, ext: string)
    requires |parts| > 0 && HexParts(parts) && IsSeparator(sep)
    requires ext == [] || ext[0] == '.'
    requires s == Join(parts, [sep]) + ext
    ensures FromFilename(s) == Ok(HexValues(parts))
  {
    RunsOfJoin(parts, sep, ext);
    SecondChar(parts, sep, ext);
    NotPrefixed(s);
    CapturesPlain(s);
    FromCaptures(s, parts);
  }

  /** A name such as "emoji_u1f385_1f3fb.svg": the prefix is skipped and
      the parts give the codepoints. */
  lemma NotoName(s: string, parts: seq<string>, sep: char, ext: string)
    requires |parts| > 0 && HexParts(parts) && IsSeparator(sep) && EndsMatch(ext)
    requires |s| >= 7 && s[..7] == NotoPrefix && s[7..] == Join(parts, [sep]) + ext
    ensures FromFilename(s) == Ok(HexValues(parts))
  {
    RunsOfJoin(parts, sep, ext);
    CapturesNoto(s, Join(parts, [sep]) + ext);
    FromCaptures(s, parts);
  }

  /** When no digit follows "emoji_u" the prefix is dropped again and the
      match starts at the "e" of "emoji": codepoint 0xE. */
  lemma PrefixDropped(s: string)
    requires |s| >= 7 && s[..7] == NotoPrefix && EndsMatch(s[7..])
    ensures FromFilename(s) == Ok([0xE])
  {
    assert s[0] == 'e' && s[1] == 'm' by {
      assert s[..7][0] == s[0] && s[..7][1] == s[1];
    }
    RunsCons(s[..1], s[1..]);
    assert s[..1] + s[1..] == s;
    assert s[1..][0] == 'm';
    assert Runs(s[1..]) == [];
    assert Runs(s) == [s[..1]];
    assert Runs(s[7..]) == [];
    assert Captures(s) == Search(s) == Some([s[..1]]);
    FromCaptures(s, [s[..1]]);
    assert s[..1] == "e";
    assert FromBase("e", 16) == 0xE by {
      assert "e"[..0] == "";
    }
    assert HexValues([s[..1]]) == [0xE];
  }
}
