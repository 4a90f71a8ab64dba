// Rows of the glyph map: which SVG and bitmap file give which glyph for
// which codepoints (src/nanoemoji/glyphmap.py).  A path is the string it
// prints as; CSV quoting is not modelled, so fields are written joined by
// commas and read back by splitting.
module GlyphMaps {
  import opened Wrappers
  import opened Text
  import opened Codepoints

  datatype GlyphMapping = GlyphMapping(
    svgFile: Option<string>,
    bitmapFile: Option<string>,
    codepoints: seq<int>,
    glyphName: string)
  {
    /** At least one of the two files is given. */
    predicate Valid()
    {
      svgFile.Some? || bitmapFile.Some?
    }
  }

  /** The dataclass constructor with its __post_init__ check. */
  function NewGlyphMapping(svgFile: Option<string>, bitmapFile: Option<string>, codepoints: seq<int>, glyphName: string)
    : (r: Result<GlyphMapping>)
    ensures r.Err? <==> svgFile.None? && bitmapFile.None?
    ensures r.Err? ==> r.error == ValueError
    ensures r.Ok? ==> r.value.Valid() && r.value == GlyphMapping(svgFile, bitmapFile, codepoints, glyphName)
  {
    if svgFile.None? && bitmapFile.None? then Err(ValueError)
    else Ok(GlyphMapping(svgFile, bitmapFile, codepoints, glyphName))
  }

  /** `path or ""` */
  function PathField(p: Option<string>): string
  {
    match p
    case None => ""
    case Some(s) => s
  }

  /** f"{c:04x}": the sign counts towards the width of four. */
  function Format04x(c: int): (s: string)
    ensures |s| >= 4 && (c >= 0 ==> s == Hex4(c))
    ensures c < 0 ==> s[0] == '-' && AllHexDigits(s[1..])
  {
    if c >= 0 then Hex4(c)
    else Negative04x(-c)
  }

  /** f"{c:04x}" for c = -n < 0. */
  function Negative04x(n: nat): string
  {
    "-" + Pad3(Hex(n))
  }

  /** Hexadecimal digits left-padded with zeros to at least three. */
  function Pad3(h: string): string
  {
    (if |h| < 3 then Zeros(3 - |h|) else "") + h
  }

  /** The fields csv_line writes. */
  function CsvRow(m: GlyphMapping): (r: seq<string>)
    ensures |r| == 3 + (if |m.codepoints| == 0 then 1 else |m.codepoints|)
    ensures r[..3] == [PathField(m.svgFile), PathField(m.bitmapFile), m.glyphName]
    ensures |m.codepoints| == 0 ==> r[3] == ""
    ensures forall k :: 0 <= k < |m.codepoints| ==> r[3 + k] == Format04x(m.codepoints[k])
  {
    var head := [PathField(m.svgFile), PathField(m.bitmapFile), m.glyphName];
    if |m.codepoints| > 0 then head + seq(|m.codepoints|, k requires 0 <= k < |m.codepoints| => Format04x(m.codepoints[k]))
    else head + [""]
  }

  function CsvLine(m: GlyphMapping): string
  {
    Join(CsvRow(m), ",")
  }

  function CsvLines(ms: seq<GlyphMapping>): (r: seq<string>)
    ensures |r| == |ms| && forall k :: 0 <= k < |ms| ==> r[k] == CsvLine(ms[k])
  {
    seq(|ms|, k requires 0 <= k < |ms| => CsvLine(ms[k]))
  }

  /** The csv reader with skipinitialspace on one line: an empty line is an
      empty row; otherwise the comma-separated fields, each without its
      leading spaces. */
  function ReadRow(line: string): (r: seq<string>)
    ensures line != "" ==> |r| == |Split(line, ',')| &&
                           forall k :: 0 <= k < |r| ==> r[k] == StripLeadingSpaces(Split(line, ',')[k])
  {
    if line == "" then []
    else
      var fields := Split(line, ',');
      seq(|fields|, k requires 0 <= k < |fields| => StripLeadingSpaces(fields[k]))
  }

  /** An empty file name field stands for no file. */
  function PathOf(field: string): (r: Option<string>)
    ensures r.None? <==> field == ""
  {
    if field == "" then None else Some(field)
  }

  /** The body of the loop in load_from for one row. */
  function ParseRow(row: seq<string>): (r: Result<GlyphMapping>)
    ensures |row| < 3 ==> r == Err(ValueError)
    ensures r.Err? ==> r.error == ValueError
    ensures |row| >= 3 && row[0] == "" && row[1] == "" ==> r.Err?
    ensures |row| >= 3 && (row[0] != "" || row[1] != "") && (|row| == 3 || row[3..] == [""]) ==>
              r == Ok(GlyphMapping(PathOf(row[0]), PathOf(row[1]), [], row[2]))
    ensures r.Ok? ==> r.value.Valid() && r.value.glyphName == row[2]
  {
    if |row| < 3 then Err(ValueError)
    else
      var cps :- if |row| > 3 && row[3..] != [""] then ParseFields(row[3..]) else Ok([]);
      NewGlyphMapping(PathOf(row[0]), PathOf(row[1]), cps, row[2])
  }

  /** What the loop body of load_from gives for each line. */
  function Rows(lines: seq<string>): (r: seq<Result<GlyphMapping>>)
    ensures |r| == |lines| && forall k :: 0 <= k < |lines| ==> r[k] == ParseRow(ReadRow(lines[k]))
  {
    seq(|lines|, k requires 0 <= k < |lines| => ParseRow(ReadRow(lines[k])))
  }

  /** load_from: the mappings of all rows in order, or the first error. */
  function LoadAll(lines: seq<string>): Result<seq<GlyphMapping>>
  {
    Collect(Rows(lines))
  }

  method LoadFrom(lines: seq<string>) returns (r: Result<seq<GlyphMapping>>)
    ensures r == LoadAll(lines)
  {
    var results: seq<GlyphMapping> := [];
    ghost var rows := Rows(lines);
    var i := 0;
    while i < |lines|
      invariant 0 <= i <= |lines|
      invariant Collect(rows[..i]) == Ok(results)
    {
      assert rows[..i + 1][..i] == rows[..i];
      var row := ReadRow(lines[i]);
      var m := ParseRow(row);
      assert m == rows[..i + 1][i];
      if m.Err? {
        CollectStopsAtError(rows, i + 1);
        return Err(m.error);
      }
      results := results + [m.value];
      i := i + 1;
    }
    assert rows[..i] == rows;
    r := Ok(results);
  }

  /** Loading succeeds exactly when every row parses, and then gives one
      mapping per row, in order. */
  lemma LoadRows(lines: seq<string>)
    ensures LoadAll(lines).Ok? <==> forall k :: 0 <= k < |lines| ==> ParseRow(ReadRow(lines[k])).Ok?
    ensures LoadAll(lines).Ok? ==>
              |LoadAll(lines).value| == |lines| &&
              forall k :: 0 <= k < |lines| ==> LoadAll(lines).value[k] == ParseRow(ReadRow(lines[k])).value
  {
    CollectOk(Rows(lines));
  }

  /** A field the csv module writes unquoted and reads back as it is. */
  predicate PlainField(s: string)
  {
    (|s| == 0 || s[0] != ' ') && forall k :: 0 <= k < |s| ==> s[k] !in {',', '"', '\n', '\r'}
  }

  /** A mapping whose fields are all plain; paths never print as "". */
  predicate Writable(m: GlyphMapping)
  {
    m.Valid() && PlainField(m.glyphName) &&
    (m.svgFile.Some? ==> m.svgFile.value != "" && PlainField(m.svgFile.value)) &&
    (m.bitmapFile.Some? ==> m.bitmapFile.value != "" && PlainField(m.bitmapFile.value))
  }

  /** int(p, 16) reads f"{c:04x}" back, negative numbers included. */
  lemma FieldParses(c: int)
    ensures IntBase16(Format04x(c)) == Some(c)
  {
    if c >= 0 {
      Hex4Parses(c);
    } else {
      NegativeField(c);
    }
  }

  lemma NegativeField(c: int)
    requires c < 0
    ensures IntBase16(Format04x(c)) == Some(c)
  {
    var n: nat := -c;
    Negative04xParses(n);
    NegativeFormat(c, n);
  }

  lemma NegativeFormat(c: int, n: nat)
    requires c < 0 && n == -c
    ensures Format04x(c) == Negative04x(n)
  {
  }

  lemma Negative04xParses(n: nat)
    ensures IntBase16(Negative04x(n)) == Some(-(n as int))
  {
    PaddedValue(n);
    NegativeParses(Pad3(Hex(n)), n);
  }

  lemma PaddedValue(n: nat)
    ensures AllHexDigits(Pad3(Hex(n))) && |Pad3(Hex(n))| >= 3 && ParseHex(Pad3(Hex(n))) == Some(n)
  {
    var h := Hex(n);
    HexRoundTrip(n);
    var k := if |h| < 3 then 3 - |h| else 0;
    assert Pad3(h) == Zeros(k) + h;
    LeadingZeros(k, h, 16);
  }

  /** int("-" + u, 16) for hexadecimal digits u. */
  lemma NegativeParses(u: string, n: nat)
    requires AllHexDigits(u) && |u| >= 2 && ParseHex(u) == Some(n)
    ensures IntBase16("-" + u) == Some(-(n as int))
  {
    var s := "-" + u;
    assert s[1..] == u;
    assert IsHexDigit(u[|u| - 1]) && IsHexDigit(u[1]);
    assert s[|s| - 1] == u[|u| - 1];
    assert Strip(s) == s;
    assert '_' !in u by {
      forall k | 0 <= k < |u| ensures u[k] != '_' {
        assert IsHexDigit(u[k]);
      }
    }
  }

  /** A written codepoint field is plain and never empty. */
  lemma FieldPlain(c: int)
    ensures PlainField(Format04x(c)) && Format04x(c) != ""
  {
    var s := Format04x(c);
    if c >= 0 {
      assert forall k :: 0 <= k < |s| ==> IsHexDigit(s[k]);
    } else {
      var t := s[1..];
      assert forall k :: 0 <= k < |t| ==> IsHexDigit(t[k]);
      assert forall k :: 1 <= k < |s| ==> s[k] == t[k - 1];
    }
  }

  /** The csv reader gives back the fields csv_line wrote. */
  lemma ReadBack(m: GlyphMapping)
    requires Writable(m)
    ensures ReadRow(CsvLine(m)) == CsvRow(m)
  {
    var row := CsvRow(m);
    forall k | 0 <= k < |row| ensures PlainField(row[k]) && ',' !in row[k] {
      if k >= 3 && |m.codepoints| > 0 {
        FieldPlain(m.codepoints[k - 3]);
      } else if k < 3 {
        assert row[k] == row[..3][k];
      }
    }
    SplitJoin(row, ',');
    assert CsvLine(m) != "" by {
      assert |row| >= 4;
      assert CsvLine(m) == row[0] + "," + Join(row[1..], ",");
    }
    var read := ReadRow(CsvLine(m));
    forall k | 0 <= k < |row| ensures read[k] == row[k] {
      assert StripLeadingSpaces(row[k]) == row[k];
    }
  }

  /** The codepoint fields csv_line writes parse back to the codepoints. */
  lemma TailParses(m: GlyphMapping)
    requires |m.codepoints| > 0
    ensures CsvRow(m)[3..] != [""]
    ensures ParseFields(CsvRow(m)[3..]) == Ok(m.codepoints)
  {
    var tail := CsvRow(m)[3..];
    forall k | 0 <= k < |tail| ensures IntBase16(tail[k]) == Some(m.codepoints[k]) {
      assert tail[k] == Format04x(m.codepoints[k]);
      FieldParses(m.codepoints[k]);
    }
    FieldPlain(m.codepoints[0]);
    assert tail[0] != "";
    assert ParseFields(tail).value == m.codepoints;
  }

  /** Reading back the line csv_line writes gives the same mapping. */
  lemma RowRoundTrip(m: GlyphMapping)
    requires Writable(m)
    ensures ParseRow(ReadRow(CsvLine(m))) == Ok(m)
  {
    ReadBack(m);
    var row := CsvRow(m);
    assert row[0] == PathField(m.svgFile) && row[1] == PathField(m.bitmapFile) && row[2] == m.glyphName by {
      assert row[..3][0] == row[0] && row[..3][1] == row[1] && row[..3][2] == row[2];
    }
    assert PathOf(row[0]) == m.svgFile && PathOf(row[1]) == m.bitmapFile;
    if |m.codepoints| > 0 {
      TailParses(m);
    } else {
      assert row[3..] == [""];
    }
  }

  /** load_from over the lines csv_line writes gives back the mappings, one
      per line, in order. */
  lemma LoadRoundTrip(ms: seq<GlyphMapping>)
    requires forall k :: 0 <= k < |ms| ==> Writable(ms[k])
    ensures LoadAll(CsvLines(ms)) == Ok(ms)
  {
    var lines := CsvLines(ms);
    forall k | 0 <= k < |ms| ensures ParseRow(ReadRow(lines[k])) == Ok(ms[k]) {
      RowRoundTrip(ms[k]);
    }
    LoadRows(lines);
    assert LoadAll(lines).Ok?;
    var loaded := LoadAll(lines).value;
    assert |loaded| == |ms|;
    assert forall k :: 0 <= k < |ms| ==> loaded[k] == ms[k];
    assert loaded == ms;
  }
}
