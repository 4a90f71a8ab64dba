// Glyph names for codepoint sequences (src/nanoemoji/glyph.py).  The SHA-1
// digest in base32 used for over-long names is a parameter of the model.
module GlyphNames {
  import opened Wrappers
  import opened Text

  /** A Unicode code point: a value chr() accepts. */
  type Codepoint = n: nat | n < 0x11_0000

  /** The longest name feature files accept. */
  const MaxNameLen: nat := 63

  predicate IsBase32Char(c: char)
  {
    ('A' <= c <= 'Z') || ('2' <= c <= '7')
  }

  /** What base32 of a SHA-1 digest looks like: 20 bytes give 32 characters
      of the base32 alphabet and no padding. */
  ghost predicate IsDigest(digest: string -> string)
  {
    forall s :: |digest(s)| == 32 && forall i :: 0 <= i < 32 ==> IsBase32Char(digest(s)[i])
  }

  /** chr(cp) is an ASCII letter. */
  predicate IsLetterCode(cp: nat)
  {
    (65 <= cp <= 90) || (97 <= cp <= 122)
  }

  /** The name of one code point: an ASCII letter stands for itself,
      anything else is written as lower-case hexadecimal. */
  function Name(cp: Codepoint): string
  {
    if IsLetterCode(cp) then [cp as char] else Hex(cp)
  }

  function Names(cps: seq<Codepoint>): (r: seq<string>)
    ensures |r| == |cps| && forall i :: 0 <= i < |cps| ==> r[i] == Name(cps[i])
  {
    seq(|cps|, i requires 0 <= i < |cps| => Name(cps[i]))
  }

  /** The part names joined with "_", in codepoint order. */
  function JoinedName(cps: seq<Codepoint>): string
  {
    Join(Names(cps), "_")
  }

  /** glyph_name: the joined name, replaced by its digest when it is longer
      than MaxNameLen, then prefixed with "g_" unless it starts with a
      letter.  An empty sequence has no first character: IndexError. */
  function GlyphName(cps: seq<Codepoint>, digest: string -> string): (r: Result<string>)
    requires IsDigest(digest)
    ensures r.Err? <==> |cps| == 0
    ensures r.Err? ==> r.error == IndexError
    ensures r.Ok? ==> |r.value| > 0 && IsAsciiAlpha(r.value[0])
  {
    var joined := JoinedName(cps);
    NonEmptyJoin(cps);
    var name := if |joined| > MaxNameLen then digest(joined) else joined;
    if |name| == 0 then Err(IndexError)
    else if !IsAsciiAlpha(name[0]) then Ok("g_" + name)
    else Ok(name)
  }

  /** glyph_name's argument: a bare code point or an iterable of them. */
  datatype CodepointsArg = Single(cp: Codepoint) | Several(cps: seq<Codepoint>)

  /** glyph_name on either kind of argument; a bare code point that is not
      iterable is wrapped in a one-element list first. */
  function GlyphNameOf(arg: CodepointsArg, digest: string -> string): (r: Result<string>)
    requires IsDigest(digest)
    ensures r.Err? <==> arg.Several? && |arg.cps| == 0
  {
    match arg
    case Single(cp) => GlyphName([cp], digest)
    case Several(cps) => GlyphName(cps, digest)
  }

  lemma NonEmptyJoin(cps: seq<Codepoint>)
    ensures |cps| > 0 <==> |JoinedName(cps)| > 0
  {
    if |cps| > 0 {
      NameFacts(cps[0]);
      assert Names(cps)[1..] == Names(cps[1..]);
    }
  }

  /** A part name is never empty, never contains "_", and is either the
      letter itself or hexadecimal that int(s, 16) reads back. */
  lemma NameFacts(cp: Codepoint)
    ensures |Name(cp)| > 0 && '_' !in Name(cp)
    ensures IsLetterCode(cp) ==> |Name(cp)| == 1 && Name(cp)[0] as nat == cp && IsAsciiAlpha(Name(cp)[0])
    ensures !IsLetterCode(cp) ==> ParseHex(Name(cp)) == Some(cp)
  {
    if !IsLetterCode(cp) {
      HexRoundTrip(cp);
      var h := Hex(cp);
      assert forall i :: 0 <= i < |h| ==> IsHexDigit(h[i]);
    }
  }

  /** Splitting a joined name on "_" gives back the part names in order. */
  lemma PartsInOrder(cps: seq<Codepoint>)
    requires |cps| > 0
    ensures Split(JoinedName(cps), '_') == Names(cps)
  {
    forall i | 0 <= i < |cps| ensures '_' !in Names(cps)[i] {
      NameFacts(cps[i]);
    }
    SplitJoin(Names(cps), '_');
  }

  /** A name of at most MaxNameLen characters is kept, with "g_" in front
      exactly when it does not start with a letter. */
  lemma ShortName(cps: seq<Codepoint>, digest: string -> string)
    requires IsDigest(digest) && |cps| > 0 && |JoinedName(cps)| <= MaxNameLen
    ensures var j := JoinedName(cps);
            GlyphName(cps, digest).Ok? &&
            (IsAsciiAlpha(j[0]) ==> GlyphName(cps, digest).value == j) &&
            (!IsAsciiAlpha(j[0]) ==> GlyphName(cps, digest).value == "g_" + j)
  {
    NonEmptyJoin(cps);
  }

  /** A longer name is replaced by its digest before the prefix rule, so the
      result has 32 or 34 characters whatever the number of code points. */
  lemma LongName(cps: seq<Codepoint>, digest: string -> string)
    requires IsDigest(digest) && |JoinedName(cps)| > MaxNameLen
    ensures var d := digest(JoinedName(cps));
            GlyphName(cps, digest) == Ok(if IsAsciiAlpha(d[0]) then d else "g_" + d)
    ensures |GlyphName(cps, digest).value| in {32, 34}
  {
    NonEmptyJoin(cps);
  }

  /** What glyph names are made of. */
  predicate IsNameChar(c: char)
  {
    IsAsciiAlpha(c) || IsDecimalDigit(c) || c == '_'
  }

  /** A glyph name holds only letters, digits and "_": no space, newline or
      ";" that would break a feature file. */
  lemma GlyphNameChars(cps: seq<Codepoint>, digest: string -> string, c: char)
    requires IsDigest(digest) && |cps| > 0 && !IsNameChar(c)
    ensures c !in GlyphName(cps, digest).value
  {
    var names := Names(cps);
    forall i | 0 <= i < |names| ensures c !in names[i] {
      if !IsLetterCode(cps[i]) {
        var h := Hex(cps[i]);
        assert forall k :: 0 <= k < |h| ==> IsHexDigit(h[k]);
      }
    }
    JoinContains(names, "_", c);
    var d := digest(JoinedName(cps));
    assert forall k :: 0 <= k < |d| ==> IsBase32Char(d[k]);
  }

  /** The name of a bare code point is that of the one-element tuple. */
  lemma SingleAsTuple(cp: Codepoint, digest: string -> string)
    requires IsDigest(digest)
    ensures GlyphNameOf(Single(cp), digest) == GlyphNameOf(Several([cp]), digest)
  {
  }

  lemma SkinToneHex()
    ensures Hex(0x1F64C) == "1f64c" && Hex(0x1F3FB) == "1f3fb"
  {
    HexAppend(0x1, 0xF);
    HexAppend(0x1F, 0x6);
    HexAppend(0x1F6, 0x4);
    HexAppend(0x1F64, 0xC);
    HexAppend(0x1F, 0x3);
    HexAppend(0x1F3, 0xF);
    HexAppend(0x1F3F, 0xB);
    assert Hex(0x1) == "1";
  }

  /** (0x1F64C, 0x1F3FB) is named "g_1f64c_1f3fb". */
  lemma ExampleSkinTone(digest: string -> string)
    requires IsDigest(digest)
    ensures GlyphName([0x1F64C, 0x1F3FB], digest) == Ok("g_1f64c_1f3fb")
  {
    SkinToneHex();
    var n := Names([0x1F64C, 0x1F3FB]);
    assert n[0] == "1f64c" && n[1] == "1f3fb";
    assert n == ["1f64c", "1f3fb"];
    assert n[1..] == ["1f3fb"];
    var j := JoinedName([0x1F64C, 0x1F3FB]);
    assert j == "1f64c_1f3fb";
    assert |j| == 11 && j[0] == '1';
    assert GlyphName([0x1F64C, 0x1F3FB], digest) == Ok("g_" + j);
    assert "g_" + j == "g_1f64c_1f3fb";
  }

  /** ASCII letters stand for themselves: (0x66, 0x69) is named "f_i". */
  lemma ExampleLigature(digest: string -> string)
    requires IsDigest(digest)
    ensures GlyphName([0x66, 0x69], digest) == Ok("f_i")
  {
    var n := Names([0x66, 0x69]);
    assert n[0] == "f" && n[1] == "i";
    assert n == ["f", "i"];
    assert n[1..] == ["i"];
    assert JoinedName([0x66, 0x69]) == "f_i";
  }

  /** Part names are not unique: U+000A and the letter "a" are both named "a". */
  lemma NamesCollide()
    ensures Name(0x0A) == Name(0x61) == "a"
  {
  }
}
