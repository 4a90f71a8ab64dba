// The older single-step font builder (src/nanoemoji/nanoemoji.py): code
// points from file names, the filter over its inputs, the z-ordered layers
// of the UFO and the ligature feature text.
module Nanoemoji {
  import opened Wrappers
  import opened Text
  import opened Sorting
  import opened Orders
  import opened GlyphNames
  import opened Ufo
  import Codepoints
  import Features

  // _codepoints_from_filename

  /** The same search as codepoints.from_filename, but a name without a
      match gives None (after a warning) instead of raising. */
  function CodepointsFromFilename(filename: string): (r: Option<seq<nat>>)
    ensures r.None? <==> Codepoints.NoHexDigit(filename)
    ensures r.Some? ==> |r.value| > 0 && Codepoints.FromFilename(filename) == Ok(r.value)
  {
    match Codepoints.FromFilename(filename)
    case Ok(cps) => Some(cps)
    case Err(_) => None
  }

  /** A Noto name such as "emoji_u1f385_1f3fb.svg" gives the code points of
      its parts. */
  lemma NotoCodepoints(s: string, parts: seq<string>, ext: string)
    requires |parts| > 0 && Codepoints.HexParts(parts) && Codepoints.EndsMatch(ext)
    requires |s| >= 7 && s[..7] == Codepoints.NotoPrefix && s[7..] == Join(parts, "_") + ext
    ensures CodepointsFromFilename(s) == Some(Codepoints.HexValues(parts))
  {
    Codepoints.NotoName(s, parts, '_', ext);
  }

  /** A Twemoji name such as "1f9d1-200d-1f91d.svg" gives the code points of
      its parts. */
  lemma TwemojiCodepoints(s: string, parts: seq<string>, ext: string)
    requires |parts| > 0 && Codepoints.HexParts(parts)
    requires ext == [] || ext[0] == '.'
    requires s == Join(parts, "-") + ext
    ensures CodepointsFromFilename(s) == Some(Codepoints.HexValues(parts))
  {
    Codepoints.PlainName(s, parts, '-', ext);
  }

  // _inputs

  /** Whether _inputs keeps a file: the base name yields code points and
      the picosvg conversion succeeds. */
  predicate Keeps<P>(filename: string, picosvgOf: string -> Option<P>)
  {
    CodepointsFromFilename(Basename(filename)).Some? && picosvgOf(filename).Some?
  }

  function InputOf<P>(filename: string, picosvgOf: string -> Option<P>): (string, seq<nat>, P)
    requires Keeps(filename, picosvgOf)
  {
    (filename, CodepointsFromFilename(Basename(filename)).value, picosvgOf(filename).value)
  }

  /** The inputs _inputs yields, in file order. */
  function KeptInputs<P>(filenames: seq<string>, picosvgOf: string -> Option<P>): seq<(string, seq<nat>, P)>
  {
    if |filenames| == 0 then []
    else
      var front := KeptInputs(filenames[..|filenames| - 1], picosvgOf);
      var f := filenames[|filenames| - 1];
      if Keeps(f, picosvgOf) then front + [InputOf(f, picosvgOf)] else front
  }

  /** The indexes of the entries that pass a test, in increasing order. */
  function IndexesWhere(s: seq<string>, keep: string -> bool): (r: seq<nat>)
    ensures forall k :: 0 <= k < |r| ==> r[k] < |s|
  {
    if |s| == 0 then []
    else
      var n := |s| - 1;
      IndexesWhere(s[..n], keep) + (if keep(s[n]) then [n] else [])
  }

  function KeepTest<P>(picosvgOf: string -> Option<P>): string -> bool
  {
    f => Keeps(f, picosvgOf)
  }

  /** The indexes of the files that are kept. */
  function KeptIndexes<P>(filenames: seq<string>, picosvgOf: string -> Option<P>): (r: seq<nat>)
  {
    IndexesWhere(filenames, KeepTest(picosvgOf))
  }

  /** The loop of _inputs, run to the end. */
  method Inputs<P>(filenames: seq<string>, picosvgOf: string -> Option<P>) returns (r: seq<(string, seq<nat>, P)>)
    ensures r == KeptInputs(filenames, picosvgOf)
  {
    r := [];
    for i := 0 to |filenames|
      invariant r == KeptInputs(filenames[..i], picosvgOf)
    {
      assert filenames[..i + 1][..i] == filenames[..i];
      var codepoints := CodepointsFromFilename(Basename(filenames[i]));
      var picosvg := picosvgOf(filenames[i]);
      if codepoints.Some? && picosvg.Some? {
        r := r + [(filenames[i], codepoints.value, picosvg.value)];
      }
    }
    assert filenames[..|filenames|] == filenames;
  }

  /** _inputs keeps exactly the files that have code points and a picosvg,
      in their original order: the k-th input comes from the file at the
      k-th kept index, the kept indexes increase, and every file whose
      index is not kept fails the test. */
  lemma KeptInputsFacts<P>(filenames: seq<string>, picosvgOf: string -> Option<P>)
    ensures var r, idx := KeptInputs(filenames, picosvgOf), KeptIndexes(filenames, picosvgOf);
            && |r| == |idx|
            && (forall k :: 0 <= k < |idx| ==> Keeps(filenames[idx[k]], picosvgOf) && r[k] == InputOf(filenames[idx[k]], picosvgOf))
            && Increasing(idx)
            && (forall i :: 0 <= i < |filenames| && i !in idx ==> !Keeps(filenames[i], picosvgOf))
  {
    KeptAt(filenames, picosvgOf);
    KeptIncreasing(filenames, picosvgOf);
    KeptAll(filenames, picosvgOf);
  }

  lemma {:induction false} KeptAt<P>(filenames: seq<string>, picosvgOf: string -> Option<P>)
    ensures var r, idx := KeptInputs(filenames, picosvgOf), KeptIndexes(filenames, picosvgOf);
            && |r| == |idx|
            && forall k :: 0 <= k < |idx| ==> Keeps(filenames[idx[k]], picosvgOf) && r[k] == InputOf(filenames[idx[k]], picosvgOf)
  {
    if |filenames| > 0 {
      var n := |filenames| - 1;
      var front, f := filenames[..n], filenames[n];
      KeptAt(front, picosvgOf);
      var idx0, r0 := KeptIndexes(front, picosvgOf), KeptInputs(front, picosvgOf);
      var idx, r := KeptIndexes(filenames, picosvgOf), KeptInputs(filenames, picosvgOf);
      assert idx == idx0 + (if KeepTest(picosvgOf)(f) then [n] else []);
      assert r == r0 + (if Keeps(f, picosvgOf) then [InputOf(f, picosvgOf)] else []);
      forall k | 0 <= k < |idx|
        ensures Keeps(filenames[idx[k]], picosvgOf) && r[k] == InputOf(filenames[idx[k]], picosvgOf)
      {
        if k < |idx0| {
          assert idx[k] == idx0[k] && r[k] == r0[k] && front[idx0[k]] == filenames[idx0[k]];
        } else {
          assert idx[k] == n && r[k] == InputOf(f, picosvgOf);
        }
      }
    }
  }

  lemma {:induction false} KeptIncreasing<P>(filenames: seq<string>, picosvgOf: string -> Option<P>)
    ensures Increasing(KeptIndexes(filenames, picosvgOf))
  {
    IndexesIncrease(filenames, KeepTest(picosvgOf));
  }

  lemma {:induction false} KeptAll<P>(filenames: seq<string>, picosvgOf: string -> Option<P>)
    ensures var idx := KeptIndexes(filenames, picosvgOf);
            forall i :: 0 <= i < |filenames| && i !in idx ==> !Keeps(filenames[i], picosvgOf)
  {
    IndexesAll(filenames, KeepTest(picosvgOf));
  }

  predicate Increasing(idx: seq<nat>)
  {
    forall k, l :: 0 <= k < l < |idx| ==> idx[k] < idx[l]
  }

  lemma {:induction false} IndexesIncrease(s: seq<string>, keep: string -> bool)
    ensures Increasing(IndexesWhere(s, keep))
  {
    if |s| > 0 {
      var n := |s| - 1;
      IndexesIncrease(s[..n], keep);
      var front := IndexesWhere(s[..n], keep);
      var idx := IndexesWhere(s, keep);
      forall k, l | 0 <= k < l < |idx| ensures idx[k] < idx[l] {
        if l >= |front| {
          assert idx[l] == n && idx[k] == front[k] && front[k] < |s[..n]|;
        } else {
          assert idx[k] == front[k] && idx[l] == front[l];
        }
      }
    }
  }

  lemma {:induction false} IndexesAll(s: seq<string>, keep: string -> bool)
    ensures var idx := IndexesWhere(s, keep);
            forall i :: 0 <= i < |s| && i !in idx ==> !keep(s[i])
  {
    if |s| > 0 {
      var n := |s| - 1;
      var front := s[..n];
      IndexesAll(front, keep);
      forall i | 0 <= i < n && i !in IndexesWhere(s, keep) ensures !keep(s[i]) {
        assert front[i] == s[i];
      }
    }
  }

  /** Every input carries the code points of its file's base name. */
  lemma {:induction false} KeptInputsCodepoints<P>(filenames: seq<string>, picosvgOf: string -> Option<P>)
    ensures forall x :: x in KeptInputs(filenames, picosvgOf) ==>
              x.0 in filenames && Keeps(x.0, picosvgOf) && CodepointsFromFilename(Basename(x.0)) == Some(x.1)
  {
    if |filenames| > 0 {
      KeptInputsCodepoints(filenames[..|filenames| - 1], picosvgOf);
    }
  }

  // _layer

  /** The name of the layer for z-order idx. */
  function LayerName(idx: nat): (name: string)
    ensures |name| >= 2 && name[..2] == "z_" && name[2..] == Decimal(idx)
  {
    "z_" + Decimal(idx)
  }

  /** Distinct z-orders have distinct layers. */
  lemma LayerNamesDistinct(i: nat, j: nat)
    ensures LayerName(i) == LayerName(j) <==> i == j
  {
    if LayerName(i) == LayerName(j) {
      assert LayerName(i)[2..] == LayerName(j)[2..];
      DecimalInjective(i, j);
    }
  }

  /** _layer: the layer "z_<idx>", created only when the font does not have
      it yet, so a repeated call returns the same layer and changes nothing. */
  method Layer(ufo: Font, idx: nat) returns (name: string)
    modifies ufo
    ensures name == LayerName(idx) && name in ufo.layers
    ensures ufo.layers == old(ufo.layers) + (if name in old(ufo.layers) then [] else [name])
    ensures ufo.glyphs == old(ufo.glyphs) && ufo.glyphOrder == old(ufo.glyphOrder)
    ensures ufo.unitsPerEm == old(ufo.unitsPerEm)
  {
    name := "z_" + Decimal(idx);
    if name !in ufo.layers {
      var created := ufo.NewLayer(name);
      assert created.Pass?;
    }
  }

  /** Two calls for the same z-order: one layer, the same name. */
  method LayerTwice(ufo: Font, idx: nat) returns (first: string, second: string)
    modifies ufo
    ensures first == second == LayerName(idx)
    ensures ufo.layers == old(ufo.layers) + (if first in old(ufo.layers) then [] else [first])
  {
    first := Layer(ufo, idx);
    second := Layer(ufo, idx);
  }

  // _generate_fea

  /** Python's comparison of (codepoints, target) pairs. */
  function RgiLe(p: (seq<Codepoint>, string), q: (seq<Codepoint>, string)): bool
  {
    PairLe(p, q)
  }

  lemma RgiOrder()
    ensures TotalPreorder(RgiLe)
    ensures forall p, q :: RgiLe(p, q) && RgiLe(q, p) ==> p == q
  {
    PairOrder();
  }

  const Header: seq<string> := ["languagesystem DFLT dflt;", "languagesystem latn dflt;", "feature rlig {"]
  const Footer: seq<string> := ["} rlig;"]

  /** "  sub <names of the code points> by <target>;" */
  function RuleFor(rgi: seq<Codepoint>, target: string, digest: string -> string): string
    requires IsDigest(digest)
  {
    "  sub " + Join(Features.PartNames(rgi, digest), " ") + " by " + target + ";"
  }

  /** The pairs that get a rule: every one whose sequence is not a single
      code point, in order. */
  function Ligatures(s: seq<(seq<Codepoint>, string)>): (r: seq<(seq<Codepoint>, string)>)
    ensures forall p :: p in r <==> p in s && |p.0| != 1
  {
    if |s| == 0 then []
    else
      var last := s[|s| - 1];
      Ligatures(s[..|s| - 1]) + (if |last.0| != 1 then [last] else [])
  }

  function RuleLines(s: seq<(seq<Codepoint>, string)>, digest: string -> string): (r: seq<string>)
    requires IsDigest(digest)
    ensures |r| == |Ligatures(s)|
  {
    var ligs := Ligatures(s);
    seq(|ligs|, k requires 0 <= k < |ligs| => RuleFor(ligs[k].0, ligs[k].1, digest))
  }

  /** The lines of the feature text: the header, one rule per ligature of
      the sorted pairs, and the closing line. */
  function FeaLines(rgiSequences: seq<(seq<Codepoint>, string)>, digest: string -> string): seq<string>
    requires IsDigest(digest)
  {
    Header + RuleLines(Sort(rgiSequences, RgiLe), digest) + Footer
  }

  /** _generate_fea */
  method GenerateFea(rgiSequences: seq<(seq<Codepoint>, string)>, digest: string -> string) returns (r: string)
    requires IsDigest(digest)
    ensures r == Join(FeaLines(rgiSequences, digest), "\n")
  {
    var rules := Header;
    var sorted := Sort(rgiSequences, RgiLe);
    for i := 0 to |sorted|
      invariant rules == Header + RuleLines(sorted[..i], digest)
    {
      RuleLinesSnoc(sorted, i, digest);
      var rgi := sorted[i].0;
      var target := sorted[i].1;
      if |rgi| == 1 {
        continue;
      }
      var glyphs := Features.PartNames(rgi, digest);
      rules := rules + ["  sub " + Join(glyphs, " ") + " by " + target + ";"];
    }
    assert sorted[..|sorted|] == sorted;
    rules := rules + Footer;
    r := Join(rules, "\n");
  }

  /** One more pair: its rule is appended unless it is a single code point. */
  lemma RuleLinesSnoc(s: seq<(seq<Codepoint>, string)>, i: nat, digest: string -> string)
    requires IsDigest(digest) && i < |s|
    ensures RuleLines(s[..i + 1], digest) ==
            RuleLines(s[..i], digest) + (if |s[i].0| != 1 then [RuleFor(s[i].0, s[i].1, digest)] else [])
  {
    assert s[..i + 1][..i] == s[..i];
  }

  /** The ligatures of a sorted sequence are sorted. */
  lemma {:induction false} LigaturesSorted(s: seq<(seq<Codepoint>, string)>)
    requires SortedBy(s, RgiLe)
    ensures SortedBy(Ligatures(s), RgiLe)
  {
    if |s| > 0 {
      var front, last := s[..|s| - 1], s[|s| - 1];
      assert SortedBy(front, RgiLe);
      LigaturesSorted(front);
      var ligs := Ligatures(front);
      forall k | 0 <= k < |ligs| ensures RgiLe(ligs[k], last) {
        var j :| 0 <= j < |front| && front[j] == ligs[k];
      }
    }
  }

  /** The rules of _generate_fea: one per pair whose sequence is not a
      single code point, and no other, in sorted order, each naming the
      code points' glyphs and the pair's target. */
  lemma FeaRules(rgiSequences: seq<(seq<Codepoint>, string)>, digest: string -> string)
    requires IsDigest(digest)
    ensures var ligs := Ligatures(Sort(rgiSequences, RgiLe));
            && SortedBy(ligs, RgiLe)
            && (forall p :: p in ligs <==> p in rgiSequences && |p.0| != 1)
            && FeaShape(FeaLines(rgiSequences, digest), ligs, digest)
  {
    var sorted := Sort(rgiSequences, RgiLe);
    SortMembers(rgiSequences, RgiLe);
    RgiOrder();
    SortSorted(rgiSequences, RgiLe);
    LigaturesSorted(sorted);
    LinesShape(sorted, digest);
  }

  /** The header, then the rule of each ligature in turn, then the footer. */
  predicate FeaShape(lines: seq<string>, ligs: seq<(seq<Codepoint>, string)>, digest: string -> string)
    requires IsDigest(digest)
  {
    && |lines| == |Header| + |ligs| + |Footer|
    && lines[..|Header|] == Header && lines[|Header| + |ligs|..] == Footer
    && forall k :: 0 <= k < |ligs| ==> lines[|Header| + k] == RuleFor(ligs[k].0, ligs[k].1, digest)
  }

  lemma LinesShape(sorted: seq<(seq<Codepoint>, string)>, digest: string -> string)
    requires IsDigest(digest)
    ensures FeaShape(Header + RuleLines(sorted, digest) + Footer, Ligatures(sorted), digest)
  {
    var ligs := Ligatures(sorted);
    var rules := RuleLines(sorted, digest);
    var lines := Header + rules + Footer;
    assert |lines| == |Header| + |ligs| + |Footer|;
    assert lines[..|Header|] == Header;
    assert lines[|Header| + |ligs|..] == Footer;
    forall k | 0 <= k < |ligs| ensures lines[|Header| + k] == RuleFor(ligs[k].0, ligs[k].1, digest) {
      assert lines[|Header| + k] == rules[k];
    }
  }

  /** The feature text does not depend on the order of the pairs. */
  lemma FeaOrderFree(s: seq<(seq<Codepoint>, string)>, t: seq<(seq<Codepoint>, string)>, digest: string -> string)
    requires IsDigest(digest) && multiset(s) == multiset(t)
    ensures FeaLines(s, digest) == FeaLines(t, digest)
  {
    RgiOrder();
    SortOrderFree(s, t, RgiLe);
  }

  /** A rule for a target without a newline is one line. */
  lemma RuleOneLine(rgi: seq<Codepoint>, target: string, digest: string -> string)
    requires IsDigest(digest) && '\n' !in target
    ensures '\n' !in RuleFor(rgi, target, digest)
  {
    var names := Features.PartNames(rgi, digest);
    forall k | 0 <= k < |names| ensures '\n' !in names[k] {
      GlyphNameChars([rgi[k]], digest, '\n');
    }
    JoinContains(names, " ", '\n');
  }

  /** When no target contains a newline, splitting the text at newlines
      gives back its lines. */
  lemma FeaSplit(rgiSequences: seq<(seq<Codepoint>, string)>, digest: string -> string)
    requires IsDigest(digest) && forall k :: 0 <= k < |rgiSequences| ==> '\n' !in rgiSequences[k].1
    ensures Split(Join(FeaLines(rgiSequences, digest), "\n"), '\n') == FeaLines(rgiSequences, digest)
  {
    var sorted := Sort(rgiSequences, RgiLe);
    SortMembers(rgiSequences, RgiLe);
    var lines := FeaLines(rgiSequences, digest);
    var ligs := Ligatures(sorted);
    LinesShape(sorted, digest);
    FramingOneLine();
    forall i | 0 <= i < |lines| ensures '\n' !in lines[i] {
      if i < |Header| {
        assert lines[i] == lines[..|Header|][i];
      } else if i < |Header| + |ligs| {
        var p := ligs[i - |Header|];
        var j :| 0 <= j < |rgiSequences| && rgiSequences[j] == p;
        RuleOneLine(p.0, p.1, digest);
      } else {
        assert lines[i] == lines[|Header| + |ligs|..][i - |Header| - |ligs|];
      }
    }
    SplitJoin(lines, '\n');
  }

  /** The header and footer lines have no newline. */
  lemma FramingOneLine()
    ensures forall i :: 0 <= i < |Header| ==> '\n' !in Header[i]
    ensures forall i :: 0 <= i < |Footer| ==> '\n' !in Footer[i]
  {
  }
}
