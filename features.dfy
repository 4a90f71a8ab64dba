// The ligature feature that maps each multi-codepoint sequence to its glyph
// (src/nanoemoji/features.py).
module Features {
  import opened Wrappers
  import opened Text
  import opened Sorting
  import opened Orders
  import opened GlyphNames

  const DefaultGsubFeatureTag: string := "ccmp"

  function CodepointLt(a: Codepoint, b: Codepoint): bool { a < b }

  /** Python's comparison of codepoint tuples. */
  function CodepointsLe(a: seq<Codepoint>, b: seq<Codepoint>): bool { LexLe(a, b, CodepointLt) }

  lemma CodepointsOrder()
    ensures TotalPreorder(CodepointsLe)
    ensures forall a, b :: CodepointsLe(a, b) && CodepointsLe(b, a) ==> a == b
  {
    LexTotal(CodepointLt);
  }

  function Header(tag: string): seq<string>
  {
    ["languagesystem DFLT dflt;", "languagesystem latn dflt;", "", "feature " + tag + " {"]
  }

  function Footer(tag: string): seq<string>
  {
    ["} " + tag + ";", ""]
  }

  /** glyph_name of each code point of the sequence on its own. */
  function PartNames(rgi: seq<Codepoint>, digest: string -> string): (r: seq<string>)
    requires IsDigest(digest)
    ensures |r| == |rgi|
    ensures forall k :: 0 <= k < |rgi| ==> r[k] == GlyphName([rgi[k]], digest).value
  {
    seq(|rgi|, k requires 0 <= k < |rgi| => GlyphNameOf(Single(rgi[k]), digest).value)
  }

  /** "  sub <part names> by <ligature name>;"; naming an empty sequence
      raises IndexError. */
  function Rule(rgi: seq<Codepoint>, digest: string -> string): (r: Result<string>)
    requires IsDigest(digest)
    ensures r.Err? <==> |rgi| == 0
  {
    var target :- GlyphName(rgi, digest);
    Ok("  sub " + Join(PartNames(rgi, digest), " ") + " by " + target + ";")
  }

  /** The rules for the sequences in the order given, skipping single code
      points: what the loop of generate_fea appends. */
  function Rules(sorted: seq<seq<Codepoint>>, digest: string -> string): (r: Result<seq<string>>)
    requires IsDigest(digest)
  {
    if |sorted| == 0 then Ok([])
    else
      var front :- Rules(sorted[..|sorted| - 1], digest);
      var rgi := sorted[|sorted| - 1];
      if |rgi| == 1 then Ok(front)
      else
        var rule :- Rule(rgi, digest);
        Ok(front + [rule])
  }

  /** generate_fea: the header, a rule per multi-codepoint sequence in
      sorted order, and the closing lines, joined by newlines. */
  function FeaText(rgiSequences: seq<seq<Codepoint>>, tag: string, digest: string -> string): Result<string>
    requires IsDigest(digest)
  {
    var rules :- Rules(Sort(rgiSequences, CodepointsLe), digest);
    Ok(Join(Header(tag) + rules + Footer(tag), "\n"))
  }

  method GenerateFea(rgiSequences: seq<seq<Codepoint>>, tag: string, digest: string -> string)
    returns (r: Result<string>)
    requires IsDigest(digest)
    ensures r == FeaText(rgiSequences, tag, digest)
  {
    var rules := Header(tag);
    var sorted := Sort(rgiSequences, CodepointsLe);
    var i := 0;
    while i < |sorted|
      invariant 0 <= i <= |sorted|
      invariant Rules(sorted[..i], digest).Ok?
      invariant rules == Header(tag) + Rules(sorted[..i], digest).value
    {
      var rgi := sorted[i];
      RulesSnoc(sorted, i, digest);
      if |rgi| == 1 {
        i := i + 1;
        continue;
      }
      var glyphs := PartNames(rgi, digest);
      var target := GlyphName(rgi, digest);
      if target.Err? {
        assert Rule(rgi, digest) == Err(target.error);
        RulesStopAtError(sorted, i + 1, digest);
        return Err(target.error);
      }
      assert Rule(rgi, digest) == Ok("  sub " + Join(glyphs, " ") + " by " + target.value + ";");
      rules := rules + ["  sub " + Join(glyphs, " ") + " by " + target.value + ";"];
      i := i + 1;
    }
    assert sorted[..i] == sorted;
    rules := rules + Footer(tag);
    r := Ok(Join(rules, "\n"));
  }

  /** One more sequence: skipped when it is a single code point, else its
      rule is appended or its error is the result. */
  lemma RulesSnoc(s: seq<seq<Codepoint>>, i: nat, digest: string -> string)
    requires IsDigest(digest) && i < |s| && Rules(s[..i], digest).Ok?
    ensures |s[i]| == 1 ==> Rules(s[..i + 1], digest) == Rules(s[..i], digest)
    ensures |s[i]| != 1 && Rule(s[i], digest).Err? ==> Rules(s[..i + 1], digest) == Err(Rule(s[i], digest).error)
    ensures |s[i]| != 1 && Rule(s[i], digest).Ok? ==>
              Rules(s[..i + 1], digest) == Ok(Rules(s[..i], digest).value + [Rule(s[i], digest).value])
  {
    assert s[..i + 1][..i] == s[..i] && s[..i + 1][i] == s[i];
  }

  /** Once a prefix fails, the whole sequence fails the same way. */
  lemma {:induction false} RulesStopAtError(s: seq<seq<Codepoint>>, n: nat, digest: string -> string)
    requires IsDigest(digest) && n <= |s| && Rules(s[..n], digest).Err?
    ensures Rules(s, digest) == Rules(s[..n], digest)
    decreases |s| - n
  {
    if n < |s| {
      var t := s[..n + 1];
      assert t[..n] == s[..n];
      RulesStopAtError(s, n + 1, digest);
    } else {
      assert s[..n] == s;
    }
  }

  /** The rules fail exactly when one of the sequences is empty. */
  lemma {:induction false} RulesFail(s: seq<seq<Codepoint>>, digest: string -> string)
    requires IsDigest(digest)
    ensures Rules(s, digest).Err? <==> [] in s
  {
    if |s| > 0 {
      var front := s[..|s| - 1];
      RulesFail(front, digest);
      assert s == front + [s[|s| - 1]];
    }
  }

  /** generate_fea raises exactly when it is given an empty sequence. */
  lemma FeaFails(rgiSequences: seq<seq<Codepoint>>, tag: string, digest: string -> string)
    requires IsDigest(digest)
    ensures FeaText(rgiSequences, tag, digest).Err? <==> [] in rgiSequences
  {
    RulesFail(Sort(rgiSequences, CodepointsLe), digest);
    SortMembers(rgiSequences, CodepointsLe);
  }

  /** The sequences that get a rule: those of more (or fewer) than one code
      point, in order. */
  function Ligatures(s: seq<seq<Codepoint>>): (r: seq<seq<Codepoint>>)
    ensures forall x :: x in r <==> x in s && |x| != 1
  {
    if |s| == 0 then []
    else (if |s[0]| != 1 then [s[0]] else []) + Ligatures(s[1..])
  }

  lemma {:induction false} LigaturesAppend(s: seq<seq<Codepoint>>, x: seq<Codepoint>)
    ensures Ligatures(s + [x]) == Ligatures(s) + (if |x| != 1 then [x] else [])
  {
    if |s| > 0 {
      assert (s + [x])[1..] == s[1..] + [x];
      LigaturesAppend(s[1..], x);
    } else {
      assert [x][1..] == [];
    }
  }

  /** Without empty sequences, the rules are one per ligature, in order. */
  lemma {:induction false} RulesAreLigatures(s: seq<seq<Codepoint>>, digest: string -> string)
    requires IsDigest(digest) && [] !in s
    ensures Rules(s, digest).Ok?
    ensures |Rules(s, digest).value| == |Ligatures(s)|
    ensures forall k :: 0 <= k < |Ligatures(s)| ==> Rules(s, digest).value[k] == Rule(Ligatures(s)[k], digest).value
  {
    if |s| > 0 {
      var front, x := s[..|s| - 1], s[|s| - 1];
      assert s == front + [x];
      RulesAreLigatures(front, digest);
      LigaturesAppend(front, x);
    }
  }

  /** The ligatures of a sorted sequence are sorted. */
  lemma {:induction false} LigaturesSorted(s: seq<seq<Codepoint>>)
    requires SortedBy(s, CodepointsLe)
    ensures SortedBy(Ligatures(s), CodepointsLe)
  {
    if |s| > 0 {
      SortedTail(s, CodepointsLe);
      LigaturesSorted(s[1..]);
      forall y | y in Ligatures(s[1..]) ensures CodepointsLe(s[0], y) {
        var j :| 0 <= j < |s[1..]| && s[1..][j] == y;
        assert s[j + 1] == y;
      }
    }
  }

  /** The rules of generate_fea come one per ligature, in sorted order. */
  lemma FeaRules(rgiSequences: seq<seq<Codepoint>>, digest: string -> string)
    requires IsDigest(digest) && [] !in rgiSequences
    ensures var sorted := Sort(rgiSequences, CodepointsLe);
            var rules := Rules(sorted, digest);
            rules.Ok? && |rules.value| == |Ligatures(sorted)| &&
            SortedBy(Ligatures(sorted), CodepointsLe) &&
            (forall x :: x in Ligatures(sorted) <==> x in rgiSequences && |x| != 1) &&
            forall k :: 0 <= k < |rules.value| ==> rules.value[k] == Rule(Ligatures(sorted)[k], digest).value
  {
    var sorted := Sort(rgiSequences, CodepointsLe);
    SortMembers(rgiSequences, CodepointsLe);
    CodepointsOrder();
    SortSorted(rgiSequences, CodepointsLe);
    LigaturesSorted(sorted);
    RulesAreLigatures(sorted, digest);
  }

  /** The feature text does not depend on the order of the input sequences. */
  lemma FeaOrderFree(s: seq<seq<Codepoint>>, t: seq<seq<Codepoint>>, tag: string, digest: string -> string)
    requires IsDigest(digest) && multiset(s) == multiset(t)
    ensures FeaText(s, tag, digest) == FeaText(t, tag, digest)
  {
    CodepointsOrder();
    SortOrderFree(s, t, CodepointsLe);
  }

  /** A rule is one line. */
  lemma RuleOneLine(rgi: seq<Codepoint>, digest: string -> string)
    requires IsDigest(digest) && |rgi| > 0
    ensures '\n' !in Rule(rgi, digest).value
  {
    var names := PartNames(rgi, digest);
    forall k | 0 <= k < |names| ensures '\n' !in names[k] {
      GlyphNameChars([rgi[k]], digest, '\n');
    }
    JoinContains(names, " ", '\n');
    GlyphNameChars(rgi, digest, '\n');
  }

  lemma {:induction false} RulesOneLine(s: seq<seq<Codepoint>>, digest: string -> string)
    requires IsDigest(digest) && Rules(s, digest).Ok?
    ensures forall k :: 0 <= k < |Rules(s, digest).value| ==> '\n' !in Rules(s, digest).value[k]
  {
    if |s| > 0 {
      var front, x := s[..|s| - 1], s[|s| - 1];
      RulesOneLine(front, digest);
      if |x| != 1 {
        RuleOneLine(x, digest);
      }
    }
  }

  /** Splitting the text at newlines gives back the header, the rules and
      the closing lines, provided the tag is one line. */
  lemma FeaLines(rgiSequences: seq<seq<Codepoint>>, tag: string, digest: string -> string)
    requires IsDigest(digest) && '\n' !in tag && FeaText(rgiSequences, tag, digest).Ok?
    ensures var rules := Rules(Sort(rgiSequences, CodepointsLe), digest);
            rules.Ok? &&
            Split(FeaText(rgiSequences, tag, digest).value, '\n') == Header(tag) + rules.value + Footer(tag)
  {
    var rules := Rules(Sort(rgiSequences, CodepointsLe), digest).value;
    RulesOneLine(Sort(rgiSequences, CodepointsLe), digest);
    FrameOneLine(tag);
    OneLinesAppend(Header(tag), rules);
    OneLinesAppend(Header(tag) + rules, Footer(tag));
    SplitJoin(Header(tag) + rules + Footer(tag), '\n');
  }

  /** No line contains a newline. */
  predicate OneLines(lines: seq<string>)
  {
    forall k :: 0 <= k < |lines| ==> '\n' !in lines[k]
  }

  lemma OneLinesAppend(a: seq<string>, b: seq<string>)
    requires OneLines(a) && OneLines(b)
    ensures OneLines(a + b)
  {
    forall k | 0 <= k < |a + b| ensures '\n' !in (a + b)[k] {
      if k >= |a| {
        assert (a + b)[k] == b[k - |a|];
      }
    }
  }

  lemma FrameOneLine(tag: string)
    requires '\n' !in tag
    ensures OneLines(Header(tag)) && OneLines(Footer(tag))
  {
    var open, close := "feature " + tag + " {", "} " + tag + ";";
    assert forall k :: 0 <= k < |open| ==> open[k] == if k < 8 then "feature "[k] else if k < 8 + |tag| then tag[k - 8] else " {"[k - 8 - |tag|];
    assert forall k :: 0 <= k < |close| ==> close[k] == if k < 2 then "} "[k] else if k < 2 + |tag| then tag[k - 2] else ";"[k - 2 - |tag|];
  }

  /** The rule for a pair of code points. */
  lemma PairRule(a: Codepoint, b: Codepoint, digest: string -> string)
    requires IsDigest(digest)
    ensures Rule([a, b], digest) == Ok("  sub " + GlyphName([a], digest).value + " " + GlyphName([b], digest).value
                                         + " by " + GlyphName([a, b], digest).value + ";")
  {
    var names := PartNames([a, b], digest);
    assert names == [GlyphName([a], digest).value, GlyphName([b], digest).value];
    assert names[1..] == [GlyphName([b], digest).value];
    var x, y := GlyphName([a], digest).value, GlyphName([b], digest).value;
    assert Join(names, " ") == x + " " + y;
    assert "  sub " + (x + " " + y) == "  sub " + x + " " + y;
  }
}
