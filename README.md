# nanoemoji core, modelled in Dafny

nanoemoji compiles a directory of emoji SVG (or PNG) files into a colour
font carrying COLR, SVG, CBDT or sbix tables. Most of the program is glue
around fontTools, ufoLib2, ufo2ft, picosvg and lxml. What this project
models is the discrete logic underneath that glue:

- naming and encoding: glyph names for codepoint sequences, codepoints from
  file names, the codepoint and glyph map CSV rows and their parsers, the
  ligature feature file;
- grouping and ordering: the union-find that groups glyphs sharing a shape,
  the SVG reuse groups and the consecutive glyph ids they receive, the
  glyph-order splice when an SVG table is copied, the sort of coverage
  tables by glyph id, and the runs and offsets of the CBDT bitmap tables;
- graph walks: the COLR version 1 paint graph traversal, the breadth- and
  depth-first walks over OpenType table data, the variable-font overhead
  estimate and the per-type node counters of the glyph graph writer;
- caches keyed by a normalised path: the glyph reuse cache, the reusable
  parts store and the search for a free glyph name;
- validators: the font configuration and its loading rules, the PNG
  signature, the fixed-point range checks, the metric nudge and record
  sizes of the bitmap tables, the choice of vector colour table;
- the `closed` state machine that replays an SVG path onto a pen.

Each Python module of the core is one Dafny module of the same name.
Objects that the source updates in place (the disjoint set, the reuse
cache, the parts store, the path pen, the glyph graph, the fonts whose
glyph order and tables are overwritten, the coverage lists, the UFO) are
classes whose methods state their whole new state; pure code is
functions; loops are methods with loop invariants, proved against
specification functions whose properties are lemmas. Python exceptions
are the `ErrorKind` values of `Wrappers` carried in a `Result`.

Code the model cannot see is a parameter: picosvg's `normalize` and
`affine_between` and its SVG parsing (which gives the paths or the
exception it lets through, such as lxml's XMLSyntaxError, a SyntaxError), the SHA-1/base32 digest of long
glyph names, fontTools' `getGlyphID`/`getGlyphName`, `json.loads`, the
`int()`/`float()` parsers, the paint and colour-stop builders of the glyph
graph writer, PNG size decoding, and file-system globbing and `Path.resolve`. ufo2ft's
compilers and the colour format generators are recorded as the step that
was taken rather than executed.

Two details of `src/nanoemoji/disjoint_set.py` are modelled as written:
`find` stores each parent link back unchanged, so it compresses no path
(line 27), and `union` compares the ranks of its arguments, not of their
roots (line 36). The model proves that the structure still partitions its
elements and that `find` and `union` behave as a union-find does.

Where verifying showed the code departing from what it evidently
intends, "## Findings" records it: an as-written member exhibits the
input that shows it, and a corrected member carries the intended
property. The operations built on top use the corrected member; each one
that does is named under "## Left out".

## Model

| member | source | states |
|---|---|---|
| DisjointSets.DisjointSet.constructor | src/nanoemoji/disjoint_set.py:10-12 | a new structure has no elements: empty parent and rank maps |
| DisjointSets.DisjointSet.MakeSet | src/nanoemoji/disjoint_set.py:14-18 | an absent element becomes its own parent with rank 0; a present one changes nothing; the forest invariant is kept |
| DisjointSets.MakeSetPresent | src/nanoemoji/disjoint_set.py:14-16 | make_set of an element already present leaves the dictionary as it was |
| DisjointSets.MakeSetStep | src/nanoemoji/disjoint_set.py:14-18 | make_set keeps the forest invariant and every existing element's representative |
| DisjointSets.RootOf | src/nanoemoji/disjoint_set.py:21-28 | following parent links ends at an element that is its own parent |
| DisjointSets.RootOfStep | src/nanoemoji/disjoint_set.py:24-26 | one step of the find loop keeps the representative |
| DisjointSets.DisjointSet.Find | src/nanoemoji/disjoint_set.py:21-28 | adds the element if absent, returns its representative, and leaves every parent link as it was, because line 27 stores each link back unchanged |
| DisjointSets.FindIdempotent | src/nanoemoji/disjoint_set.py:21-28 | find(find(e)) == find(e) |
| DisjointSets.DisjointSet.Union | src/nanoemoji/disjoint_set.py:31-41 | afterwards x and y share a representative; the sets of x and y are merged and every other set is left alone; the new state is the union step on the old one |
| DisjointSets.UnionCorrect | src/nanoemoji/disjoint_set.py:31-41 | the union step keeps the invariant and merges exactly the sets of x and y |
| DisjointSets.UnionJoined | src/nanoemoji/disjoint_set.py:34-35 | a union of elements that already share a representative changes nothing |
| DisjointSets.UnionOneLink | src/nanoemoji/disjoint_set.py:36-41 | a union of two separate sets changes exactly one parent link, from one representative to the other; the rank test compares the arguments' ranks, as written |
| DisjointSets.RootOfLink | src/nanoemoji/disjoint_set.py:39 | linking one root under another changes the representative of exactly the members of the first root's set |
| DisjointSets.LinkStep | src/nanoemoji/disjoint_set.py:39-41 | the link keeps the forest and merges the sets of x and y |
| DisjointSets.DisjointSet.Sets | src/nanoemoji/disjoint_set.py:43-47 | returns the classes of the partition and changes nothing |
| DisjointSets.GroupStep | src/nanoemoji/disjoint_set.py:45-46 | recording one element adds it to the set of its representative |
| DisjointSets.GroupsDone | src/nanoemoji/disjoint_set.py:44-47 | once every element is seen, the collected sets are exactly the classes |
| DisjointSets.ClassesPartition | src/nanoemoji/disjoint_set.py:43-47 | every element lies in exactly one non-empty class, and two elements share a class iff they share a representative |
| DisjointSets.SortedTuple | src/nanoemoji/disjoint_set.py:51 | a set becomes a strictly sorted tuple with the same members |
| DisjointSets.DisjointSet.Sorted | src/nanoemoji/disjoint_set.py:49-51 | the partition as strictly sorted tuples in strictly sorted (lexicographic) order, with the classes as members; the state is unchanged |
| GlyphNames.NameFacts | src/nanoemoji/glyph.py:32-36 | a part name is non-empty and has no "_"; an ASCII letter is named by that letter, any other code point by hexadecimal that reads back to it |
| GlyphNames.NamesCollide | src/nanoemoji/glyph.py:32-36 | part names are not unique: U+000A and "a" are both named "a" |
| GlyphNames.GlyphName | src/nanoemoji/glyph.py:39-54 | an empty sequence is an IndexError (no first character); otherwise the name starts with an ASCII letter |
| GlyphNames.GlyphNameOf | src/nanoemoji/glyph.py:39-43 | a bare code point is wrapped in a list first; only an empty sequence fails |
| GlyphNames.SingleAsTuple | src/nanoemoji/glyph.py:40-43 | a bare code point is named like the one-element tuple holding it |
| GlyphNames.NonEmptyJoin | src/nanoemoji/glyph.py:44 | the joined name is empty exactly when there are no code points |
| GlyphNames.PartsInOrder | src/nanoemoji/glyph.py:44 | splitting the joined name on "_" gives back the part names in order |
| GlyphNames.ShortName | src/nanoemoji/glyph.py:44-53 | a joined name of at most 63 characters is kept, with "g_" in front exactly when it does not start with a letter |
| GlyphNames.LongName | src/nanoemoji/glyph.py:45-53 | a longer name is replaced by its digest before the prefix rule, so the result has 32 or 34 characters |
| GlyphNames.GlyphNameChars | src/nanoemoji/glyph.py:32-54 | a glyph name holds only letters, digits and "_" |
| GlyphNames.ExampleSkinTone | src/nanoemoji/glyph.py:39-54 | (0x1F64C, 0x1F3FB) is named "g_1f64c_1f3fb" |
| GlyphNames.ExampleLigature | src/nanoemoji/glyph.py:32-44 | (0x66, 0x69) is named "f_i" |
| Codepoints.HexRunLength | src/nanoemoji/codepoints.py:23 | the greedy `[0-9a-fA-F]{1,}` run: all digits, maximal, non-empty when a digit starts the text |
| Codepoints.Runs | src/nanoemoji/codepoints.py:23 | the captures of the repeated group `(?:[-_]?(hex+))+`: each non-empty hexadecimal; none exactly when no digit, or separator and digit, starts the text |
| Codepoints.Search | src/nanoemoji/codepoints.py:23 | the leftmost match once the `^emoji_u` prefix no longer applies: no match exactly when the text has no hexadecimal digit |
| Codepoints.Captures | src/nanoemoji/codepoints.py:23 | the captures of regex.search, including the optional prefix and its backtracking: none exactly when there is no hexadecimal digit |
| Codepoints.FromFilename | src/nanoemoji/codepoints.py:22-26 | ValueError exactly when the name has no hexadecimal digit; otherwise a non-empty tuple of code points |
| Codepoints.PlainName | src/nanoemoji/codepoints.py:22-26 | a name such as "1f9d1-200d-1f91d.svg" gives the values of its hexadecimal parts |
| Codepoints.NotoName | src/nanoemoji/codepoints.py:22-26 | a name such as "emoji_u1f385_1f3fb.svg" skips the prefix and gives the values of the parts |
| Codepoints.PrefixDropped | src/nanoemoji/codepoints.py:23 | when no digit follows "emoji_u" the prefix is given up and the match starts at the "e": code point 0xE |
| Codepoints.RunsOfJoin | src/nanoemoji/codepoints.py:23 | hexadecimal parts joined by a separator are captured one by one |
| Codepoints.Hex4Parses | src/nanoemoji/codepoints.py:31-37 | int(p, 16) reads a "%04x" field back to its code point |
| Codepoints.HexDigitsParse | src/nanoemoji/codepoints.py:37 | int(p, 16) of a string of hexadecimal digits is their value |
| Codepoints.WithoutUnderscores | src/nanoemoji/codepoints.py:37 | the underscores int() allows between digits are dropped |
| Codepoints.ParseFields | src/nanoemoji/codepoints.py:37 | ValueError as soon as a field is not a base-16 number; otherwise one value per field |
| Codepoints.CsvLineFails | src/nanoemoji/codepoints.py:29-32 | csv_line fails exactly when from_filename fails on the base name |
| Codepoints.CsvRoundTrip | src/nanoemoji/codepoints.py:29-37 | parse_csv_line(csv_line(f)) is the base name of f and the code points of that base name, when the base name has no comma |
| Features.CodepointsOrder | src/nanoemoji/features.py:34 | Python's comparison of code point tuples is a total order; sorted() uses it |
| Features.Rule | src/nanoemoji/features.py:37-39 | "  sub <part names> by <sequence name>;"; naming an empty sequence is an IndexError |
| Features.PairRule | src/nanoemoji/features.py:37-39 | the rule of a pair substitutes the two code points' names by the pair's name |
| Features.GenerateFea | src/nanoemoji/features.py:26-43 | the method's loop builds exactly the text: header lines, the rules of the sorted sequences, the closing lines, joined by newlines |
| Features.RulesSnoc | src/nanoemoji/features.py:34-39 | one more sequence: a single code point is skipped, otherwise its rule is appended or its error is the result |
| Features.RulesFail | src/nanoemoji/features.py:34-39 | the rules fail exactly when one of the sequences is empty |
| Features.FeaFails | src/nanoemoji/features.py:26-43 | generate_fea raises exactly when given an empty sequence |
| Features.Ligatures | src/nanoemoji/features.py:35-36 | the sequences that get a rule are exactly those whose length is not one |
| Features.RulesAreLigatures | src/nanoemoji/features.py:34-39 | without empty sequences there is one rule per such sequence, in order, and each is that sequence's rule |
| Features.LigaturesSorted | src/nanoemoji/features.py:34-36 | skipping single code points keeps the sorted order |
| Features.FeaRules | src/nanoemoji/features.py:34-39 | the rules come one per multi-code-point sequence, duplicates kept, in sorted order, each substituting the part names by the sequence's name |
| Features.FeaOrderFree | src/nanoemoji/features.py:34 | the text depends only on the multiset of input sequences, not their order |
| Features.RuleOneLine | src/nanoemoji/features.py:39 | a rule has no newline |
| Features.FeaLines | src/nanoemoji/features.py:28-43 | split at newlines, the text is the two languagesystem lines, a blank line, "feature <tag> {", the rules, "} <tag>;" and a final empty line |
| GlyphMaps.NewGlyphMapping | src/nanoemoji/glyphmap.py:22-32 | constructing a mapping is a ValueError exactly when neither an SVG nor a bitmap file is given; otherwise the mapping holds the given fields |
| GlyphMaps.Format04x | src/nanoemoji/glyphmap.py:37 | f"{c:04x}": at least four characters, the plain "%04x" form for non-negative values, a minus sign then digits for negative ones |
| GlyphMaps.CsvRow | src/nanoemoji/glyphmap.py:35-39 | the fields of a row: SVG file, bitmap file (empty for none) and glyph name, then one "%04x" field per code point, or one empty field when there are none |
| GlyphMaps.ReadRow | src/nanoemoji/glyphmap.py:49 | csv.reader with skipinitialspace on a line without quotes: one field per comma-separated piece, leading spaces dropped |
| GlyphMaps.PathOf | src/nanoemoji/glyphmap.py:56-57 | an empty file name field loads as None |
| GlyphMaps.ParseRow | src/nanoemoji/glyphmap.py:51-63 | a row of fewer than three fields is a ValueError, as is a row with neither file; an empty or [""] code point tail loads as () |
| GlyphMaps.LoadFrom | src/nanoemoji/glyphmap.py:47-65 | the method's loop returns the first row's error, or every row's mapping in order |
| GlyphMaps.LoadRows | src/nanoemoji/glyphmap.py:47-65 | loading succeeds exactly when every row parses, and then gives one mapping per row, in row order |
| GlyphMaps.FieldParses | src/nanoemoji/glyphmap.py:37-60 | int(p, 16) reads f"{c:04x}" back, negative values included |
| GlyphMaps.NegativeParses | src/nanoemoji/glyphmap.py:60 | int("-" + digits, 16) is minus their value |
| GlyphMaps.ReadBack | src/nanoemoji/glyphmap.py:40-49 | the reader gives back the fields csv_line wrote, for fields without commas, quotes or leading spaces |
| GlyphMaps.TailParses | src/nanoemoji/glyphmap.py:36-62 | the code point fields written parse back to the code points, and an empty tuple is written as [""] and read back as () |
| GlyphMaps.RowRoundTrip | src/nanoemoji/glyphmap.py:34-63 | reading back the line csv_line writes gives the same mapping |
| GlyphMaps.LoadRoundTrip | src/nanoemoji/glyphmap.py:34-65 | load_from over the lines csv_line writes gives back the mappings, one per line, in order |
| Fixed.All | src/nanoemoji/fixed.py:31-44 | all(p(v) for v in values) holds exactly when p holds of every value |
| Fixed.AllAppend | src/nanoemoji/fixed.py:31-44 | every predicate holds of no arguments, and of a + b exactly when it holds of a and of b |
| Fixed.Ranges | src/nanoemoji/fixed.py:18-40 | f2dot14_safe(v) iff -2 <= v <= 32767/16384; fixed_safe(v) iff -32768 <= v <= (2^31-1)/65536; int16_safe(v) iff v is integral and -32768 <= v <= 32767 |
| Fixed.RotationRange | src/nanoemoji/fixed.py:43-44 | f2dot14_rotation_safe(vs) iff f2dot14_safe of the values divided by 180, i.e. from -360 up to 180 * 32767/16384 degrees |
| Fixed.Int16Examples | src/nanoemoji/fixed.py:31-32 | 1.5 and 32768 are not int16-safe; 32767 and -32768 are |
| Png.Header | src/nanoemoji/png.py:31 | self[:8] is the first eight bytes, or all of shorter data |
| Png.Check | src/nanoemoji/png.py:27-33 | the data is accepted unchanged exactly when it opens with the eight signature bytes 137 80 78 71 13 10 26 10; otherwise ValueError |
| Png.ShortRejected | src/nanoemoji/png.py:31-33 | data shorter than eight bytes is rejected |
| Png.SignatureAccepted | src/nanoemoji/png.py:29-35 | whatever follows the signature is accepted as it is |
| Png.XmlRejected | src/nanoemoji/png.py:31-33 | the start of an XML document is rejected |
| Png.NewPng | src/nanoemoji/png.py:29-35 | PNG(data) is a new object holding the data with no cached size, or the ValueError of a bad signature |
| Png.PngData.Size | src/nanoemoji/png.py:37-42 | the first call decodes and caches the size; later calls answer from the cache |
| BitmapTables.NudgeIntoRange | src/nanoemoji/bitmap_tables.py:58-65 | a value in range is returned unchanged; one at most max_move above the top or below the bottom becomes that end; anything else is unchanged; the result is never more than max_move away |
| BitmapTables.NudgeIdempotent | src/nanoemoji/bitmap_tables.py:58-65 | nudging twice is nudging once |
| BitmapTables.NudgeExamples | src/nanoemoji/bitmap_tables.py:45-65 | in the int8 range with the default move of one, 128 becomes 127, -129 becomes -128 and 129 stays |
| BitmapTables.CbdtRecordSize | src/nanoemoji/bitmap_tables.py:137-139 | format 17 records take 9 + len(data) bytes; any other format fails the assertion |
| BitmapTables.CbdtBitmapdataOffsets | src/nanoemoji/bitmap_tables.py:142-152 | one (start, end) pair per glyph: the first starts at initial_offset, each end is the next start, and each span is that glyph's record size; an unknown format fails the assertion when there is a glyph |
| BitmapTables.RaiseIfTooBigForCbdt | src/nanoemoji/bitmap_tables.py:277-287 | raises ValueError exactly when some bitmap's larger dimension is outside 0..255 |
| BitmapTables.TooBigListed | src/nanoemoji/bitmap_tables.py:278-286 | the names in the message are sorted and are exactly those of the bitmaps that are too big |
| BitmapTables.RunLength | src/nanoemoji/bitmap_tables.py:316-322 | the front run of consecutive gids: non-empty, consecutive, and not extendable |
| BitmapTables.NextRunLength | src/nanoemoji/bitmap_tables.py:316-322 | the inner while loop stops at the end of the front run of consecutive gids |
| BitmapTables.RunLengthUnique | src/nanoemoji/bitmap_tables.py:316-322 | the front run is the only maximal consecutive prefix |
| BitmapTables.SplitRunsIsRunSplit | src/nanoemoji/bitmap_tables.py:314-324 | the runs cut by the outer loop are consecutive, maximal, and concatenate to the input |
| BitmapTables.RunSplitUnique | src/nanoemoji/bitmap_tables.py:314-324 | any cut into maximal consecutive runs is the one the loop makes |
| BitmapTables.RunSpan | src/nanoemoji/bitmap_tables.py:208-211 | _make_cbdt_strike's assertion holds for every run: its gids span exactly its length |
| BitmapTables.MakeCbdtStrike | src/nanoemoji/bitmap_tables.py:202-213 | fails the `only` assertion exactly when the run's bitmaps differ in height; otherwise the data offset moves on by the run's record bytes |
| BitmapTables.MakeStrikes | src/nanoemoji/bitmap_tables.py:312-331 | the strike loop over gid-sorted bitmaps: the maximal runs with offsets starting at the CBDT header size of 4, each right after the previous run's records; an AssertionError exactly when some run mixes heights |
| BitmapTables.MakeCbdtLayout | src/nanoemoji/bitmap_tables.py:290-331 | ValueError when some bitmap is too big, else AssertionError when a run mixes heights, else the runs of the gid-sorted bitmaps and their offsets |
| BitmapTables.LayoutRuns | src/nanoemoji/bitmap_tables.py:299-324 | the runs are maximal consecutive runs whose concatenation is sorted by gid and a permutation of the input |
| BitmapTables.OffsetsIncrease | src/nanoemoji/bitmap_tables.py:312-328 | successive strikes start at strictly increasing offsets, none below 4 |
| BitmapTables.RunBytesAtLeast | src/nanoemoji/bitmap_tables.py:137-139 | a run's records take at least 9 bytes per glyph |
| ReorderGlyphs.SortByGid | src/nanoemoji/reorder_glyphs.py:30-45 | with a non-empty parallel list both lists are replaced in place by the two halves of the pairs sorted by glyph id; otherwise only the glyphs are sorted; list objects are updated, not replaced |
| ReorderGlyphs.SortedGlyphsProperties | src/nanoemoji/reorder_glyphs.py:43 | sorting the glyphs: ordered by non-decreasing id, a permutation of the input, and stable among equal ids |
| ReorderGlyphs.SortedPairsProperties | src/nanoemoji/reorder_glyphs.py:35-41 | sorting pairs keeps each entry beside its glyph: the result is a permutation of the zipped pairs, ordered by glyph id |
| ReorderGlyphs.LockstepOrder | src/nanoemoji/reorder_glyphs.py:35-45 | when the lists have the same length, the lockstep sort puts the glyphs in exactly the order the plain sort does |
| ReorderGlyphs.SortEach | src/nanoemoji/reorder_glyphs.py:83-84 | each coverage of a list is sorted on its own, without a parallel list |
| ReorderGlyphs.Apply | src/nanoemoji/reorder_glyphs.py:63-84 | an AssertionError, changing nothing, when a parallel list is not a list or has a different length, or when a list of coverages comes with a parallel list attribute; otherwise the single coverage is sorted in lockstep with its parallel list or each listed coverage is sorted |
| GlueTogether.KeepMembers | src/nanoemoji/glue_together.py:69 | the filter keeps exactly the glyphs on the chosen side of the SVG name set |
| GlueTogether.Pad | src/nanoemoji/glue_together.py:74-75 | moving fillers until the order reaches a length: IndexError exactly when the fillers run out (pop(0) on an empty list); nothing is lost or reordered |
| GlueTogether.SpliceGlyphOrder | src/nanoemoji/glue_together.py:67-78 | the method's loops compute exactly the new glyph order of the splice, or its IndexError |
| GlueTogether.CopySvg | src/nanoemoji/glue_together.py:58-81 | a donor without an SVG table is a KeyError with the target unchanged; otherwise the target takes the new glyph order and the donor's SVG table, or is left alone on IndexError; nothing else changes |
| GlueTogether.SpliceOutside | src/nanoemoji/glue_together.py:69-78 | the non-SVG glyphs of the new order are the fillers, in their old relative order |
| GlueTogether.SpliceInside | src/nanoemoji/glue_together.py:72-76 | the SVG glyphs of the new order are the donor's, in docList order |
| GlueTogether.NewOrderContents | src/nanoemoji/glue_together.py:67-78 | the new order holds every non-SVG target glyph, in its old relative order, and the donor's SVG glyphs in docList order |
| GlueTogether.SpliceKeepsGids | src/nanoemoji/glue_together.py:72-76 | with strictly increasing donor gids and enough fillers, each SVG glyph lands at the index equal to its gid |
| GlueTogether.CopyColrGlyphs | src/nanoemoji/glue_together.py:43-52 | the glyph loop copies each glyph's outline and advance; it stops with the first glyph's error (a missing donor entry or a changed advance) and otherwise leaves the tables alone |
| GlueTogether.CopyColr | src/nanoemoji/glue_together.py:37-55 | a donor without COLR is a KeyError before any glyph is touched (src/nanoemoji/colr.py reads it first); when every glyph copies and the donor has CPAL, glyf and hmtx take the donor's entries for the glyphs (an existing advance must be equal), the two tables are copied, and nothing else changes; otherwise the first error, KeyError for a missing CPAL |
| GlueTogether.CopyEntriesOverwrite | src/nanoemoji/glue_together.py:43-52 | copying is overwriting the listed keys with the donor's entries; other glyphs are untouched |
| GlueTogether.GlyphsCopyableStep | src/nanoemoji/glue_together.py:43-52 | after clean glyphs, the first problem is the next glyph's, if it has one |
| Svg.EnsureHasId | src/nanoemoji/svg.py:29-37 | an element with an id is left alone; otherwise it gets "<parent id>::<number of preceding siblings>", or AttributeError without a parent, or KeyError when the parent has no id |
| Svg.ChildIdsDiffer | src/nanoemoji/svg.py:37 | the ids given to different sibling positions under one parent never collide |
| Svg.GlyphGroups | src/nanoemoji/svg.py:40-55 | the groups cover exactly the colour glyphs, are disjoint and non-empty, keep together every two glyphs with a layer of the same reuse key, join only glyphs linked through a chain of shared keys, and come sorted inside and across |
| Svg.JoinLayers | src/nanoemoji/svg.py:46-53 | after one glyph's layers the union-find state is valid, holds the glyph, and keeps the grouping invariant for every glyph seen so far |
| Svg.GroupsFromClasses | src/nanoemoji/svg.py:55 | the sorted classes of a union-find state that keeps the grouping invariant cover, are disjoint, keep shared keys together, join only linked glyphs and are non-empty |
| Svg.GroupsDisjoint | src/nanoemoji/svg.py:55 | no glyph name lies in two groups |
| Svg.OneGroup | src/nanoemoji/svg.py:55 | two groups sharing a glyph name are the same group |
| Svg.GroupsNonEmpty | src/nanoemoji/svg.py:55 | no group is empty |
| Svg.LinkedTrans | src/nanoemoji/svg.py:47-53 | linking through shared reuse keys is transitive (with LinkedRefl and LinkedSym it is an equivalence) |
| Svg.AddUniqueGradients | src/nanoemoji/svg.py:58-75 | the loop updates the id map and the defs exactly as the gradient-adding specification does |
| Svg.AddGradientsSpec | src/nanoemoji/svg.py:63-75 | every gradient XML is stored once under the id it was given, defs only grow at the end, new defs are renamed "<glyph name>::<old id>", and ids of XML already known are kept |
| Svg.AddGradientsIds | src/nanoemoji/svg.py:69-74 | each gradient's old id (when no later gradient of the glyph reuses it) maps to the new id of its XML |
| Svg.FirstIdResolves | src/nanoemoji/svg.py:69-74 | the first gradient's old id maps to its XML's new id when no later gradient reuses that id |
| Svg.AddGradientsKeeps | src/nanoemoji/svg.py:69-74 | XML entries are never overwritten and an id that no gradient of the glyph uses keeps its entry |
| Svg.AddGradientsSplit | src/nanoemoji/svg.py:63 | adding a glyph's gradients in two steps is the same as adding them at once |
| Svg.UpdateGlyphOrder | src/nanoemoji/svg.py:126-139 | the new glyph order is the old one without its colour glyphs followed by the groups in order; colour glyph ids are renumbered from the kept prefix's length; no other table changes |
| Svg.NumberGroup | src/nanoemoji/svg.py:135-137 | one group's glyphs take consecutive ids from the starting id |
| Svg.RenumberIds | src/nanoemoji/svg.py:135-137 | renumbering gives the i-th name the start id plus i and changes no other field and no other glyph |
| Svg.RenumberAppend | src/nanoemoji/svg.py:134-138 | renumbering a concatenation is renumbering each part, the second from where the first stopped |
| Svg.GidsAreOrderPositions | src/nanoemoji/svg.py:131-139 | after the reshuffle each grouped colour glyph's id is its position in the new glyph order |
| Svg.GroupSpan | src/nanoemoji/svg.py:131-173 | the ids of one group are a run of consecutive integers starting at the group's offset in the new order |
| Svg.RangeBounds | src/nanoemoji/svg.py:173-174 | a document's min and max gid are the ends of its run of consecutive ids |
| Svg.MinOf | src/nanoemoji/svg.py:174 | min(gids) is a member no larger than any other |
| Svg.MaxOf | src/nanoemoji/svg.py:174 | max(gids) is a member no smaller than any other |
| Svg.DropLast | src/nanoemoji/svg.py:132 | the glyph order without its last n entries: a prefix, of length zero when n covers the whole order |
| Svg.DropLastAsWrittenAgrees | src/nanoemoji/svg.py:132 | the slice as written agrees with the intended one whenever there is at least one colour glyph |
| Svg.NoColorGlyphsDropsEverything | src/nanoemoji/svg.py:132 | with no colour glyphs the slice as written empties the glyph order, .notdef included, where the intended one keeps it |
| SvgTable.ByName | src/nanoemoji/svg.py:155 | the table by name has exactly the names of the colour glyphs as keys |
| SvgTable.ByNameLatest | src/nanoemoji/svg.py:155 | a name maps to the last colour glyph carrying it |
| SvgTable.GroupNamesKnown | src/nanoemoji/svg.py:155-168 | every name in a reuse group is a key of the table by name, so the lookups at line 168 never fail |
| SvgTable.GroupsNoRepeats | src/nanoemoji/svg.py:134-138 | disjoint sorted groups list each glyph name once in the new glyph order |
| SvgTable.AddGroupGradients | src/nanoemoji/svg.py:168-169 | the loop over a group's glyphs leaves the id map and defs that the per-document gradient specification gives |
| SvgTable.AddGradientsResolves | src/nanoemoji/svg.py:69-75 | adding gradients keeps each known XML resolvable to a def of the document with its new id, and only appends defs |
| SvgTable.GlyphsGradientsGrow | src/nanoemoji/svg.py:168-169 | a document's defs only grow, hold each XML once and hold a def for every XML the id map knows |
| SvgTable.GlyphsGradientsSplit | src/nanoemoji/svg.py:168-169 | doing a document's glyphs in two steps is doing them at once |
| SvgTable.DocPrefix | src/nanoemoji/svg.py:168-170 | the defs built after the first k glyphs of a document begin that document's final defs |
| SvgTable.DocRefsResolve | src/nanoemoji/svg.py:160-170 | when a glyph is written, each gradient id it uses (not reused later by the same glyph) is rewritten to a def of the same document holding that gradient's XML |
| SvgTable.IdsResolveIn | src/nanoemoji/svg.py:100-102 | ids that share their XML's new id name a def of any document whose defs begin with the current ones |
| SvgTable.TableGradientsAsWritten | src/nanoemoji/svg.py:160-170 | with one id map shared by all documents, one list of defs per document |
| SvgTable.SharedUpdatesLoseGradient | src/nanoemoji/svg.py:160-169 | two glyphs in different documents with the same gradient: as written the second document gets no def while its glyph is pointed at the first document's gradient; with an id map per document it gets its own copy |
| SvgTable.GroupDoc | src/nanoemoji/svg.py:162-174 | one document per group: its gid range is the group's run of ids in the new order and its text is rendered from the group's glyphs and their defs |
| SvgTable.GroupDocs | src/nanoemoji/svg.py:162-174 | one document per group, in group order, each spanning its group's ids |
| SvgTable.DocsMatchOrder | src/nanoemoji/svg.py:131-174 | each document's min gid is at most its max, and gid min+k of a document is glyph k of its group, both in the new glyph order and in the renumbered glyphs |
| SvgTable.DocGid | src/nanoemoji/svg.py:173-174 | glyph k of group i sits at the document's min gid plus k in the new glyph order and carries that id |
| SvgTable.GroupIds | src/nanoemoji/svg.py:135-137 | after renumbering, glyph k of group i has id base plus the group's offset plus k |
| SvgTable.MakeSvgTable | src/nanoemoji/svg.py:142-179 | the groups cover the colour glyphs, are disjoint, non-empty and keep shared keys together; the glyph order becomes the non-colour prefix followed by the groups; one document per group, spanning its ids; glyf, hmtx and other tables unchanged |
| SvgTable.WriteGroups | src/nanoemoji/svg.py:157-179 | the glyph order and the SVG document list after grouping, as in MakeSvgTable, with nothing else changed |
| Util.Filter | src/nanoemoji/util.py:32 | filter never yields more elements than it is given, and yields only given elements that pass |
| Util.Only | src/nanoemoji/util.py:31-35 | only returns an element that was given and passes; its only failures are StopIteration and AssertionError |
| Util.FilterFirst | src/nanoemoji/util.py:32-33 | the first passing element heads the filtered sequence, followed by the passing elements after it |
| Util.FilterEmpty | src/nanoemoji/util.py:32-33 | the filter yields nothing exactly when no element passes |
| Util.FilterNone | src/nanoemoji/util.py:32-33 | when nothing passes, nothing is left |
| Util.OnlyNone | src/nanoemoji/util.py:31-35 | `only` raises StopIteration exactly when no element passes |
| Util.OnlyOne | src/nanoemoji/util.py:31-35 | when exactly one element passes, `only` returns it |
| Util.OnlyTwo | src/nanoemoji/util.py:34 | when two elements pass, `only` fails its assertion |
| Util.FirstPassing | src/nanoemoji/util.py:33 | when something passes there is a first passing index, with nothing passing before it |
| Util.RequireFullyLoaded | src/nanoemoji/util.py:92-95 | passes exactly when every table is loaded, otherwise ValueError |
| Util.Extensions | src/nanoemoji/util.py:158-160 | one new path per subtable of the path's last table, each the path extended by that subtable entry |
| Util.NewEntries | src/nanoemoji/util.py:158-160 | the inner loop builds exactly the extensions of the path |
| Util.ExtensionsWeight | src/nanoemoji/util.py:147-162 | visiting a table leaves exactly its subtables still to visit, so the walk ends (otData is forward-offset only) |
| Util.WeightsAppend | src/nanoemoji/util.py:162 | the work left in a frontier is the sum of its parts |
| Util.TraverseOtData | src/nanoemoji/util.py:144-162 | the loop yields exactly the walk of the chosen frontier discipline from the root path |
| Util.DfsBaseTable | src/nanoemoji/util.py:128-133 | dfs_base_table yields the extendleft(reversed(new)) walk from the root |
| Util.BfsBaseTable | src/nanoemoji/util.py:136-141 | bfs_base_table yields the extend(new) walk from the root |
| Util.DepthFirstIsPreOrder | src/nanoemoji/util.py:128-133 | the depth-first walk of any frontier is the pre-order listing of its paths |
| Util.DepthFirstOrder | src/nanoemoji/util.py:128-133 | the depth-first walk from the root is the pre-order listing below the root |
| Util.PreOrdersAppend | src/nanoemoji/util.py:128-133 | the pre-order listing of a concatenation is the concatenation of the listings |
| Util.BreadthFirstSamePaths | src/nanoemoji/util.py:128-141 | the breadth-first walk yields the same paths as the depth-first one, each as often |
| Util.BreadthFirstOrder | src/nanoemoji/util.py:136-141 | the breadth-first walk from the root yields paths in non-decreasing length |
| Util.BreadthFirstLengths | src/nanoemoji/util.py:136-141 | from a layered frontier the breadth-first walk yields paths of non-decreasing length, none shorter than the frontier's first |
| Util.LayeredStep | src/nanoemoji/util.py:153-162 | popping the front path and queueing its extensions keeps the frontier's lengths in order, within one of each other |
| Util.PreOrdersCount | src/nanoemoji/util.py:144-162 | the listing from a frontier holds one path per table below it |
| Util.WalkCount | src/nanoemoji/util.py:144-162 | both walks from the root yield exactly one path per table |
| Util.WalkShape | src/nanoemoji/util.py:150-160 | the walk yields the root path first, and every later path extends an earlier-yielded one by one subtable entry |
| Util.WalkFromEarlier | src/nanoemoji/util.py:153-162 | paths still pending in the frontier come after the paths they extend |
| Util.PendingStep | src/nanoemoji/util.py:153-162 | one pass of the loop keeps every frontier path an extension of a yielded one |
| ColrTraverse.Only | src/nanoemoji/colr_traverse.py:37-41 | the single entry of a sequence, and ValueError exactly when it does not hold one entry |
| ColrTraverse.Slice | src/nanoemoji/colr_traverse.py:55-57 | Python's clipped slice: the entries from lo up to hi that the list has |
| ColrTraverse.Children | src/nanoemoji/colr_traverse.py:50-68 | the children of a paint, and ValueError exactly for an unrecognised format or a PaintColrGlyph without exactly one base glyph record of its name |
| ColrTraverse.ChildrenByFormat | src/nanoemoji/colr_traverse.py:51-66 | leaves have no children; PaintColrLayers has its slice of the layer list; one-child formats have their paint; a composite has its source then its backdrop |
| ColrTraverse.ColrGlyphChild | src/nanoemoji/colr_traverse.py:59-60 | a PaintColrGlyph's child is the paint of the one base glyph record with its name |
| ColrTraverse.ColrGlyphMissing | src/nanoemoji/colr_traverse.py:39-60 | with no base glyph record of that name, PaintColrGlyph raises ValueError |
| ColrTraverse.ColrGlyphAmbiguous | src/nanoemoji/colr_traverse.py:39-60 | with two base glyph records of that name, PaintColrGlyph raises ValueError |
| ColrTraverse.Traverse | src/nanoemoji/colr_traverse.py:71-77 | the loop hands the callback exactly the paints of the breadth-first walk, ending as the walk ends, and the root first |
| ColrTraverse.TraverseStep | src/nanoemoji/colr_traverse.py:73-77 | one pass pops the front paint, records it and queues its children at the back |
| ColrTraverse.VisitsStep | src/nanoemoji/colr_traverse.py:73-77 | a step of the walk visits the front paint and continues from the rest plus its children |
| ColrTraverse.VisitsFront | src/nanoemoji/colr_traverse.py:74-77 | the walk ends at once when fuel is out, or after the front paint when its children raise |
| ColrTraverse.RootVisitedFirst | src/nanoemoji/colr_traverse.py:72-75 | the root is the first paint the callback sees |
| ColrTraverse.VisitsBounds | src/nanoemoji/colr_traverse.py:68-77 | the walk visits at most the fuel's worth of paints and fails only with ValueError or for lack of fuel |
| ColrTraverse.VisitsFifo | src/nanoemoji/colr_traverse.py:74-77 | first in, first out: the frontier is visited in order before anything it queues |
| ColrTraverse.VisitsEmbedded | src/nanoemoji/colr_traverse.py:71-77 | on a tree of embedded paints with enough fuel the walk succeeds and visits every paint occurrence exactly once |
| ColrTraverse.EmbeddedStep | src/nanoemoji/colr_traverse.py:74-77 | an embedded front paint has children, and the next frontier is embedded and holds one occurrence fewer |
| ColrTraverse.EmbeddedChildren | src/nanoemoji/colr_traverse.py:62-66 | an embedded paint's children are embedded and together hold the rest of its occurrences |
| ColrTraverse.SharedPaintRevisited | src/nanoemoji/colr_traverse.py:65-77 | with no visited set the two halves of a composite are visited separately even when they are the same paint |
| ColrTraverse.SelfReferenceNeverEnds | src/nanoemoji/colr_traverse.py:59-77 | a base glyph whose paint names itself keeps the walk going until the fuel is gone, visiting that paint each time |
| VfOverhead.Overhead | src/nanoemoji/vf_overhead.py:25-64 | every cost is a multiple of four; a gradient costs 8 per colour stop plus 24; a format missing from the table is exactly the KeyError case |
| VfOverhead.OverheadCounter.Callback | src/nanoemoji/vf_overhead.py:58-66 | a paint whose key was seen costs nothing and changes nothing; a new key is recorded and charged its cost, or the lookup raises KeyError |
| VfOverhead.ChargeAll | src/nanoemoji/vf_overhead.py:58-69 | handing one walk's paints to the callback in turn gives the charging specification's seen set and total, or its first error |
| VfOverhead.ChargeStep | src/nanoemoji/vf_overhead.py:58-66 | charging from one paint on is one callback followed by the rest |
| VfOverhead.ChargeFirsts | src/nanoemoji/vf_overhead.py:58-66 | charging succeeds exactly when every first-seen paint has a cost; it then marks every key seen and adds the sum of the first-seen paints' costs; it fails only with KeyError |
| VfOverhead.FirstsFresh | src/nanoemoji/vf_overhead.py:61-64 | the charged paints are paints of the walk whose keys were not seen before |
| VfOverhead.FirstsDistinct | src/nanoemoji/vf_overhead.py:55-66 | no paint key is charged twice |
| VfOverhead.FirstsCover | src/nanoemoji/vf_overhead.py:55-66 | every key reached and not seen before is charged once |
| VfOverhead.FirstsAppend | src/nanoemoji/vf_overhead.py:68-69 | walking one glyph after another charges the first's new paints, then the second's paints new after both, so a paint shared by two glyphs is charged once |
| VfOverhead.SumCostAppend | src/nanoemoji/vf_overhead.py:66 | the total of two runs of paints is the sum of their totals |
| VfOverhead.CountFrom | src/nanoemoji/vf_overhead.py:68-71 | the total never drops, and the count fails only with KeyError, the walk's ValueError or lack of fuel |
| VfOverhead.CountIsSum | src/nanoemoji/vf_overhead.py:53-71 | a successful count is the start total plus the costs of the distinct paints reached, each charged the first time its key turns up |
| VfOverhead.CountOverhead | src/nanoemoji/vf_overhead.py:53-71 | the loop over the base glyphs computes the count specification, and a success is the sum of the costs of the distinct paints reached from all base glyphs |
| WriteGlyphgraph.Node.Label | src/nanoemoji/write_glyphgraph.py:38-41 | the label when it is present and not empty, the id otherwise |
| WriteGlyphgraph.Indent | src/nanoemoji/write_glyphgraph.py:91-92 | two spaces per depth level and nothing else |
| WriteGlyphgraph.TypeOfSpec | src/nanoemoji/write_glyphgraph.py:63-65 | a node's type is the text before the first "_", or the whole id when it has none, and holds no "_" |
| WriteGlyphgraph.CountTypeSnoc | src/nanoemoji/write_glyphgraph.py:66 | visiting one more node adds one to its own type's count and nothing to the others |
| WriteGlyphgraph.CountTypeGrows | src/nanoemoji/write_glyphgraph.py:66 | a type's count over a longer prefix of the visits is at least as large |
| WriteGlyphgraph.Dag.constructor | src/nanoemoji/write_glyphgraph.py:50-56 | a new DAG has no edges, no numbered nodes and zero counts, and keeps its invariant |
| WriteGlyphgraph.Dag.Edge | src/nanoemoji/write_glyphgraph.py:58-75 | afterwards dest is visited; a first visit numbers dest with its type's count plus one; the result is true exactly when the pair is new; a graph edge is emitted only for a new pair with a source; a repeated pair changes nothing; the per-type numbering invariant is kept |
| WriteGlyphgraph.Dag.Number | src/nanoemoji/write_glyphgraph.py:62-67 | the first visit of a node adds one to its type's count and numbers it with the new count |
| WriteGlyphgraph.Dag.NumbersIncrease | src/nanoemoji/write_glyphgraph.py:62-67 | within one type, numbers start at 1, a node visited later has a larger number, and none exceeds the type's count |
| WriteGlyphgraph.Walk | src/nanoemoji/write_glyphgraph.py:181-221 | the descent of _paint on the set of edges: beyond depth 256 or for a format that cannot be named NotImplementedError with no edge added; a repeated edge passes and changes nothing; otherwise the node is joined to its parent; edges only accumulate; the only exceptions are NotImplementedError and ValueError |
| WriteGlyphgraph.Descent | src/nanoemoji/write_glyphgraph.py:193-221 | below a node whose edge is new: the children of each format are walked one level deeper; edges only accumulate; the only exceptions are NotImplementedError and ValueError |
| WriteGlyphgraph.WalkAll | src/nanoemoji/write_glyphgraph.py:195-200 | the layer children are walked in turn under the node and the first exception stops the loop; edges only accumulate |
| WriteGlyphgraph.DescentByFormat | src/nanoemoji/write_glyphgraph.py:193-221 | once the edge is new: a PaintSolid passes; a gradient also joins the node to its colour line and passes; a PaintGlyph or PaintTransform joins its child one level deeper and ends as the child's walk does, NotImplementedError at the last level allowed; a PaintComposite walks its backdrop (joined to the node) and then, unless that raised, its source; a PaintColrGlyph is ValueError |
| WriteGlyphgraph.PaintNode | src/nanoemoji/write_glyphgraph.py:181-221 | the outcome and the new edge set are exactly Walk's on the old edges; beyond depth 256 or for a format that cannot be named it raises NotImplementedError and adds no edge; otherwise the node is visited and joined to its parent; a repeated edge does not descend and changes neither edges, graph edges nor numbering |
| WriteGlyphgraph.Descend | src/nanoemoji/write_glyphgraph.py:193-221 | the descent below a new edge gives exactly Descent's outcome and edge set |
| WriteGlyphgraph.DescendLayers | src/nanoemoji/write_glyphgraph.py:195-200 | the loop over a PaintColrLayers node's children gives exactly WalkAll's outcome and edge set |
| WriteGlyphgraph.DescendComposite | src/nanoemoji/write_glyphgraph.py:217-219 | a PaintComposite's backdrop is walked first and its source only when the backdrop did not raise, giving exactly Walk's outcomes and edge sets |
| WriteGlyphgraph.DescendChild | src/nanoemoji/write_glyphgraph.py:210-216 | the single child of a PaintGlyph or PaintTransform is walked under the node, giving exactly Walk's outcome and edge set |
| Config.Validate | src/nanoemoji/config.py:143-159 | passes (returning the configuration itself) exactly when upem, width, ascender, linegap and both version numbers are not negative and the descender is not positive; otherwise ValueError |
| Config.DefaultIsValid | src/nanoemoji/config.py:111-133 | the default configuration passes validate |
| Config.HasPicosvgs | src/nanoemoji/config.py:139-141 | true exactly when the colour format does not start with "untouchedsvg" |
| Config.PathName | src/nanoemoji/config.py:307 | a path's name holds no "/" |
| Config.LastDot | src/nanoemoji/config.py:135-137 | the index of the last dot of a name, or -1 when there is none |
| Config.StemAndSuffix | src/nanoemoji/config.py:135-137 | a suffix is empty or a dot followed by characters without a dot; stem and suffix make up the name; a name with a suffix has a non-empty stem |
| Config.Order | src/nanoemoji/config.py:243-261 | each of the sixteen flags has its own position in the order `load` pops them |
| Config.FlagAt | src/nanoemoji/config.py:243-261 | the flag popped i-th is the one at position i |
| Config.FlagAtOrder | src/nanoemoji/config.py:243-261 | the order positions and the flags popped at them are inverse |
| Config.FlagOrders | src/nanoemoji/config.py:243-261 | family, output_file, color_format, upem, ... output are popped in that order |
| Config.KeysDistinct | src/nanoemoji/config.py:243-261 | different flags have different configuration keys |
| Config.PopFlag | src/nanoemoji/config.py:231-236 | the key is removed from the configuration; the value is the flag when one was given, else the file's entry, else the default |
| Config.Truncate | src/nanoemoji/config.py:246-256 | int() of a float rounds toward zero |
| Config.Convert | src/nanoemoji/config.py:243-261 | the names, file and switch settings are kept exactly as chosen; the colour format must be a string; the metrics and versions become int() of the chosen value, the tolerance float(), the transform an Affine2D taken as it is or parsed from a string; an already-converted value is kept |
| Config.Truthy | src/nanoemoji/color_glyph.py:290 | `if ignore_reuse_error:` reads the setting with Python truthiness: a bool is itself, a string is true exactly when non-empty, a transform tuple is true |
| Config.SettleDefaults | src/nanoemoji/config.py:231-261 | with an empty configuration and no flags every setting is the default |
| Config.FlagsWin | src/nanoemoji/config.py:236-242 | once every flag is given the configuration file's entries decide nothing |
| Config.PopConverted | src/nanoemoji/config.py:243-261 | the k-th pop and conversion sees exactly what the earlier pops left and converts the chosen value |
| Config.PopNames | src/nanoemoji/config.py:243-245 | family and output_file are the chosen values as given; the pops succeed exactly when the chosen colour format is a string |
| Config.PopSize | src/nanoemoji/config.py:246-247 | upem and width are int() of their chosen values, or the first failure |
| Config.PopVerticalMetrics | src/nanoemoji/config.py:248-250 | ascender, descender and linegap are int() of their chosen values, or the first failure |
| Config.PopTransform | src/nanoemoji/config.py:251-256 | the transform (taken as is, parsed from a string, or an AssertionError) and the version numbers |
| Config.PopReuse | src/nanoemoji/config.py:257-258 | the reuse tolerance is float() of its chosen value, and the pops succeed exactly when that converts; ignore_reuse_error is the chosen value as given |
| Config.PopSwitches | src/nanoemoji/config.py:259-261 | keep_glyph_names, clip_to_viewbox and output are the chosen values as given; these pops cannot fail |
| Config.PopFlags | src/nanoemoji/config.py:243-261 | all sixteen pops succeed exactly when every chosen value converts (the colour format a string, the numbers and transform parseable); the settings are those values and the sixteen keys are gone from the configuration |
| Config.ToMap | src/nanoemoji/config.py:264-277 | a TOML table as a mapping has exactly the table's keys |
| Config.Pop | src/nanoemoji/config.py:264-291 | dict.pop: the value and the mapping without the key, or KeyError exactly when the key is missing |
| Config.AsDict | src/nanoemoji/config.py:264-283 | using a TOML value as a dict works exactly on a table, whose entries it sees; `.pop` on a list is a TypeError |
| Config.LoadAxis | src/nanoemoji/config.py:264-273 | an axis takes its tag, name and default from its table; a table with both keys loads exactly when it has no other key; failures are AttributeError or TypeError for a non-table, KeyError or ValueError |
| Config.AxisFrom | src/nanoemoji/config.py:266-273 | an axis table loads exactly when it has the keys name and default and no other |
| Config.LoadAxes | src/nanoemoji/config.py:263-273 | one axis per [axis] entry in file order, each loaded from its entry, and the loop succeeds when every entry loads |
| Config.AxisSection | src/nanoemoji/config.py:264-273 | a missing [axis] is a KeyError and a non-table one an AttributeError; otherwise one axis per entry, each loaded from its entry, and the section removed |
| Config.PositionOrder | src/nanoemoji/config.py:278-280 | the axis-position order is a total preorder, so sorting is defined |
| Config.SortPositions | src/nanoemoji/config.py:278-280 | the positions sorted by tag, a permutation of the table's |
| Config.PopPositions | src/nanoemoji/config.py:278-280 | a master's positions are its position table's entries, sorted; the key is removed; a missing table fails |
| Config.ResolveSrc | src/nanoemoji/config.py:212-225 | ValueError exactly for a relative source without a base; a source without "*" resolves to one path, an absolute one to itself |
| Config.Components | src/nanoemoji/config.py:213-216 | the parts of a path after its root are non-empty, not "." and hold no "/" |
| Config.Normalize | src/nanoemoji/config.py:213 | Path(p) keeps whether p is absolute and is never empty |
| Config.NormalizeIdempotent | src/nanoemoji/config.py:281-286 | a Path made from a Path's string is the same Path, so spellings of one path collapse in the set `srcs` |
| Config.PathOrder | src/nanoemoji/config.py:287 | Path comparison, part by part, is a total preorder, so sorted() is defined |
| Config.PathOrderNotStringOrder | src/nanoemoji/config.py:287 | "a/x" sorts before "a-b" as a Path although it sorts after it as a string |
| Config.Iterate | src/nanoemoji/config.py:283 | iterating a list gives its items; only lists, strings and tables can be iterated |
| Config.Distinct | src/nanoemoji/config.py:281-286 | the set of sources: each once, and exactly those given |
| Config.PermutationNoRepeats | src/nanoemoji/config.py:287 | sorting a sequence without repeats adds none |
| Config.CountOnce | src/nanoemoji/config.py:281-287 | in a sequence without repeats each element occurs at most once |
| Config.SortedNames | src/nanoemoji/config.py:341 | tuple(sorted(source_names)): sorted, without repeats, holding exactly the given names |
| Config.SortedSources | src/nanoemoji/config.py:287 | sorted() of resolved Paths: in Path order and a permutation of its input |
| Config.SourceOf | src/nanoemoji/config.py:283-284 | a "srcs" entry that is not a string is a TypeError; a string is resolved by `_resolve_src` |
| Config.Requested | src/nanoemoji/config.py:281-286 | collecting the set `srcs` succeeds exactly when every entry resolves |
| Config.RequestedMembers | src/nanoemoji/config.py:281-286 | the collected paths are the resolved paths of every entry and the additional sources, and nothing else |
| Config.NormalsMembers | src/nanoemoji/config.py:281-286 | the set of Paths holds exactly the normal forms of the collected paths |
| Config.ResolvedMembers | src/nanoemoji/config.py:287 | resolving gives exactly the images of the Paths |
| Config.ResolvedNoRepeats | src/nanoemoji/config.py:287 | when resolving keeps distinct paths apart, distinct Paths resolve to distinct paths |
| Config.SortedSourcesMembers | src/nanoemoji/config.py:287 | sorting keeps exactly the paths it is given |
| Config.ResolvedSources | src/nanoemoji/config.py:287 | tuple(sorted(p.resolve() for p in srcs)) comes out in Path order |
| Config.ResolvedSourcesMembers | src/nanoemoji/config.py:281-287 | the sources are exactly the resolved Paths of the collected paths; when resolving keeps distinct paths apart none repeats |
| Config.MasterSources | src/nanoemoji/config.py:281-287 | a master's sources exist exactly when every "srcs" entry resolves, and are then the sorted resolved Paths of the collected set |
| Config.RepeatIsRepeatedName | src/nanoemoji/config.py:307-309 | two sources that resolve to one path share a file name, so the unique-name check rejects them |
| Config.PopSrcs | src/nanoemoji/config.py:282-283 | the "srcs" entry, when present, is removed |
| Config.PopSources | src/nanoemoji/config.py:281-287 | "srcs" is removed; the sources are in Path order and are the master sources of the "srcs" items (or of none when it is absent); a "srcs" value that cannot be iterated is a TypeError; with neither srcs nor additional sources there are none |
| Config.AdditionalSourcesOnly | src/nanoemoji/config.py:285-287 | without "srcs" a master's sources are exactly the resolved additional sources |
| Config.MasterFrom | src/nanoemoji/config.py:278-303 | a master table loads only with a position table and a style name and no key besides srcs, and only when the output file is a string; its name, UFO name, sorted positions, style name and Path-ordered sources |
| Config.UfoName | src/nanoemoji/config.py:292-298 | a master's UFO is "<output stem>.<master name>.ufo" |
| Config.LoadMaster | src/nanoemoji/config.py:277-303 | a loaded master was a table with a position table and a style name and no other key but srcs; a list is a TypeError and an unexpected key fails; a non-string output file fails; its name, UFO name, sorted positions, style name and Path-ordered sources |
| Config.LoadMasterSources | src/nanoemoji/config.py:281-291 | a loaded master's sources are those PopSources gives for its table without "position" |
| Config.NameSetOfNames | src/nanoemoji/config.py:307-341 | the sorted distinct file names hold exactly the master's source names |
| Config.MergeNames | src/nanoemoji/config.py:310-313 | the intended check: the first master with sources sets the names; a later master with a different set of names is a ValueError |
| Config.MergeNamesAsWritten | src/nanoemoji/config.py:313 | as written the mismatch message reads undefined names, so the failure is a NameError |
| Config.MismatchIsNameError | src/nanoemoji/config.py:313 | a first master with a.svg and a second whose sources match nothing: NameError as written, ValueError as intended |
| Config.AgreeStep | src/nanoemoji/config.py:307-313 | a master passing the check keeps all masters so far naming the same set of sources, or none |
| Config.NextMaster | src/nanoemoji/config.py:278-313 | one pass of the master loop succeeds exactly when the table loads, no two sources share a file name, and the names agree with the earlier masters |
| Config.MastersLoadSnoc | src/nanoemoji/config.py:305 | appending a loaded master keeps every master loaded from the entry at its position |
| Config.MastersLoadAt | src/nanoemoji/config.py:305 | master k was loaded from entry k and has no repeated file name |
| Config.MastersLoadAll | src/nanoemoji/config.py:277-305 | every master was loaded from the entry at its position and has no repeated file name |
| Config.MasterStep | src/nanoemoji/config.py:277-313 | one pass of the master loop keeps every master loaded from its entry and the names agreeing |
| Config.LoadMasters | src/nanoemoji/config.py:275-313 | one master per [master] entry in file order, each loaded from its entry, with no repeated file names, and all naming the same sources |
| Config.MasterSection | src/nanoemoji/config.py:277-316 | a missing [master] is a KeyError, a non-table one an AttributeError and an empty one a ValueError; otherwise one master per entry, each loaded from its entry, the names agreeing, and the section removed |
| Config.Load | src/nanoemoji/config.py:239-342 | fails when a chosen value does not convert; on success the settings are the chosen values (the non-numeric ones as given), the result is valid, every configuration key is known, axes and masters are loaded in file order from their tables, and there is at least one master, all naming the same sources |
| SvgPath.Pairs | src/nanoemoji/svg_path.py:50-53 | the grouper recipe on an even-length argument list: half as many (x, y) pairs, the first made of the first two numbers |
| SvgPath.CoordinatesOfPairs | src/nanoemoji/svg_path.py:53 | grouping numbers into pairs and flattening them again gives the numbers back |
| SvgPath.Coordinates | src/nanoemoji/svg_path.py:96 | flattening points gives two numbers per point |
| SvgPath.PenCallFor | src/nanoemoji/svg_path.py:24-55 | M and L call moveTo and lineTo with one point, C and Q pass all points, Z takes none; a letter outside the table is a KeyError and a call that does not fit its method a TypeError |
| SvgPath.Place | src/nanoemoji/svg_path.py:37-38 | without a transform the pen gets the points as they are; through a TransformPen each point is mapped by the transform |
| SvgPath.DrawSvgPath | src/nanoemoji/svg_path.py:33-61 | the loop makes exactly the pen calls of the drawing specification and raises as it does |
| SvgPath.DrawCommand | src/nanoemoji/svg_path.py:45-58 | one command's calls and outcome, and the closed flag set by Z and cleared by M |
| SvgPath.BodySnoc | src/nanoemoji/svg_path.py:44-58 | one more command is its step after the calls so far, and leaves the flag that step sets |
| SvgPath.BodyStops | src/nanoemoji/svg_path.py:52-55 | once a command raises, no later command is drawn |
| SvgPath.ClosedAfterOpen | src/nanoemoji/svg_path.py:40-58 | the closed flag is clear exactly when some M has no Z after it |
| SvgPath.BodyLastNotEnd | src/nanoemoji/svg_path.py:44-58 | the loop never makes endPath its last call, and an open subpath means some call was made |
| SvgPath.TrailingEndPath | src/nanoemoji/svg_path.py:60-61 | a drawing that goes through ends with exactly one endPath when its last subpath is open, and with none when it is closed |
| SvgPath.EndPathBeforeMove | src/nanoemoji/svg_path.py:45-48 | an M is preceded by an endPath exactly when the previous subpath is still open |
| SvgPath.IdentityTransform | src/nanoemoji/svg_path.py:37-38 | drawing through the identity transform is drawing without one |
| SvgPath.RoundTrip | src/nanoemoji/svg_path.py:33-107 | drawing a path of well-formed M, L, C, Q and Z commands onto an SVGPathPen records the same path back |
| SvgPath.BodyReplays | src/nanoemoji/svg_path.py:44-107 | the loop's calls on well-formed commands record those commands |
| SvgPath.StepReplays | src/nanoemoji/svg_path.py:45-107 | one well-formed command's calls record that command (an endPath records nothing) |
| SvgPath.CallReplays | src/nanoemoji/svg_path.py:55-104 | a well-formed command becomes one pen call that records it back |
| SvgPath.RecordedAllAppend | src/nanoemoji/svg_path.py:88-107 | what a pen records for calls made one after another is the concatenation |
| SvgPath.QuadSegments | src/nanoemoji/svg_path.py:98-101 | a quadratic spline splits into one segment per control point, each controlled by it, the last ending at the spline's end |
| SvgPath.QuadSegmentsExample | src/nanoemoji/svg_path.py:99-101 | four control points and an end give four segments, each ending at the midpoint of two control points except the last |
| SvgPath.QuadCmds | src/nanoemoji/svg_path.py:100-101 | one Q command per segment |
| SvgPath.SvgPathPen.constructor | src/nanoemoji/svg_path.py:80-86 | the pen extends the given path, or starts an empty one |
| SvgPath.SvgPathPen.MoveTo | src/nanoemoji/svg_path.py:88-89 | appends one M command with the point |
| SvgPath.SvgPathPen.LineTo | src/nanoemoji/svg_path.py:91-92 | appends one L command with the point |
| SvgPath.SvgPathPen.CurveTo | src/nanoemoji/svg_path.py:94-96 | appends one C command with the points flattened |
| SvgPath.SvgPathPen.QCurveTo | src/nanoemoji/svg_path.py:98-101 | appends one Q command per segment; fails with AssertionError exactly when there is no control point and end |
| SvgPath.SvgPathPen.ClosePath | src/nanoemoji/svg_path.py:103-104 | appends one Z command |
| SvgPath.SvgPathPen.EndPath | src/nanoemoji/svg_path.py:106-107 | records nothing |
| GlyphReuse.Reuse | src/nanoemoji/glyph_reuse.py:45-79 | AssertionError exactly for a known glyph name or a string not starting with "M"; a reuse is offered exactly when reuse is on, a glyph was stored under the path's normalized key, and affine_between finds a transform within Fixed range; the offer names that glyph and that transform |
| GlyphReuse.Add | src/nanoemoji/glyph_reuse.py:81-88 | AssertionError exactly for a string not starting with "M"; otherwise the glyph becomes known and is stored under the path's key (the normalized path, or the path itself with reuse off), nothing else changing |
| GlyphReuse.AddConsistent | src/nanoemoji/glyph_reuse.py:81-88 | adding a glyph keeps every stored entry a path, stored under its own key, by a known glyph |
| GlyphReuse.ReusedIsKnown | src/nanoemoji/glyph_reuse.py:52-64 | the glyph a path is drawn from is a known glyph, never the path itself |
| GlyphReuse.DisabledNeverReuses | src/nanoemoji/glyph_reuse.py:57-58 | with a tolerance of -1 nothing is ever reused |
| GlyphReuse.ReuseAfterAdd | src/nanoemoji/glyph_reuse.py:60-87 | after adding a glyph, another path that normalizes the same way is drawn from it with affine_between's transform, when that transform is in Fixed range |
| GlyphReuse.OverflowNotReused | src/nanoemoji/glyph_reuse.py:72-77 | a transform out of Fixed range is never offered |
| GlyphReuse.GlyphReuseCache.constructor | src/nanoemoji/glyph_reuse.py:35-43 | a new cache knows no glyph, stores no path, and normalizes with a tenth of the reuse tolerance |
| GlyphReuse.GlyphReuseCache.TryReuse | src/nanoemoji/glyph_reuse.py:45-79 | the method answers exactly as the try_reuse specification does on the cache's state |
| GlyphReuse.GlyphReuseCache.AddGlyph | src/nanoemoji/glyph_reuse.py:81-88 | the cache's new state is the add_glyph specification's, or unchanged on AssertionError; it stays consistent |
| Parts.WithShape | src/nanoemoji/parts.py:68-71 | after filing shape under norm, shape is in that key's set, a new key's set is normalized to norm, an existing set keeps its normal form and its shapes, and no other key appears |
| Parts.NormKey | src/nanoemoji/parts.py:73-77 | with a tolerance of -1 a shape is its own key; otherwise the key is the shape's normalized path |
| Parts.AddedAllFiles | src/nanoemoji/parts.py:73-77 | after adding shapes one by one, each is in the set of its key, no stored shape is lost, and a store whose sets are filed under their own normal forms stays so |
| Parts.MergedNothing | src/nanoemoji/parts.py:83-86 | merging a store with no shapes leaves the store unchanged |
| Parts.MergedTwoStages | src/nanoemoji/parts.py:84-86 | merging the sets of another store one after another equals merging them all at once |
| Parts.MergedStep | src/nanoemoji/parts.py:85-86 | filing one more incoming shape is one `_add_norm_path` on the store merged so far |
| Parts.MergeTwice | src/nanoemoji/parts.py:83-86 | merging the same parts twice gives the same store as merging them once |
| Parts.MergeFiles | src/nanoemoji/parts.py:83-86 | merging a filed store puts each of its shapes under the key it had there, keeps every shape already stored, and keeps the store filed |
| Parts.IsIterableOf | src/nanoemoji/parts.py:34-44 | true for an empty iterable, false for anything not iterable, and otherwise exactly when the first item has the wanted type |
| Parts.Elements | src/nanoemoji/parts.py:88-89 | an iterable of SVG shapes is walked as it is; anything else is walked as a one-element tuple |
| Parts.LeadingShapes | src/nanoemoji/parts.py:90-94 | the shapes filed before the first element that is not an SVG shape: each is that element's path, and the element after them, if any, is not an SVG shape |
| Parts.Show | src/nanoemoji/parts.py:121-122 | str() leaves a string unchanged |
| Parts.ParseVersion | src/nanoemoji/parts.py:117 | a version that is not a string is an AttributeError; a parsed version has one integer per dot-separated field, each that field's int() |
| Parts.ShapeOf | src/nanoemoji/parts.py:122 | a JSON string is the shape of that text; a list or an object is unhashable, a TypeError |
| Parts.ShapesOf | src/nanoemoji/parts.py:122 | the set of shapes loads exactly when every entry is hashable, and then holds exactly their shapes |
| Parts.ParseShapeSet | src/nanoemoji/parts.py:120-125 | an accepted entry has exactly the keys "normalized" and "shapes", is normalized to str() of the first, and holds exactly the shapes of the second; an unhashable shape is a TypeError and an entry with any other key is rejected |
| Parts.ShapeSetsOf | src/nanoemoji/parts.py:120-125 | the loaded sets are filed under their own normal forms, and only a list whose every entry parses loads |
| Parts.ParseJson | src/nanoemoji/parts.py:115-127 | unparseable JSON is a ValueError, a missing "version" a KeyError; an accepted object has exactly the keys version, reuse_tolerance and shape_sets, version 1.0.0 and the tolerance float() reads |
| Parts.LoadedFrom | src/nanoemoji/parts.py:117-127 | a load succeeds only on the three expected keys with version 1.0.0; a missing version is a KeyError and any other version an AssertionError |
| Parts.BadVersionRejected | src/nanoemoji/parts.py:117-118 | a JSON store whose version parses to anything but 1.0.0 is rejected with AssertionError |
| Parts.KnownFormat | src/nanoemoji/parts.py:135-137 | a file is accepted exactly when its lower-cased suffix is .svg or .json |
| Parts.ReuseableParts.constructor | src/nanoemoji/parts.py:60-66 | a new store has version 1.0.0, the default reuse tolerance and no shape sets |
| Parts.ReuseableParts.AddNormPath | src/nanoemoji/parts.py:68-71 | the store becomes WithShape of the old store, version and tolerance unchanged, and stays filed under its normal forms |
| Parts.ReuseableParts.AddShape | src/nanoemoji/parts.py:73-77 | the shape is filed under its NormKey, version and tolerance unchanged, and the store stays filed |
| Parts.ReuseableParts.AddParts | src/nanoemoji/parts.py:83-86 | the store becomes the old store merged with every shape of the other store under that store's keys, and stays filed |
| Parts.ReuseableParts.AddShapeSet | src/nanoemoji/parts.py:84-86 | the shapes of one set are merged under its normal form, and the store stays filed |
| Parts.ReuseableParts.AddThing | src/nanoemoji/parts.py:87-94 | succeeds exactly when every element is an SVG shape, fails with ValueError otherwise, and in both cases has added the leading SVG shapes in order, leaving the store filed |
| Parts.ReuseableParts.Add | src/nanoemoji/parts.py:79-94 | a store is merged; a file with an unknown suffix is a ValueError; a file that loads is merged as that store, and one that fails changes nothing and gives fromstring's error; a single shape or iterable is added as AddThing; the store stays filed in every case |
| Parts.IncomingStep | src/nanoemoji/parts.py:84-86 | taking one more set of a filed store adds exactly its shapes to what is waiting to be merged |
| Parts.AddedAllSnoc | src/nanoemoji/parts.py:90-94 | adding one more shape to a prefix is one more `_add` |
| Parts.AddOneShape | src/nanoemoji/parts.py:88-89 | a single SVG path is walked as the one shape it is |
| Parts.AddedOne | src/nanoemoji/parts.py:73-77 | adding one shape files it under its key |
| Parts.FromSvgPaths | src/nanoemoji/parts.py:110-114 | a fresh store with version 1.0.0 and the default tolerance, holding every path of the document added in order |
| Parts.FromText | src/nanoemoji/parts.py:107-131 | a blank text is an IndexError and an unknown first character a ValueError; "<" gives the SVG parser's error (a SyntaxError for malformed XML, a ValueError from topicosvg) or every path of the document filed under its key with version 1.0.0 and the default tolerance, "{" the JSON store; the result is filed under its own normal forms |
| Parts.FromString | src/nanoemoji/parts.py:107-131 | fromstring returns a fresh valid store holding exactly the version, tolerance and shape sets FromText gives, or FromText's error |
| Parts.MalformedSvgIsSyntaxError | src/nanoemoji/parts.py:111-112 | an SVG text the parser rejects as malformed XML fails fromstring with SyntaxError, not ValueError |
| Parts.LoadFile | src/nanoemoji/parts.py:133-138 | an unknown suffix is a ValueError; otherwise exactly the result of fromstring on the file's text, its errors included |
| WriteFont.Generator | src/nanoemoji/write_font.py:96-146 | there is a generator exactly for the configurable colour formats; each writes ".ttf" or ".otf", and cbdt and sbix raise NotImplementedError in both steps |
| WriteFont.GeneratorExtension | src/nanoemoji/write_font.py:104-115 | exactly the CFF formats, whose names start with "cff", are written as ".otf" |
| WriteFont.SvgGenerators | src/nanoemoji/write_font.py:116-135 | the generators that write an SVG table are those of the picosvg and untouchedsvg formats; they use picosvgs exactly when the font configuration says so, and compress exactly for the formats ending in "z" |
| WriteFont.MakeTtfontCases | src/nanoemoji/write_font.py:187-216 | a ".ufo" output has no binary, any extension other than .ttf and .otf is a ValueError, an unknown colour format a KeyError, and a binary is made exactly for a known format other than cbdt and sbix |
| WriteFont.CompilerChoice | src/nanoemoji/write_font.py:195-213 | ".ttf" is compiled as TrueType and ".otf" as CFF, whose version is 2 exactly for the "cff2_" formats and 1 otherwise; the format's own apply_ttfont step follows |
| WriteFont.ImageSize | src/nanoemoji/write_font.py:232-236 | an injective name function names n distinct glyphs for the first n indexes |
| WriteFont.NamesBound | src/nanoemoji/write_font.py:234-235 | the loop of _next_name can only find i names taken when the font has at least i glyphs, so it ends |
| WriteFont.FreeFrom | src/nanoemoji/write_font.py:232-236 | from an index whose predecessors are all taken, the next free index exists, is no larger than the number of glyphs, and every index before it is taken |
| WriteFont.FirstFreeUnique | src/nanoemoji/write_font.py:232-236 | the least free index is unique |
| WriteFont.NextName | src/nanoemoji/write_font.py:232-236 | the name returned is the name of the least free index, and the font does not have it |
| WriteFont.NumberedInjective | src/nanoemoji/write_font.py:407-413 | the names "<glyph name>.<i>" differ for different i |
| WriteFont.InitGlyphName | src/nanoemoji/write_font.py:411-413 | a new layer glyph is named "<glyph name>.<i>" for the least i whose name the font does not have |
| WriteFont.CodepointSet | src/nanoemoji/write_font.py:562-565 | the set of a code point sequence has exactly its members |
| WriteFont.CodepointsMembers | src/nanoemoji/write_font.py:561-565 | a code point is used exactly when some input has it, and directly mapped exactly when some input is that single code point |
| WriteFont.NeedBlanksExactly | src/nanoemoji/write_font.py:567 | a code point needs a blank exactly when an input uses it and no input is that code point alone |
| WriteFont.BlankNames | src/nanoemoji/write_font.py:571 | each blank is named by glyph_name of its code point |
| WriteFont.BlankStart | src/nanoemoji/write_font.py:569-570 | before the blank loop nothing is added and every needed code point remains |
| WriteFont.BlankTaken | src/nanoemoji/write_font.py:571 | a blank whose name is already taken shows that the blanks cannot all be added |
| WriteFont.BlankStep | src/nanoemoji/write_font.py:570-574 | adding the blank of a code point whose name is free keeps the loop's state, one code point fewer remaining |
| WriteFont.BlankFacts | src/nanoemoji/write_font.py:570-574 | old glyphs are kept, new glyphs are blanks of needed code points with distinct fresh names, and once nothing remains every needed code point has its blank |
| WriteFont.UsedCodepoints | src/nanoemoji/write_font.py:561-565 | the loop computes the code points used and those some single code point input maps directly |
| WriteFont.AddBlanks | src/nanoemoji/write_font.py:570-574 | succeeds exactly when the blanks fit, fails with KeyError otherwise; old glyphs are kept and every new glyph is a blank of a needed code point |
| WriteFont.EnsureCodepointsWillHaveGlyphs | src/nanoemoji/write_font.py:555-578 | succeeds exactly when the blanks fit (KeyError otherwise); every code point needing a blank gets a glyph of its own name mapped to it; the glyph order keeps its front and gains exactly the new names, sorted and without repeats |
| WriteFont.FirstIndex | src/nanoemoji/write_font.py:592-593 | the first position of an element the sequence has |
| WriteFont.IndexOf | src/nanoemoji/write_font.py:592-593 | list.index finds exactly the elements present, at their first position, and is a ValueError otherwise |
| WriteFont.IndexOfNoRepeats | src/nanoemoji/write_font.py:592-593 | in a sequence without repeats every element is found at its own position |
| WriteFont.GlyphNamer | src/nanoemoji/write_font.py:585-588 | the name each colour glyph gets is glyph_name of its code points |
| WriteFont.CreateStart | src/nanoemoji/write_font.py:585-588 | before the comprehension no glyph is made and the font is as it was |
| WriteFont.CreatableExtend | src/nanoemoji/write_font.py:585-588 | inputs that can all be created stay so with one more input that can be created after them |
| WriteFont.CreateStep | src/nanoemoji/write_font.py:585-588 | a create that succeeds adds its base glyph and moves the state on by one input |
| WriteFont.CreateFails | src/nanoemoji/write_font.py:585-588 | a create that fails shows the inputs cannot all be created |
| WriteFont.CreateStateFacts | src/nanoemoji/write_font.py:585-588 | the glyphs made so far have ids base, base + 1, ..., distinct names no glyph had before, and the font has them |
| WriteFont.CreateColorGlyphs | src/nanoemoji/write_font.py:585-588 | succeeds exactly when every input can be created; each colour glyph is made from its input with id base + its index and a fresh distinct name whose base glyph the font now holds; old glyphs and the glyph order are kept |
| WriteFont.NewGlyphs | src/nanoemoji/write_font.py:175-179 | a new font has exactly ".notdef" and ".space", the latter mapped to U+0020 with the configured width |
| WriteFont.NewUfo | src/nanoemoji/write_font.py:150-184 | a fresh font with the configured upem, one default layer, the two glyphs and the glyph order [".notdef", ".space"] |
| WriteFont.AppendColorGlyphs | src/nanoemoji/write_font.py:590-593 | the colour glyphs' names are appended to the glyph order, which stays without repeats, and each glyph id is then its name's index |
| WriteFont.PlacedAppend | src/nanoemoji/write_font.py:590-593 | appending fresh distinct names whose ids follow the order places each glyph at its id |
| WriteFont.UfoWithBlanks | src/nanoemoji/write_font.py:582-583 | the new font with its blanks is made exactly when the blanks fit (KeyError otherwise), and its glyph order still starts with .notdef and .space |
| WriteFont.BuildColorUfo | src/nanoemoji/write_font.py:581-593 | on success the font has the configured upem, its glyph order starts with .notdef and .space and ends with the colour glyphs, each made from its input and placed at its id |
| WriteFont.GenerateColorFont | src/nanoemoji/write_font.py:581-604 | on success as BuildColorUfo, with the colour format's apply_ufo step and the binary _make_ttfont chooses |
| WriteFont.AppendFresh | src/nanoemoji/write_font.py:590 | appending fresh distinct names to a glyph order without repeats keeps it without repeats |
| WriteFont.GlyphIdsAreIndexes | src/nanoemoji/write_font.py:592-593 | the assertion of _generate_color_font holds: each colour glyph's id is the index of its name |
| WriteFont.InputFor | src/nanoemoji/write_font.py:610-618 | a file gets an input exactly when its name has a non-empty code point sequence and it parses; no sequence is a ValueError, a failed parse an OSError |
| WriteFont.Inputs | src/nanoemoji/write_font.py:607-618 | the loop stops with the error of the first file that fails, else gives one input per file in order |
| WriteFont.InputsResult | src/nanoemoji/write_font.py:607-618 | all files give inputs exactly when each has code points and parses; the inputs then follow the files with their code points |
| WriteFont.InputsMissingCodepoints | src/nanoemoji/write_font.py:610-612 | a first file without a code point sequence stops the run with ValueError |
| Nanoemoji.CodepointsFromFilename | src/nanoemoji/nanoemoji.py:96-101 | no code points exactly when the name has no hex digit; otherwise a non-empty sequence, the one codepoints.from_filename finds |
| Nanoemoji.NotoCodepoints | src/nanoemoji/nanoemoji.py:96-99 | a Noto name "emoji_u<hex>_<hex>….svg" gives the code points of its parts |
| Nanoemoji.TwemojiCodepoints | src/nanoemoji/nanoemoji.py:96-99 | a Twemoji name "<hex>-<hex>….svg" gives the code points of its parts |
| Nanoemoji.IndexesWhere | src/nanoemoji/nanoemoji.py:113-117 | the indexes of the files that pass the filter lie within the file list |
| Nanoemoji.Inputs | src/nanoemoji/nanoemoji.py:112-117 | the loop yields exactly KeptInputs, the files that have code points and a picosvg, in file order |
| Nanoemoji.KeptInputsFacts | src/nanoemoji/nanoemoji.py:112-117 | the k-th input comes from the k-th kept file with its base name's code points and its picosvg, kept indexes increase, and every file not kept has no code points or no picosvg |
| Nanoemoji.KeptAt | src/nanoemoji/nanoemoji.py:116-117 | each input is that of the file at its kept index, which passes the filter |
| Nanoemoji.KeptIncreasing | src/nanoemoji/nanoemoji.py:113 | the inputs keep the order of the files |
| Nanoemoji.KeptAll | src/nanoemoji/nanoemoji.py:116 | a file that passes the filter is kept |
| Nanoemoji.IndexesIncrease | src/nanoemoji/nanoemoji.py:113 | the indexes that pass a test increase |
| Nanoemoji.IndexesAll | src/nanoemoji/nanoemoji.py:113-117 | an index is listed exactly when its entry passes the test |
| Nanoemoji.KeptInputsCodepoints | src/nanoemoji/nanoemoji.py:114-117 | every input carries the code points of its file's base name |
| Nanoemoji.LayerName | src/nanoemoji/nanoemoji.py:146 | the layer for z-order idx is "z_" followed by idx in decimal |
| Nanoemoji.LayerNamesDistinct | src/nanoemoji/nanoemoji.py:146 | two z-orders share a layer name exactly when they are equal |
| Nanoemoji.Layer | src/nanoemoji/nanoemoji.py:137-149 | the font afterwards has the layer "z_<idx>", added only when it was missing; glyphs, glyph order and upem are unchanged |
| Nanoemoji.LayerTwice | src/nanoemoji/nanoemoji.py:137-149 | two calls for the same z-order give the same layer and add it at most once |
| Nanoemoji.RgiOrder | src/nanoemoji/nanoemoji.py:281 | Python's order of (code points, target) pairs is a total order |
| Nanoemoji.Ligatures | src/nanoemoji/nanoemoji.py:281-283 | the pairs that get a rule are exactly those whose sequence is not a single code point |
| Nanoemoji.RuleLines | src/nanoemoji/nanoemoji.py:281-285 | one rule line per ligature |
| Nanoemoji.GenerateFea | src/nanoemoji/nanoemoji.py:274-288 | the text is the header lines, one rule per ligature of the sorted pairs and the closing line, joined by newlines |
| Nanoemoji.RuleLinesSnoc | src/nanoemoji/nanoemoji.py:281-285 | one more pair appends its rule unless its sequence is a single code point |
| Nanoemoji.LigaturesSorted | src/nanoemoji/nanoemoji.py:281 | the ligatures of the sorted pairs stay sorted |
| Nanoemoji.FeaRules | src/nanoemoji/nanoemoji.py:276-288 | the rules are the languagesystem lines and "feature rlig {", then one "sub <glyph names> by <target>;" per multi-code-point pair in sorted order and no other, then "} rlig;" |
| Nanoemoji.LinesShape | src/nanoemoji/nanoemoji.py:276-288 | header, then the rule of each ligature in turn, then the footer |
| Nanoemoji.FeaOrderFree | src/nanoemoji/nanoemoji.py:281 | the feature text is the same for any order of the same pairs |
| Nanoemoji.RuleOneLine | src/nanoemoji/nanoemoji.py:284-285 | a rule whose target has no newline is a single line |
| Nanoemoji.FeaSplit | src/nanoemoji/nanoemoji.py:288 | when no target has a newline, splitting the text at newlines gives back the lines |
| ColorGlyphs.ExtendNamed | src/nanoemoji/color_glyph.py:205-209 | the Extend member of a name, when some member has that name, and none otherwise |
| ColorGlyphs.SpreadMethod | src/nanoemoji/color_glyph.py:204-206 | the upper-cased spreadMethod ("pad" when absent) is accepted exactly when it names an Extend member, which is returned; otherwise ValueError |
| ColorGlyphs.SpreadMethodDefault | src/nanoemoji/color_glyph.py:204 | a gradient without spreadMethod pads |
| ColorGlyphs.CommonGradientParts | src/nanoemoji/color_glyph.py:203-211 | an unknown spread method is a ValueError; otherwise the parts are read exactly when every stop is, with the gradient's extend mode and one stop per child element, in order |
| ColorGlyphs.ShapeCacheKeyIgnoresPaint | src/nanoemoji/color_glyph.py:214-221 | two layers share a cache key exactly when they draw the same path with the same reuses, whatever their paints |
| ColorGlyphs.Key | src/nanoemoji/color_glyph.py:243-251 | a reuse key is made exactly when the shape's paint is, and carries the paint's error otherwise |
| ColorGlyphs.GroupEnd | src/nanoemoji/color_glyph.py:269-275 | the run groupby takes ends at the first shape with another key or at the end, every shape in it has the group's key, and a failure is the error of some shape's key |
| ColorGlyphs.PaintedLayers | src/nanoemoji/color_glyph.py:254-299 | the loop, consumed, gives exactly the layers Layers defines, or its first error |
| ColorGlyphs.PrependTwice | src/nanoemoji/color_glyph.py:295-299 | yielding two runs of layers in turn is yielding their concatenation |
| ColorGlyphs.PlainPaintedLayers | src/nanoemoji/color_glyph.py:261-265 | with reuse off the loop gives one layer per shape, or the first paint error |
| ColorGlyphs.RunEnd | src/nanoemoji/color_glyph.py:269-275 | the loop that extends a group ends where GroupEnd says |
| ColorGlyphs.GroupOf | src/nanoemoji/color_glyph.py:275-299 | one group's loop with its `success` flag gives GroupLayers: one reusing layer when all transforms are found, a layer per path when one is missing and errors are ignored, else ValueError |
| ColorGlyphs.PlainLayersExactly | src/nanoemoji/color_glyph.py:261-265 | with reuse off, layering succeeds exactly when every paint does, with one layer per shape, in order, without reuses |
| ColorGlyphs.ExplainsAppend | src/nanoemoji/color_glyph.py:269-299 | layers explaining consecutive stretches of shapes explain them together |
| ColorGlyphs.SinglesExplain | src/nanoemoji/color_glyph.py:298-299 | a layer per path explains a run of shapes that share a key |
| ColorGlyphs.GroupExplains | src/nanoemoji/color_glyph.py:275-299 | the layers of one group explain its shapes |
| ColorGlyphs.LayersFromExplain | src/nanoemoji/color_glyph.py:269-299 | the layers of the groups from a shape on explain the shapes from there |
| ColorGlyphs.LayersExplainShapes | src/nanoemoji/color_glyph.py:267-299 | with reuse on, the layers cover every shape once and in order, group only consecutive shapes with the same paint and normalized path, and reach a reused path only by the transform affine_between found for it |
| ColorGlyphs.IgnoredFrom | src/nanoemoji/color_glyph.py:284-299 | ignoring reuse errors, the groups from a shape on fail exactly when some later paint does |
| ColorGlyphs.IgnoringReuseErrors | src/nanoemoji/color_glyph.py:259-299 | ignoring reuse errors, layering fails exactly when some shape's paint does, whatever the transforms |
| ColorGlyphs.BaseGlyph | src/nanoemoji/color_glyph.py:322-327 | the base glyph is as wide as the font's upem and has a unicode exactly when the sequence is one code point, which it then is |
| ColorGlyphs.Create | src/nanoemoji/color_glyph.py:311-343 | the base glyph is added under glyph_name of the code points (KeyError if taken, IndexError for no code points); painted layers are made exactly when the format uses picosvgs, and are then the Layers of the SVG or their error; glyph order and layers are unchanged |
| ColrToSvg.ScaledAlphaRange | src/nanoemoji/colr_to_svg.py:110 | alpha * cpal_color.alpha / 255 stays in [0, 1] for an alpha in [0, 1] and a byte CPAL alpha, and is 1 when both are full |
| ColrToSvg.PaletteColor | src/nanoemoji/colr_to_svg.py:99-111 | an IndexError exactly when the font has no palette or a non-foreground index lies past the first palette; the foreground index 0xFFFF is black; otherwise the entry's channels with its alpha scaled by the requested alpha |
| ColrToSvg.ColorInRange | src/nanoemoji/colr_to_svg.py:99-111 | from byte palette entries and an alpha in [0, 1] the colour has byte channels and an alpha in [0, 1]; a fully opaque entry at alpha 1 stays fully opaque |
| ColrToSvg.ForegroundIgnoresPalette | src/nanoemoji/colr_to_svg.py:101-102 | the foreground colour is black whatever the palette and the alpha |
| ColrToSvg.GlyphRegion | src/nanoemoji/colr_to_svg.py:310-322 | the region is found exactly when hmtx has the glyph and, for a zero advance, glyf has it with bounds; a missing entry is a KeyError and an empty glyph (no xMax) an AttributeError; it is Rect(0, -ascender, width, ascender - descender) with the advance, or xMax when the advance is 0, as width |
| ColrToSvg.RegionRoundTrip | src/nanoemoji/colr_to_svg.py:62-67 | reading a glyph's region back as map_font_space_to_viewbox does gives the OS/2 ascender and descender, so its first assertion holds exactly when the ascender is not negative |
| ColrToSvg.ColrGlyphs | src/nanoemoji/colr_to_svg.py:364-373 | succeeds exactly for version 0, or version 1 without ColorLayers (AssertionError otherwise), yielding the ids of the ColorLayers keys for version 0 and of the paint records' base glyphs for version 1 |
| ColrToSvg.ColrGlyphsIgnore | src/nanoemoji/colr_to_svg.py:366-373 | a version 0 table's paint records are not read, and a version 1 table without layers succeeds exactly for version 1 |
| ColrToSvg.ApplyTransform | src/nanoemoji/colr_to_svg.py:201-215 | the identity leaves the element unchanged; any other transform sets exactly its "transform" attribute to the transform moved into view box space; the identity is returned either way |
| ColrToSvg.ChooseConverter | src/nanoemoji/colr_to_svg.py:404-418 | a font without exactly one palette is an AssertionError; versions 0 and 1 pick their converters; any other version is a NotImplementedError |
| ColrToSvg.ConverterMatchesGlyphs | src/nanoemoji/colr_to_svg.py:364-418 | the converter chosen covers the glyphs colr_glyphs lists: version 0 the ColorLayers keys, version 1 the paint records, and a version 1 table with layers fails in colr_glyphs |
| MaximumColor.VectorColorTable | src/nanoemoji/maximum_color.py:59-70 | a font with both an "SVG " and a "COLR" table, or neither, is a ValueError; otherwise the tag of the one it has |
| MaximumColor.VectorColorTableFound | src/nanoemoji/maximum_color.py:59-70 | the table found is one the font has, and the other kind is absent |
| MaximumColor.PicosvgDestKeepsName | src/nanoemoji/maximum_color.py:81-86 | the destination lies directly in the build directory's picosvg folder and keeps the input's file name; inputs with the same file name share one destination |
| MaximumColor.BasenameAfterSlash | src/nanoemoji/maximum_color.py:81-86 | the base name of "<dir>/<name>" is the name |
| MaximumColor.RunChecks | src/nanoemoji/maximum_color.py:250-259 | a build goes ahead exactly when there is one argument, destroy_non_color_glyphs is set, the input exists and has one vector colour table; the failures are ValueError, NotImplementedError, AssertionError and the table's error, in that order |
| ExtractSvgs.SvgDoc.constructor | src/nanoemoji/extract_svgs.py:31 | a document holding the given root children |
| ExtractSvgs.SvgDoc.RemoveGlyphRoots | src/nanoemoji/extract_svgs.py:33-37 | the root children with id "glyph<gid>" are removed and every other child is kept, in order |
| ExtractSvgs.GlyphElementId | src/nanoemoji/extract_svgs.py:33 | the id looked for is "glyph" followed by the gid in decimal |
| ExtractSvgs.GlyphElementIdsDiffer | src/nanoemoji/extract_svgs.py:33 | two gids give the same id exactly when they are equal |
| ExtractSvgs.KeptMembers | src/nanoemoji/extract_svgs.py:32-37 | a child is kept exactly when it was there and is no root of any of the glyphs removed |
| ExtractSvgs.RemoveRootsKept | src/nanoemoji/extract_svgs.py:32-37 | removing one more glyph's roots from what is kept is removing them all |
| ExtractSvgs.RemoveRootsAppend | src/nanoemoji/extract_svgs.py:33-37 | removal works child by child |
| ExtractSvgs.KeptNothing | src/nanoemoji/extract_svgs.py:31-38 | removing no glyphs keeps every child |
| ExtractSvgs.RemoveGlyphElements | src/nanoemoji/extract_svgs.py:25-38 | a fresh copy keeps exactly the children that are no root of the given glyphs; the document passed in is not changed |
| ExtractSvgs.RemoveOneMore | src/nanoemoji/extract_svgs.py:32-37 | one more round of the loop removes the next glyph's roots |
| ExtractSvgs.KeptIsFilter | src/nanoemoji/extract_svgs.py:32-37 | what is kept depends only on the set of glyphs removed, and a child that is no such root is always kept |
| ExtractSvgs.KeptSameSet | src/nanoemoji/extract_svgs.py:43-48 | the same set of gids in another order removes the same children |
| ExtractSvgs.RangeExcept | src/nanoemoji/extract_svgs.py:48 | the gids of the range other than the one kept |
| ExtractSvgs.DocGlyphs | src/nanoemoji/extract_svgs.py:42-49 | one SVG per gid of a document's range, in gid order, each the document without the other gids' roots |
| ExtractSvgs.YieldsAppend | src/nanoemoji/extract_svgs.py:45-49 | yielding two runs in turn yields them one after the other |
| ExtractSvgs.GlyphSvg | src/nanoemoji/extract_svgs.py:46-48 | the SVG for one gid: the document itself when it has one gid, else a copy without the other gids' roots |
| ExtractSvgs.DocGlyphsPrefix | src/nanoemoji/extract_svgs.py:45-49 | one more gid of the loop adds its pair |
| ExtractSvgs.DocSvgs | src/nanoemoji/extract_svgs.py:43-49 | the inner loop yields exactly DocGlyphs of the document |
| ExtractSvgs.SvgGlyphs | src/nanoemoji/extract_svgs.py:41-49 | for each document in turn, each gid of its range with its SVG |
| ExtractSvgs.HasGidAppend | src/nanoemoji/extract_svgs.py:42-49 | a gid is yielded by two runs exactly when one of them yields it |
| ExtractSvgs.DocGlyphsGids | src/nanoemoji/extract_svgs.py:43-45 | a document yields exactly the gids of its range |
| ExtractSvgs.CoversSnoc | src/nanoemoji/extract_svgs.py:42 | a gid is covered by the documents exactly when it is covered by the earlier ones or the last |
| ExtractSvgs.AllGlyphsGids | src/nanoemoji/extract_svgs.py:41-49 | every gid of every document's range is yielded, and only those |
| ExtractSvgs.SingleGidUnchanged | src/nanoemoji/extract_svgs.py:46-47 | a document with a single gid is yielded as parsed |
| ExtractSvgs.MultiGidSplit | src/nanoemoji/extract_svgs.py:47-48 | in a document of several gids, the SVG for gid g keeps g's roots and everything that is no glyph root of the range, and drops the roots of the range's other gids |
| SvgDocs.Range | src/nanoemoji/glue_together.py:60 | range(min_gid, max_gid + 1): the gids from the first to the last, in order, none for an inverted range |
| SvgDocs.RangeMembers | src/nanoemoji/glue_together.py:60 | a gid is in a document's range exactly when it lies between its first and last gid |
| SvgDocs.DocGidsMembers | src/nanoemoji/glue_together.py:59-60 | a gid is listed exactly when some document covers it |
| SvgDocs.DocGidsAppend | src/nanoemoji/glue_together.py:59-60 | the gids of two runs of documents follow each other |

## Left out

- Svg.UpdateGlyphOrder: uses the corrected `Svg.DropLast`, so with no colour glyphs the glyph order is kept; the `[:-0]` slice of svg.py:132 as written would empty it (see "## Findings").
- SvgTable.GroupDoc: gives each document its own `id_updates` map; svg.py:160 as written shares one map across documents (see "## Findings").
- SvgTable.GroupDocs: builds each document with `SvgTable.GroupDoc`, so each has its own `id_updates` map where svg.py:160 shares one across the loop; a gradient used in two documents gets a def in each, where as written the later document has none.
- SvgTable.WriteGroups: its glyph order is `Svg.DropLast` of the old order followed by the groups (the corrected svg.py:132, which keeps the order when there are no colour glyphs) and its documents are those of `SvgTable.GroupDocs` (the corrected svg.py:160).
- SvgTable.MakeSvgTable: states the glyph order and documents of `SvgTable.WriteGroups`, so it carries both corrections of svg.py:132 and svg.py:160.
- Config.NextMaster: a source-name mismatch is the corrected ValueError of `Config.MergeNames`; config.py:313 as written raises NameError (see "## Findings").
- Config.LoadMasters: checks each master's source names with `Config.NextMaster`, so a mismatch is the corrected ValueError, not config.py:313's NameError.
- Config.MasterSection: loads the masters with `Config.LoadMasters`, so a source-name mismatch is its corrected ValueError, not NameError.
- Config.Load: loads the masters through `Config.MasterSection`, so a source-name mismatch is the corrected ValueError, not NameError.
- Config.Convert: a colour format that is not a string is a TypeError when loading; config.py:245 stores any value, and the failure would only come at its first string use (`has_picosvgs`).
- Config.Normalize: the POSIX special case of a path that starts with exactly two slashes, which pathlib keeps as its root, is folded into the single-slash root.
- Config.ResolvedSources: `Path.resolve` is a parameter of the file system; following symbolic links and making a relative path absolute are what that parameter does, and `Config.ResolvedSourcesMembers` assumes only whether it keeps distinct paths apart.
- Parts.ShapeOf: a JSON number, boolean or null shape becomes the str() of that value, so `5` and `"5"` give one shape; parts.py:122 keeps the non-string value in the Shape, which then differs from the string.
- Util.Only: the default `filter_fn` (the element's own truth value) is not modelled, callers pass the test; and `assert next(it, None) is None`, which lets a second passing element that is itself None through, is modelled as failing on any second passing element, since a generic element has no None.
- ColorGlyphs.SpreadMethod: the upper-casing, lower-casing and stripping helpers work on ASCII letters and spaces; Python's `str.upper` and `str.strip` are Unicode-aware (`"reﬂect".upper()` is `"REFLECT"`).
- WriteGlyphgraph.PaintNode: the node id of a paint is a parameter, so failures inside `_paint_node`'s own id computation are not modelled.
- Text.IsSpace: the whitespace that `str.strip` and `str.split` remove is modelled for ASCII only (space, tab to carriage return, U+001C to U+001F); non-ASCII whitespace such as U+0085 or U+00A0 is not.
- Parts.IsIterableOf: `_is_iterable_of` consumes the first element of a one-shot iterator (parts.py:35-41); the model's iterables are sequences and are not consumed.
- MaximumColor.PathJoin: joins with "/" and keeps a doubled slash such as "a//x", which pathlib would collapse.
- ColrToSvg: src/nanoemoji/colr_to_svg.py at this revision cannot be imported: it imports names that svg.py does not define (`_svg_matrix`, `_apply_solid_paint` and others) and calls `color_glyph.map_viewbox_to_font_space`, which does not exist. The ColrToSvg members model the parts that need none of these (the table version check, the colour lookup, the glyph region and `_apply_transform`) as the code reads.
- fontTools, ufoLib2, ufo2ft, lxml, graphviz and PIL are foreign code: tables, glyf entries and hmtx metrics are opaque values, and the calls into these libraries are parameters or recorded steps.
- picosvg's geometry (`normalize`, `affine_between`, `Affine2D` arithmetic, `SVGPath` parsing and skia/pathops) is foreign: it is a parameter with no assumed algebra.
- pathops' `decompose_quadratic_segment`, used by `SVGPathPen.qCurveTo`, is foreign; it is modelled by its definition, `SvgPath.QuadSegments`, which pairs each off-curve point with the midpoint to the next one, the last with the final on-curve point.
- Floating-point work is not modelled: the view box to em square transforms, gradient parsing and coordinate mapping, `BitmapMetrics.create` rounding, `_ppem`, `_width_in_pixels`, `round_floats` in colr_to_svg and alpha values. Where a float is compared against a range it is a real.
- The SHA-1 digest and base32 encoding of over-long glyph names are a parameter, constrained only to yield 32 base32 characters.
- CSV quoting is not modelled: fields are assumed to hold no commas or quotes, so rows are joined and split on commas.
- File and process I/O is not modelled: reading the feature file in write_font, saving fonts and UFOs, reading a config or parts file's text, `parse_csv`, and logging.
- Every `main`, the absl flags, file-system globbing and `Path.resolve` (parameters of `Config.FileSystem`), TOML `config.write`, `_resolve_config`, the ninja writers and the subprocess wrappers are build plumbing outside the core.
- `util.only` is called with its arguments swapped at `src/nanoemoji/write_font2png.py:36` and `src/nanoemoji/write_glyphmap_for_glyph_svgs.py:33`; those CLIs are not part of this model, and `Util.Only` models the function itself.
- WriteFont.NewUfo: the UFO info fields other than the units per em that `_ufo` sets (names, version, ascender, descender, the OS/2 selection flags) and the `ufo.lib[KEEP_GLYPH_NAMES]` entry it sets from `keep_glyph_names` (write_font.py:182) are not needed by the modelled code and are not modelled.
- The colour format generators' own table building (`_glyf_ufo`, `_colr_ufo`, `_svg_ttfont`, the bitmap builders) and ufo2ft's compile are recorded as the step taken, not executed.
- The SVG markup built by colr_to_svg's `_colr_v0_glyph_to_svg`/`_colr_v1_glyph_to_svg` is not modelled; the table version check that selects them, the colour lookup, the glyph region and `_apply_transform` are.
- `ReuseableParts.to_json` is not modelled: JSON serialisation of a dictionary is foreign; the JSON branch of `fromstring` takes the parsed object as a parameter.
- The order in which Python iterates a `set` or `dict` is not modelled: blank glyphs are added in any order that covers the missing code points, `_copy_colr`'s glyph set is a sequence of distinct names, and glyph ids are visited in ascending order.
- Generators such as `_inputs` and `svg_glyphs` are modelled as the whole sequence they yield, not as lazy streams.
- `chr`'s ValueError for values above 0x10FFFF is not modelled in `glyph._name`: a code point is a natural number below 0x110000.
- The coverage glyph list and its parallel list, which are Python lists overwritten in place, are objects holding a sequence; aliasing between them is not modelled.
- ColrTraverse.Visits: the breadth-first walk runs on a fuel bound and returns OutOfFuel when it is exhausted, so a PaintColrGlyph cycle, on which the source loops forever, is not modelled as divergence.
- VfOverhead.CountOverhead: it walks each base glyph with `ColrTraverse.Visits` and so shares its fuel bound; a cycle ends in OutOfFuel instead of never returning.
- The repository-root prototypes (`color_glyph.py`, `paint.py`, `glyph.py`, `make_emoji_font.py`), `src/nanoemoji/paint.py`, the `tools/` scripts and the variable-font, keep/strip glyph name and report CLIs are not part of this model.
- Tests written against newer APIs (`ReusableParts`, `compute_donors`, `GlyphReuseCache(parts)`) describe code that is not in these sources and are not modelled.

## Findings

| source | as written | input that shows it | evidently intended | confidence | as-written member | corrected member |
|---|---|---|---|---|---|---|
| src/nanoemoji/svg.py:132 | the glyph order is cut with `[:-len(color_glyphs)]` | no colour glyphs: the glyph order `[".notdef"]` becomes empty, because `[:-0]` is `[:0]` | drop the last n names, keeping the whole order when n is 0 | not executed | Svg.NoColorGlyphsDropsEverything | Svg.DropLast |
| src/nanoemoji/svg.py:160 | one `id_updates` map is shared by every document while gradients are added | two glyphs in different documents using the same gradient: the second document gets no def and its glyph points at the first document's id | each document holds the defs of the gradients its own glyphs use | not executed | SvgTable.SharedUpdatesLoseGradient | SvgTable.DocRefsResolve |
| src/nanoemoji/config.py:313 | the mismatch message formats the undefined name `fonts` | a master with sources `a.svg` and a second master whose sources match nothing: NameError is raised | raise ValueError naming the two lists of sources | not executed | Config.MismatchIsNameError | Config.MergeNames |
