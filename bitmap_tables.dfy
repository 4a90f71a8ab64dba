// Layout of the CBDT/CBLC bitmap tables (src/nanoemoji/bitmap_tables.py):
// nudging metrics into range, record sizes and offsets, the size check,
// and the split of the colour glyphs into runs of consecutive glyph ids.
// A bitmap is reduced to its glyph id, file name, pixel size and the
// length of its PNG data; the float metrics are not modelled.
module BitmapTables {
  import opened Wrappers
  import opened Sorting
  import opened Orders
  import opened Seqs

  const Int8Min: int := -128
  const Int8Max: int := 127
  const Uint8Min: int := 0
  const Uint8Max: int := 255

  const CbdtHeaderSize: nat := 4
  const CbdtSmallMetricPngs: int := 17
  /** SmallGlyphMetrics (5 bytes) and dataLen (4 bytes). */
  const CbdtSmallMetricPngHeaderSize: nat := 5 + 4
  const DefaultMaxMove: int := 1

  /** _nudge_into_range on the range lo..hi (both included): a value at
      most maxMove outside the range is moved onto its nearest end. */
  function NudgeIntoRange(lo: int, hi: int, value: int, maxMove: int): (r: int)
    requires lo <= hi
    ensures r == value || r == lo || r == hi
    ensures lo <= value <= hi ==> r == value
    ensures maxMove >= 0 ==> (lo <= r <= hi <==> lo - maxMove <= value <= hi + maxMove)
    ensures maxMove >= 0 ==> value - maxMove <= r <= value + maxMove
  {
    if lo <= value <= hi then value
    else if value > hi && value - maxMove <= hi then hi
    else if value < lo && value + maxMove >= lo then lo
    else value
  }

  /** Nudging twice is nudging once. */
  lemma NudgeIdempotent(lo: int, hi: int, value: int, maxMove: int)
    requires lo <= hi
    ensures NudgeIntoRange(lo, hi, NudgeIntoRange(lo, hi, value, maxMove), maxMove) == NudgeIntoRange(lo, hi, value, maxMove)
  {
  }

  /** With the default move of one, 128 becomes 127 and -129 becomes -128
      in the int8 range, but 129 stays out. */
  lemma NudgeExamples()
    ensures NudgeIntoRange(Int8Min, Int8Max, 128, DefaultMaxMove) == 127
    ensures NudgeIntoRange(Int8Min, Int8Max, -129, DefaultMaxMove) == -128
    ensures NudgeIntoRange(Int8Min, Int8Max, 129, DefaultMaxMove) == 129
  {
  }

  /** _cbdt_record_size: only small-metrics PNG records are known. */
  function CbdtRecordSize(imageFormat: int, dataLen: nat): (r: Result<nat>)
    ensures r.Ok? <==> imageFormat == CbdtSmallMetricPngs
    ensures r.Err? ==> r.error == AssertionError
    ensures r.Ok? ==> r.value == 9 + dataLen
  {
    if imageFormat != CbdtSmallMetricPngs then Err(AssertionError)
    else Ok(CbdtSmallMetricPngHeaderSize + dataLen)
  }

  /** The bytes taken by records of the given data lengths. */
  function RecordBytes(sizes: seq<nat>): nat
  {
    if |sizes| == 0 then 0
    else RecordBytes(sizes[..|sizes| - 1]) + CbdtSmallMetricPngHeaderSize + sizes[|sizes| - 1]
  }

  lemma RecordBytesStep(sizes: seq<nat>, k: nat)
    requires k < |sizes|
    ensures RecordBytes(sizes[..k + 1]) == RecordBytes(sizes[..k]) + 9 + sizes[k]
  {
    assert sizes[..k + 1][..k] == sizes[..k];
  }

  /** _cbdt_bitmapdata_offsets: the (start, end) of each record, the first
      at initialOffset and each one right after the previous. */
  method CbdtBitmapdataOffsets(initialOffset: int, imageFormat: int, sizes: seq<nat>)
    returns (r: Result<seq<(int, int)>>)
    ensures r.Err? <==> |sizes| > 0 && imageFormat != CbdtSmallMetricPngs
    ensures r.Err? ==> r.error == AssertionError
    ensures r.Ok? ==> |r.value| == |sizes|
    ensures r.Ok? ==> forall k :: 0 <= k < |sizes| ==>
              r.value[k] == (initialOffset + RecordBytes(sizes[..k]), initialOffset + RecordBytes(sizes[..k + 1]))
  {
    var offsets: seq<int> := [];
    var offset := initialOffset;
    var i := 0;
    while i < |sizes|
      invariant 0 <= i <= |sizes|
      invariant i > 0 ==> imageFormat == CbdtSmallMetricPngs
      invariant |offsets| == i && offset == initialOffset + RecordBytes(sizes[..i])
      invariant forall k :: 0 <= k < i ==> offsets[k] == initialOffset + RecordBytes(sizes[..k])
    {
      offsets := offsets + [offset];
      var size := CbdtRecordSize(imageFormat, sizes[i]);
      if size.Err? {
        return Err(size.error);
      }
      RecordBytesStep(sizes, i);
      offset := offset + size.value;
      i := i + 1;
    }
    offsets := offsets + [offset];
    assert sizes[..i] == sizes;
    r := Ok(seq(|sizes|, k requires 0 <= k < |sizes| => (offsets[k], offsets[k + 1])));
  }

  datatype ColorBitmap = ColorBitmap(glyphId: int, filename: string, width: int, height: int, dataLen: nat)

  /** max(c.bitmap.size) not in range(0, 256) */
  predicate TooBig(c: ColorBitmap)
  {
    var m := if c.width >= c.height then c.width else c.height;
    !(Uint8Min <= m <= Uint8Max)
  }

  function Filter<T(!new)>(s: seq<T>, p: T -> bool): (r: seq<T>)
    ensures |r| <= |s|
    ensures forall x :: x in r <==> x in s && p(x)
  {
    if |s| == 0 then [] else (if p(s[0]) then [s[0]] else []) + Filter(s[1..], p)
  }

  function Filename(c: ColorBitmap): string { c.filename }

  function Filenames(cs: seq<ColorBitmap>): (r: seq<string>)
    ensures |r| == |cs| && forall k :: 0 <= k < |cs| ==> r[k] == cs[k].filename
  {
    seq(|cs|, k requires 0 <= k < |cs| => cs[k].filename)
  }

  /** The file names raise_if_too_big_for_cbdt lists: the offending
      bitmaps sorted by file name. */
  function TooBigNames(glyphs: seq<ColorBitmap>): seq<string>
  {
    Filenames(Sort(Filter(glyphs, TooBig), ByKey(Filename, StrLe)))
  }

  function RaiseIfTooBigForCbdt(glyphs: seq<ColorBitmap>): (r: Outcome)
    ensures r.Fail? <==> exists k :: 0 <= k < |glyphs| && TooBig(glyphs[k])
    ensures r.Fail? ==> r.error == ValueError
  {
    var tooBig := Filter(glyphs, TooBig);
    if |tooBig| == 0 then
      assert forall k :: 0 <= k < |glyphs| ==> glyphs[k] in glyphs;
      Pass
    else
      assert tooBig[0] in tooBig;
      Fail(ValueError)
  }

  /** The listed names are in order and are exactly those of the bitmaps
      that are too big. */
  lemma TooBigListed(glyphs: seq<ColorBitmap>)
    ensures SortedBy(TooBigNames(glyphs), StrLe)
    ensures forall name :: name in TooBigNames(glyphs) <==>
              exists k :: 0 <= k < |glyphs| && TooBig(glyphs[k]) && glyphs[k].filename == name
  {
    var le := ByKey(Filename, StrLe);
    StrOrder();
    ByKeyOrder(Filename, StrLe);
    var tooBig := Filter(glyphs, TooBig);
    var sorted := Sort(tooBig, le);
    SortSorted(tooBig, le);
    SortMembers(tooBig, le);
    var names := Filenames(sorted);
    forall i, j | 0 <= i < j < |names| ensures StrLe(names[i], names[j]) {
      assert le(sorted[i], sorted[j]);
    }
    forall name ensures name in names <==>
        exists k :: 0 <= k < |glyphs| && TooBig(glyphs[k]) && glyphs[k].filename == name {
      if name in names {
        var i :| 0 <= i < |names| && names[i] == name;
        assert sorted[i] in tooBig;
        var k :| 0 <= k < |glyphs| && glyphs[k] == sorted[i];
      }
      if exists k :: 0 <= k < |glyphs| && TooBig(glyphs[k]) && glyphs[k].filename == name {
        var k :| 0 <= k < |glyphs| && TooBig(glyphs[k]) && glyphs[k].filename == name;
        assert glyphs[k] in sorted;
        var i :| 0 <= i < |sorted| && sorted[i] == glyphs[k];
        assert names[i] == name;
      }
    }
  }

  /** A run of glyphs whose ids go up by one. */
  predicate Consecutive(run: seq<ColorBitmap>)
  {
    forall k :: 0 <= k < |run| - 1 ==> run[k + 1].glyphId == run[k].glyphId + 1
  }

  /** The length of the run of consecutive ids at the front of s. */
  function RunLength(s: seq<ColorBitmap>): (n: nat)
    requires |s| > 0
    ensures 1 <= n <= |s| && Consecutive(s[..n])
    ensures n == |s| || s[n].glyphId != s[n - 1].glyphId + 1
  {
    if |s| == 1 || s[1].glyphId != s[0].glyphId + 1 then 1
    else
      var m := RunLength(s[1..]);
      assert forall k :: 0 <= k < m ==> s[..m + 1][k + 1] == s[1..][..m][k];
      m + 1
  }

  /** The front run is the only consecutive, maximal prefix. */
  lemma {:induction false} RunLengthUnique(s: seq<ColorBitmap>, m: nat)
    requires 1 <= m <= |s| && Consecutive(s[..m])
    requires m == |s| || s[m].glyphId != s[m - 1].glyphId + 1
    ensures m == RunLength(s)
    decreases m
  {
    if m > 1 {
      var t := s[1..];
      assert s[..m][1] == s[1] && s[..m][0] == s[0];
      var u, v := t[..m - 1], s[..m];
      assert Consecutive(u) by {
        forall k | 0 <= k < |u| - 1 ensures u[k + 1].glyphId == u[k].glyphId + 1 {
          assert u[k + 1] == v[k + 2] && u[k] == v[k + 1];
        }
      }
      assert m - 1 < |t| ==> t[m - 1] == s[m] && t[m - 2] == s[m - 1];
      RunLengthUnique(t, m - 1);
    }
  }

  /** The runs make_cbdt_table cuts off, in order. */
  function SplitRuns(s: seq<ColorBitmap>): seq<seq<ColorBitmap>>
    decreases |s|
  {
    if |s| == 0 then [] else [s[..RunLength(s)]] + SplitRuns(s[RunLength(s)..])
  }

  /** SplitRuns unfolded once, at a known front run length. */
  lemma SplitRunsFront(s: seq<ColorBitmap>, n: nat)
    requires |s| > 0 && n == RunLength(s)
    ensures SplitRuns(s) == [s[..n]] + SplitRuns(s[n..])
  {
  }

  /** Every run is non-empty and consecutive. */
  predicate AllConsecutive(runs: seq<seq<ColorBitmap>>)
  {
    forall i :: 0 <= i < |runs| ==> |runs[i]| > 0 && Consecutive(runs[i])
  }

  /** No run could be extended by the first glyph of the next. */
  predicate AllMaximal(runs: seq<seq<ColorBitmap>>)
    requires AllConsecutive(runs)
  {
    forall i :: 0 <= i < |runs| - 1 ==> runs[i + 1][0].glyphId != runs[i][|runs[i]| - 1].glyphId + 1
  }

  /** runs cut s into non-empty runs of consecutive ids, each as long as
      it can be. */
  predicate IsRunSplit(runs: seq<seq<ColorBitmap>>, s: seq<ColorBitmap>)
  {
    Flatten(runs) == s && AllConsecutive(runs) && AllMaximal(runs)
  }

  /** A split is its first run followed by a split of the rest. */
  lemma RunSplitCons(runs: seq<seq<ColorBitmap>>, s: seq<ColorBitmap>, n: nat)
    requires |runs| > 0 && n == |runs[0]| && n <= |s| && runs[0] == s[..n]
    ensures IsRunSplit(runs, s) <==>
              && |runs[0]| > 0 && Consecutive(runs[0]) && IsRunSplit(runs[1..], s[n..])
              && (|runs| > 1 ==> runs[1][0].glyphId != runs[0][n - 1].glyphId + 1)
  {
    var tail := runs[1..];
    assert forall i :: 0 <= i < |tail| ==> tail[i] == runs[i + 1];
    assert Flatten(runs) == runs[0] + Flatten(tail);
    assert s == s[..n] + s[n..];
    if AllConsecutive(runs) {
      assert AllConsecutive(tail);
    }
    if |runs[0]| > 0 && Consecutive(runs[0]) && AllConsecutive(tail) {
      assert AllConsecutive(runs) by {
        forall i | 0 <= i < |runs| ensures |runs[i]| > 0 && Consecutive(runs[i]) {
          if i > 0 {
            assert runs[i] == tail[i - 1];
          }
        }
      }
    }
    if AllConsecutive(runs) && AllMaximal(runs) {
      assert AllMaximal(tail) by {
        forall i | 0 <= i < |tail| - 1
          ensures tail[i + 1][0].glyphId != tail[i][|tail[i]| - 1].glyphId + 1
        {
          assert tail[i] == runs[i + 1] && tail[i + 1] == runs[i + 2];
        }
      }
    }
  }

  /** The first glyph of a split's second run is the glyph after its first
      run. */
  lemma SecondRunStart(runs: seq<seq<ColorBitmap>>, s: seq<ColorBitmap>)
    requires |runs| > 1 && IsRunSplit(runs[1..], s) 
    ensures |s| > 0 && runs[1][0] == s[0]
  {
    var tail := runs[1..];
    assert tail[0] == runs[1];
    assert Flatten(tail) == tail[0] + Flatten(tail[1..]);
  }

  lemma {:induction false} SplitRunsIsRunSplit(s: seq<ColorBitmap>)
    ensures IsRunSplit(SplitRuns(s), s)
    decreases |s|
  {
    if |s| > 0 {
      var n := RunLength(s);
      SplitRunsIsRunSplit(s[n..]);
      var runs := SplitRuns(s);
      assert runs == [s[..n]] + SplitRuns(s[n..]);
      assert runs[1..] == SplitRuns(s[n..]);
      if |runs| > 1 {
        SecondRunStart(runs, s[n..]);
      }
      RunSplitCons(runs, s, n);
    }
  }

  /** The first run of a split is the front run make_cbdt_table grabs. */
  lemma FrontRun(runs: seq<seq<ColorBitmap>>, s: seq<ColorBitmap>)
    requires IsRunSplit(runs, s) && |runs| > 0
    ensures |s| > 0 && |runs[0]| == RunLength(s)
    ensures s[..|runs[0]|] == runs[0] && IsRunSplit(runs[1..], s[|runs[0]|..])
  {
    var m := |runs[0]|;
    var tail := runs[1..];
    assert s == runs[0] + Flatten(tail);
    assert s[..m] == runs[0];
    RunSplitCons(runs, s, m);
    if |tail| > 0 {
      SecondRunStart(runs, s[m..]);
      assert s[m] == runs[1][0];
      assert s[m - 1] == runs[0][m - 1];
    }
    RunLengthUnique(s, m);
  }

  /** The split is unique: any cut into maximal consecutive runs is the one
      make_cbdt_table makes. */
  lemma {:induction false} RunSplitUnique(runs: seq<seq<ColorBitmap>>, s: seq<ColorBitmap>)
    requires IsRunSplit(runs, s)
    ensures runs == SplitRuns(s)
    decreases |s|
  {
    if |runs| > 0 {
      var m := |runs[0]|;
      FrontRun(runs, s);
      RunSplitUnique(runs[1..], s[m..]);
      SplitRunsFront(s, m);
      assert runs == [runs[0]] + runs[1..];
    } else {
      assert s == [];
    }
  }

  /** _make_cbdt_strike's assertion holds for every run: its ids span
      exactly its length. */
  lemma {:induction false} RunSpan(run: seq<ColorBitmap>)
    requires |run| > 0 && Consecutive(run)
    ensures run[|run| - 1].glyphId - run[0].glyphId + 1 == |run|
  {
    if |run| > 1 {
      var p := run[..|run| - 1];
      assert Consecutive(p) by {
        forall k | 0 <= k < |p| - 1 ensures p[k + 1].glyphId == p[k].glyphId + 1 {
          assert p[k + 1] == run[k + 1] && p[k] == run[k];
        }
      }
      RunSpan(p);
    }
  }

  function GlyphId(c: ColorBitmap): int { c.glyphId }

  /** sorted(color_glyphs, key=lambda c: c.glyph_id) */
  function ByGid(glyphs: seq<ColorBitmap>): seq<ColorBitmap>
  {
    Sort(glyphs, ByKey(GlyphId, IntLe))
  }

  /** The bitmaps of a run share one pixel height, as the `only` over the
      set of heights requires. */
  predicate SameHeight(run: seq<ColorBitmap>)
  {
    forall k :: 0 <= k < |run| ==> run[k].height == run[0].height
  }

  function Sizes(run: seq<ColorBitmap>): (r: seq<nat>)
    ensures |r| == |run| && forall k :: 0 <= k < |run| ==> r[k] == run[k].dataLen
  {
    seq(|run|, k requires 0 <= k < |run| => run[k].dataLen)
  }

  function RunBytes(run: seq<ColorBitmap>): nat
  {
    RecordBytes(Sizes(run))
  }

  /** offsets[i] is where the data of runs[i] starts: right after the CBDT
      header for the first, right after the previous run's records for the
      others. */
  predicate StrikeOffsets(runs: seq<seq<ColorBitmap>>, offsets: seq<int>)
  {
    |offsets| == |runs| && (|runs| > 0 ==> offsets[0] == CbdtHeaderSize) &&
    forall i :: 0 <= i < |runs| - 1 ==> offsets[i + 1] == offsets[i] + RunBytes(runs[i])
  }

  /** Where the data of a further run would start. */
  function NextOffset(runs: seq<seq<ColorBitmap>>, offsets: seq<int>): int
    requires |offsets| == |runs|
  {
    if |runs| == 0 then CbdtHeaderSize else offsets[|runs| - 1] + RunBytes(runs[|runs| - 1])
  }

  lemma OffsetsStep(runs: seq<seq<ColorBitmap>>, offsets: seq<int>, run: seq<ColorBitmap>)
    requires StrikeOffsets(runs, offsets)
    ensures StrikeOffsets(runs + [run], offsets + [NextOffset(runs, offsets)])
    ensures NextOffset(runs + [run], offsets + [NextOffset(runs, offsets)]) == NextOffset(runs, offsets) + RunBytes(run)
  {
    var runs', offsets' := runs + [run], offsets + [NextOffset(runs, offsets)];
    forall i | 0 <= i < |runs'| - 1 ensures offsets'[i + 1] == offsets'[i] + RunBytes(runs'[i]) {
      assert runs'[i] == runs[i] && offsets'[i] == offsets[i];
    }
  }

  /** Successive strikes start at strictly increasing offsets. */
  lemma {:induction false} OffsetsIncrease(runs: seq<seq<ColorBitmap>>, offsets: seq<int>)
    requires StrikeOffsets(runs, offsets) && forall i :: 0 <= i < |runs| ==> |runs[i]| > 0
    ensures forall i, j :: 0 <= i < j < |offsets| ==> CbdtHeaderSize <= offsets[i] < offsets[j]
  {
    if |runs| > 1 {
      var p, q := runs[..|runs| - 1], offsets[..|offsets| - 1];
      assert StrikeOffsets(p, q) by {
        forall i | 0 <= i < |p| - 1 ensures q[i + 1] == q[i] + RunBytes(p[i]) {
          assert p[i] == runs[i] && q[i] == offsets[i] && q[i + 1] == offsets[i + 1];
        }
      }
      OffsetsIncrease(p, q);
      var n := |runs| - 2;
      RunBytesAtLeast(runs[n]);
      assert offsets[n + 1] == offsets[n] + RunBytes(runs[n]);
      forall i, j | 0 <= i < j < |offsets| ensures CbdtHeaderSize <= offsets[i] < offsets[j] {
        if j < |offsets| - 1 {
          assert offsets[i] == q[i] && offsets[j] == q[j];
        } else if i < n {
          assert offsets[i] == q[i] && offsets[n] == q[n];
        }
      }
    }
  }

  /** The inner loop of make_cbdt_table: how far the run of consecutive
      ids at the front goes. */
  method NextRunLength(rest: seq<ColorBitmap>) returns (end: nat)
    requires |rest| > 0
    ensures end == RunLength(rest)
  {
    end := 1;
    while |rest| > end && rest[end].glyphId == rest[end - 1].glyphId + 1
      invariant 1 <= end <= |rest| && Consecutive(rest[..end])
    {
      assert forall k :: 0 <= k < end - 1 ==> rest[..end + 1][k] == rest[..end][k];
      end := end + 1;
    }
    RunLengthUnique(rest, end);
  }

  /** What make_cbdt_strike contributes to the layout: the run must share
      one pixel height, and the strike's records end RunBytes(run) past
      the offset it starts at. */
  method MakeCbdtStrike(dataOffset: int, run: seq<ColorBitmap>) returns (r: Result<int>)
    requires |run| > 0
    ensures r.Err? <==> !SameHeight(run)
    ensures r.Err? ==> r.error == AssertionError
    ensures r.Ok? ==> r.value == dataOffset + RunBytes(run)
  {
    if !SameHeight(run) {
      return Err(AssertionError);
    }
    var locations := CbdtBitmapdataOffsets(dataOffset, CbdtSmallMetricPngs, Sizes(run));
    assert Sizes(run)[..|run|] == Sizes(run);
    r := Ok(locations.value[|run| - 1].1);
  }

  /** The layout make_cbdt_table builds: the runs of consecutive glyph ids
      of the gid-sorted bitmaps and the data offset each run's strike
      starts at.  The first starts right after the CBDT header and each
      next one where the previous one's records end. */
  method MakeCbdtLayout(glyphs: seq<ColorBitmap>) returns (r: Result<(seq<seq<ColorBitmap>>, seq<int>)>)
    ensures r.Err? <==> RaiseIfTooBigForCbdt(glyphs).Fail? ||
                        exists i :: 0 <= i < |SplitRuns(ByGid(glyphs))| && !SameHeight(SplitRuns(ByGid(glyphs))[i])
    ensures r.Err? ==> r.error == (if RaiseIfTooBigForCbdt(glyphs).Fail? then ValueError else AssertionError)
    ensures r.Ok? ==> r.value.0 == SplitRuns(ByGid(glyphs)) && StrikeOffsets(r.value.0, r.value.1)
  {
    var check := RaiseIfTooBigForCbdt(glyphs);
    if check.Fail? {
      return Err(check.error);
    }
    r := MakeStrikes(ByGid(glyphs));
  }

  predicate AllSameHeight(runs: seq<seq<ColorBitmap>>)
  {
    forall i :: 0 <= i < |runs| ==> SameHeight(runs[i])
  }

  lemma SameHeightStep(runs: seq<seq<ColorBitmap>>, run: seq<ColorBitmap>)
    requires AllSameHeight(runs) && SameHeight(run)
    ensures AllSameHeight(runs + [run])
  {
    assert forall i :: 0 <= i < |runs| ==> (runs + [run])[i] == runs[i];
  }

  /** The strike loop of make_cbdt_table over gid-sorted bitmaps. */
  method MakeStrikes(sorted: seq<ColorBitmap>) returns (r: Result<(seq<seq<ColorBitmap>>, seq<int>)>)
    ensures r.Err? <==> exists i :: 0 <= i < |SplitRuns(sorted)| && !SameHeight(SplitRuns(sorted)[i])
    ensures r.Err? ==> r.error == AssertionError
    ensures r.Ok? ==> r.value.0 == SplitRuns(sorted) && StrikeOffsets(r.value.0, r.value.1)
  {
    var rest := sorted;
    var runs: seq<seq<ColorBitmap>> := [];
    var offsets: seq<int> := [];
    var dataOffset: int := CbdtHeaderSize;
    ghost var expected := SplitRuns(sorted);
    while |rest| > 0
      invariant expected == runs + SplitRuns(rest)
      invariant AllSameHeight(runs)
      invariant StrikeOffsets(runs, offsets)
      invariant dataOffset == NextOffset(runs, offsets)
      decreases |rest|
    {
      var end := NextRunLength(rest);
      var run := rest[..end];
      ghost var later := SplitRuns(rest[end..]);
      SplitRunsFront(rest, end);
      AppendAssociative(runs, [run], later);
      rest := rest[end..];
      var strike := MakeCbdtStrike(dataOffset, run);
      if strike.Err? {
        assert expected[|runs|] == run;
        return Err(strike.error);
      }
      var last := strike.value;
      OffsetsStep(runs, offsets, run);
      SameHeightStep(runs, run);
      runs, offsets := runs + [run], offsets + [dataOffset];
      dataOffset := if last > dataOffset then last else dataOffset;
    }
    assert runs == expected;
    r := Ok((runs, offsets));
  }

  /** The runs of the layout are the maximal consecutive runs of the
      gid-sorted bitmaps, and their data offsets strictly increase. */
  lemma LayoutRuns(glyphs: seq<ColorBitmap>)
    ensures IsRunSplit(SplitRuns(ByGid(glyphs)), ByGid(glyphs))
    ensures SortedBy(Flatten(SplitRuns(ByGid(glyphs))), ByKey(GlyphId, IntLe))
    ensures multiset(Flatten(SplitRuns(ByGid(glyphs)))) == multiset(glyphs)
  {
    SplitRunsIsRunSplit(ByGid(glyphs));
    IntOrder();
    ByKeyOrder(GlyphId, IntLe);
    SortSorted(glyphs, ByKey(GlyphId, IntLe));
    SortPerm(glyphs, ByKey(GlyphId, IntLe));
  }

  /** Each run's records take at least 9 bytes apiece, so the offsets of
      successive strikes grow. */
  lemma {:induction false} RunBytesAtLeast(run: seq<ColorBitmap>)
    ensures RunBytes(run) >= 9 * |run|
  {
    RecordBytesAtLeast(Sizes(run));
  }

  lemma {:induction false} RecordBytesAtLeast(sizes: seq<nat>)
    ensures RecordBytes(sizes) >= 9 * |sizes|
  {
    if |sizes| > 0 {
      RecordBytesAtLeast(sizes[..|sizes| - 1]);
    }
  }
}
