// The document list of an OpenType SVG table: each document covers the
// glyph ids from its first to its last id, inclusive (src/nanoemoji/glue_together.py,
// src/nanoemoji/extract_svgs.py and src/nanoemoji/svg.py all walk it).
module SvgDocs {

  /** One (document, min gid, max gid) entry of docList. */
  datatype SvgDoc = SvgDoc(doc: string, minGid: int, maxGid: int)

  function Span(lo: int, hi: int): nat
  {
    if hi < lo then 0 else hi - lo + 1
  }

  /** range(lo, hi + 1) */
  function Range(lo: int, hi: int): (r: seq<int>)
    ensures |r| == Span(lo, hi)
    ensures forall k :: 0 <= k < |r| ==> r[k] == lo + k
  {
    seq(Span(lo, hi), k requires 0 <= k < Span(lo, hi) => lo + k)
  }

  lemma RangeMembers(lo: int, hi: int)
    ensures forall g :: g in Range(lo, hi) <==> lo <= g <= hi
  {
    forall g | lo <= g <= hi ensures g in Range(lo, hi) {
      assert Range(lo, hi)[g - lo] == g;
    }
  }

  /** Every gid of every document, documents in docList order. */
  function DocGids(docs: seq<SvgDoc>): seq<int>
  {
    if |docs| == 0 then [] else Range(docs[0].minGid, docs[0].maxGid) + DocGids(docs[1..])
  }

  /** A gid is listed iff some document covers it. */
  lemma {:induction false} DocGidsMembers(docs: seq<SvgDoc>)
    ensures forall g :: g in DocGids(docs) <==> exists i :: 0 <= i < |docs| && docs[i].minGid <= g <= docs[i].maxGid
  {
    if |docs| > 0 {
      DocGidsMembers(docs[1..]);
      RangeMembers(docs[0].minGid, docs[0].maxGid);
      forall g ensures g in DocGids(docs) <==> exists i :: 0 <= i < |docs| && docs[i].minGid <= g <= docs[i].maxGid {
        if exists i :: 0 <= i < |docs| && docs[i].minGid <= g <= docs[i].maxGid {
          var i :| 0 <= i < |docs| && docs[i].minGid <= g <= docs[i].maxGid;
          if i > 0 {
            assert docs[1..][i - 1] == docs[i];
          }
        }
        if exists i :: 0 <= i < |docs[1..]| && docs[1..][i].minGid <= g <= docs[1..][i].maxGid {
          var i :| 0 <= i < |docs[1..]| && docs[1..][i].minGid <= g <= docs[1..][i].maxGid;
          assert docs[i + 1] == docs[1..][i];
        }
      }
    }
  }

  /** The documents' spans add up. */
  lemma {:induction false} DocGidsAppend(a: seq<SvgDoc>, b: seq<SvgDoc>)
    ensures DocGids(a + b) == DocGids(a) + DocGids(b)
  {
    if |a| > 0 {
      assert (a + b)[1..] == a[1..] + b;
      DocGidsAppend(a[1..], b);
    } else {
      assert a + b == b;
    }
  }
}
