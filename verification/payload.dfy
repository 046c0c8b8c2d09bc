/** The payload stored with every chunk of a 10-K section. */
module Payload {
  import opened PyValue
  import opened Text
  import Decimal
  import opened Filing
  import ItemCheck

  /** The quarter every 10-K chunk is filed under. */
  const Quarter: string := "Q4"

  datatype Payload = Payload(
    fileId: string,
    fileName: string,
    ticker: Scalar,
    companyName: Scalar,
    conformedPeriod: string,
    reportType: string,
    itemName: string,
    text: string,
    year: int,
    quarter: string)

  /** `f"{report_type}_{ticker}_{conformed_period}_{item_name}"`: everything but the chunk index. */
  function FileIdStem(s: Section): string {
    s.reportType + "_" + Str(s.ticker) + "_" + s.conformedPeriod + "_" + s.itemName
  }

  /** The composite `file_id` of chunk `idx` of section `s`. */
  function FileId(s: Section, idx: nat): string {
    FileIdStem(s) + "_" + Decimal.NatToString(idx)
  }

  /** No two payloads share a `file_id`. */
  predicate DistinctIds(ps: seq<Payload>) {
    forall a, b :: 0 <= a < b < |ps| ==> ps[a].fileId != ps[b].fileId
  }

  /** The payload of chunk `idx` of section `s`. */
  function ChunkPayload(s: Section, idx: nat, chunk: string): Payload {
    Payload(FileId(s, idx), s.filename, s.ticker, s.companyName, s.conformedPeriod,
            s.reportType, s.itemName, chunk, s.year, Quarter)
  }

  /** The payloads of one section, one per chunk, in chunk order. */
  function SectionPayloads(s: Section, chunks: seq<string>): (r: seq<Payload>)
    ensures |r| == |chunks|
    ensures forall i :: 0 <= i < |r| ==> r[i] == ChunkPayload(s, i, chunks[i])
  {
    seq(|chunks|, i requires 0 <= i < |chunks| => ChunkPayload(s, i, chunks[i]))
  }

  /** The payloads of a filing: its sections in order, each split into chunks. */
  function FilingPayloads(sections: seq<Section>, split: string -> seq<string>): seq<Payload>
    decreases |sections|
  {
    if |sections| == 0 then []
    else SectionPayloads(sections[0], split(sections[0].content)) + FilingPayloads(sections[1..], split)
  }

  /**
   * Every payload of a filing is chunk `idx` of one of its sections: it
   * carries that section's metadata, the chunk as `text` and quarter `"Q4"`.
   */
  lemma {:induction false} FilingPayloadOrigin(sections: seq<Section>, split: string -> seq<string>, n: nat)
    requires n < |FilingPayloads(sections, split)|
    ensures exists k, idx ::
              && 0 <= k < |sections| && 0 <= idx < |split(sections[k].content)|
              && FilingPayloads(sections, split)[n] == ChunkPayload(sections[k], idx, split(sections[k].content)[idx])
    decreases |sections|
  {
    var head := SectionPayloads(sections[0], split(sections[0].content));
    if n < |head| {
      assert FilingPayloads(sections, split)[n] == head[n];
    } else {
      FilingPayloadOrigin(sections[1..], split, n - |head|);
      var k, idx :| 0 <= k < |sections[1..]| && 0 <= idx < |split(sections[1..][k].content)|
        && FilingPayloads(sections[1..], split)[n - |head|] == ChunkPayload(sections[1..][k], idx, split(sections[1..][k].content)[idx]);
      assert sections[1..][k] == sections[k + 1];
    }
  }

  /**
   * Within one filing the `file_id` determines the item and the chunk index:
   * two sections sharing report type, ticker and period give the same id only
   * for the same item name and the same index.
   */
  lemma FileIdInjective(s1: Section, i: nat, s2: Section, j: nat)
    requires s1.reportType == s2.reportType && s1.ticker == s2.ticker && s1.conformedPeriod == s2.conformedPeriod
    requires FileId(s1, i) == FileId(s2, j)
    ensures s1.itemName == s2.itemName && i == j
  {
    var d1, d2 := Decimal.NatToString(i), Decimal.NatToString(j);
    assert '_' !in d1 && '_' !in d2;
    SplitAtLastSeparator(FileIdStem(s1), d1, FileIdStem(s2), d2, '_');
    Decimal.NatToStringInjective(i, j);
    var q := s1.reportType + "_" + Str(s1.ticker) + "_" + s1.conformedPeriod + "_";
    assert FileIdStem(s1) == q + s1.itemName && FileIdStem(s2) == q + s2.itemName;
    assert s1.itemName == FileIdStem(s1)[|q|..];
  }

  /**
   * The payloads of one filing have pairwise distinct `file_id`s when its
   * sections share report type, ticker and period and have distinct item names.
   */
  lemma {:induction false} FilingFileIdsDistinct(sections: seq<Section>, split: string -> seq<string>)
    requires forall k :: 0 <= k < |sections| ==> SameFiling(sections[k], sections[0])
    requires Distinct(Names(sections))
    ensures DistinctIds(FilingPayloads(sections, split))
  {
    var ps := FilingPayloads(sections, split);
    forall a, b | 0 <= a < b < |ps|
      ensures ps[a].fileId != ps[b].fileId
    {
      if ps[a].fileId == ps[b].fileId {
        SameIdSamePosition(sections, split, a, b);
        assert false;
      }
    }
  }

  /** Two payloads of such a filing with the same `file_id` are the same payload. */
  lemma SameIdSamePosition(sections: seq<Section>, split: string -> seq<string>, a: nat, b: nat)
    requires forall k :: 0 <= k < |sections| ==> SameFiling(sections[k], sections[0])
    requires Distinct(Names(sections))
    requires a < |FilingPayloads(sections, split)| && b < |FilingPayloads(sections, split)|
    requires FilingPayloads(sections, split)[a].fileId == FilingPayloads(sections, split)[b].fileId
    ensures a == b
  {
    var ps := FilingPayloads(sections, split);
    FilingPayloadOrigin(sections, split, a);
    FilingPayloadOrigin(sections, split, b);
    var k1, i1 :| 0 <= k1 < |sections| && 0 <= i1 < |split(sections[k1].content)|
      && ps[a] == ChunkPayload(sections[k1], i1, split(sections[k1].content)[i1]);
    var k2, i2 :| 0 <= k2 < |sections| && 0 <= i2 < |split(sections[k2].content)|
      && ps[b] == ChunkPayload(sections[k2], i2, split(sections[k2].content)[i2]);
    assert SameFiling(sections[k1], sections[0]) && SameFiling(sections[k2], sections[0]);
    FileIdInjective(sections[k1], i1, sections[k2], i2);
    assert Names(sections)[k1] == Names(sections)[k2];
    assert k1 == k2;
    PayloadPosition(sections, split, k1, i1, a);
    PayloadPosition(sections, split, k2, i2, b);
  }

  /** Where chunk `idx` of section `k` sits among the filing's payloads. */
  function Offset(sections: seq<Section>, split: string -> seq<string>, k: nat): nat
    requires k <= |sections|
    decreases k
  {
    if k == 0 then 0 else Offset(sections, split, k - 1) + |split(sections[k - 1].content)|
  }

  /** With distinct names, a payload's section and chunk index fix its position. */
  lemma {:induction false} PayloadPosition(sections: seq<Section>, split: string -> seq<string>, k: nat, idx: nat, n: nat)
    requires Distinct(Names(sections))
    requires k < |sections| && idx < |split(sections[k].content)| && n < |FilingPayloads(sections, split)|
    requires FilingPayloads(sections, split)[n] == ChunkPayload(sections[k], idx, split(sections[k].content)[idx])
    ensures n == Offset(sections, split, k) + idx
    decreases |sections|
  {
    var head := SectionPayloads(sections[0], split(sections[0].content));
    var tail := FilingPayloads(sections[1..], split);
    assert FilingPayloads(sections, split) == head + tail;
    assert Distinct(Names(sections[1..])) by {
      forall i, j | 0 <= i < j < |sections[1..]|
        ensures Names(sections[1..])[i] != Names(sections[1..])[j]
      {
        assert Names(sections)[i + 1] != Names(sections)[j + 1];
      }
    }
    if n < |head| {
      assert head[n] == ChunkPayload(sections[0], n, split(sections[0].content)[n]);
      if k != 0 {
        assert false;
      }
      assert FileId(sections[0], n) == FileId(sections[0], idx);
      FileIdInjective(sections[0], n, sections[0], idx);
    } else {
      assert tail[n - |head|] == FilingPayloads(sections, split)[n];
      if k == 0 {
        TailItemNames(sections, split, n - |head|);
        assert false;
      } else {
        assert sections[1..][k - 1] == sections[k];
        PayloadPosition(sections[1..], split, k - 1, idx, n - |head|);
        OffsetShift(sections, split, k);
      }
    }
  }

  /** With distinct names, no payload after the first section's carries its name. */
  lemma TailItemNames(sections: seq<Section>, split: string -> seq<string>, m: nat)
    requires Distinct(Names(sections)) && |sections| > 0
    requires m < |FilingPayloads(sections[1..], split)|
    ensures FilingPayloads(sections[1..], split)[m].itemName != sections[0].itemName
  {
    FilingPayloadOrigin(sections[1..], split, m);
    var k, i :| 0 <= k < |sections[1..]| && 0 <= i < |split(sections[1..][k].content)|
      && FilingPayloads(sections[1..], split)[m] == ChunkPayload(sections[1..][k], i, split(sections[1..][k].content)[i]);
    assert sections[1..][k] == sections[k + 1];
    assert Names(sections)[0] != Names(sections)[k + 1];
  }

  lemma {:induction false} OffsetShift(sections: seq<Section>, split: string -> seq<string>, k: nat)
    requires 1 <= k <= |sections|
    ensures Offset(sections, split, k) == |split(sections[0].content)| + Offset(sections[1..], split, k - 1)
    decreases k
  {
    if k > 1 {
      OffsetShift(sections, split, k - 1);
      assert sections[1..][k - 2] == sections[k - 1];
    }
  }

  /**
   * The payloads of a normalised filing have pairwise distinct `file_id`s:
   * its sections are canonical items, each at most once, of one filing.
   */
  lemma NormalizedFileIdsDistinct(filename: string, data: Object, mapping: map<string, Scalar>, parse: DateParser,
                                  split: string -> seq<string>)
    requires NormalizeFiling(filename, data, mapping, parse).Success?
    ensures DistinctIds(FilingPayloads(NormalizeFiling(filename, data, mapping, parse).value, split))
  {
    var sections := NormalizeFiling(filename, data, mapping, parse).value;
    NormalizedSections(filename, data, mapping, parse);
    ItemCheck.StandardItemsDistinct();
    SubseqOfDistinct(Names(sections), ItemCheck.StandardItems);
    FilingFileIdsDistinct(sections, split);
  }
}
