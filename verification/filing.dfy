/**
 * The per-filing normalisation inside `upload_10_k_to_qdrant`: resolve the
 * ticker, parse the period, then walk the canonical 10-K items in order,
 * aborting the whole filing on the first item that fails the content check
 * and keeping the items whose content is non-empty.
 */
module Filing {
  import opened Wrappers
  import opened PyValue
  import opened Text
  import opened ItemCheck

  /** What the external date parser yields: the `%Y-%m-%d` text and the year. */
  datatype ParsedDate = ParsedDate(formatted: string, year: int)

  /** `dateutil.parser.parse` followed by `strftime`; `None` when it raises. */
  type DateParser = string -> Option<ParsedDate>

  /** The report type every 10-K section carries. */
  const TenK: string := "10-K"

  /** One kept (filing, item) record. */
  datatype Section = Section(
    filename: string,
    ticker: Scalar,
    companyName: Scalar,
    conformedPeriod: string,
    reportType: string,
    itemName: string,
    content: string,
    year: int)

  /** Why a file is skipped; every case is caught by the per-file `try`. */
  datatype FileError =
    | MalformedJson
    | MissingKey(key: string)
    | UnknownCik(cikKey: string)
    | NullTicker
    | BadDate
    | ContentNotText(item: string)
    | InvalidItem(item: string)
    | UpsertFailed(fileId: string)

  /** `data[key]`, raising `KeyError` when absent. */
  function Lookup(data: Object, key: string): (r: Result<Scalar, FileError>)
    ensures r.Success? <==> key in data
    ensures r.Success? ==> r.value == data[key]
    ensures r.Failure? ==> r.error == MissingKey(key)
  {
    if key in data then Success(data[key]) else Failure(MissingKey(key))
  }

  /** The item's text; a non-string value makes the validator's `.lower()` raise. */
  function ItemContent(data: Object, item: string): Result<string, FileError> {
    match Lookup(data, item)
    case Failure(e) => Failure(e)
    case Success(JStr(s)) => Success(s)
    case Success(_) => Failure(ContentNotText(item))
  }

  /** A content validator: `check_10_k_item_content` in the ingestion. */
  type Validator = (string, string) -> bool

  /** The item is present, is text, and passes the validator. */
  predicate ItemOk(data: Object, item: string, check: Validator) {
    ItemContent(data, item).Success? && check(item, ItemContent(data, item).value)
  }

  /** The error the walk reports for an item that is not `ItemOk`. */
  function ItemError(data: Object, item: string, check: Validator): FileError
    requires !ItemOk(data, item, check)
  {
    match ItemContent(data, item)
    case Failure(e) => e
    case Success(_) => InvalidItem(item)
  }

  function Names(sections: seq<Section>): (r: seq<string>)
    ensures |r| == |sections|
    ensures forall i :: 0 <= i < |r| ==> r[i] == sections[i].itemName
  {
    seq(|sections|, i requires 0 <= i < |sections| => sections[i].itemName)
  }

  /** `s` carries the filing-wide fields of `base` and the report type `"10-K"`. */
  predicate SameFiling(s: Section, base: Section) {
    && s.filename == base.filename && s.ticker == base.ticker
    && s.companyName == base.companyName && s.conformedPeriod == base.conformedPeriod
    && s.year == base.year && s.reportType == TenK
  }

  /**
   * The `for item_name in standard_10_k_items` loop: a failing item aborts
   * the walk with its error, an item with empty content is dropped, and every
   * other item becomes a section built from the filing-wide `base`.
   */
  function WalkItems(data: Object, items: seq<string>, base: Section, check: Validator): (r: Result<seq<Section>, FileError>)
    requires base.reportType == TenK
    ensures r.Success? <==> forall i :: 0 <= i < |items| ==> ItemOk(data, items[i], check)
    ensures r.Success? ==> forall k :: 0 <= k < |r.value| ==>
                             && SameFiling(r.value[k], base) && r.value[k].content != ""
                             && ItemContent(data, r.value[k].itemName) == Success(r.value[k].content)
    decreases |items|
  {
    if |items| == 0 then Success([])
    else
      var item := items[0];
      match ItemContent(data, item)
      case Failure(e) => Failure(e)
      case Success(content) =>
        if !check(item, content) then Failure(InvalidItem(item))
        else
          var tail := WalkItems(data, items[1..], base, check);
          assert forall i :: 1 <= i < |items| ==> items[i] == items[1..][i - 1];
          if tail.Failure? then tail
          else
            var kept := if content == "" then [] else [base.(itemName := item, content := content)];
            Success(kept + tail.value)
  }

  /** The kept sections are the items with non-empty content, in canonical order. */
  lemma {:induction false} WalkKeepsNonEmptyInOrder(data: Object, items: seq<string>, base: Section, check: Validator)
    requires base.reportType == TenK
    requires WalkItems(data, items, base, check).Success?
    ensures var sections := WalkItems(data, items, base, check).value;
      && IsSubseq(Names(sections), items)
      && forall i :: 0 <= i < |items| && ItemContent(data, items[i]) != Success("") ==> items[i] in Names(sections)
    decreases |items|
  {
    if |items| > 0 {
      var item := items[0];
      var content := ItemContent(data, item).value;
      var rest := WalkItems(data, items[1..], base, check).value;
      WalkKeepsNonEmptyInOrder(data, items[1..], base, check);
      var kept := if content == "" then [] else [base.(itemName := item, content := content)];
      assert WalkItems(data, items, base, check).value == kept + rest;
      ConsNames(item, items[1..], kept, rest);
      assert items == [item] + items[1..];
      forall i | 1 <= i < |items| && ItemContent(data, items[i]) != Success("")
        ensures items[i] in Names(kept + rest)
      {
        assert items[i] == items[1..][i - 1];
      }
    }
  }

  /** Putting at most one section named `item` before `rest` keeps the names a subsequence. */
  lemma ConsNames(item: string, tail: seq<string>, kept: seq<Section>, rest: seq<Section>)
    requires |kept| <= 1 && (|kept| == 1 ==> kept[0].itemName == item)
    requires IsSubseq(Names(rest), tail)
    ensures IsSubseq(Names(kept + rest), [item] + tail)
    ensures forall x :: x in Names(rest) ==> x in Names(kept + rest)
    ensures |kept| == 1 ==> item in Names(kept + rest)
  {
    var all := Names(kept + rest);
    if |kept| == 0 {
      assert kept + rest == rest;
      assert ([item] + tail)[1..] == tail;
      SubseqOfSuffix(all, [item] + tail, 1);
    } else {
      assert all[0] == item && all[1..] == Names(rest);
      assert ([item] + tail)[1..] == tail;
      forall x | x in Names(rest)
        ensures x in all
      {
        var k :| 0 <= k < |Names(rest)| && Names(rest)[k] == x;
        assert all[k + 1] == x;
      }
    }
  }

  /** On failure the walk reports the first item, in canonical order, that is not `ItemOk`. */
  lemma {:induction false} WalkFailsAtFirstBadItem(data: Object, items: seq<string>, base: Section, check: Validator)
    requires base.reportType == TenK
    requires WalkItems(data, items, base, check).Failure?
    ensures exists i :: 0 <= i < |items| && !ItemOk(data, items[i], check)
                        && (forall j :: 0 <= j < i ==> ItemOk(data, items[j], check))
                        && WalkItems(data, items, base, check).error == ItemError(data, items[i], check)
    decreases |items|
  {
    if ItemOk(data, items[0], check) {
      WalkFailsAtFirstBadItem(data, items[1..], base, check);
      var i :| 0 <= i < |items| - 1 && !ItemOk(data, items[1..][i], check)
        && (forall j :: 0 <= j < i ==> ItemOk(data, items[1..][j], check))
        && WalkItems(data, items[1..], base, check).error == ItemError(data, items[1..][i], check);
      assert items[i + 1] == items[1..][i];
      assert forall j :: 1 <= j < i + 1 ==> items[j] == items[1..][j - 1];
    }
  }

  /**
   * The filing up to its item walk: `str(data["cik"])` looked up in the
   * mapping (`KeyError` when unknown), a `None` ticker rejected,
   * `data["period_of_report"]` read, the period parsed and `data["company"]`
   * read — all before the first item's content is looked at.
   */
  function FilingBase(filename: string, data: Object, mapping: map<string, Scalar>, parse: DateParser): (r: Result<Section, FileError>)
    ensures r.Success? <==>
              && "cik" in data && Str(data["cik"]) in mapping && mapping[Str(data["cik"])] != JNull
              && "period_of_report" in data && data["period_of_report"].JStr?
              && parse(data["period_of_report"].s).Some? && "company" in data
    ensures r.Success? ==>
              var date := parse(data["period_of_report"].s).value;
              && r.value.filename == filename && r.value.ticker == mapping[Str(data["cik"])]
              && r.value.companyName == data["company"] && r.value.conformedPeriod == date.formatted
              && r.value.year == date.year && r.value.reportType == TenK
    ensures "cik" in data && Str(data["cik"]) !in mapping ==> r == Failure(UnknownCik(Str(data["cik"])))
  {
    var cik :- Lookup(data, "cik");
    var key := Str(cik);
    if key !in mapping then Failure(UnknownCik(key))
    else
      var ticker := mapping[key];
      if ticker == JNull then Failure(NullTicker)
      else
        var period :- Lookup(data, "period_of_report");
        match period
        case JStr(p) =>
          (match parse(p)
           case None => Failure(BadDate)
           case Some(date) =>
             var company :- Lookup(data, "company");
             Success(Section(filename, ticker, company, date.formatted, TenK, "", "", date.year)))
        case _ => Failure(BadDate)
  }

  /**
   * The filing's list of sections, or the reason the whole filing is
   * skipped. It normalises exactly when its CIK resolves to a non-`None`
   * ticker, its period is a string that parses, it has a company, and every
   * canonical item passes; an unknown CIK is reported before anything else
   * is looked at.
   */
  function NormalizeFiling(filename: string, data: Object, mapping: map<string, Scalar>, parse: DateParser): (r: Result<seq<Section>, FileError>)
    ensures r.Success? <==>
              && "cik" in data && Str(data["cik"]) in mapping && mapping[Str(data["cik"])] != JNull
              && "period_of_report" in data && data["period_of_report"].JStr?
              && parse(data["period_of_report"].s).Some? && "company" in data
              && forall i :: 0 <= i < |StandardItems| ==> ItemOk(data, StandardItems[i], CheckItemContent)
    ensures "cik" in data && Str(data["cik"]) !in mapping ==> r == Failure(UnknownCik(Str(data["cik"])))
  {
    var base :- FilingBase(filename, data, mapping, parse);
    WalkItems(data, StandardItems, base, CheckItemContent)
  }

  /**
   * Every section of a normalised filing carries the filing's name, its
   * resolved ticker, company, formatted period and year, and report type
   * `"10-K"`; its content is the item's non-empty text; and the sections are
   * exactly the items with non-empty content, in canonical order.
   */
  lemma NormalizedSections(filename: string, data: Object, mapping: map<string, Scalar>, parse: DateParser)
    requires NormalizeFiling(filename, data, mapping, parse).Success?
    ensures var sections := NormalizeFiling(filename, data, mapping, parse).value;
      var date := parse(data["period_of_report"].s).value;
      forall k :: 0 <= k < |sections| ==>
        && sections[k].filename == filename && sections[k].ticker == mapping[Str(data["cik"])]
        && sections[k].companyName == data["company"] && sections[k].conformedPeriod == date.formatted
        && sections[k].year == date.year && sections[k].reportType == "10-K"
        && sections[k].content != "" && ItemContent(data, sections[k].itemName) == Success(sections[k].content)
    ensures var sections := NormalizeFiling(filename, data, mapping, parse).value;
      && IsSubseq(Names(sections), StandardItems)
      && forall i :: 0 <= i < |StandardItems| && ItemContent(data, StandardItems[i]) != Success("") ==>
           StandardItems[i] in Names(sections)
  {
    var base := FilingBase(filename, data, mapping, parse).value;
    assert NormalizeFiling(filename, data, mapping, parse) == WalkItems(data, StandardItems, base, CheckItemContent);
    WalkKeepsNonEmptyInOrder(data, StandardItems, base, CheckItemContent);
  }

  /** A required item with empty content skips the whole filing, whatever the other items hold. */
  lemma EmptyRequiredItemSkipsFiling(filename: string, data: Object, mapping: map<string, Scalar>, parse: DateParser, i: nat)
    requires i < |RequiredItems| && RequiredItems[i] in data && data[RequiredItems[i]] == JStr("")
    ensures NormalizeFiling(filename, data, mapping, parse).Failure?
  {
    RequiredAreStandard();
    var j :| 0 <= j < |StandardItems| && StandardItems[j] == RequiredItems[i];
    assert !ItemOk(data, StandardItems[j], CheckItemContent);
  }
}
