/**
 * The combined query filter of `search_qdrant`: one `should` clause per
 * requested filing, each a `must` of four equality conditions, and what it
 * means for a stored payload to match it.
 */
module QueryFilter {
  import opened Wrappers
  import opened PyValue

  /** `FieldCondition(key=…, match=MatchValue(value=…))`. */
  datatype FieldCondition = FieldCondition(key: string, value: Scalar)

  /** `Filter(must=[…])`: every condition holds. */
  datatype Clause = Must(conditions: seq<FieldCondition>)

  /** `Filter(should=[…])`: some clause holds. */
  datatype Filter = Should(clauses: seq<Clause>)

  /** Why building the filter raises inside the `try`. */
  datatype FilterError =
    | MissingField(name: string)
    | YearNotInteger(year: Scalar)
    | NullMatchValue(key: string)

  /** `MatchValue` accepts strings and integers but not `None`. */
  function Condition(key: string, v: Scalar): (r: Result<FieldCondition, FilterError>)
    ensures r.Success? <==> !v.JNull?
    ensures r.Success? ==> r.value.key == key && r.value.value == v
  {
    if v.JNull? then Failure(NullMatchValue(key)) else Success(FieldCondition(key, v))
  }

  /** `json_filter[name]`, raising `KeyError` when absent. */
  function Field(entry: Object, name: string): (r: Result<Scalar, FilterError>)
    ensures r.Success? <==> name in entry
    ensures r.Success? ==> r.value == entry[name]
  {
    if name in entry then Success(entry[name]) else Failure(MissingField(name))
  }

  /** `int(json_filter["year"])`. */
  function YearValue(v: Scalar): (r: Result<Scalar, FilterError>)
    ensures r.Success? <==> Int(v).Some?
    ensures r.Success? ==> r.value == JInt(Int(v).value)
  {
    match Int(v)
    case None => Failure(YearNotInteger(v))
    case Some(y) => Success(JInt(y))
  }

  /** One requested filing's clause, its conditions built in source order. */
  function BuildClause(entry: Object): Result<Clause, FilterError> {
    var ticker :- Field(entry, "ticker");
    var c1 :- Condition("ticker", ticker);
    var rawYear :- Field(entry, "year");
    var year :- YearValue(rawYear);
    var c2 :- Condition("year", year);
    var quarter :- Field(entry, "quarter");
    var c3 :- Condition("quarter", quarter);
    var reportType :- Field(entry, "report_type");
    var c4 :- Condition("report_type", reportType);
    Success(Must([c1, c2, c3, c4]))
  }

  /** The entry names all four fields with usable values. */
  predicate WellFormedEntry(entry: Object) {
    && "ticker" in entry && "year" in entry && "quarter" in entry && "report_type" in entry
    && !entry["ticker"].JNull? && Int(entry["year"]).Some?
    && !entry["quarter"].JNull? && !entry["report_type"].JNull?
  }

  /** `int()` of the year of a well-formed entry. */
  function EntryYear(entry: Object): int
    requires WellFormedEntry(entry)
  {
    Int(entry["year"]).value
  }

  /**
   * The reference meaning of one requested filing: the payload carries the
   * entry's ticker, quarter and report type, and as year the integer value
   * of the entry's year.
   */
  predicate EntryMatches(payload: Object, entry: Object)
    requires WellFormedEntry(entry)
  {
    && "ticker" in payload && payload["ticker"] == entry["ticker"]
    && "year" in payload && payload["year"] == JInt(EntryYear(entry))
    && "quarter" in payload && payload["quarter"] == entry["quarter"]
    && "report_type" in payload && payload["report_type"] == entry["report_type"]
  }

  /** The payload holds the condition's value under its key. */
  predicate ConditionHolds(payload: Object, c: FieldCondition) {
    c.key in payload && payload[c.key] == c.value
  }

  predicate ClauseHolds(payload: Object, clause: Clause) {
    forall i :: 0 <= i < |clause.conditions| ==> ConditionHolds(payload, clause.conditions[i])
  }

  /** A payload matches a `should` filter when one of its clauses holds. */
  predicate Matches(payload: Object, filter: Filter) {
    exists i :: 0 <= i < |filter.clauses| && ClauseHolds(payload, filter.clauses[i])
  }

  /** A clause builds exactly for a well-formed entry, and then holds exactly where the entry matches. */
  lemma BuildClauseMeaning(entry: Object)
    ensures BuildClause(entry).Success? <==> WellFormedEntry(entry)
    ensures BuildClause(entry).Success? ==>
              |BuildClause(entry).value.conditions| == 4
              && forall payload :: ClauseHolds(payload, BuildClause(entry).value) <==> EntryMatches(payload, entry)
  {
    if WellFormedEntry(entry) {
      var clause := BuildClause(entry).value;
      var expected := [FieldCondition("ticker", entry["ticker"]), FieldCondition("year", JInt(EntryYear(entry))),
                       FieldCondition("quarter", entry["quarter"]), FieldCondition("report_type", entry["report_type"])];
      assert clause.conditions == expected;
      forall payload
        ensures ClauseHolds(payload, clause) <==> EntryMatches(payload, entry)
      {
        if ClauseHolds(payload, clause) {
          assert ConditionHolds(payload, expected[0]) && ConditionHolds(payload, expected[1]);
          assert ConditionHolds(payload, expected[2]) && ConditionHolds(payload, expected[3]);
        }
      }
    }
  }

  /**
   * The combined filter: one clause per entry, in input order; the first
   * entry that cannot be built raises.
   */
  function BuildFilter(entries: seq<Object>): (r: Result<Filter, FilterError>)
    ensures r.Success? <==> forall i :: 0 <= i < |entries| ==> WellFormedEntry(entries[i])
    ensures r.Success? ==> |r.value.clauses| == |entries|
    ensures r.Success? ==> forall i :: 0 <= i < |entries| ==> Success(r.value.clauses[i]) == BuildClause(entries[i])
    ensures r.Failure? ==> exists i :: 0 <= i < |entries| && !WellFormedEntry(entries[i])
                                        && (forall j :: 0 <= j < i ==> WellFormedEntry(entries[j]))
                                        && Failure(r.error) == BuildClause(entries[i])
    decreases |entries|
  {
    if |entries| == 0 then Success(Should([]))
    else
      var init := entries[..|entries| - 1];
      var last := entries[|entries| - 1];
      BuildClauseMeaning(last);
      assert forall i :: 0 <= i < |init| ==> init[i] == entries[i];
      match BuildFilter(init)
      case Failure(e) => Failure(e)
      case Success(f) =>
        match BuildClause(last)
        case Failure(e) => Failure(e)
        case Success(c) => Success(Should(f.clauses + [c]))
  }

  /**
   * A stored payload matches the combined filter exactly when some single
   * requested filing matches it on ticker, year, quarter and report type.
   */
  lemma FilterMatchesIffSomeEntry(entries: seq<Object>, payload: Object)
    requires BuildFilter(entries).Success?
    ensures Matches(payload, BuildFilter(entries).value) <==>
              exists i :: 0 <= i < |entries| && EntryMatches(payload, entries[i])
  {
    var f := BuildFilter(entries).value;
    forall i | 0 <= i < |entries|
      ensures ClauseHolds(payload, f.clauses[i]) <==> EntryMatches(payload, entries[i])
    {
      BuildClauseMeaning(entries[i]);
    }
  }
}
