/**
 * `load_cik_ticker_mapping`, over an exchange table that has already been
 * read from JSON: a `fields` header and `data` rows aligned to it.
 */
module CikMapping {
  import opened Wrappers
  import opened PyValue

  /** The loaded exchange file: column names and rows positionally aligned to them. */
  datatype TickerTable = TickerTable(fields: seq<Scalar>, data: seq<seq<Scalar>>)

  /** `list.index` raising `ValueError`, or a row indexed past its end raising `IndexError`. */
  datatype MappingError = MissingField(name: string) | RowTooShort(row: nat)

  /** Python's `fields.index(name)`: the first position holding the string `name`. */
  function IndexOf(fields: seq<Scalar>, name: string): (r: Option<nat>)
    ensures r.None? <==> JStr(name) !in fields
    ensures r.Some? ==> r.value < |fields| && fields[r.value] == JStr(name) && JStr(name) !in fields[..r.value]
  {
    if |fields| == 0 then None
    else if fields[0] == JStr(name) then Some(0)
    else match IndexOf(fields[1..], name)
      case None => None
      case Some(i) =>
        assert fields[..i + 1] == [fields[0]] + fields[1..][..i];
        Some(i + 1)
  }

  /** Every row reaches both columns. */
  predicate RowsFit(rows: seq<seq<Scalar>>, ci: nat, ti: nat) {
    forall j :: 0 <= j < |rows| ==> ci < |rows[j]| && ti < |rows[j]|
  }

  /** The dictionary key a row contributes: `str(row[cik_index])`. */
  function RowKey(row: seq<Scalar>, ci: nat): string
    requires ci < |row|
  {
    Str(row[ci])
  }

  /** Row `j` is the last row whose CIK spells `RowKey(rows[j], ci)`. */
  predicate IsLastFor(rows: seq<seq<Scalar>>, ci: nat, j: nat)
    requires j < |rows| && forall k :: 0 <= k < |rows| ==> ci < |rows[k]|
  {
    forall k :: j < k < |rows| ==> RowKey(rows[k], ci) != RowKey(rows[j], ci)
  }

  /**
   * The loop `mapping[str(row[cik_index])] = row[ticker_index]` over the
   * rows in order; the first row too short for either column raises.
   */
  function BuildMapping(rows: seq<seq<Scalar>>, ci: nat, ti: nat): (r: Result<map<string, Scalar>, MappingError>)
    ensures r.Success? <==> RowsFit(rows, ci, ti)
    ensures r.Failure? ==> r.error.RowTooShort?
    ensures r.Failure? && r.error.RowTooShort? ==> var j := r.error.row;
      && j < |rows| && !(ci < |rows[j]| && ti < |rows[j]|) && RowsFit(rows[..j], ci, ti)
    decreases |rows|
  {
    if |rows| == 0 then Success(map[])
    else
      var n := |rows| - 1;
      match BuildMapping(rows[..n], ci, ti)
      case Failure(e) =>
        assert rows[..n][..e.row] == rows[..e.row];
        Failure(e)
      case Success(prior) =>
        var row := rows[n];
        if ci < |row| && ti < |row| then
          Success(prior[RowKey(row, ci) := row[ti]])
        else
          Failure(RowTooShort(n))
  }

  /** The keys of the built mapping are exactly the CIK spellings of the rows. */
  lemma {:induction false} BuildMappingKeys(rows: seq<seq<Scalar>>, ci: nat, ti: nat)
    requires RowsFit(rows, ci, ti)
    ensures forall key :: key in BuildMapping(rows, ci, ti).value <==>
                          exists j :: 0 <= j < |rows| && RowKey(rows[j], ci) == key
    decreases |rows|
  {
    if |rows| > 0 {
      var n := |rows| - 1;
      var init := rows[..n];
      assert RowsFit(init, ci, ti);
      BuildMappingKeys(init, ci, ti);
      assert BuildMapping(rows, ci, ti).value ==
        BuildMapping(init, ci, ti).value[RowKey(rows[n], ci) := rows[n][ti]];
      forall key | key in BuildMapping(rows, ci, ti).value
        ensures exists j :: 0 <= j < |rows| && RowKey(rows[j], ci) == key
      {
        if key != RowKey(rows[n], ci) {
          var j :| 0 <= j < n && RowKey(init[j], ci) == key;
          assert RowKey(rows[j], ci) == key;
        }
      }
      forall key | exists j :: 0 <= j < |rows| && RowKey(rows[j], ci) == key
        ensures key in BuildMapping(rows, ci, ti).value
      {
        var j :| 0 <= j < |rows| && RowKey(rows[j], ci) == key;
        if j < n {
          assert RowKey(init[j], ci) == key;
        }
      }
    }
  }

  /** For a CIK that appears several times, the last row carrying it wins. */
  lemma {:induction false} BuildMappingLastWins(rows: seq<seq<Scalar>>, ci: nat, ti: nat, j: nat)
    requires RowsFit(rows, ci, ti) && j < |rows| && IsLastFor(rows, ci, j)
    ensures RowKey(rows[j], ci) in BuildMapping(rows, ci, ti).value
    ensures BuildMapping(rows, ci, ti).value[RowKey(rows[j], ci)] == rows[j][ti]
    decreases |rows|
  {
    var n := |rows| - 1;
    if j < n {
      var init := rows[..n];
      assert init[j] == rows[j];
      assert IsLastFor(init, ci, j) by {
        forall k | j < k < |init|
          ensures RowKey(init[k], ci) != RowKey(init[j], ci)
        {
          assert init[k] == rows[k];
        }
      }
      BuildMappingLastWins(init, ci, ti, j);
      assert RowKey(rows[n], ci) != RowKey(rows[j], ci);
    }
  }

  /** `load_cik_ticker_mapping()` after the file has been read and parsed. */
  function LoadCikTickerMapping(table: TickerTable): (r: Result<map<string, Scalar>, MappingError>)
    ensures JStr("cik") !in table.fields ==> r == Failure(MissingField("cik"))
    ensures JStr("cik") in table.fields && JStr("ticker") !in table.fields ==> r == Failure(MissingField("ticker"))
    ensures r.Success? ==> JStr("cik") in table.fields && JStr("ticker") in table.fields
  {
    match IndexOf(table.fields, "cik")
    case None => Failure(MissingField("cik"))
    case Some(ci) =>
      match IndexOf(table.fields, "ticker")
      case None => Failure(MissingField("ticker"))
      case Some(ti) => BuildMapping(table.data, ci, ti)
  }

  /**
   * With both columns present and every row long enough, each CIK in the
   * table resolves to the ticker of the last row that carries it, through the
   * first `cik` and the first `ticker` column.
   */
  lemma LoadedMappingResolves(table: TickerTable, j: nat)
    requires JStr("cik") in table.fields && JStr("ticker") in table.fields
    requires var ci := IndexOf(table.fields, "cik").value;
      var ti := IndexOf(table.fields, "ticker").value;
      RowsFit(table.data, ci, ti) && j < |table.data| && IsLastFor(table.data, ci, j)
    ensures var ci := IndexOf(table.fields, "cik").value;
      var ti := IndexOf(table.fields, "ticker").value;
      var r := LoadCikTickerMapping(table);
      r.Success? && RowKey(table.data[j], ci) in r.value && r.value[RowKey(table.data[j], ci)] == table.data[j][ti]
  {
    var ci := IndexOf(table.fields, "cik").value;
    var ti := IndexOf(table.fields, "ticker").value;
    BuildMappingLastWins(table.data, ci, ti, j);
  }
}
