/**
  The reference data of the EP5 analysis: the tax-location code of a stopover, the airport
  directory built from its rows, the per-diem schedules of one year grouped by code and
  sorted newest first, and the point-in-time lookup of a per-diem amount.
*/
module Ep5Reference {
  import opened Wrappers
  import opened Text
  import opened Calendar
  import opened Sequences

  // ---------------------------------------------------------------- tax-location codes

  /** The codes of the places that have a rate of their own, stored as they are. */
  const SpecificLocations: seq<string> := ["NY", "VT", "VV", "TY", "VL", "NV"]

  /**
    `get_dgfip_code_for_escale`: the country code of the stopover, unless the first of the
    city or airport overrides below applies.
  */
  function TaxCode(iata: string, city: string, country: string): (r: string)
    ensures r == country || r in SpecificLocations
  {
    if country == "JP" && city == "Tokyo" then "TY"
    else if iata == "EWR" || (country == "US" && city == "New York") then "NY"
    else if iata in ["YTZ", "YKZ", "YYZ"] then "VT"
    else if iata in ["CXH", "YVR"] then "VV"
    else if iata == "LFW" then "VL"
    else if iata in ["ABV", "LOS", "PHC"] then "NV"
    else country
  }

  /** An airport none of the overrides names keeps the code of its country. */
  lemma TaxCodeDefault(iata: string, city: string, country: string)
    requires !(country == "JP" && city == "Tokyo") && !(country == "US" && city == "New York")
    requires iata !in ["EWR", "YTZ", "YKZ", "YYZ", "CXH", "YVR", "LFW", "ABV", "LOS", "PHC"]
    ensures TaxCode(iata, city, country) == country
  {
  }

  /** Neither Tokyo in Japan nor New York in the United States, the two city overrides tried first. */
  predicate NoCityOverride(city: string, country: string)
  {
    !(country == "JP" && city == "Tokyo") && !(country == "US" && city == "New York")
  }

  /** Each override, and the order in which they are tried: the first that applies wins. */
  lemma TaxCodeOverrides(iata: string, city: string, country: string)
    ensures country == "JP" && city == "Tokyo" ==> TaxCode(iata, city, country) == "TY"
    ensures !(country == "JP" && city == "Tokyo") && (iata == "EWR" || (country == "US" && city == "New York")) ==>
              TaxCode(iata, city, country) == "NY"
    ensures NoCityOverride(city, country) && iata in ["YTZ", "YKZ", "YYZ"] ==> TaxCode(iata, city, country) == "VT"
    ensures NoCityOverride(city, country) && iata in ["CXH", "YVR"] ==> TaxCode(iata, city, country) == "VV"
    ensures NoCityOverride(city, country) && iata == "LFW" ==> TaxCode(iata, city, country) == "VL"
    ensures NoCityOverride(city, country) && iata in ["ABV", "LOS", "PHC"] ==> TaxCode(iata, city, country) == "NV"
  {
  }

  /** Newark outside Tokyo is New York; any airport of Tokyo, even one listed, is Tokyo. */
  lemma TaxCodeExamples()
    ensures TaxCode("EWR", "Newark", "US") == "NY"
    ensures TaxCode("JFK", "New York", "US") == "NY"
    ensures TaxCode("YYZ", "Toronto", "CA") == "VT"
    ensures TaxCode("LOS", "Lagos", "NG") == "NV"
    ensures TaxCode("EWR", "Tokyo", "JP") == "TY"
    ensures TaxCode("NRT", "Narita", "JP") == "JP"
    ensures TaxCode("YYZ", "Buffalo", "US") == "VT"
  {
  }

  // ---------------------------------------------------------------- airport directory

  /** One row of the airport file, as the CSV reader gives its four columns. */
  datatype AirportRow = AirportRow(iata: string, municipality: string, country: string, name: string)

  datatype Airport = Airport(city: string, country: string, name: string)

  const AirportColumns: seq<string> := ["iata_code", "municipality", "iso_country", "name"]

  /** The stripped value, or `"N/A"` when nothing is left. */
  function OrNotAvailable(s: string): (r: string)
    ensures r != []
  {
    if Strip(s) != [] then Strip(s) else "N/A"
  }

  /** The code of a row, stripped and upper-cased; `None` when nothing is left. */
  function AirportKey(row: AirportRow): Option<string>
  {
    var code := Upper(Strip(row.iata));
    if code != [] then Some(code) else None
  }

  function AirportOf(row: AirportRow): Airport
  {
    Airport(OrNotAvailable(row.municipality), OrNotAvailable(row.country), OrNotAvailable(row.name))
  }

  /** The directory the rows give: a row with a code (re)defines it, one without is skipped. */
  function AirportTable(rows: seq<AirportRow>): map<string, Airport>
  {
    LastByKey(rows, AirportKey, AirportOf)
  }

  /**
    The directory holds exactly the codes of the rows that have one; the entry of a code is
    made from the last row of that code, so none of its fields is empty.
  */
  lemma AirportTableEntries(rows: seq<AirportRow>, k: string)
    ensures k in AirportTable(rows) <==> exists i :: 0 <= i < |rows| && AirportKey(rows[i]) == Some(k)
    ensures k in AirportTable(rows) ==>
      exists i :: 0 <= i < |rows| && AirportKey(rows[i]) == Some(k) && AirportTable(rows)[k] == AirportOf(rows[i])
                  && forall j :: i < j < |rows| ==> AirportKey(rows[j]) != Some(k)
    ensures k in AirportTable(rows) ==>
      var a := AirportTable(rows)[k]; a.city != [] && a.country != [] && a.name != []
  {
    LastByKeyKeys(rows, AirportKey, AirportOf, k);
    if k in AirportTable(rows) {
      LastByKeyLast(rows, AirportKey, AirportOf, k);
    }
  }

  /**
    `load_airport_data_from_csv` over the rows already read: nothing when a column is
    missing, otherwise one entry per code, the last row of a code winning.
  */
  method LoadAirports(columns: seq<string>, rows: seq<AirportRow>) returns (airports: map<string, Airport>)
    ensures (exists c :: c in AirportColumns && c !in columns) ==> airports == map[]
    ensures (forall c :: c in AirportColumns ==> c in columns) ==> airports == AirportTable(rows)
  {
    airports := map[];
    if exists c :: c in AirportColumns && c !in columns {
      return;
    }
    var i := 0;
    while i < |rows|
      invariant i <= |rows|
      invariant airports == AirportTable(rows[..i])
    {
      assert rows[..i + 1][..i] == rows[..i];
      var key := Upper(Strip(rows[i].iata));
      if key != [] {
        airports := airports[key := AirportOf(rows[i])];
      } else {
        assert AirportKey(rows[i]).None?;
      }
      i := i + 1;
    }
    assert rows[..|rows|] == rows;
  }

  // ---------------------------------------------------------------- per-diem schedules

  /** One row of the per-diem file of a year: code, date of validity and amount, as text. */
  datatype IndemnityRow = IndemnityRow(code: string, validFrom: string, amount: string)

  /** A per-diem amount in euros, valid from a date. */
  datatype Rate = Rate(validFrom: Date, amount: real)

  /** How loading the file of a year ended; each case carries the message the source returns. */
  datatype LoadStatus = Missing(year: string) | Loaded(year: string) | Failed(path: string)

  /**
    The code and rate of one row: the code stripped and upper-cased, the date read as
    `%Y-%m-%d`, the amount read by `parseAmount` (Python's `float`). `None` where reading
    raises.
  */
  function ParseIndemnityRow(row: IndemnityRow, parseAmount: string -> Option<real>): Option<(string, Rate)>
  {
    match (ParseIso(Strip(row.validFrom)), parseAmount(Strip(row.amount)))
    case (Some(d), Some(a)) => Some((Upper(Strip(row.code)), Rate(d, a)))
    case _ => None
  }

  /** The reader of one row, as a value. */
  function RowReader(parseAmount: string -> Option<real>): IndemnityRow -> Option<(string, Rate)>
  {
    row => ParseIndemnityRow(row, parseAmount)
  }

  /** Every row read, in order; `None` as soon as one row cannot be read. */
  function ParseIndemnityRows(rows: seq<IndemnityRow>, parseAmount: string -> Option<real>): Option<seq<(string, Rate)>>
  {
    AllSome(rows, RowReader(parseAmount))
  }

  /** `a` comes no later than `b` in a schedule sorted newest first. */
  predicate NewerFirst(a: Rate, b: Rate)
  {
    AtOrBefore(b.validFrom, a.validFrom)
  }

  /** `sort(key=lambda x: x["date_validite"], reverse=True)`: stable, newest first. */
  function SortSchedule(s: seq<Rate>): (r: seq<Rate>)
    ensures SortedBy(r, NewerFirst) && multiset(r) == multiset(s)
  {
    assert TotalPreorder(NewerFirst);
    SortBy(s, NewerFirst)
  }

  /** The per-diem data of a year: every code's rates, newest first; `None` if a row is bad. */
  function IndemnityTable(rows: seq<IndemnityRow>, parseAmount: string -> Option<real>): Option<map<string, seq<Rate>>>
  {
    match ParseIndemnityRows(rows, parseAmount)
    case None => None
    case Some(es) => Some(map c | c in Group(es) :: SortSchedule(Group(es)[c]))
  }

  /**
    The message `load_indemnity_data` returns for a year: the file is looked for in the
    working directory, then in its parent; missing, loaded, or failed on the path tried.
  */
  function LoadStatusOf(yearText: string, fileExists: string -> bool, rows: seq<IndemnityRow>,
                        parseAmount: string -> Option<real>): LoadStatus
  {
    var name := "dgfip_indemnites_" + yearText + ".csv";
    var path := if fileExists(name) then name else "../" + name;
    if !fileExists(path) then Missing(yearText)
    else if IndemnityTable(rows, parseAmount).None? then Failed(path)
    else Loaded(yearText)
  }

  /**
    The reading loop of `load_indemnity_data`: each row is read by `read` and its rate
    appended to its code's list; the first row that cannot be read abandons the whole file.
  */
  method GroupRows(rows: seq<IndemnityRow>, read: IndemnityRow -> Option<(string, Rate)>) returns (grouped: Option<map<string, seq<Rate>>>)
    ensures grouped.Some? <==> AllSome(rows, read).Some?
    ensures grouped.Some? ==> grouped.value == Group(AllSome(rows, read).value)
  {
    var data := map[];
    ghost var es: seq<(string, Rate)> := [];
    var i := 0;
    while i < |rows|
      invariant i <= |rows|
      invariant AllSome(rows[..i], read) == Some(es)
      invariant data == Group(es)
    {
      var parsed := read(rows[i]);
      AllSomeSnoc(rows, read, i);
      if parsed.None? {
        AllSomeFailurePersists(rows, read, i + 1);
        return None;
      }
      var code, rate := parsed.value.0, parsed.value.1;
      GroupSnoc(es, code, rate);
      if code !in data {
        data := data[code := []];
      }
      data := data[code := data[code] + [rate]];
      es := es + [(code, rate)];
      i := i + 1;
    }
    assert rows[..|rows|] == rows;
    return Some(data);
  }

  /**
    `load_indemnity_data` over the rows already read. The file is looked for in the working
    directory, then in its parent (`fileExists` answers for a path); missing, the result is
    empty. One row that cannot be read empties the whole result. Otherwise every code's
    rates are grouped in row order and then sorted newest first.
  */
  method LoadIndemnityData(yearText: string, fileExists: string -> bool, rows: seq<IndemnityRow>,
                           parseAmount: string -> Option<real>) returns (data: map<string, seq<Rate>>, status: LoadStatus)
    ensures var name := "dgfip_indemnites_" + yearText + ".csv";
      status.Missing? <==> !fileExists(name) && !fileExists("../" + name)
    ensures status.Missing? ==> data == map[] && status == Missing(yearText)
    ensures status.Loaded? ==> status == Loaded(yearText) && IndemnityTable(rows, parseAmount) == Some(data)
    ensures status.Failed? ==> data == map[] && IndemnityTable(rows, parseAmount).None?
    ensures status == LoadStatusOf(yearText, fileExists, rows, parseAmount)
  {
    var path := "dgfip_indemnites_" + yearText + ".csv";
    if !fileExists(path) {
      path := "../" + path;
      if !fileExists(path) {
        return map[], Missing(yearText);
      }
    }
    var grouped := GroupRows(rows, RowReader(parseAmount));
    if grouped.None? {
      return map[], Failed(path);
    }
    data := map c | c in grouped.value :: SortSchedule(grouped.value[c]);
    status := Loaded(yearText);
  }

  /** Every code of the loaded data holds the rates of its rows, each once, newest first. */
  lemma IndemnityTableContents(rows: seq<IndemnityRow>, parseAmount: string -> Option<real>, c: string)
    requires IndemnityTable(rows, parseAmount).Some?
    ensures var es := ParseIndemnityRows(rows, parseAmount).value; var table := IndemnityTable(rows, parseAmount).value;
      && (c in table <==> exists e :: e in es && e.0 == c)
      && (c in table ==> SortedBy(table[c], NewerFirst) && multiset(table[c]) == multiset(ValuesFor(es, c)))
  {
    var es := ParseIndemnityRows(rows, parseAmount).value;
    assert c in KeysOfPairs(es) <==> exists e :: e in es && e.0 == c;
  }

  /** The data of a year loads exactly when every one of its rows can be read. */
  lemma IndemnityTableDefined(rows: seq<IndemnityRow>, parseAmount: string -> Option<real>)
    ensures IndemnityTable(rows, parseAmount).Some? <==> forall i :: 0 <= i < |rows| ==> ParseIndemnityRow(rows[i], parseAmount).Some?
  {
    AllSomeValues(rows, RowReader(parseAmount));
  }

  // ---------------------------------------------------------------- per-diem lookup

  /**
    `find_applicable_indemnity`: the amount of the first rate of the code's schedule that
    is valid on `target`, or 0 when the code has no schedule or no rate is valid yet.
  */
  function ApplicableIndemnity(code: string, target: Date, data: map<string, seq<Rate>>): (r: real)
    ensures code !in data ==> r == 0.0
    ensures code in data ==>
      || (exists i :: 0 <= i < |data[code]| && r == data[code][i].amount && AtOrBefore(data[code][i].validFrom, target)
                      && forall j :: 0 <= j < i ==> !AtOrBefore(data[code][j].validFrom, target))
      || (r == 0.0 && forall j :: 0 <= j < |data[code]| ==> !AtOrBefore(data[code][j].validFrom, target))
  {
    if |data| == 0 || code !in data then 0.0
    else
      match FirstIndex(data[code], (rate: Rate) => AtOrBefore(rate.validFrom, target))
      case Some(i) => data[code][i].amount
      case None => 0.0
  }

  /**
    On a schedule sorted newest first, the rate found is valid on `target` and is the
    newest of those that are: no rate valid on `target` starts after it.
  */
  lemma ApplicableIsNewest(s: seq<Rate>, target: Date)
    requires SortedBy(s, NewerFirst)
    ensures var r := FirstIndex(s, (rate: Rate) => AtOrBefore(rate.validFrom, target));
      r.Some? ==> (AtOrBefore(s[r.value].validFrom, target) &&
        forall j :: 0 <= j < |s| && AtOrBefore(s[j].validFrom, target) ==> AtOrBefore(s[j].validFrom, s[r.value].validFrom))
  {
    var r := FirstIndex(s, (rate: Rate) => AtOrBefore(rate.validFrom, target));
    if r.Some? {
      forall j | 0 <= j < |s| && AtOrBefore(s[j].validFrom, target)
        ensures AtOrBefore(s[j].validFrom, s[r.value].validFrom)
      {
        if j != r.value {
          assert NewerFirst(s[r.value], s[j]);
        }
      }
    }
  }

  /**
    A New York schedule of 120 from 1 January 2024 and 135 from 1 July 2024 gives 120 on
    15 March 2024 and 135 on 1 August 2024.
  */
  lemma NewYorkPerDiem()
    ensures var data := map["NY" := [Rate(Date(2024, 7, 1), 135.0), Rate(Date(2024, 1, 1), 120.0)]];
      ApplicableIndemnity("NY", Date(2024, 3, 15), data) == 120.0 &&
      ApplicableIndemnity("NY", Date(2024, 8, 1), data) == 135.0 &&
      ApplicableIndemnity("TY", Date(2024, 8, 1), data) == 0.0
  {
    var s := [Rate(Date(2024, 7, 1), 135.0), Rate(Date(2024, 1, 1), 120.0)];
    assert s[1..] == [Rate(Date(2024, 1, 1), 120.0)];
  }
}
