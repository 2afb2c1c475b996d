/** The code-to-name tables (mapRecords over rows read from the openflights CSV files)
    and formatFlight, which renders the chosen flight as one line of text. */
module Metadata {
  import opened Results
  import opened FlightFeed

  /** A CSV row with fewer than two columns: `line[0]` or `line[1]` panics. */
  datatype TableError = ShortRow(row: nat)

  /** Row i is the last row whose first column is the same as its own. */
  ghost predicate LastRowFor(records: seq<seq<string>>, i: nat)
    requires i < |records| && forall j :: 0 <= j < |records| ==> |records[j]| >= 2
  {
    forall j :: i < j < |records| ==> records[j][0] != records[i][0]
  }

  /** mapRecords: column 0 of each row maps to column 1; a later row with the same
      key overwrites an earlier one. */
  method MapRecords(records: seq<seq<string>>) returns (r: Result<map<string, string>, TableError>)
    ensures r.Ok? <==> forall i :: 0 <= i < |records| ==> |records[i]| >= 2
    ensures r.Err? ==>
      && r.error.row < |records| && |records[r.error.row]| < 2
      && forall i :: 0 <= i < r.error.row ==> |records[i]| >= 2
    ensures r.Ok? ==> r.value.Keys == set i | 0 <= i < |records| :: records[i][0]
    ensures r.Ok? ==> forall i :: 0 <= i < |records| && LastRowFor(records, i) ==>
      r.value[records[i][0]] == records[i][1]
  {
    var hashTable := map[];
    for i := 0 to |records|
      invariant forall j :: 0 <= j < i ==> |records[j]| >= 2
      invariant hashTable.Keys == set j | 0 <= j < i :: records[j][0]
      invariant forall j :: 0 <= j < i && (forall l :: j < l < i ==> records[l][0] != records[j][0]) ==>
        hashTable[records[j][0]] == records[j][1]
    {
      var line := records[i];
      if |line| < 2 {
        r := Err(ShortRow(i));
        return;
      }
      hashTable := hashTable[line[0] := line[1]];
    }
    r := Ok(hashTable);
  }

  /** The three package-level tables: icaoAirlines, icaoTypes and iataAirports. */
  datatype Tables = Tables(
    airlines: map<string, string>,
    types: map<string, string>,
    airports: map<string, string>)

  /** Go's map index: a missing key gives the zero value, the empty string. */
  function Lookup(table: map<string, string>, code: string): string
  {
    if code in table then table[code] else ""
  }

  /** A format string as fmt reads it: literal text and `%s` verbs, the only verb the
      program uses. */
  datatype Piece = Text(text: string) | StringVerb

  /** fmt.Sprintf over an already-split format: each `%s` takes the next argument, or
      prints `%!s(MISSING)` when none is left. */
  function Sprintf(format: seq<Piece>, args: seq<string>): string
  {
    if format == [] then ""
    else match format[0]
      case Text(t) => t + Sprintf(format[1..], args)
      case StringVerb =>
        if args == [] then "%!s(MISSING)" + Sprintf(format[1..], [])
        else args[0] + Sprintf(format[1..], args[1..])
  }

  /** "%s %s from %s to %s". */
  const FlightTemplate: seq<Piece> :=
    [StringVerb, Text(" "), StringVerb, Text(" from "), StringVerb, Text(" to "), StringVerb]

  /** formatFlight. */
  function FormatFlight(tables: Tables, flight: FlightData): string {
    var airline := Lookup(tables.airlines, flight.icaoAirline);
    var aircraft := Lookup(tables.types, flight.icaoType);
    var departing := Lookup(tables.airports, flight.iataDeparting);
    var arriving := Lookup(tables.airports, flight.iataArriving);
    Sprintf(FlightTemplate, [airline, aircraft, departing, arriving])
  }

  /** The template with four names fills each verb with one name, in order. */
  lemma TemplateText(a: string, b: string, c: string, d: string)
    ensures Sprintf(FlightTemplate, [a, b, c, d]) == a + " " + b + " from " + c + " to " + d
  {
    var t := FlightTemplate;
    assert Sprintf(t[6..], [d]) == d by {
      assert t[6..][1..] == [];
    }
    assert Sprintf(t[5..], [d]) == " to " + d by {
      assert t[5..][1..] == t[6..];
    }
    assert Sprintf(t[4..], [c, d]) == c + " to " + d by {
      assert t[4..][1..] == t[5..] && [c, d][1..] == [d];
    }
    assert Sprintf(t[3..], [c, d]) == " from " + c + " to " + d by {
      assert t[3..][1..] == t[4..];
    }
    assert Sprintf(t[2..], [b, c, d]) == b + " from " + c + " to " + d by {
      assert t[2..][1..] == t[3..] && [b, c, d][1..] == [c, d];
    }
    assert Sprintf(t[1..], [b, c, d]) == " " + b + " from " + c + " to " + d by {
      assert t[1..][1..] == t[2..];
    }
    assert [a, b, c, d][1..] == [b, c, d];
  }

  /** The response line is the four names joined by the template's fixed text: a code
      missing from its table contributes an empty name, and " from " and " to " are
      always there. */
  lemma FormatFlightText(tables: Tables, flight: FlightData)
    ensures FormatFlight(tables, flight) ==
      Lookup(tables.airlines, flight.icaoAirline) + " " +
      Lookup(tables.types, flight.icaoType) + " from " +
      Lookup(tables.airports, flight.iataDeparting) + " to " +
      Lookup(tables.airports, flight.iataArriving)
  {
    TemplateText(
      Lookup(tables.airlines, flight.icaoAirline),
      Lookup(tables.types, flight.icaoType),
      Lookup(tables.airports, flight.iataDeparting),
      Lookup(tables.airports, flight.iataArriving));
  }

  /** When none of the four codes is in its table (as for the zero-value record that an
      empty candidate set yields, unless a table has an empty code), only the template's
      fixed text remains. */
  lemma UnknownCodesText(tables: Tables, flight: FlightData)
    requires flight.icaoAirline !in tables.airlines && flight.icaoType !in tables.types
    requires flight.iataDeparting !in tables.airports && flight.iataArriving !in tables.airports
    ensures FormatFlight(tables, flight) == "  from  to "
  {
    FormatFlightText(tables, flight);
    var empty: string := "";
    assert empty + " " + empty + " from " + empty + " to " + empty == "  from  to ";
  }

  /** A missing airline code contributes an empty name: the line starts with the
      separator that follows it. */
  lemma MissingAirlineText(tables: Tables, flight: FlightData)
    requires flight.icaoAirline !in tables.airlines
    ensures |FormatFlight(tables, flight)| > 0 && FormatFlight(tables, flight)[0] == ' '
  {
    FormatFlightText(tables, flight);
  }

  /** A known airline code contributes its name, followed by the separator. */
  lemma KnownAirlineText(tables: Tables, flight: FlightData)
    requires flight.icaoAirline in tables.airlines
    ensures var name := tables.airlines[flight.icaoAirline];
      |FormatFlight(tables, flight)| > |name| && FormatFlight(tables, flight)[..|name| + 1] == name + " "
  {
    FormatFlightText(tables, flight);
    var name := tables.airlines[flight.icaoAirline];
    var rest := Lookup(tables.types, flight.icaoType) + " from " +
      Lookup(tables.airports, flight.iataDeparting) + " to " +
      Lookup(tables.airports, flight.iataArriving);
    assert FormatFlight(tables, flight) == name + " " + rest;
  }
}
