/** The flight-feed decoder: parseFlightsJSON turns the unmarshalled feed, an
    object whose values are positional arrays, into flight records. */
module FlightFeed {
  import opened Json
  import opened Results

  /** One aircraft as the locator keeps it (Go struct flightData). */
  datatype FlightData = FlightData(
    icaoType: string,
    icaoAirline: string,
    iataDeparting: string,
    iataArriving: string,
    longitude: real,
    latitude: real,
    altitude: int)

  /** Go's zero value `flightData{}`. */
  const NoFlight := FlightData("", "", "", "", 0.0, 0.0, 0)

  /** The two keys of the feed object that are not flights. */
  const Bookkeeping: set<string> := {"full_count", "version"}

  /** The highest index read from a record is 18, so a record needs 19 elements. */
  const RecordLength: nat := 19

  /** Why one record could not be read: each is a panic in the source. */
  datatype RecordError =
    | NotAnArray                 // planeData.([]interface{}) fails
    | IndexOutOfRange(index: nat) // status[index] with index >= len(status)
    | WrongType(index: nat)       // status[index].(float64) or .(string) fails

  /** Why the whole feed could not be read. */
  datatype FeedError =
    | NotAnObject                              // response.(map[string]interface{}) fails
    | BadRecord(key: string, cause: RecordError)

  /** Go's int(x) for a float64 x: truncation toward zero. */
  function Truncate(x: real): (n: int)
    ensures 0.0 <= x ==> n as real <= x < n as real + 1.0
    ensures x < 0.0 ==> n as real - 1.0 < x <= n as real
  {
    if x >= 0.0 then x.Floor else -((-x).Floor)
  }

  /** `a[i].(float64)`: the index is checked before the type. */
  function NumberAt(a: seq<JVal>, i: nat): Result<real, RecordError>
  {
    if i >= |a| then Err(IndexOutOfRange(i))
    else if a[i].JNum? then Ok(a[i].n)
    else Err(WrongType(i))
  }

  /** `a[i].(string)`. */
  function StringAt(a: seq<JVal>, i: nat): Result<string, RecordError>
  {
    if i >= |a| then Err(IndexOutOfRange(i))
    else if a[i].JStr? then Ok(a[i].s)
    else Err(WrongType(i))
  }

  /** The record layout the decoder relies on: an array of at least 19 elements
      with numbers at 1, 2, 4 and strings at 8, 11, 12, 18. */
  ghost predicate WellShaped(v: JVal) {
    && v.JArr?
    && |v.elems| >= RecordLength
    && v.elems[1].JNum? && v.elems[2].JNum? && v.elems[4].JNum?
    && v.elems[8].JStr? && v.elems[11].JStr? && v.elems[12].JStr? && v.elems[18].JStr?
  }

  /** The body of the loop in parseFlightsJSON: read one positional record. */
  function DecodeRecord(v: JVal): (r: Result<FlightData, RecordError>)
    ensures r.Ok? <==> WellShaped(v)
    ensures r.Ok? ==> r.value == FlightData(
      icaoType := v.elems[8].s,
      icaoAirline := v.elems[18].s,
      iataDeparting := v.elems[11].s,
      iataArriving := v.elems[12].s,
      longitude := v.elems[2].n,
      latitude := v.elems[1].n,
      altitude := Truncate(v.elems[4].n))
    ensures !v.JArr? ==> r == Err(NotAnArray)
  {
    if !v.JArr? then Err(NotAnArray)
    else
      var status := v.elems;
      var latitude :- NumberAt(status, 1);
      var longitude :- NumberAt(status, 2);
      var altitude :- NumberAt(status, 4);
      var icaoType :- StringAt(status, 8);
      var iataDeparting :- StringAt(status, 11);
      var iataArriving :- StringAt(status, 12);
      var icaoAirline :- StringAt(status, 18);
      Ok(FlightData(icaoType, icaoAirline, iataDeparting, iataArriving,
                    longitude, latitude, Truncate(altitude)))
  }

  ghost predicate Distinct<T>(s: seq<T>) {
    forall i, j :: 0 <= i < j < |s| ==> s[i] != s[j]
  }

  ghost function Elements<T>(s: seq<T>): set<T> {
    set i | 0 <= i < |s| :: s[i]
  }

  /** `order` lists every element of `keys` exactly once. */
  ghost predicate Enumerates<T>(order: seq<T>, keys: set<T>) {
    Distinct(order) && Elements(order) == keys
  }

  /** `flights` is what decoding the entries named by `order`, in that order, gives. */
  ghost predicate DecodedInOrder(entries: map<string, JVal>, order: seq<string>, flights: seq<FlightData>) {
    && |flights| == |order|
    && forall i :: 0 <= i < |order| ==>
         order[i] in entries && DecodeRecord(entries[order[i]]) == Ok(flights[i])
  }

  /** The feed decodes: it is an object and every entry but the bookkeeping ones is a well-shaped record. */
  ghost predicate Decodable(response: JVal) {
    && response.JObj?
    && forall k :: k in response.fields && k !in Bookkeeping ==> DecodeRecord(response.fields[k]).Ok?
  }

  lemma {:induction false} DistinctCardinality<T>(s: seq<T>)
    requires Distinct(s)
    ensures |Elements(s)| == |s|
  {
    if s != [] {
      var tail := s[1..];
      DistinctCardinality(tail);
      assert Elements(s) == {s[0]} + Elements(tail);
      assert s[0] !in Elements(tail);
    }
  }

  lemma ElementsAppend<T>(s: seq<T>, x: T)
    ensures Elements(s + [x]) == Elements(s) + {x}
  {
    var t := s + [x];
    forall y | y in Elements(t) ensures y in Elements(s) + {x} {
      var i :| 0 <= i < |t| && t[i] == y;
      if i < |s| { assert s[i] == y; }
    }
    forall y | y in Elements(s) ensures y in Elements(t) {
      var i :| 0 <= i < |s| && s[i] == y;
      assert t[i] == y;
    }
    assert t[|s|] == x;
  }

  lemma DecodedInOrderAppend(entries: map<string, JVal>, order: seq<string>, flights: seq<FlightData>,
                             key: string, flight: FlightData)
    requires DecodedInOrder(entries, order, flights)
    requires key in entries && DecodeRecord(entries[key]) == Ok(flight)
    ensures DecodedInOrder(entries, order + [key], flights + [flight])
  {
  }

  /** Every key of a listing whose entries decoded in order has an entry that decodes. */
  lemma ListedKeysDecode(entries: map<string, JVal>, order: seq<string>, flights: seq<FlightData>)
    requires Elements(order) == entries.Keys && DecodedInOrder(entries, order, flights)
    ensures forall k :: k in entries ==> DecodeRecord(entries[k]).Ok?
  {
  }

  /** parseFlightsJSON. Go visits the map in an unspecified order; the key chosen at each
      step is arbitrary here, and `order` records the order in which the keys were visited. */
  method ParseFlights(response: JVal) returns (r: Result<seq<FlightData>, FeedError>, ghost order: seq<string>)
    ensures r.Ok? <==> Decodable(response)
    ensures !response.JObj? ==> r == Err(NotAnObject)
    ensures r.Err? && response.JObj? ==>
      && r.error.BadRecord?
      && r.error.key in response.fields && r.error.key !in Bookkeeping
      && DecodeRecord(response.fields[r.error.key]) == Err(r.error.cause)
    ensures r.Ok? ==>
      && Enumerates(order, response.fields.Keys - Bookkeeping)
      && DecodedInOrder(response.fields, order, r.value)
    ensures r.Ok? ==> |r.value| == |response.fields.Keys - Bookkeeping|
  {
    order := [];
    if !response.JObj? {
      r := Err(NotAnObject);
      return;
    }
    var flightsData := response.fields;
    flightsData := flightsData - {"full_count"};
    flightsData := flightsData - {"version"};
    assert flightsData.Keys == response.fields.Keys - Bookkeeping;

    var flights: seq<FlightData> := [];
    var pending := flightsData.Keys;
    while pending != {}
      invariant pending <= flightsData.Keys
      invariant Enumerates(order, flightsData.Keys - pending)
      invariant DecodedInOrder(flightsData, order, flights)
      decreases pending
    {
      var key :| key in pending;
      var plane := DecodeRecord(flightsData[key]);
      if plane.Err? {
        r := Err(BadRecord(key, plane.error));
        return;
      }
      ElementsAppend(order, key);
      DecodedInOrderAppend(flightsData, order, flights, key, plane.value);
      flights := flights + [plane.value];
      order := order + [key];
      pending := pending - {key};
    }

    ListedKeysDecode(flightsData, order, flights);
    assert forall k :: k in response.fields && k !in Bookkeeping ==> k in flightsData;
    DistinctCardinality(order);
    r := Ok(flights);
  }

  /** Removing position p from a repetition-free listing leaves a listing of the other keys. */
  lemma {:induction false} EnumeratesWithout<T>(order: seq<T>, keys: set<T>, p: nat)
    requires Enumerates(order, keys) && p < |order|
    ensures Enumerates(DropAt(order, p), keys - {order[p]})
  {
    var rest := DropAt(order, p);
    forall i | 0 <= i < |rest| ensures rest[i] == order[if i < p then i else i + 1] { }
    forall y | y in Elements(rest) ensures y in keys - {order[p]} {
      var i :| 0 <= i < |rest| && rest[i] == y;
    }
    forall y | y in keys - {order[p]} ensures y in Elements(rest) {
      var j :| 0 <= j < |order| && order[j] == y;
      var i := if j < p then j else j - 1;
      assert rest[i] == y;
    }
  }

  /** Two listings of the same keys, each mapped through the same function, are
      permutations of each other. */
  lemma {:induction false} ListingsPermute<K, V>(
    keys: set<K>, f: K -> V,
    order1: seq<K>, vals1: seq<V>, order2: seq<K>, vals2: seq<V>)
    requires Enumerates(order1, keys) && |vals1| == |order1|
    requires forall i :: 0 <= i < |order1| ==> vals1[i] == f(order1[i])
    requires Enumerates(order2, keys) && |vals2| == |order2|
    requires forall i :: 0 <= i < |order2| ==> vals2[i] == f(order2[i])
    ensures multiset(vals1) == multiset(vals2)
    decreases |order1|
  {
    if order1 == [] {
      DistinctCardinality(order2);
    } else {
      var k := order1[0];
      assert k in Elements(order1);
      var p :| 0 <= p < |order2| && order2[p] == k;
      EnumeratesWithout(order1, keys, 0);
      EnumeratesWithout(order2, keys, p);
      DropAtMapped(order1, vals1, f, 0);
      DropAtMapped(order2, vals2, f, p);
      ListingsPermute(keys - {k}, f, DropAt(order1, 0), DropAt(vals1, 0), DropAt(order2, p), DropAt(vals2, p));
      DropAtMultiset(vals1, 0);
      DropAtMultiset(vals2, p);
      assert vals1[0] == f(k) == vals2[p];
    }
  }

  function DropAt<T>(s: seq<T>, p: nat): seq<T>
    requires p < |s|
  {
    s[..p] + s[p + 1..]
  }

  lemma DropAtMapped<K, V>(order: seq<K>, vals: seq<V>, f: K -> V, p: nat)
    requires p < |order| == |vals|
    requires forall i :: 0 <= i < |order| ==> vals[i] == f(order[i])
    ensures |DropAt(vals, p)| == |DropAt(order, p)|
    ensures forall i :: 0 <= i < |DropAt(order, p)| ==> DropAt(vals, p)[i] == f(DropAt(order, p)[i])
  {
  }

  lemma DropAtMultiset<T>(s: seq<T>, p: nat)
    requires p < |s|
    ensures multiset(s) == multiset(DropAt(s, p)) + multiset{s[p]}
  {
    assert s == s[..p] + [s[p]] + s[p + 1..];
  }

  /** Whatever order the map is visited in, the decoded flights are the same up to
      a permutation: the feed determines the candidate set, not its order. */
  lemma DecodingOrderIrrelevant(
    entries: map<string, JVal>, keys: set<string>,
    order1: seq<string>, flights1: seq<FlightData>,
    order2: seq<string>, flights2: seq<FlightData>)
    requires Enumerates(order1, keys) && DecodedInOrder(entries, order1, flights1)
    requires Enumerates(order2, keys) && DecodedInOrder(entries, order2, flights2)
    ensures multiset(flights1) == multiset(flights2)
  {
    var f := k => if k in entries && DecodeRecord(entries[k]).Ok? then DecodeRecord(entries[k]).value else NoFlight;
    ListingsPermute(keys, f, order1, flights1, order2, flights2);
  }
}
