# Nearest-flight locator

A Dafny model of the core of a small Go web service (`main.go`). Given an observer's
longitude, latitude and altitude, the service asks a live flight feed for the aircraft in a
box around the observer, decodes the feed, picks the aircraft nearest to the observer, and
answers with one line naming its airline, aircraft type, origin and destination.

The model covers:

- **The feed decoder** (`parseFlightsJSON`), module `FlightFeed` in `feed.dfy`. The feed
  arrives already unmarshalled, as a `Json.JVal` (`json.dfy`). It is an object of
  positional arrays. The two bookkeeping keys `full_count` and `version` are removed. Every
  other entry is read at fixed indices: latitude 1, longitude 2, altitude 4 (truncated to an
  integer), aircraft type 8, departure airport 11, arrival airport 12, airline 18. Each
  failed type assertion or out-of-range index panics in Go. The model turns that into an
  `Err` for the whole decode. Go visits the map in an unspecified order, so the method
  picks keys by an arbitrary choice and returns the visiting order as a ghost value.
- **The geometry** (`feetToMeters`, `pointToCartesian`, `distance`), module `Geodesy` in
  `geodesy.dfy`. The WGS 84 formulas and constants are as written. Sine, cosine and square
  root are passed in as an `Elementary` value, because Dafny's reals cannot compute them.
- **The nearest-neighbour scan** (`getClosestPlane`), module `Locator` in `locator.dfy`.
  It is a loop over the fetched flights. It keeps a running minimum that starts at +∞ and
  replaces the best flight only on a strictly smaller distance. The observer's altitude is
  converted from feet to metres. Each flight's altitude goes into the transform
  unconverted, as in the source.
- **The lookup tables and the response line** (`mapRecords`, `formatFlight`), module
  `Metadata` in `metadata.dfy`. `mapRecords` is a loop that fills a map from CSV rows.
  `formatFlight` looks up four codes (a missing key gives `""`) and fills the template
  `"%s %s from %s to %s"`.

Behaviour followed from the code:

- Any malformed record fails the whole decode. Nothing is skipped record by record.
- With no flights, the scan returns the zero-value record. No "nothing found" message
  exists. Formatting that record prints `"  from  to "`, with two leading spaces, unless a
  table has an empty code (`UnknownCodesText`).
- Longitude and latitude go into the trigonometric functions as given. Nothing converts
  them from degrees to radians.

## Model

| member | source | states |
|---|---|---|
| FlightFeed.Truncate | main.go:145 | Go's `int(x)` on a float: the result is within 1 of `x` and on the zero side of it (truncation toward zero for both signs) |
| FlightFeed.DecodeRecord | main.go:141-149 | a record decodes if and only if it is an array of at least 19 elements with numbers at 1, 2, 4 and strings at 8, 11, 12, 18; the fields then come from those indices, the altitude truncated; a non-array fails as NotAnArray |
| FlightFeed.ParseFlights | main.go:129-154 | succeeds if and only if the feed is an object whose every entry other than `full_count` and `version` decodes; a non-object fails as NotAnObject; a failure names a non-bookkeeping key whose record fails; on success the keys are visited once each, bookkeeping keys never, the i-th flight is the decoding of the i-th key visited, and the number of flights equals the number of non-bookkeeping keys |
| FlightFeed.DecodingOrderIrrelevant | main.go:140-151 | any two visiting orders of the map give the same flights up to permutation |
| FlightFeed.ListingsPermute | main.go:140-151 | two repetition-free listings of the same keys, mapped through one function, are permutations of each other (the induction behind the row above) |
| Geodesy.FeetToMetersKeepsOrder | main.go:156-158 | converting feet to metres keeps the order of altitudes in both directions and never maps two altitudes to one |
| Geodesy.PrimeVerticalRadius | main.go:167-169 | the radius N(phi) is positive whenever sine lies in [-1, 1] and square root is positive on positive numbers |
| Geodesy.Distance | main.go:160-162 | the Euclidean distance is never negative |
| Geodesy.DistanceSymmetric | main.go:160-162 | the distance from p to q equals the distance from q to p |
| Geodesy.DistanceToSelf | main.go:160-162 | a point is at distance zero from itself |
| Geodesy.TransformAtOrigin | main.go:164-176 | at longitude 0, latitude 0 and altitude 0 the Cartesian point is (6378137, 0, 0) |
| Locator.ClosestPlane | main.go:78-96 | with no flights the result is the zero-value record; otherwise the result is the flight at some index k, no flight is nearer, and every flight before k is strictly farther, so on a tie the first one wins; distances use the converted observer altitude and the unconverted flight altitude |
| Metadata.MapRecords | main.go:196-204 | succeeds if and only if every row has at least two columns, and otherwise reports the first short row; the keys are exactly the rows' first columns; each key maps to the second column of the last row with that key |
| Metadata.TemplateText | main.go:75 | filling the template with four names gives them in order, joined by " ", " from " and " to " |
| Metadata.FormatFlightText | main.go:69-76 | the response line is airline + " " + aircraft + " from " + departing + " to " + arriving, each the table lookup of the flight's code |
| Metadata.MissingAirlineText | main.go:69-75 | an airline code missing from its table contributes the empty string, so the line starts with the space that follows it |
| Metadata.KnownAirlineText | main.go:69-75 | an airline code present in its table contributes its name, so the line starts with that name and a space |
| Metadata.UnknownCodesText | main.go:69-76 | when none of the four codes is in its table, the response line is `"  from  to "` |

## Left out

- The HTTP server, `main` and `handler`: I/O. The handler also ignores `strconv.ParseFloat` errors, which give 0 on a syntax error and ±Inf on overflow; the model starts from the three numbers as reals.
- `getCookie` and the network fetch in `getFlights`: I/O. The scan takes the fetched flights as a parameter. The bounding box that `getFlights` builds with `math.Cos` is not modelled, because it only shapes the URL.
- `loadCsv` and the package-level initialisation of the three tables: file I/O at process start. `MapRecords` takes the rows as a parameter and `Tables` holds the three maps.
- `json.Unmarshal`: a library call, whose error main.go only logs. The decoder starts from the `JVal` it would produce. A syntax error leaves the value nil (`JNull`), which fails as NotAnObject. A number outside float64 range in otherwise valid JSON is stored as nil in its place (`JNull`), so a record holding one at index 1, 2 or 4 fails as WrongType, and such a number under a bookkeeping key is harmless.
- Panics: the model returns `Err` where Go panics. Go's HTTP server recovers a handler panic per request, and a panic during table loading stops the process. The model does not say which of these happens.
- Floating point: numbers are exact reals. float64 rounding, infinities and NaN are not modelled. So the +∞ start of the running minimum is only beaten by a finite distance, and a distance can never itself be infinite or NaN.
- Truncate: does not model Go's implementation-specific result for floats outside the range of `int`. The result is an unbounded integer.
- `math.Sin`, `math.Cos`, `math.Sqrt`: parameters. The model relies on sine lying in [-1, 1], square root of 0 being 0, and square root being positive on positive numbers. `TransformAtOrigin` also assumes sin(0) = 0, cos(0) = 1 and sqrt(1) = 1. `math.Pow(v, 2)` is `v * v`.
- `fmt.Sprintf`: only the `%s` verb, with the format given already split into text and verbs. Surplus arguments (`%!(EXTRA …)`) are not modelled; the program passes exactly four.
- ParseFlights: when several records are malformed, which one is reported depends on the visiting order. The model states only that the reported key is non-bookkeeping and that its record fails.
