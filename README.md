# axiom-dashboard backend core, in Dafny

The dashboard backend asks the Axiom log-analytics service for per-IP request
counts, resolves every IP address to a location, joins the two and serves
the result to a map frontend. This project models the three pieces of data
logic in that pipeline and proves what they promise:

- **Columnar-to-row transpose** (`tabular.dfy`, module `Tabular`). Axiom
  answers `{tables: [{fields: [{name}], columns: [[...], ...]}]}` with column
  `j` holding field `j`. `ParseTabularResponse` is the service client's
  comprehension. `ParseAxiomResponse` is the older server's nested loop,
  proved against its specification function `AxiomRows`. The source's
  crashes become preconditions (`Parseable`, `AxiomParseable`): a `"fields"`
  key that is present but null (it cannot be iterated), and index errors.
  Index errors only arise when the first column has rows, because
  `range(0)` never indexes anything. A missing `"fields"` key, and a missing
  or null `"tables"` or `"columns"` key, read as empty.
- **Batch geocoding** (`geolocation.dfy`, module `Geolocation`). These are
  the record rules for the offline MaxMind database, for ipwho.is (service
  module) and for ip-api.com (older server). `GeocodeIps` is the loop that
  picks one strategy by whether a reader exists, looks every address up in
  input order and keeps only the successes. The database reader and the
  HTTP call are function parameters.
- **Geodata join** (`geodata.dfy`, module `Geodata`). This covers the
  addresses sent to the geocoder, the IP → record lookup where the last
  record wins, and the order-preserving inner join of count rows with geo
  records. `GetGeodata` is the service handler. `MergeGeodata` and
  `GetGeodataLegacy` are the older server's merge loop and handler, proved
  equal to it.

The shared shape is "walk in order, keep successes". It is defined once, as
`FilterMaps.FilterMap`, and characterised once, by `FilterMapExact`. JSON
values and Python truthiness are in `json.dfy`.

Behaviour worth knowing, as the code has it:
- The addresses sent to the geocoder are not deduplicated
  (`SelectedIpsKeepsRepeats`), although the variable is named `unique_ips`
  (`backend/routes/api.py:29`) and the older server's comment reads
  "Geocode all unique IPs" (`backend/server.py:266`).
- The remote services' `"Unknown"`/`"??"` defaults apply only when the key is
  absent. A present `null` or `""` is passed through (`IpwhoKeepsNullCity`).
  Only the MaxMind rule guarantees non-empty names.
- The older parser tolerates fewer columns than fields. The service client
  raises an index error there (`MissingColumnDiffers`).

## Model

| member | source | states |
|---|---|---|
| `FilterMaps.FilterMap` | backend/services/geolocation.py:94-109 | keeping only successful lookups never yields more results than inputs |
| `FilterMaps.FilterMapExact` | backend/services/geolocation.py:97-106 | the k-th result is the success at the k-th successful position; positions increase; a position is kept iff its lookup succeeds (no placeholders, no reordering) |
| `FilterMaps.FilterMapAppend` | backend/routes/api.py:29 | filtering a concatenation is the concatenation of the filtered parts |
| `Tabular.ZipRow` | backend/services/axiom.py:63 | a row dictionary's keys are exactly the field names |
| `Tabular.ZipRowAt` | backend/services/axiom.py:63 | a field name maps to the value at its last position: a later duplicate overwrites an earlier one |
| `Tabular.Transpose` | backend/services/axiom.py:61-65 | one row per entry of `columns[0]`, each keyed by exactly the field names |
| `Tabular.ParseTabularResponse` | backend/services/axiom.py:50-65 | `[]` for missing or empty `tables`, and for a first table with no fields or no columns; otherwise `len(columns[0])` rows keyed by the field names; callable exactly when no index error can occur |
| `Tabular.NullFieldsRaise` | backend/services/axiom.py:55 | a first table whose `"fields"` is null cannot be parsed by either version, whatever its columns |
| `Tabular.ParseTabularCell` | backend/services/axiom.py:61-65 | row `i` maps `fields[j]` to `columns[j][i]` (for the last position of that name) |
| `Tabular.ParseTabularFirstTableOnly` | backend/services/axiom.py:54 | tables after the first have no effect on the result |
| `Tabular.ParseTabularExample` | backend/services/axiom.py:44-48 | the documented `ip`/`request_count` example yields its two rows in column order |
| `Tabular.PaddedTranspose` | backend/server.py:211-217 | one row per entry of `columns[0]`, each keyed by exactly the field names, even with fewer columns than fields |
| `Tabular.ParseAxiomResponse` | backend/server.py:184-219 | the nested loops build exactly the rows of `AxiomRows` (the value `parse_axiom_response` returns: `[]` for no tables, fields or columns, else `PaddedTranspose`) |
| `Tabular.AxiomRowsAgree` | backend/server.py:199-219 | when every field has a column, the older parser and the service parser return the same rows |
| `Tabular.AxiomRowsCell` | backend/server.py:213-217 | row `i` maps `fields[j]` to `columns[j][i]` when column `j` exists and to None otherwise |
| `Tabular.MissingColumnDiffers` | backend/server.py:216 | with one column for two fields the service parser cannot run but the older one fills None |
| `Geolocation.OrDefault` | backend/services/geolocation.py:56-58 | `name or default`: an absent or empty name is replaced, a non-empty one kept; never empty |
| `Geolocation.MaxMindRecord` | backend/services/geolocation.py:51-58 | a record exists iff both coordinates are present and non-zero; it carries the looked-up ip, the coordinates, and city/country `"Unknown"` and code `"??"` defaults |
| `Geolocation.LookupMaxMind` | backend/services/geolocation.py:45-62 | no record without a reader or when the reader raises; otherwise the MaxMind record rule |
| `Geolocation.ZeroCoordinatesRejected` | backend/services/geolocation.py:51 | a zero latitude or longitude is a failed lookup, not a (0, 0) location |
| `Geolocation.IpwhoRecord` | backend/services/geolocation.py:70-83 | a record exists iff `success` is truthy and both coordinates are present; defaults apply only to absent keys |
| `Geolocation.IpApiRecord` | backend/server.py:92-100 | a record exists iff `status == "success"` and `lat`/`lon` are present; `lon` becomes lng and `countryCode` the country code |
| `Geolocation.LookupRemote` | backend/services/geolocation.py:65-83 | a failed call yields no record; otherwise the chosen service's record rule |
| `Geolocation.IpwhoKeepsNullCity` | backend/services/geolocation.py:75-77 | a present but null city stays null: the default is for absent keys only |
| `Geolocation.GeocodeIps` | backend/services/geolocation.py:88-109 | the loop returns exactly `FilterMap` of `Strategy`: the in-order successes of the one lookup chosen, once per call, by the reader's presence (lines 96-107) |
| `Geolocation.GeocodeIpsExact` | backend/server.py:113-131 | results are the successful lookups in input order, at most one per input; each carries the ip it was looked up for; all come from MaxMind when a reader exists and all from the remote service otherwise |
| `Geolocation.GeocodedIpsAreInputs` | backend/services/geolocation.py:52 | every geocoded record carries one of the addresses it was asked for |
| `Geodata.SelectedIpsExact` | backend/routes/api.py:29 | `SelectedIps`, the list the geocoder receives, holds the truthy `ip` of every count row, in row order, and nothing else |
| `Geodata.SelectedIpsKeepsRepeats` | backend/routes/api.py:29 | the selection is not deduplicated: repeated rows send their address repeatedly |
| `Geodata.GeoLookup` | backend/routes/api.py:32 | every geo record's ip is a key; every entry is a geo record indexed under its own ip |
| `Geodata.GeoLookupLastWins` | backend/routes/api.py:32 | when several geo records share an ip, the lookup holds the last one |
| `Geodata.MergeRow` | backend/routes/api.py:35 | the merged record is the whole geo record plus `request_count` from the row (default 0), overriding any count in the geo record |
| `Geodata.JoinExact` | backend/routes/api.py:34-38 | `Join`, the comprehension's result, is the count rows in their original order restricted to rows with a truthy ip present in the lookup, each merged with that ip's record |
| `Geodata.JoinComplete` | backend/routes/api.py:34-38 | no partial record: every output reports a truthy geocoded ip and has all of that ip's geo fields plus `request_count` |
| `Geodata.GetGeodata` | backend/routes/api.py:16-38 | empty count data gives `[]` and no geocoder call; otherwise one call with the selected ips, and the records are the join of the count rows with the lookup built from the geocoder's answer; never more records than count rows; every record has ip and count |
| `Geodata.GeocodedRowsCarryIp` | backend/services/geolocation.py:52 | the modelled geocoder's rows meet the handler's demand: each has an `"ip"` key, a string among the addresses sent |
| `Geodata.GetGeodataExample` | backend/routes/api.py:34-38 | counts for A (10) and B (5) with a geo record for A only give exactly A's record with count 10 |
| `Geodata.MergeGeodata` | backend/server.py:273-279 | the merge loop produces exactly the join of the service handler |
| `Geodata.GetGeodataLegacy` | backend/server.py:263-281 | the older handler (early return, one geocoder call, lookup, merge loop) answers exactly as the service handler |

## Left out

- HTTP calls to Axiom, ipwho.is and ip-api.com are not modelled. Each remote lookup is a function parameter (`Fetch`) returning the decoded JSON object, or None when the call, the decoding or the reply's shape raised. A function is deterministic, so two calls for the same address answer alike.
- `query_ip_counts`, `query_stats`, `query_axiom` and the APL query text are not modelled: they are network I/O and text for a foreign service. The count rows reach `GetGeodata` as a parameter.
- The concurrent fan-out in `query_stats` (`asyncio.gather`) and the courtesy `asyncio.sleep` delays are not modelled: they concern timing only.
- `_time_range` and `datetime.now` are not modelled: they read the wall clock.
- Opening the MaxMind database (`_init_maxmind`, file-existence check, `geoip2` reader) is not modelled. The reader is an `Option<CityLookup>` parameter, and None stands for an unopened database.
- The `hours` range check (`ge=1, le=720`) is enforced by the web framework before the handler runs, so it is not modelled.
- `backend/config.py`, `backend/main.py` and `backend/routes/frontend.py` are not modelled: environment loading, app assembly and static files.
- Logging of failed lookups is not modelled.
- Field entries without a `"name"` key (a KeyError) are not modelled. Fields are given as their names.
- Nested arrays or objects as table cells are not modelled. Cells are JSON scalars.
- Coordinates are JSON scalars, and MaxMind coordinates are reals. No arithmetic is done on them; only the present-and-non-zero test matters.
- Dictionary keys compare by structural equality of `Json.Value`. Python's cross-type numeric equality (`1 == 1.0 == True`) is not modelled.
- `Geodata.GetGeodata` takes the geocoder as an arbitrary function over the selected `ip` values (JSON values). `Geolocation.GeocodeIps` takes strings, matching its annotation, and the two are not composed into one pipeline. `Geodata.GeocodedRowsCarryIp` shows only that the modelled geocoder's rows satisfy the handler's requirement.
