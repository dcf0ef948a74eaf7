/**
 * The geodata handler: per-IP request counts from the analytics service are
 * joined with the geolocation records, keeping the counts' order and
 * dropping every row whose address did not resolve. The analytics query
 * and the geocoder are inputs.
 */
module Geodata {
  import opened Wrappers
  import opened Json
  import opened FilterMaps
  import Geolocation

  /** `row.get("ip")` is truthy. */
  predicate HasIp(row: Row) {
    "ip" in row && Truthy(row["ip"])
  }

  function SelectedIp(row: Row): Option<Value> {
    if HasIp(row) then Some(row["ip"]) else None
  }

  /** `[row["ip"] for row in ip_data if row.get("ip")]`: the addresses sent to the geocoder. */
  function SelectedIps(ipData: seq<Row>): seq<Value> {
    FilterMap(SelectedIp, ipData)
  }

  /**
   * The addresses sent to the geocoder are the truthy `ip` values of the
   * count rows, all of them, in row order.
   */
  lemma {:induction false} SelectedIpsExact(ipData: seq<Row>)
    ensures var ips, idx := SelectedIps(ipData), Kept(SelectedIp, ipData);
            && |ips| == |idx| <= |ipData|
            && (forall k, l :: 0 <= k < l < |idx| ==> idx[k] < idx[l])
            && (forall k :: 0 <= k < |ips| ==> idx[k] < |ipData| && HasIp(ipData[idx[k]]) && ips[k] == ipData[idx[k]]["ip"])
            && (forall i :: 0 <= i < |ipData| ==> (HasIp(ipData[i]) <==> i in idx))
  {
    FilterMapExact(SelectedIp, ipData);
  }

  /** The selection is not deduplicated: a repeated row sends its address twice. */
  lemma {:induction false} SelectedIpsKeepsRepeats(ipData: seq<Row>)
    ensures SelectedIps(ipData + ipData) == SelectedIps(ipData) + SelectedIps(ipData)
  {
    FilterMapAppend(SelectedIp, ipData, ipData);
  }

  /**
   * `{g["ip"]: g for g in geo_results}`: every record is indexed by its own
   * address, and a record is only ever indexed under that address.
   */
  function GeoLookup(geo: seq<Row>): (lookup: map<Value, Row>)
    requires forall g <- geo :: "ip" in g
    ensures forall g <- geo :: g["ip"] in lookup
    ensures forall v <- lookup :: lookup[v] in geo && "ip" in lookup[v] && lookup[v]["ip"] == v
  {
    if geo == [] then map[]
    else
      var n := |geo| - 1;
      assert forall g <- geo[..n] :: g in geo;
      GeoLookup(geo[..n])[geo[n]["ip"] := geo[n]]
  }

  /** When several records share an address, the lookup keeps the last one. */
  lemma {:induction false} GeoLookupLastWins(geo: seq<Row>, i: nat)
    requires forall g <- geo :: "ip" in g
    requires i < |geo|
    requires forall l :: i < l < |geo| ==> geo[l]["ip"] != geo[i]["ip"]
    ensures GeoLookup(geo)[geo[i]["ip"]] == geo[i]
  {
    var n := |geo| - 1;
    var p := geo[..n];
    assert forall g <- p :: g in geo;
    var last := geo[n];
    var key := geo[i]["ip"];
    assert GeoLookup(geo) == GeoLookup(p)[last["ip"] := last];
    if i < n {
      assert p[i] == geo[i];
      assert last["ip"] != key;
      GeoLookupLastWins(p, i);
    }
  }

  /**
   * `{**geo, "request_count": row.get("request_count", 0)}`: the whole geo
   * record plus the row's count, which overrides any count in the record.
   */
  function MergeRow(geo: Row, row: Row): (merged: Row)
    ensures merged.Keys == geo.Keys + {"request_count"}
    ensures merged["request_count"] == Get(row, "request_count", Int(0))
    ensures forall k <- geo :: k != "request_count" ==> merged[k] == geo[k]
  {
    geo["request_count" := Get(row, "request_count", Int(0))]
  }

  /** The output for one count row, if any. */
  function JoinRow(lookup: map<Value, Row>, row: Row): Option<Row> {
    if HasIp(row) && row["ip"] in lookup then Some(MergeRow(lookup[row["ip"]], row)) else None
  }

  function Joiner(lookup: map<Value, Row>): Row -> Option<Row> {
    row => JoinRow(lookup, row)
  }

  /** The inner join, in count-row order. */
  function Join(ipData: seq<Row>, lookup: map<Value, Row>): seq<Row> {
    FilterMap(Joiner(lookup), ipData)
  }

  /**
   * Join correctness: the output is the count rows, in their original order,
   * restricted to those whose address is non-empty and geocoded; each output
   * is that address's geo record with the row's request count.
   */
  lemma {:induction false} JoinExact(ipData: seq<Row>, lookup: map<Value, Row>)
    ensures var r, idx := Join(ipData, lookup), Kept(Joiner(lookup), ipData);
            && |r| == |idx| <= |ipData|
            && (forall k, l :: 0 <= k < l < |idx| ==> idx[k] < idx[l])
            && (forall k :: 0 <= k < |r| ==>
                  idx[k] < |ipData| && HasIp(ipData[idx[k]]) && ipData[idx[k]]["ip"] in lookup &&
                  r[k] == MergeRow(lookup[ipData[idx[k]]["ip"]], ipData[idx[k]]))
            && (forall i :: 0 <= i < |ipData| ==> (HasIp(ipData[i]) && ipData[i]["ip"] in lookup <==> i in idx))
  {
    var f := Joiner(lookup);
    FilterMapExact(f, ipData);
    var r, idx := Join(ipData, lookup), Kept(f, ipData);
    forall k | 0 <= k < |r|
      ensures HasIp(ipData[idx[k]]) && ipData[idx[k]]["ip"] in lookup
      ensures r[k] == MergeRow(lookup[ipData[idx[k]]["ip"]], ipData[idx[k]])
    {
      assert f(ipData[idx[k]]) == Some(r[k]);
    }
    forall i | 0 <= i < |ipData|
      ensures HasIp(ipData[i]) && ipData[i]["ip"] in lookup <==> i in idx
    {
      assert f(ipData[i]) == JoinRow(lookup, ipData[i]);
    }
  }

  /**
   * No partial record: every output carries a full geo record indexed under
   * the address it reports, plus a request count.
   */
  lemma JoinComplete(ipData: seq<Row>, geo: seq<Row>)
    requires forall g <- geo :: "ip" in g
    ensures forall rec <- Join(ipData, GeoLookup(geo)) ::
              && "ip" in rec && Truthy(rec["ip"]) && rec["ip"] in GeoLookup(geo)
              && rec.Keys == GeoLookup(geo)[rec["ip"]].Keys + {"request_count"}
              && GeoLookup(geo)[rec["ip"]] in geo
              && forall k <- GeoLookup(geo)[rec["ip"]] :: k != "request_count" ==> rec[k] == GeoLookup(geo)[rec["ip"]][k]
  {
    var lookup := GeoLookup(geo);
    JoinExact(ipData, lookup);
    var r, idx := Join(ipData, lookup), Kept(Joiner(lookup), ipData);
    forall rec | rec in r
      ensures && "ip" in rec && Truthy(rec["ip"]) && rec["ip"] in lookup
              && rec.Keys == lookup[rec["ip"]].Keys + {"request_count"}
              && lookup[rec["ip"]] in geo
              && forall k <- lookup[rec["ip"]] :: k != "request_count" ==> rec[k] == lookup[rec["ip"]][k]
    {
      var k :| 0 <= k < |r| && r[k] == rec;
      var v := ipData[idx[k]]["ip"];
      assert lookup[v] in geo && lookup[v]["ip"] == v;
      assert rec["ip"] == v;
    }
  }

  /** What one geodata request did: the batches sent to the geocoder and the records returned. */
  datatype GeodataReply = GeodataReply(geocodeCalls: seq<seq<Value>>, records: seq<Row>)

  /**
   * get_geodata over the count rows and the geocoder. Empty count data is
   * answered with no records and no geocoder call; otherwise the geocoder is
   * called once, with the selected addresses, and the records are the join.
   */
  function GetGeodata(ipData: seq<Row>, geocode: seq<Value> -> seq<Row>): (reply: GeodataReply)
    requires ipData != [] ==> forall g <- geocode(SelectedIps(ipData)) :: "ip" in g
    ensures ipData == [] <==> reply.geocodeCalls == []
    ensures ipData == [] ==> reply.records == []
    ensures ipData != [] ==> reply.geocodeCalls == [SelectedIps(ipData)]
    ensures ipData != [] ==> reply.records == Join(ipData, GeoLookup(geocode(SelectedIps(ipData))))
    ensures |reply.records| <= |ipData|
    ensures forall rec <- reply.records :: "ip" in rec && Truthy(rec["ip"]) && "request_count" in rec
  {
    if ipData == [] then GeodataReply([], [])
    else
      var ips := SelectedIps(ipData);
      var geo := geocode(ips);
      JoinComplete(ipData, geo);
      GeodataReply([ips], Join(ipData, GeoLookup(geo)))
  }

  /** The dict form of the geocoder's records, as the handler receives them. */
  function RecordRows(recs: seq<Geolocation.GeoRecord>): seq<Row> {
    seq(|recs|, k requires 0 <= k < |recs| => recs[k].ToRow())
  }

  /**
   * The modelled geocoder meets what the handler demands of it: each row it
   * returns has an "ip" key, and that key is one of the addresses it was given.
   */
  lemma {:induction false} GeocodedRowsCarryIp(reader: Option<Geolocation.CityLookup>, service: Geolocation.Service,
                                               fetch: Geolocation.Fetch, ips: seq<string>)
    ensures forall g: Row | g in RecordRows(FilterMap(Geolocation.Strategy(reader, service, fetch), ips)) ::
              "ip" in g && g["ip"].Str? && g["ip"].s in ips
  {
    var recs := FilterMap(Geolocation.Strategy(reader, service, fetch), ips);
    Geolocation.GeocodedIpsAreInputs(reader, service, fetch, ips);
    forall g: Row | g in RecordRows(recs)
      ensures "ip" in g && g["ip"].Str? && g["ip"].s in ips
    {
      var k :| 0 <= k < |recs| && RecordRows(recs)[k] == g;
      assert recs[k] in recs;
    }
  }

  /**
   * The documented join example: counts for A (10) and B (5), a geo record
   * for A only; the reply holds A alone, with its count.
   */
  lemma GetGeodataExample(geoA: Row)
    requires "ip" in geoA && geoA["ip"] == Str("A")
    ensures var ipData := [map["ip" := Str("A"), "request_count" := Int(10)],
                           map["ip" := Str("B"), "request_count" := Int(5)]];
            GetGeodata(ipData, ips => [geoA]).records == [geoA["request_count" := Int(10)]]
  {
    var a := map["ip" := Str("A"), "request_count" := Int(10)];
    var b := map["ip" := Str("B"), "request_count" := Int(5)];
    var ipData := [a, b];
    var lookup := GeoLookup([geoA]);
    assert [geoA][..0] == [];
    assert lookup == map[Str("A") := geoA];
    assert ipData[..1] == [a] && [a][..0] == [];
    assert Join([a], lookup) == [geoA["request_count" := Int(10)]];
    assert Join(ipData, lookup) == Join([a], lookup);
  }

  // ---------------------------------------------------------------------
  // backend/server.py: the consolidated handler's merge loop
  // ---------------------------------------------------------------------

  /** The merge loop: for each count row whose address is in the lookup, append a copy with its count. */
  method MergeGeodata(ipData: seq<Row>, lookup: map<Value, Row>) returns (merged: seq<Row>)
    ensures merged == Join(ipData, lookup)
  {
    merged := [];
    for i := 0 to |ipData|
      invariant merged == Join(ipData[..i], lookup)
    {
      var row := ipData[i];
      var ip := Get(row, "ip", Null);
      assert ipData[..i + 1][..i] == ipData[..i];
      if Truthy(ip) && ip in lookup {
        var entry := lookup[ip];
        entry := entry["request_count" := Get(row, "request_count", Int(0))];
        merged := merged + [entry];
      }
    }
    assert ipData[..|ipData|] == ipData;
  }

  /**
   * The consolidated server's get_geodata after parsing: early return on no
   * data, one geocoder call, lookup, merge loop. It answers exactly as the
   * service version does.
   */
  method GetGeodataLegacy(ipData: seq<Row>, geocode: seq<Value> -> seq<Row>) returns (reply: GeodataReply)
    requires ipData != [] ==> forall g <- geocode(SelectedIps(ipData)) :: "ip" in g
    ensures reply == GetGeodata(ipData, geocode)
  {
    if ipData == [] {
      return GeodataReply([], []);
    }
    var ips := SelectedIps(ipData);
    var geo := geocode(ips);
    var lookup := GeoLookup(geo);
    var merged := MergeGeodata(ipData, lookup);
    reply := GeodataReply([ips], merged);
  }
}
