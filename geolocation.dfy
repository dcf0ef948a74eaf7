/**
 * Batch IP geolocation. The offline MaxMind database is used when its reader
 * was opened at start-up; otherwise every address goes to a free remote
 * service (ipwho.is in the service module, ip-api.com in the older server).
 * The database lookup and the HTTP call are parameters; what is modelled is
 * how each answer becomes a location record, and which addresses make it
 * into the result.
 */
module Geolocation {
  import opened Wrappers
  import opened Json
  import opened FilterMaps

  /** One resolved address, as handed to the join. */
  datatype GeoRecord = GeoRecord(ip: string, lat: Value, lng: Value, city: Value, country: Value, countryCode: Value)
  {
    /** The dict form `{"ip", "lat", "lng", "city", "country", "country_code"}`. */
    function ToRow(): Row {
      map["ip" := Str(ip), "lat" := lat, "lng" := lng, "city" := city,
          "country" := country, "country_code" := countryCode]
    }
  }

  // ---------------------------------------------------------------------
  // Offline database (_lookup_maxmind, geocode_ip_maxmind)
  // ---------------------------------------------------------------------

  /** The parts of the database's city response that are read. */
  datatype CityResponse = CityResponse(
    latitude: Option<real>, longitude: Option<real>,
    cityName: Option<string>, countryName: Option<string>, isoCode: Option<string>)

  /** The reader's `city(ip)`; None stands for any exception it raises (not found, malformed address). */
  type CityLookup = string -> Option<CityResponse>

  /** A coordinate counts when it is present and not zero (Python truthiness of a float or None). */
  predicate CoordinateSet(c: Option<real>) {
    c.Some? && c.value != 0.0
  }

  /** `name or default`: an absent or empty name is replaced. */
  function OrDefault(name: Option<string>, default: string): (r: string)
    requires default != ""
    ensures r != ""
    ensures name.Some? && name.value != "" ==> r == name.value
    ensures name.None? || name.value == "" ==> r == default
  {
    if name.Some? && name.value != "" then name.value else default
  }

  /**
   * The record built from a database response: only with both coordinates
   * set, and then with city, country and code always non-empty strings.
   */
  function MaxMindRecord(ip: string, resp: CityResponse): (r: Option<GeoRecord>)
    ensures r.Some? <==> CoordinateSet(resp.latitude) && CoordinateSet(resp.longitude)
    ensures r.Some? ==> r.value.ip == ip
    ensures r.Some? ==> r.value.lat == Float(resp.latitude.value) && r.value.lng == Float(resp.longitude.value)
    ensures r.Some? ==> r.value.city == Str(OrDefault(resp.cityName, "Unknown"))
    ensures r.Some? ==> r.value.country == Str(OrDefault(resp.countryName, "Unknown"))
    ensures r.Some? ==> r.value.countryCode == Str(OrDefault(resp.isoCode, "??"))
  {
    if CoordinateSet(resp.latitude) && CoordinateSet(resp.longitude) then
      Some(GeoRecord(ip, Float(resp.latitude.value), Float(resp.longitude.value),
                     Str(OrDefault(resp.cityName, "Unknown")),
                     Str(OrDefault(resp.countryName, "Unknown")),
                     Str(OrDefault(resp.isoCode, "??"))))
    else None
  }

  /** One offline lookup: nothing without a reader, nothing when the reader raises. */
  function LookupMaxMind(reader: Option<CityLookup>, ip: string): (r: Option<GeoRecord>)
    ensures reader.None? ==> r.None?
    ensures reader.Some? && reader.value(ip).None? ==> r.None?
    ensures reader.Some? && reader.value(ip).Some? ==> r == MaxMindRecord(ip, reader.value(ip).value)
  {
    match reader
    case None => None
    case Some(city) =>
      match city(ip)
      case None => None
      case Some(resp) => MaxMindRecord(ip, resp)
  }

  /** A zero coordinate is a failed lookup, not a location at (0, 0). */
  lemma ZeroCoordinatesRejected(city: CityLookup, ip: string, resp: CityResponse)
    requires city(ip) == Some(resp)
    requires resp.latitude == Some(0.0) || resp.longitude == Some(0.0)
    ensures LookupMaxMind(Some(city), ip) == None
  {
  }

  // ---------------------------------------------------------------------
  // Remote services (_lookup_ipwho, geocode_ip_fallback)
  // ---------------------------------------------------------------------

  /**
   * One HTTP GET for an address: the decoded JSON object, or None when the
   * request, the decoding or the reply's shape raised.
   */
  type Fetch = string -> Option<Row>

  /**
   * The record built from an ipwho.is reply: only when "success" is truthy
   * and both coordinates are present (a missing one raises and is swallowed).
   * Defaults apply only to ABSENT keys; a present null or empty value is kept.
   */
  function IpwhoRecord(ip: string, data: Row): (r: Option<GeoRecord>)
    ensures r.Some? <==> Truthy(Get(data, "success", Bool(false))) && "latitude" in data && "longitude" in data
    ensures r.Some? ==> r.value.ip == ip && r.value.lat == data["latitude"] && r.value.lng == data["longitude"]
    ensures r.Some? ==> ("city" in data ==> r.value.city == data["city"]) && ("city" !in data ==> r.value.city == Str("Unknown"))
    ensures r.Some? ==> ("country" in data ==> r.value.country == data["country"]) && ("country" !in data ==> r.value.country == Str("Unknown"))
    ensures r.Some? ==> ("country_code" in data ==> r.value.countryCode == data["country_code"]) && ("country_code" !in data ==> r.value.countryCode == Str("??"))
  {
    if Truthy(Get(data, "success", Bool(false))) && "latitude" in data && "longitude" in data then
      Some(GeoRecord(ip, data["latitude"], data["longitude"],
                     Get(data, "city", Str("Unknown")),
                     Get(data, "country", Str("Unknown")),
                     Get(data, "country_code", Str("??"))))
    else None
  }

  /**
   * The record built from an ip-api.com reply: only when "status" is exactly
   * "success" and "lat"/"lon" are present; "lon" becomes lng and
   * "countryCode" becomes the country code.
   */
  function IpApiRecord(ip: string, data: Row): (r: Option<GeoRecord>)
    ensures r.Some? <==> Get(data, "status", Null) == Str("success") && "lat" in data && "lon" in data
    ensures r.Some? ==> r.value.ip == ip && r.value.lat == data["lat"] && r.value.lng == data["lon"]
    ensures r.Some? ==> ("city" in data ==> r.value.city == data["city"]) && ("city" !in data ==> r.value.city == Str("Unknown"))
    ensures r.Some? ==> ("country" in data ==> r.value.country == data["country"]) && ("country" !in data ==> r.value.country == Str("Unknown"))
    ensures r.Some? ==> ("countryCode" in data ==> r.value.countryCode == data["countryCode"]) && ("countryCode" !in data ==> r.value.countryCode == Str("??"))
  {
    if Get(data, "status", Null) == Str("success") && "lat" in data && "lon" in data then
      Some(GeoRecord(ip, data["lat"], data["lon"],
                     Get(data, "city", Str("Unknown")),
                     Get(data, "country", Str("Unknown")),
                     Get(data, "countryCode", Str("??"))))
    else None
  }

  /** Which remote service the fallback path calls. */
  datatype Service = Ipwho | IpApi

  /** One remote lookup: nothing when the call raised, else the service's record rule. */
  function LookupRemote(service: Service, fetch: Fetch, ip: string): (r: Option<GeoRecord>)
    ensures fetch(ip).None? ==> r.None?
    ensures fetch(ip).Some? && service == Ipwho ==> r == IpwhoRecord(ip, fetch(ip).value)
    ensures fetch(ip).Some? && service == IpApi ==> r == IpApiRecord(ip, fetch(ip).value)
  {
    match fetch(ip)
    case None => None
    case Some(data) =>
      match service
      case Ipwho => IpwhoRecord(ip, data)
      case IpApi => IpApiRecord(ip, data)
  }

  /** A present but null city is passed through by ipwho.is: its default is for absent keys only. */
  lemma IpwhoKeepsNullCity(fetch: Fetch, ip: string)
    requires fetch(ip).Some? && var data := fetch(ip).value;
             Truthy(Get(data, "success", Bool(false))) && "latitude" in data && "longitude" in data &&
             "city" in data && data["city"] == Null
    ensures LookupRemote(Ipwho, fetch, ip).Some? && LookupRemote(Ipwho, fetch, ip).value.city == Null
  {
  }

  // ---------------------------------------------------------------------
  // geocode_ips
  // ---------------------------------------------------------------------

  /** The per-address lookup, chosen once by whether a reader exists. */
  function Strategy(reader: Option<CityLookup>, service: Service, fetch: Fetch): string -> Option<GeoRecord> {
    if reader.Some? then ip => LookupMaxMind(reader, ip) else ip => LookupRemote(service, fetch, ip)
  }

  /**
   * geocode_ips: every address is looked up in input order with the one
   * strategy, and only successful lookups are appended.
   */
  method GeocodeIps(reader: Option<CityLookup>, service: Service, fetch: Fetch, ips: seq<string>)
    returns (results: seq<GeoRecord>)
    ensures results == FilterMap(Strategy(reader, service, fetch), ips)
  {
    results := [];
    ghost var f := Strategy(reader, service, fetch);
    if reader.Some? {
      for i := 0 to |ips|
        invariant results == FilterMap(f, ips[..i])
      {
        var result := LookupMaxMind(reader, ips[i]);
        assert ips[..i + 1][..i] == ips[..i];
        if result.Some? {
          results := results + [result.value];
        }
      }
    } else {
      for i := 0 to |ips|
        invariant results == FilterMap(f, ips[..i])
      {
        var result := LookupRemote(service, fetch, ips[i]);
        assert ips[..i + 1][..i] == ips[..i];
        if result.Some? {
          results := results + [result.value];
        }
      }
    }
    assert ips[..|ips|] == ips;
  }

  /**
   * What geocode_ips promises: the k-th result is the successful lookup of
   * the k-th successfully resolved address, these addresses keep their input
   * order, every address that resolves is represented, each result carries
   * the address it was looked up for, and all results come from the same
   * strategy: the database when a reader exists, the remote service otherwise.
   */
  lemma {:induction false} GeocodeIpsExact(reader: Option<CityLookup>, service: Service, fetch: Fetch, ips: seq<string>)
    ensures var f, r, idx := Strategy(reader, service, fetch), FilterMap(Strategy(reader, service, fetch), ips), Kept(Strategy(reader, service, fetch), ips);
            && |r| == |idx| <= |ips|
            && (forall k, l :: 0 <= k < l < |idx| ==> idx[k] < idx[l])
            && (forall k :: 0 <= k < |r| ==> idx[k] < |ips| && r[k].ip == ips[idx[k]])
            && (forall k :: 0 <= k < |r| ==> reader.Some? ==> LookupMaxMind(reader, ips[idx[k]]) == Some(r[k]))
            && (forall k :: 0 <= k < |r| ==> reader.None? ==> LookupRemote(service, fetch, ips[idx[k]]) == Some(r[k]))
            && (forall i :: 0 <= i < |ips| ==> (f(ips[i]).Some? <==> i in idx))
  {
    var f := Strategy(reader, service, fetch);
    FilterMapExact(f, ips);
    var r, idx := FilterMap(f, ips), Kept(f, ips);
    forall k | 0 <= k < |r|
      ensures r[k].ip == ips[idx[k]]
    {
      assert f(ips[idx[k]]) == Some(r[k]);
      if reader.Some? {
        assert f(ips[idx[k]]) == LookupMaxMind(reader, ips[idx[k]]);
      } else {
        assert f(ips[idx[k]]) == LookupRemote(service, fetch, ips[idx[k]]);
      }
    }
  }

  /** Every record carries one of the addresses it was asked for. */
  lemma {:induction false} GeocodedIpsAreInputs(reader: Option<CityLookup>, service: Service, fetch: Fetch, ips: seq<string>)
    ensures forall rec <- FilterMap(Strategy(reader, service, fetch), ips) :: rec.ip in ips
  {
    var f := Strategy(reader, service, fetch);
    var r, idx := FilterMap(f, ips), Kept(f, ips);
    FilterMapExact(f, ips);
    forall rec | rec in r
      ensures rec.ip in ips
    {
      var k :| 0 <= k < |r| && r[k] == rec;
      var i := idx[k];
      assert f(ips[i]) == Some(rec);
      if reader.Some? {
        assert f(ips[i]) == LookupMaxMind(reader, ips[i]);
      } else {
        assert f(ips[i]) == LookupRemote(service, fetch, ips[i]);
      }
      assert rec.ip == ips[i];
    }
  }
}
