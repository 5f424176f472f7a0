/** The location endpoints (src/Traits/LocationsWS.php): a location, its
    recent media, and a search by coordinates or Facebook place. Optional
    parameters pass through `array_filter` first, so falsy values count as
    absent. */
module Locations {

  import opened Values
  import opened ProviderCore
  import QueryString
  import Instagram

  /** The endpoint template of one location. */
  const LocationTemplate: string := "locations/%s"

  /** The endpoint template of a location's recent media. */
  const LocationMediaRecentTemplate: string := "locations/%s/media/recent"

  /** The location search endpoint, which has no placeholder. */
  const SearchLocationEndpoint: string := "locations/search"

  const SearchLocationMessage: string :=
    "You must provide an array with lat and lng or facebook_places_id in the second parameter."

  /** `array_filter($params)`: the entries whose value is truthy, in order. */
  function ArrayFilter(params: seq<(string, Scalar)>): (kept: seq<(string, Scalar)>)
    ensures forall e :: e in kept <==> e in params && Truthy(e.1)
  {
    if params == [] then []
    else if Truthy(params[0].1) then [params[0]] + ArrayFilter(params[1..])
    else ArrayFilter(params[1..])
  }

  /** Filtering keeps the order of the entries: filtering a list is
      filtering its parts, one after the other. */
  lemma {:induction false} ArrayFilterOrder(a: seq<(string, Scalar)>, b: seq<(string, Scalar)>)
    ensures ArrayFilter(a + b) == ArrayFilter(a) + ArrayFilter(b)
    decreases |a|
  {
    if a != [] {
      assert (a + b)[0] == a[0] && (a + b)[1..] == a[1..] + b;
      ArrayFilterOrder(a[1..], b);
      if Truthy(a[0].1) {
        var x, y := ArrayFilter(a[1..]), ArrayFilter(b);
        assert ArrayFilter(a + b) == [a[0]] + (x + y);
        assert [a[0]] + (x + y) == ([a[0]] + x) + y;
      }
    } else {
      assert a + b == b;
    }
  }

  /** A single entry stays exactly when its value is truthy. */
  lemma ArrayFilterOne(entry: (string, Scalar))
    ensures ArrayFilter([entry]) == if Truthy(entry.1) then [entry] else []
  {
    assert [entry][1..] == [];
  }

  /** The parameter is given with a truthy value. */
  predicate Given(params: seq<(string, Value)>, key: string) {
    Find(params, key).Some? && Truthy(Find(params, key).value)
  }

  /** Filtering keeps exactly the truthy entries: a key keeps its value if
      that value is truthy and disappears otherwise. */
  lemma {:induction false} ArrayFilterFind(params: seq<(string, Scalar)>, key: string)
    requires UniqueKeys<Value>(params)
    ensures Find<Value>(ArrayFilter(params), key) == if Given(params, key) then Find<Value>(params, key) else None
  {
    if params != [] {
      var rest := params[1..];
      assert Keys<Value>(params) == [params[0].0] + Keys<Value>(rest);
      assert UniqueKeys<Value>(rest) by {
        assert Keys<Value>(rest) == Keys<Value>(params)[1..];
      }
      ArrayFilterFind(rest, key);
    }
  }

  /** A filtered list holds only truthy values, so `isset` on it means
      "given with a truthy value". */
  lemma IssetAfterFilter(params: seq<(string, Scalar)>, key: string)
    requires UniqueKeys<Value>(params)
    ensures Isset(ArrayFilter(params), key) <==> Given(params, key)
  {
    ArrayFilterFind(params, key);
  }

  lemma LocationTemplateFill(locationId: string)
    ensures WellFormedTemplate(LocationTemplate) && Placeholders(LocationTemplate) == 1
    ensures FormatArgs(Str(locationId)) == [Str(locationId)]
  {
    var a := "locations/";
    assert LocationTemplate == a + "%s";
    VsprintfOneLast(a, Str(locationId));
  }

  lemma MediaRecentTemplateFill(locationId: string)
    ensures WellFormedTemplate(LocationMediaRecentTemplate) && Placeholders(LocationMediaRecentTemplate) == 1
    ensures FormatArgs(Str(locationId)) == [Str(locationId)]
  {
    var a, c := "locations/", "/media/recent";
    assert LocationMediaRecentTemplate == a + "%s" + c;
    VsprintfOne(a, c, Str(locationId));
  }

  lemma SearchEndpointFill()
    ensures WellFormedTemplate(SearchLocationEndpoint) && Placeholders(SearchLocationEndpoint) == 0
    ensures FormatArgs(Arr([])) == []
  {
    var e := SearchLocationEndpoint;
    assert '%' !in e;
    VsprintfLiteral(e, []);
  }

  /** `getLocation($token, $locationId)`. */
  function GetLocation(token: string, locationId: string): HttpCall {
    LocationTemplateFill(locationId);
    HttpGet(Instagram.ApiUrl(LocationTemplate, token, Str(locationId)))
  }

  /** `getLocationMediaRecent($token, $locationId, $params)`: the filtered
      parameters follow the access token after a `&`. */
  function GetLocationMediaRecent(token: string, locationId: string, params: seq<(string, Scalar)>): HttpCall {
    MediaRecentTemplateFill(locationId);
    var url := Instagram.ApiUrl(LocationMediaRecentTemplate, token, Str(locationId));
    HttpGet(BuildUrlFromBase(url, "&", ArrayFilter(params)))
  }

  /** `searchLocation($token, $params)`: refused unless the filtered
      parameters hold `facebook_places_id`, or both `lat` and `lng`. */
  function SearchLocation(token: string, params: seq<(string, Scalar)>): Result<HttpCall, Failure> {
    var filtered := ArrayFilter(params);
    if !Isset(filtered, "facebook_places_id") && (!Isset(filtered, "lat") || !Isset(filtered, "lng")) then
      Err(InvalidParamException(SearchLocationMessage))
    else
      SearchEndpointFill();
      var url := Instagram.ApiUrl(SearchLocationEndpoint, token, Arr([]));
      Ok(HttpGet(BuildUrlFromBase(url, "&", filtered)))
  }

  /** A search goes out exactly when a Facebook place, or both coordinates,
      are given with truthy values; otherwise it raises
      `InvalidParamException` and issues no request. */
  lemma SearchLocationGuard(token: string, params: seq<(string, Scalar)>)
    requires UniqueKeys<Value>(params)
    ensures SearchLocation(token, params).Ok? <==>
            Given(params, "facebook_places_id") || (Given(params, "lat") && Given(params, "lng"))
    ensures SearchLocation(token, params).Err? ==>
            SearchLocation(token, params).error == InvalidParamException(SearchLocationMessage)
  {
    IssetAfterFilter(params, "facebook_places_id");
    IssetAfterFilter(params, "lat");
    IssetAfterFilter(params, "lng");
  }

  /** A latitude of 0 or "0" is filtered out like a missing one, so without
      a Facebook place a search by coordinates on the equator is refused,
      whatever the longitude. */
  lemma ZeroLatitudeRefused(token: string, params: seq<(string, Scalar)>)
    requires UniqueKeys<Value>(params) && !Given(params, "facebook_places_id")
    requires Find<Value>(params, "lat") == Some(Int(0)) || Find<Value>(params, "lat") == Some(Str("0"))
    ensures SearchLocation(token, params) == Err(InvalidParamException(SearchLocationMessage))
  {
    SearchLocationGuard(token, params);
  }

  /** The search URL before its query. */
  lemma SearchBaseUrl(token: string)
    ensures WellFormedTemplate(SearchLocationEndpoint) && Placeholders(SearchLocationEndpoint) == 0
    ensures FormatArgs(Arr([])) == []
    ensures Instagram.ApiUrl(SearchLocationEndpoint, token, Arr([])) ==
            Instagram.ApiRoot + "locations/search" + "?access_token=" + token
  {
    var e := SearchLocationEndpoint;
    assert '%' !in e && '?' !in e;
    Instagram.ApiUrlLiteral(e, token);
  }

  /** A text followed by a query splits back into the two; stated apart so
      that the proofs of the search URLs stay small. */
  lemma HeadAndQuery(head: string, query: string)
    ensures |head| <= |head + query| && (head + query)[..|head|] == head && (head + query)[|head|..] == query
  {
  }

  /** An accepted search reads `locations/search` with the access token,
      then `&` and a query a server reads back as the truthy parameters. */
  lemma SearchLocationUrl(token: string, params: seq<(string, Scalar)>)
    requires SearchLocation(token, params).Ok?
    ensures var url := SearchLocation(token, params).value.url;
      var head := Instagram.ApiRoot + "locations/search" + "?access_token=" + token + "&";
      && |head| <= |url| && url[..|head|] == head
      && QueryString.ParseQuery(url[|head|..]) == Some(QueryString.Carried(ArrayFilter(params)))
  {
    SearchBaseUrl(token);
    var head := Instagram.ApiRoot + "locations/search" + "?access_token=" + token + "&";
    var q := QueryString.BuildQuery(ArrayFilter(params));
    assert SearchLocation(token, params).value.url == head + q;
    HeadAndQuery(head, q);
    QueryString.ParseBuildQuery(ArrayFilter(params));
  }

  /** `getLocation` targets `locations/{id}` with the access token. */
  lemma GetLocationUrl(token: string, locationId: string)
    ensures GetLocation(token, locationId) ==
            HttpGet(Instagram.ApiRoot + "locations/" + locationId + "?access_token=" + token)
  {
    var a := "locations/";
    assert LocationTemplate == a + "%s";
    Instagram.ApiUrlOneLast(LocationTemplate, a, token, Str(locationId));
  }

  /** `getLocationMediaRecent` targets `locations/{id}/media/recent` with the
      access token, then `&` and the query of the truthy parameters; with
      none left the URL ends in `&`. */
  lemma GetLocationMediaRecentUrl(token: string, locationId: string, params: seq<(string, Scalar)>)
    ensures GetLocationMediaRecent(token, locationId, params) ==
            HttpGet(Instagram.ApiRoot + "locations/" + locationId + "/media/recent" + "?access_token=" + token +
                    "&" + QueryString.BuildQuery(ArrayFilter(params)))
    ensures ArrayFilter(params) == [] ==>
            var url := GetLocationMediaRecent(token, locationId, params).url;
            |url| > 0 && url[|url| - 1] == '&'
  {
    var a, b := "locations/", "/media/recent";
    assert LocationMediaRecentTemplate == a + "%s" + b;
    Instagram.ApiUrlOne(LocationMediaRecentTemplate, a, b, token, Str(locationId));
  }
}
