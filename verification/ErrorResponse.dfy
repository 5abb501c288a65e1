/** The response to a refused request (Http2Server::receiveError). */
module ErrorResponse {
  import opened ByteStrings
  import opened HeaderMap
  import JsonCause
  import PathPrefix

  // Conversion of an int to the unsigned status of the response.
  function Unsigned(n: int): nat {
    n % 0x1_0000_0000
  }

  const KEYS: set<string> := {"x-version", "location", "Allow", "content-length", "content-type"}

  function ContentType(status: nat): string {
    if 200 <= status < 300 then "application/json" else "application/problem+json"
  }

  // The value that a key is to have, empty for none.
  function HeaderOf(key: string, version: string, location: string, allowed: seq<string>,
                    length: nat, status: nat): string
  {
    if key == "x-version" then version
    else if key == "location" then location
    else if key == "Allow" then Joined(allowed)
    else if key == "content-length" then Decimal(length)
    else if key == "content-type" then ContentType(status)
    else ""
  }

  // Each key that has a value appears with that value alone, and no other key appears.
  ghost predicate HeadersOf(h: HeaderMap, version: string, location: string, allowed: seq<string>,
                            length: nat, status: nat)
  {
    forall key ::
      var value := HeaderOf(key, version, location, allowed, length, status);
      (key in h <==> value != "") && (key in h ==> h[key] == [HeaderValue(value, false)])
  }

  class Http2Server {
    const apiName: string
    const apiVersion: string
    const metrics: bool
    var errored: nat

    constructor (apiName: string, apiVersion: string, metrics: bool)
      ensures this.apiName == apiName && this.apiVersion == apiVersion && this.metrics == metrics
      ensures errored == 0
    {
      this.apiName, this.apiVersion, this.metrics := apiName, apiVersion, metrics;
      errored := 0;
    }

    method GetApiPath() returns (path: string)
      ensures path == PathPrefix.ApiPath(apiName, apiVersion)
    {
      if apiName == "" {
        return "";
      }
      path := "/" + apiName;
      if apiVersion != "" {
        path := path + ("/" + apiVersion);
      }
    }

    method ReceiveError(code: int, cause: Bytes, location: string, allowedMethods: seq<string>)
      returns (statusCode: nat, headers: HeaderMap, responseBody: Bytes)
      modifies this
      ensures errored == old(errored) + if metrics then 1 else 0
      ensures statusCode == Unsigned(code) && (0 <= code < 0x8000_0000 ==> statusCode == code)
      ensures responseBody == JsonCause.Body(cause)
      ensures HeadersOf(headers, apiVersion, location, allowedMethods, |responseBody|, statusCode)
    {
      if metrics {
        errored := errored + 1;
      }
      statusCode := Unsigned(code);
      responseBody := JsonCause.EMPTY_DOCUMENT;
      if cause != [] {
        var escaped := JsonCause.EscapeLoop(cause);
        responseBody := JsonCause.OPENING + escaped + JsonCause.CLOSING;
      }
      headers := BuildHeaders(location, allowedMethods, |responseBody|, statusCode);
    }

    method BuildHeaders(location: string, allowed: seq<string>, length: nat, status: nat) returns (headers: HeaderMap)
      ensures HeadersOf(headers, apiVersion, location, allowed, length, status)
    {
      var hdrs := new Http2Headers();
      hdrs.Emplace("x-version", apiVersion);
      hdrs.Emplace("location", location);
      hdrs.AddAllowedMethods(allowed);
      hdrs.AddContentLength(length);
      hdrs.Emplace("content-type", ContentType(status));
      headers := hdrs.headers;
      EmplacedInTurn(apiVersion, location, allowed, length, status);
    }
  }

  lemma EmplacedInTurn(version: string, location: string, allowed: seq<string>, length: nat, status: nat)
    ensures var h0 := Emplaced(map[], "x-version", version, false);
            var h1 := Emplaced(h0, "location", location, false);
            var h2 := Emplaced(h1, "Allow", Joined(allowed), false);
            var h3 := Emplaced(h2, "content-length", Decimal(length), false);
            var h4 := Emplaced(h3, "content-type", ContentType(status), false);
            HeadersOf(h4, version, location, allowed, length, status)
  {
    KeysDiffer();
  }

  lemma KeysDiffer()
    ensures "x-version" != "location" && "x-version" != "Allow"
    ensures "x-version" != "content-length" && "x-version" != "content-type"
    ensures "location" != "Allow" && "location" != "content-length" && "location" != "content-type"
    ensures "Allow" != "content-length" && "Allow" != "content-type"
    ensures "content-length" != "content-type"
  {
    assert "content-length"[8] != "content-type"[8];
  }

  /** Such headers agree with the body and with the list of methods: one value for each key and none
      empty; the version and the location as they were given; a content length that reads as the length
      of the body; and an Allow value that is there unless the list is empty or one empty token, and that
      is read back as the list exactly when no method holds the separator. */
  lemma HeadersConsistent(h: HeaderMap, version: string, location: string, allowed: seq<string>,
                          body: Bytes, status: nat)
    requires HeadersOf(h, version, location, allowed, |body|, status)
    ensures forall key | key in h :: key in KEYS && |h[key]| == 1 && h[key][0].value != ""
    ensures "content-length" in h && DecimalValue(h["content-length"][0].value) == |body|
    ensures "content-type" in h &&
            h["content-type"][0].value == if 200 <= status < 300 then "application/json" else "application/problem+json"
    ensures "x-version" in h <==> version != ""
    ensures "x-version" in h ==> h["x-version"] == [HeaderValue(version, false)]
    ensures "location" in h <==> location != ""
    ensures "location" in h ==> h["location"] == [HeaderValue(location, false)]
    ensures "Allow" in h <==> allowed != [] && allowed != [""]
    ensures "Allow" in h ==>
              (Split(h["Allow"][0].value) == allowed <==> forall i | 0 <= i < |allowed| :: !HasSeparator(allowed[i]))
  {
    DecimalRoundTrip(|body|);
    JoinedEmpty(allowed);
    if allowed != [] {
      JoinedSplitsBack(allowed);
    }
    KeysDiffer();
  }
}
