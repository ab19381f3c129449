/** How the page addresses the QR-generation service: the base URL it
    resolves from its build-time environment (page.js line 27) and the URL it
    POSTs to (page.js line 33). */
module ApiRequest {
  import opened Wrappers

  /** The service address used when none is configured. */
  const DefaultApiUrl: string := "http://localhost:8000"
  /** What the page puts between the base URL and the field value. */
  const GeneratePath: string := "/generate-qr/?url="

  /** `process.env.NEXT_PUBLIC_API_URL || "http://localhost:8000"`. `env` is
      `None` when the variable is unset; an empty value is falsy for `||` and
      falls back to the default as well. */
  function ResolveApiUrl(env: Option<string>): (r: string)
    ensures r != ""
    ensures r == env.GetOr(DefaultApiUrl) || r == DefaultApiUrl
    ensures env.Some? && env.value != "" ==> r == env.value
  {
    if env.Some? && env.value != "" then env.value else DefaultApiUrl
  }

  /** `${API_URL}/generate-qr/?url=${url}`: the base URL, the path, then the
      field value verbatim (no trimming, no percent-encoding, no emptiness
      check). */
  function RequestUrl(apiUrl: string, field: string): (r: string)
    ensures |r| == |apiUrl| + |GeneratePath| + |field|
    ensures r[..|apiUrl|] == apiUrl
    ensures r[|apiUrl|..|apiUrl| + |GeneratePath|] == GeneratePath
    ensures r[|apiUrl| + |GeneratePath|..] == field
  {
    apiUrl + GeneratePath + field
  }

  /** Strips the known prefix `apiUrl + GeneratePath` from a request URL.
      This is not how the service parses its query string. */
  function QueryValue(request: string, apiUrl: string): Option<string>
  {
    var n := |apiUrl| + |GeneratePath|;
    if n <= |request| && request[..n] == apiUrl + GeneratePath then Some(request[n..])
    else None
  }

  /** The field value is recoverable from the request URL by stripping the
      known prefix, and no other request URL strips to it. */
  lemma RequestUrlRoundTrip(apiUrl: string, field: string, request: string)
    ensures QueryValue(RequestUrl(apiUrl, field), apiUrl) == Some(field)
    ensures QueryValue(request, apiUrl) == Some(field) ==> request == RequestUrl(apiUrl, field)
  {
    var n := |apiUrl| + |GeneratePath|;
    var r := RequestUrl(apiUrl, field);
    assert r[..n] == apiUrl + GeneratePath;
    if QueryValue(request, apiUrl) == Some(field) {
      assert request == request[..n] + request[n..];
    }
  }

  /** Two different field values never produce the same request URL. */
  lemma RequestUrlInjective(apiUrl: string, field1: string, field2: string)
    requires field1 != field2
    ensures RequestUrl(apiUrl, field1) != RequestUrl(apiUrl, field2)
  {
    RequestUrlRoundTrip(apiUrl, field1, "");
    RequestUrlRoundTrip(apiUrl, field2, "");
  }

  /** The field value is spliced in unencoded, so an `&` in it starts a
      further query parameter: the request for `field + "&" + rest` is the
      request for `field` with `&` and `rest` appended. A service reading
      its `url` parameter up to the first `&` therefore does not see the
      whole field. */
  lemma {:induction false} AmpersandSplitsQuery(apiUrl: string, field: string, rest: string)
    ensures RequestUrl(apiUrl, field + "&" + rest) == RequestUrl(apiUrl, field) + "&" + rest
  {
    assert apiUrl + GeneratePath + (field + "&" + rest) == apiUrl + GeneratePath + field + "&" + rest;
  }

  /** With nothing configured, an empty field still produces a request:
      `http://localhost:8000/generate-qr/?url=`. */
  lemma EmptyFieldDefaultRequest(field: string)
    requires field == ""
    ensures RequestUrl(ResolveApiUrl(None), field) == "http://localhost:8000/generate-qr/?url="
  {
  }
}
