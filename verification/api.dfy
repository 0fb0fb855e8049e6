/** The parts of `APIService` that do not touch the network: the base URL and the URLs built
    from it, the shape checks on packing and training responses, and the classification of
    errors into user-facing messages. */
module Api {
  import opened Wrappers
  import opened Json
  import opened Text

  /** The base URL (host and port, no scheme) and the request timeout in milliseconds. */
  datatype Service = Service(baseUrl: string, timeout: int)

  /** The four endpoints, in declaration order. */
  const Endpoints: seq<(string, string)> :=
    [("pack", "/pack"), ("training", "/training"), ("fake_data", "/fake_data"), ("check_endpoint", "/check_endpoint")]

  function Initial(): (s: Service)
    ensures s.baseUrl == "localhost:3000" && s.timeout == 30000
  {
    Service("localhost:3000", 30000)
  }

  // ---- setBaseUrl / buildUrl / getEndpointInfo ----

  /** The scheme `/^https?:\/\//` matches at the start of `url`, or `""`. */
  function SchemeOf(url: string): (p: string)
    ensures p == "" || p == "http://" || p == "https://"
    ensures p != "" ==> IsPrefix(p, url)
    ensures p == "" ==> !IsPrefix("http://", url) && !IsPrefix("https://", url)
  {
    if IsPrefix("http://", url) then "http://" else if IsPrefix("https://", url) then "https://" else ""
  }

  predicate EndsWithSlash(s: string)
  {
    |s| > 0 && s[|s| - 1] == '/'
  }

  /** `setBaseUrl(url)`: the scheme is removed once, then one trailing `/`. */
  function SetBaseUrl(svc: Service, url: string): (r: Service)
    ensures r.timeout == svc.timeout
    ensures var rest := url[|SchemeOf(url)|..];
            && (EndsWithSlash(rest) ==> url == SchemeOf(url) + r.baseUrl + "/")
            && (!EndsWithSlash(rest) ==> url == SchemeOf(url) + r.baseUrl && !EndsWithSlash(r.baseUrl))
  {
    var p := SchemeOf(url);
    var rest := url[|p|..];
    assert url == p + rest;
    var base := if EndsWithSlash(rest) then rest[..|rest| - 1] else rest;
    assert EndsWithSlash(rest) ==> rest == base + "/";
    svc.(baseUrl := base)
  }

  /** `buildUrl(endpoint)`. */
  function BuildUrl(svc: Service, endpoint: string): (r: string)
    ensures IsPrefix("http://", r) && |r| == 7 + |svc.baseUrl| + |endpoint|
    ensures r[7..7 + |svc.baseUrl|] == svc.baseUrl && r[7 + |svc.baseUrl|..] == endpoint
  {
    "http://" + svc.baseUrl + endpoint
  }

  /** A host written without scheme or trailing slash. */
  predicate PlainHost(h: string)
  {
    !IsPrefix("http://", h) && !IsPrefix("https://", h) && !EndsWithSlash(h)
  }

  lemma PrefixOfPrefix(p: string, a: string, b: string)
    requires IsPrefix(p, a + b) && |p| <= |a|
    ensures IsPrefix(p, a)
  {
    assert (a + b)[..|p|] == a[..|p|];
  }

  /** A scheme ending in `//` found at the start of a host plus an optional slash is either at
      the start of the host itself, or the host ends in `/`. */
  lemma PrefixOfHostAndSlash(p: string, h: string, slash: string)
    requires |p| >= 2 && p[|p| - 1] == '/' && p[|p| - 2] == '/'
    requires slash == "" || slash == "/"
    ensures IsPrefix(p, h + slash) ==> IsPrefix(p, h) || EndsWithSlash(h)
  {
    if IsPrefix(p, h + slash) && |h| >= |p| {
      PrefixOfPrefix(p, h, slash);
    } else if IsPrefix(p, h + slash) {
      assert h[|h| - 1] == (h + slash)[|h| - 1] == p[|h| - 1];
    }
  }

  lemma SchemeOfPlain(h: string, slash: string)
    requires PlainHost(h) && (slash == "" || slash == "/")
    ensures SchemeOf(h + slash) == ""
  {
    PrefixOfHostAndSlash("http://", h, slash);
    PrefixOfHostAndSlash("https://", h, slash);
  }

  lemma SchemeOfHttps(rest: string)
    ensures SchemeOf("https://" + rest) == "https://"
  {
    var url := "https://" + rest;
    assert url[..7] == "https:/";
    assert url[..8] == "https://";
  }

  /** The scheme a host is given with is the one `setBaseUrl` finds. */
  lemma SchemeIsGiven(h: string, scheme: string, slash: string)
    requires PlainHost(h)
    requires scheme == "" || scheme == "http://" || scheme == "https://"
    requires slash == "" || slash == "/"
    ensures SchemeOf(scheme + h + slash) == scheme
  {
    var url := scheme + h + slash;
    if scheme == "" {
      SchemeOfPlain(h, slash);
      assert url == h + slash;
    } else if scheme == "http://" {
      assert url[..7] == "http://";
    } else {
      SchemeOfHttps(h + slash);
      assert url == "https://" + (h + slash);
    }
  }

  /** Equal concatenations with equal ends have equal middles. */
  lemma CancelEnds(a: string, x: string, y: string, b: string)
    requires a + x + b == a + y + b
    ensures x == y
  {
    assert |x| == |y|;
    assert x == (a + x + b)[|a|..|a| + |x|];
    assert y == (a + y + b)[|a|..|a| + |y|];
  }

  /** What follows a prefix is the rest. */
  lemma SuffixAfter(a: string, b: string)
    ensures (a + b)[|a|..] == b
  {
  }

  /** Whichever scheme and trailing slash a host is given with, the requests go to
      `http://<host><endpoint>`. */
  lemma BuildUrlIgnoresSchemeAndSlash(svc: Service, h: string, scheme: string, slash: string, endpoint: string)
    requires PlainHost(h)
    requires scheme == "" || scheme == "http://" || scheme == "https://"
    requires slash == "" || slash == "/"
    ensures BuildUrl(SetBaseUrl(svc, scheme + h + slash), endpoint) == "http://" + h + endpoint
  {
    var url := scheme + h + slash;
    SchemeIsGiven(h, scheme, slash);
    var base := SetBaseUrl(svc, url).baseUrl;
    assert url == scheme + (h + slash);
    SuffixAfter(scheme, h + slash);
    if slash == "/" {
      assert EndsWithSlash(h + slash);
      CancelEnds(scheme, base, h, "/");
    } else {
      assert h + slash == h;
      CancelEnds(scheme, base, h, "");
    }
  }

  /** Only one scheme and one slash are removed. */
  lemma StripsAtMostOnce(svc: Service)
    ensures SetBaseUrl(svc, "http://http://h//").baseUrl == "http://h/"
  {
    var url := "http://http://h//";
    assert SchemeOf(url) == "http://";
    assert url[7..] == "http://h//";
  }

  datatype EndpointInfo = EndpointInfo(baseUrl: string, endpoints: seq<(string, string)>, timeout: int,
                                       fullUrls: seq<(string, string)>)

  /** `getEndpointInfo()`. */
  function GetEndpointInfo(svc: Service): (r: EndpointInfo)
    ensures r.baseUrl == svc.baseUrl && r.timeout == svc.timeout && r.endpoints == Endpoints
    ensures |r.fullUrls| == |Endpoints|
    ensures forall i :: 0 <= i < |Endpoints| ==>
              r.fullUrls[i].0 == Endpoints[i].0 && r.fullUrls[i].1 == BuildUrl(svc, Endpoints[i].1)
  {
    EndpointInfo(svc.baseUrl, Endpoints, svc.timeout,
                 seq(|Endpoints|, i requires 0 <= i < |Endpoints| => (Endpoints[i].0, BuildUrl(svc, Endpoints[i].1))))
  }

  /** Every full URL is the base URL followed by a path. */
  lemma FullUrlsUnderBase(svc: Service)
    ensures forall i :: 0 <= i < |Endpoints| ==>
              IsPrefix("http://" + svc.baseUrl + "/", GetEndpointInfo(svc).fullUrls[i].1)
  {
    var info := GetEndpointInfo(svc);
    forall i | 0 <= i < |Endpoints|
      ensures IsPrefix("http://" + svc.baseUrl + "/", info.fullUrls[i].1)
    {
      var e := Endpoints[i].1;
      assert e[0] == '/';
      assert info.fullUrls[i].1 == ("http://" + svc.baseUrl + "/") + e[1..];
    }
  }

  // ---- validatePackingResponse / validateTrainingResponse ----

  const PackedItemFields: seq<string> := ["id", "length", "width", "height", "x", "y", "z"]

  /** The fields of `required` that `v` does not have, in order. */
  function MissingFields(v: Value, required: seq<string>): (r: seq<string>)
    requires IsJsObject(v)
    ensures forall k :: k in r <==> k in required && !JsHas(v, k)
    ensures r == [] <==> forall i :: 0 <= i < |required| ==> JsHas(v, required[i])
  {
    if |required| == 0 then []
    else (if JsHas(v, required[0]) then [] else [required[0]]) + MissingFields(v, required[1..])
  }

  datatype ResponseError = InvalidFormat | MissingResponseFields(fields: seq<string>) | PackedItemsNotArray
                         | ItemMissingFields(index: nat, fields: seq<string>)

  /** `v` has every field of `fields`. */
  predicate HasAllFields(v: Value, fields: seq<string>)
    requires IsJsObject(v)
  {
    forall i :: 0 <= i < |fields| ==> JsHas(v, fields[i])
  }

  /** An object that has every one of `fields`. */
  predicate HasFields(v: Value, fields: seq<string>)
  {
    IsJsObject(v) && HasAllFields(v, fields)
  }

  /** An item that has every field `validatePackingResponse` asks of it. */
  predicate CompleteItem(v: Value)
  {
    HasFields(v, PackedItemFields)
  }

  /** The loop over `packed_items` from index `from`, asking each item for `fields`: the first
      item without all of them is reported, and an item that is not an object makes `in`
      throw first (`None`). */
  function CheckPackedItems(items: seq<Value>, from: nat, fields: seq<string>): (r: Option<Result<(), ResponseError>>)
    requires from <= |items|
    ensures r == Some(Ok(())) <==> forall i :: from <= i < |items| ==> HasFields(items[i], fields)
    ensures r.Some? ==> r.value.Ok? || r.value.error.ItemMissingFields?
    ensures r.None? ==> exists i :: from <= i < |items| && !IsJsObject(items[i])
    decreases |items| - from
  {
    if from == |items| then Some(Ok(()))
    else if !IsJsObject(items[from]) then None
    else if !HasAllFields(items[from], fields) then
      Some(Err(ItemMissingFields(from, MissingFields(items[from], fields))))
    else CheckPackedItems(items, from + 1, fields)
  }

  /** The item an `Err` of the loop names is the first incomplete one, and the fields it lists
      are exactly the ones that item lacks. */
  lemma {:induction false} ItemErrorNamesFirstIncomplete(items: seq<Value>, from: nat, fields: seq<string>)
    requires from <= |items|
    ensures var r := CheckPackedItems(items, from, fields);
            r.Some? && r.value.Err? ==>
              var i := r.value.error.index;
              && from <= i < |items| && IsJsObject(items[i])
              && r.value.error.fields == MissingFields(items[i], fields) != []
              && forall j :: from <= j < i ==> HasFields(items[j], fields)
    decreases |items| - from
  {
    if from < |items| && IsJsObject(items[from]) && HasAllFields(items[from], fields) {
      var r := CheckPackedItems(items, from + 1, fields);
      assert CheckPackedItems(items, from, fields) == r;
      ItemErrorNamesFirstIncomplete(items, from + 1, fields);
      if r.Some? && r.value.Err? {
        var i := r.value.error.index;
        assert HasFields(items[from], fields);
        assert forall j :: from + 1 <= j < i ==> HasFields(items[j], fields);
      }
    }
  }

  /** `validatePackingResponse(response)`: `Ok` for valid, `Err` with the first problem found,
      and `None` for the `TypeError` of `in` on an item that is not an object. The filter over
      the one required field reports `packed_items` exactly when it is absent. */
  function ValidatePackingResponse(response: Value): (r: Option<Result<(), ResponseError>>)
    ensures !JsTruthy(response) || !IsJsObject(response) ==> r == Some(Err(InvalidFormat))
    ensures JsTruthy(response) && IsJsObject(response) && !JsHas(response, "packed_items") ==>
              r == Some(Err(MissingResponseFields(["packed_items"])))
    ensures r == Some(Ok(())) <==>
              && JsTruthy(response) && IsJsObject(response) && JsHas(response, "packed_items")
              && JsGet(response, "packed_items").Some? && JsGet(response, "packed_items").value.JArr?
              && forall i :: 0 <= i < |JsGet(response, "packed_items").value.elems| ==>
                   CompleteItem(JsGet(response, "packed_items").value.elems[i])
  {
    if !JsTruthy(response) || !IsJsObject(response) then Some(Err(InvalidFormat))
    else if !JsHas(response, "packed_items") then Some(Err(MissingResponseFields(["packed_items"])))
    else
      var p := JsGet(response, "packed_items");
      if !(p.Some? && p.value.JArr?) then Some(Err(PackedItemsNotArray))
      else CheckPackedItems(p.value.elems, 0, PackedItemFields)
  }

  /** `validateTrainingResponse(response)`. */
  function ValidateTrainingResponse(response: Value): (r: Result<(), ResponseError>)
    ensures !JsTruthy(response) || !IsJsObject(response) ==> r == Err(InvalidFormat)
    ensures r.Ok? <==> (JsTruthy(response) && IsJsObject(response)
                        && JsHas(response, "optimized_weights") && JsHas(response, "training_history"))
    ensures r.Err? && r.error.MissingResponseFields? ==>
              forall k :: k in r.error.fields <==> (k == "optimized_weights" || k == "training_history") && !JsHas(response, k)
  {
    if !JsTruthy(response) || !IsJsObject(response) then Err(InvalidFormat)
    else
      var missing := MissingFields(response, ["optimized_weights", "training_history"]);
      if missing != [] then Err(MissingResponseFields(missing)) else Ok(())
  }

  // ---- getErrorMessage ----

  const ConnectMessage: string := "Unable to connect to the API server. Please check if the server is running and the URL is correct."
  const TimeoutMessage: string := "Request timed out. The server may be busy or not responding."
  const NotFoundMessage: string := "API endpoint not found. Please check the server configuration."
  const ServerErrorMessage: string := "Internal server error. Please check the server logs."
  const UnknownMessage: string := "An unknown error occurred while communicating with the API."

  /** `message.includes(word)` for a string or an array message; `None` when `includes` is not
      a method of the message. */
  function Includes(message: Value, word: string): (r: Option<bool>)
    ensures message.JStr? ==> r == Some(Contains(message.s, word))
    ensures message.JArr? ==> r == Some(JStr(word) in message.elems)
    ensures !message.JStr? && !message.JArr? ==> r.None?
  {
    match message
    case JStr(s) => Some(Contains(s, word))
    case JArr(e) => Some(JStr(word) in e)
    case _ => None
  }

  /** `getErrorMessage(error)`; `None` is the `TypeError` the source throws (a `null` error,
      or a message without `includes`). */
  function GetErrorMessage(error: Value): (r: Option<Value>)
    ensures error.JStr? ==> r == Some(error)
    ensures error.JNull? ==> r.None?
    ensures !error.JStr? && !error.JNull? && !HasTruthyMessage(error) ==> r == Some(JStr(UnknownMessage))
    ensures !error.JStr? && HasTruthyMessage(error) && JsGet(error, "message").value.JStr? ==>
              var m := JsGet(error, "message").value.s;
              r == Some(JStr(
                if Contains(m, "fetch") then ConnectMessage
                else if Contains(m, "timeout") then TimeoutMessage
                else if Contains(m, "404") then NotFoundMessage
                else if Contains(m, "500") then ServerErrorMessage
                else m))
  {
    if error.JStr? then Some(error)
    else if error.JNull? then None
    else if !HasTruthyMessage(error) then Some(JStr(UnknownMessage))
    else
      var m := JsGet(error, "message").value;
      var fetch := Includes(m, "fetch");
      if fetch.None? then None
      else if fetch.value then Some(JStr(ConnectMessage))
      else if Includes(m, "timeout").value then Some(JStr(TimeoutMessage))
      else if Includes(m, "404").value then Some(JStr(NotFoundMessage))
      else if Includes(m, "500").value then Some(JStr(ServerErrorMessage))
      else Some(m)
  }

  predicate HasTruthyMessage(error: Value)
  {
    JsGet(error, "message").Some? && JsTruthy(JsGet(error, "message").value)
  }

  /** A message mentioning `fetch` is a connection problem whatever else it mentions; the
      checks are tried in a fixed order. */
  lemma FetchTakesPrecedence(error: Value, m: string)
    requires !error.JStr? && JsGet(error, "message") == Some(JStr(m)) && Contains(m, "fetch")
    ensures GetErrorMessage(error) == Some(JStr(ConnectMessage))
  {
    assert |m| > 0;
  }

  /** The result for an error object with a string message is always one of the five fixed
      texts or the message itself. */
  lemma ErrorMessageIsKnownOrOriginal(error: Value)
    requires !error.JStr? && !error.JNull?
    requires JsGet(error, "message").Some? && JsGet(error, "message").value.JStr?
    ensures var r := GetErrorMessage(error);
            r.Some? && r.value.JStr?
            && r.value.s in {ConnectMessage, TimeoutMessage, NotFoundMessage, ServerErrorMessage, UnknownMessage,
                             JsGet(error, "message").value.s}
  {
  }
}
