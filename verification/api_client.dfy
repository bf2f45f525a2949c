/** The HTTP client's pure parts: choosing the API base URL from the environment
    override or the Metro bundler's host, reading a response body, and turning a
    non-2xx response into an `{status, body}` error. The environment variable,
    the bundle's script URL and `JSON.parse` are inputs. */
module ApiClient {
  import opened JsText

  const DefaultBaseUrl := "http://127.0.0.1:3000"
  const DevHost := "192.168.1.29"

  // ---------------------------------------------------------------- Metro host

  predicate IsHostChar(c: char)
  {
    c != '/' && c != ':'
  }

  /** Length of the longest prefix of `s` with no '/' and no ':'. */
  function HostRun(s: string): (n: nat)
    ensures n <= |s|
    ensures forall i :: 0 <= i < n ==> IsHostChar(s[i])
    ensures n < |s| ==> !IsHostChar(s[n])
  {
    if s == [] || !IsHostChar(s[0]) then 0 else 1 + HostRun(s[1..])
  }

  /** What follows "http://" or "https://" at the start of `url`. */
  function AfterScheme(url: string): Option<string>
  {
    if "http://" <= url then Some(url[7..])
    else if "https://" <= url then Some(url[8..])
    else None
  }

  /** `getMetroHost`: group 1 of `/^https?:\/\/([^/:]+)/` on the script URL, or
      null when the URL is missing or empty or the pattern does not match. */
  function GetMetroHost(scriptUrl: Option<string>): (h: Option<string>)
    ensures scriptUrl.None? || scriptUrl == Some("") ==> h.None?
    ensures h.Some? ==> h.value != [] && forall i :: 0 <= i < |h.value| ==> IsHostChar(h.value[i])
    ensures h.Some? ==> AfterScheme(scriptUrl.value).Some? && h.value <= AfterScheme(scriptUrl.value).value
  {
    match scriptUrl
    case None => None
    case Some(url) =>
      if url == "" then None
      else match AfterScheme(url)
        case None => None
        case Some(rest) =>
          var n := HostRun(rest);
          if n == 0 then None else Some(rest[..n])
  }

  /** The host of a URL written `scheme://host` followed by a port or a path is
      read back exactly, for both schemes. */
  lemma MetroHostOfUrl(https: bool, host: string, tail: string)
    requires host != [] && forall i :: 0 <= i < |host| ==> IsHostChar(host[i])
    requires tail == [] || !IsHostChar(tail[0])
    ensures GetMetroHost(Some((if https then "https://" else "http://") + host + tail)) == Some(host)
  {
    var scheme := if https then "https://" else "http://";
    var rest := host + tail;
    var url := scheme + rest;
    assert scheme + host + tail == url;
    assert url[|scheme|..] == rest;
    assert scheme <= url;
    if https {
      assert url[4] == 's';
      assert !("http://" <= url);
    }
    HostRunOf(host, tail);
    assert (host + tail)[..|host|] == host;
  }

  lemma HostRunOf(host: string, tail: string)
    requires forall i :: 0 <= i < |host| ==> IsHostChar(host[i])
    requires tail == [] || !IsHostChar(tail[0])
    ensures HostRun(host + tail) == |host|
  {
    var s := host + tail;
    assert forall i :: 0 <= i < |host| ==> s[i] == host[i];
    assert |host| < |s| ==> s[|host|] == tail[0];
  }

  /** A URL whose scheme is neither http nor https gives no host. */
  lemma MetroHostNeedsScheme(url: string)
    requires !("http://" <= url) && !("https://" <= url)
    ensures GetMetroHost(Some(url)).None?
  {
  }

  // ---------------------------------------------------------------- base URL

  /** `s.replace(/\/+$/, "")`: drop the run of '/' at the end. */
  function StripTrailingSlashes(s: string): (r: string)
    ensures r <= s
    ensures r == [] || r[|r| - 1] != '/'
    ensures forall i :: |r| <= i < |s| ==> s[i] == '/'
  {
    if s != [] && s[|s| - 1] == '/' then StripTrailingSlashes(s[..|s| - 1]) else s
  }

  /** Stripping is idempotent, and what it removes is only slashes. */
  lemma StripTrailingSlashesIdempotent(s: string)
    ensures StripTrailingSlashes(StripTrailingSlashes(s)) == StripTrailingSlashes(s)
  {
  }

  /** Adding slashes to a URL that does not end in one is undone by stripping. */
  lemma {:induction false} StripAddedSlashes(u: string, n: nat)
    requires u == [] || u[|u| - 1] != '/'
    ensures StripTrailingSlashes(u + seq(n, _ => '/')) == u
  {
    if n > 0 {
      var s := u + seq(n, _ => '/');
      assert s[..|s| - 1] == u + seq(n - 1, _ => '/');
      StripAddedSlashes(u, n - 1);
    } else {
      assert u + seq(0, _ => '/') == u;
    }
  }

  /** `getBaseUrl`: a non-empty environment override wins (with its trailing
      slashes removed); otherwise the Metro host, with localhost replaced by the
      development machine's address; otherwise the default. */
  function GetBaseUrl(envBase: Option<string>, scriptUrl: Option<string>): (r: string)
    ensures envBase.Some? && envBase.value != "" ==> r == StripTrailingSlashes(envBase.value)
  {
    if envBase.Some? && envBase.value != "" then StripTrailingSlashes(envBase.value)
    else match GetMetroHost(scriptUrl)
      case Some(h) =>
        if h == "localhost" || h == "127.0.0.1" then "http://" + DevHost + ":3000"
        else "http://" + h + ":3000"
      case None => DefaultBaseUrl
  }

  /** Without an override the base URL is always "http://<host>:3000". */
  lemma BaseUrlWithoutOverride(envBase: Option<string>, scriptUrl: Option<string>)
    requires envBase.None? || envBase == Some("")
    ensures var h := GetMetroHost(scriptUrl);
            GetBaseUrl(envBase, scriptUrl) ==
              if h.None? || h == Some("127.0.0.1") || h == Some("localhost") then
                (if h.None? then DefaultBaseUrl else "http://" + DevHost + ":3000")
              else "http://" + h.value + ":3000"
  {
  }

  /** A Metro bundle served from host `h` on any port or path gives the API on
      port 3000 of the same host (or of the development machine for localhost). */
  lemma BaseUrlFromBundle(https: bool, host: string, tail: string)
    requires host != [] && forall i :: 0 <= i < |host| ==> IsHostChar(host[i])
    requires tail == [] || !IsHostChar(tail[0])
    ensures var url := (if https then "https://" else "http://") + host + tail;
            GetBaseUrl(None, Some(url)) ==
              if host == "localhost" || host == "127.0.0.1" then "http://192.168.1.29:3000"
              else "http://" + host + ":3000"
  {
    MetroHostOfUrl(https, host, tail);
  }

  // ---------------------------------------------------------------- response

  /** A parsed body. `Null` is the `null` returned for an empty text. `Json(v)`
      is whatever `JSON.parse` produced, which may itself be the JSON value
      `null` (for the text "null"); the app's caller cannot tell the two apart.
      `Text` is the raw text when the text does not parse. */
  datatype Body<J> = Null | Json(value: J) | Text(text: string)

  /** `parseBody`: null for an empty text, the parsed value when `parse` (the
      caller's `JSON.parse`, `None` for a throw) accepts it, the text otherwise. */
  function ParseBody<J>(text: string, parse: string -> Option<J>): (b: Body<J>)
    ensures b.Null? <==> text == ""
    ensures b.Json? <==> text != "" && parse(text).Some?
    ensures b.Json? ==> parse(text) == Some(b.value)
    ensures b.Text? ==> b.text == text
  {
    if text == "" then Null
    else match parse(text)
      case Some(v) => Json(v)
      case None => Text(text)
  }

  datatype HttpError<J> = HttpError(status: int, body: Body<J>)
  datatype Outcome<J> = Success(body: Body<J>) | Failure(error: HttpError<J>)

  /** `res.ok`. */
  predicate IsOk(status: int)
  {
    200 <= status <= 299
  }

  /** The response `fetch` answers with: its status and its body text. */
  datatype Response = Response(status: int, text: string)

  /** What `request` does with the response: the body is always parsed; a
      non-2xx status throws `{status, body}`. */
  function Classify<J>(res: Response, parse: string -> Option<J>): (o: Outcome<J>)
    ensures o.Failure? <==> !IsOk(res.status)
    ensures o.Failure? ==> o.error.status == res.status && o.error.body == ParseBody(res.text, parse)
    ensures o.Success? ==> o.body == ParseBody(res.text, parse)
  {
    var body := ParseBody(res.text, parse);
    if !IsOk(res.status) then Failure(HttpError(res.status, body)) else Success(body)
  }

  /** `request(path)`: fetch the base URL followed by `path` (`fetch` is the
      network, a parameter) and classify the response. */
  function Request<J>(envBase: Option<string>, scriptUrl: Option<string>, path: string,
                      fetch: string -> Response, parse: string -> Option<J>): (o: Outcome<J>)
    ensures var res := fetch(GetBaseUrl(envBase, scriptUrl) + path);
            && (o.Failure? <==> !IsOk(res.status))
            && (o.Failure? ==> o.error == HttpError(res.status, ParseBody(res.text, parse)))
            && (o.Success? ==> o.body == ParseBody(res.text, parse))
  {
    Classify(fetch(GetBaseUrl(envBase, scriptUrl) + path), parse)
  }

  /** An override written with trailing slashes still reaches `<override><path>`:
      no doubled slash is sent. */
  lemma RequestWithOverride<J>(u: string, n: nat, scriptUrl: Option<string>, path: string,
                               fetch: string -> Response, parse: string -> Option<J>)
    requires u != [] && u[|u| - 1] != '/'
    ensures Request(Some(u + seq(n, _ => '/')), scriptUrl, path, fetch, parse) == Classify(fetch(u + path), parse)
  {
    StripAddedSlashes(u, n);
  }

  /** The body a caller sees, on success or inside the error, never loses the
      response text: it is empty, or parses to the value shown, or is the text
      itself. */
  lemma BodyAccountsForText<J>(res: Response, parse: string -> Option<J>)
    ensures var o := Classify(res, parse);
            var b := if o.Success? then o.body else o.error.body;
            (b.Null? && res.text == "") || (b.Json? && parse(res.text) == Some(b.value)) || (b.Text? && b.text == res.text)
  {
  }
}
