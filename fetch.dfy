/**
 * Requests to the metadata service and the mapping of their responses
 * (src/metadata.rs:18-23, 151-245). The HTTP exchange itself is a parameter:
 * a `Transport` says, for each URL, what sending the GET request to it
 * produced. The value of the GCE_METADATA_HOST environment variable is a
 * parameter too: `None` when it is not set.
 */
module Fetch {
  import opened Errors
  import opened Text

  const METADATA_HOST_VAR := "GCE_METADATA_HOST"
  const METADATA_IP := "169.254.169.254"
  const URL_SCHEME := "http://"
  const API_PATH := "/computeMetadata/v1/"
  const DEFAULT_ACCOUNT := "default"

  /** The body of a response, once the client has decoded it as text. */
  datatype Body = Decoded(text: string) | DecodeFailed(cause: TransportError)

  datatype Response = Response(status: StatusCode, body: Body)

  /** What sending one request produced. */
  datatype Sent = Received(response: Response) | SendFailed(cause: TransportError)

  type Transport = string -> Sent

  /** The host of every request (metadata.rs:152): the variable's value when it is set, else the documented IP. */
  function MetadataHost(hostVar: Option<string>): (host: string)
    ensures hostVar.Some? ==> host == hostVar.value
    ensures hostVar.None? ==> host == METADATA_IP
  {
    match hostVar
    case Some(h) => h
    case None => METADATA_IP
  }

  /** The request URL of `get_meta` (metadata.rs:153). */
  function MetadataUrl(hostVar: Option<string>, suffix: string): string {
    URL_SCHEME + MetadataHost(hostVar) + API_PATH + suffix
  }

  /** Reads a URL of the form `http://<host>/computeMetadata/v1/<suffix>` back into its host and suffix. */
  function ParseMetadataUrl(url: string): Option<(string, string)> {
    if URL_SCHEME <= url then
      var rest := url[|URL_SCHEME|..];
      var host := SplitOn(rest, '/')[0];
      var after := rest[|host|..];
      if API_PATH <= after then Some((host, after[|API_PATH|..])) else None
    else None
  }

  /**
   * The URL names the metadata host and the suffix, and both can be read back
   * from it, as long as the host holds no `/`.
   */
  lemma UrlRoundTrip(hostVar: Option<string>, suffix: string)
    requires '/' !in MetadataHost(hostVar)
    ensures ParseMetadataUrl(MetadataUrl(hostVar, suffix)) == Some((MetadataHost(hostVar), suffix))
  {
    var host := MetadataHost(hostVar);
    var tail := API_PATH + suffix;
    var url := MetadataUrl(hostVar, suffix);
    assert url == URL_SCHEME + (host + tail);
    assert URL_SCHEME <= url;
    assert url[|URL_SCHEME|..] == host + tail;
    assert tail[0] == '/';
    SplitFirstOf(host, tail, '/');
    assert (host + tail)[|host|..] == tail;
    assert API_PATH <= tail && tail[|API_PATH|..] == suffix;
  }

  /** Without the variable, requests go to 169.254.169.254. */
  lemma DefaultUrl(suffix: string)
    ensures ParseMetadataUrl(MetadataUrl(None, suffix)) == Some((METADATA_IP, suffix))
  {
    assert '/' !in METADATA_IP;
    UrlRoundTrip(None, suffix);
  }

  /**
   * `get_meta` (metadata.rs:151-162): one GET request. A 200 response gives
   * its body text; any other status gives an `HttpResponse` error with that
   * code; a failed exchange or an undecodable 200 body gives an
   * `HttpRequest` error. No other kind of error comes out of it.
   */
  function GetMeta(hostVar: Option<string>, suffix: string, send: Transport): (r: Result<string>)
    ensures var sent := send(MetadataUrl(hostVar, suffix));
      && (r.Ok? <==> sent.Received? && sent.response.status == OK && sent.response.body.Decoded?)
      && (r.Ok? ==> r.value == sent.response.body.text)
      && (r.Err? ==> Kind(r.error).HttpRequest? || Kind(r.error).HttpResponse?)
      && ((r.Err? && Kind(r.error).HttpResponse?) <==> (sent.Received? && sent.response.status != OK))
      && (r.Err? && Kind(r.error).HttpResponse? ==> Kind(r.error).code == sent.response.status)
      && (sent.SendFailed? ==> r == Err(FromTransport(sent.cause)))
  {
    match send(MetadataUrl(hostVar, suffix))
    case SendFailed(cause) => Err(FromTransport(cause))
    case Received(resp) =>
      if resp.status == OK then
        match resp.body
        case Decoded(text) => Ok(text)
        case DecodeFailed(cause) => Err(FromTransport(cause))
      else Err(FromStatus(resp.status))
  }

  /**
   * The mapping `get` puts on the result of `get_meta` (metadata.rs:170-173):
   * a value becomes `Some(value)`, a 404 becomes `None`, and every other error
   * passes through unchanged.
   */
  function AbsentOnNotFound(m: Result<string>): (r: Result<Option<string>>)
    ensures r == Ok(None) <==> m.Err? && Kind(m.error) == HttpResponse(NOT_FOUND)
    ensures m.Ok? <==> r.Ok? && r.value.Some?
    ensures m.Ok? ==> r.value.value == m.value
    ensures r.Err? ==> m == Err(r.error) && Kind(r.error) != HttpResponse(NOT_FOUND)
  {
    match m
    case Ok(v) => Ok(Some(v))
    case Err(e) => if Kind(e) == HttpResponse(NOT_FOUND) then Ok(None) else Err(e)
  }

  /**
   * `get` (metadata.rs:169-174). The result is `Ok(None)` exactly when the
   * service answers 404, `Ok(Some(v))` exactly when `get_meta` gives `v`,
   * and any other error of `get_meta` is passed on.
   */
  function Get(hostVar: Option<string>, suffix: string, send: Transport): (r: Result<Option<string>>)
    ensures var sent := send(MetadataUrl(hostVar, suffix));
      r == Ok(None) <==> sent.Received? && sent.response.status == NOT_FOUND
    ensures r.Ok? && r.value.Some? <==> GetMeta(hostVar, suffix, send).Ok?
    ensures r.Ok? && r.value.Some? ==> r.value.value == GetMeta(hostVar, suffix, send).value
    ensures var m := GetMeta(hostVar, suffix, send);
      r.Err? <==> m.Err? && Kind(m.error) != HttpResponse(NOT_FOUND)
    ensures r.Err? ==> GetMeta(hostVar, suffix, send) == Err(r.error)
  {
    AbsentOnNotFound(GetMeta(hostVar, suffix, send))
  }

  const INTERNAL_IP_PATH := "instance/network-interfaces/0/ip"
  const EXTERNAL_IP_PATH := "instance/network-interfaces/0/access-configs/0/external-ip"
  const HOSTNAME_PATH := "instance/hostname"
  const TAGS_PATH := "instance/tags"
  const ZONE_PATH := "instance/zone"
  const INSTANCE_ATTRIBUTES_PATH := "instance/attributes/"
  const PROJECT_ATTRIBUTES_PATH := "project/attributes/"

  /**
   * A getter that trims the body (`internal_ip`, `external_ip`, `hostname`,
   * metadata.rs:187-202): it fails when and as `get_meta` fails, and
   * otherwise gives the body with its surrounding whitespace removed.
   */
  function TrimmedValue(hostVar: Option<string>, path: string, send: Transport): (r: Result<string>)
    ensures var m := GetMeta(hostVar, path, send);
      && (r.Ok? <==> m.Ok?)
      && (r.Ok? ==> IsTrimmed(r.value) && r.value == Trim(m.value))
      && (r.Err? ==> r.error == m.error)
  {
    GetMeta(hostVar, path, send).Map(Trim)
  }

  function InternalIp(hostVar: Option<string>, send: Transport): (r: Result<string>)
    ensures r.Ok? ==> IsTrimmed(r.value)
    ensures var m := GetMeta(hostVar, INTERNAL_IP_PATH, send);
      && (r.Ok? <==> m.Ok?)
      && (r.Ok? ==> r.value == Trim(m.value))
      && (r.Err? ==> r.error == m.error)
  {
    TrimmedValue(hostVar, INTERNAL_IP_PATH, send)
  }

  function ExternalIp(hostVar: Option<string>, send: Transport): (r: Result<string>)
    ensures r.Ok? ==> IsTrimmed(r.value)
    ensures var m := GetMeta(hostVar, EXTERNAL_IP_PATH, send);
      && (r.Ok? <==> m.Ok?)
      && (r.Ok? ==> r.value == Trim(m.value))
      && (r.Err? ==> r.error == m.error)
  {
    TrimmedValue(hostVar, EXTERNAL_IP_PATH, send)
  }

  function Hostname(hostVar: Option<string>, send: Transport): (r: Result<string>)
    ensures r.Ok? ==> IsTrimmed(r.value)
    ensures var m := GetMeta(hostVar, HOSTNAME_PATH, send);
      && (r.Ok? <==> m.Ok?)
      && (r.Ok? ==> r.value == Trim(m.value))
      && (r.Err? ==> r.error == m.error)
  {
    TrimmedValue(hostVar, HOSTNAME_PATH, send)
  }

  /**
   * `instance_tags` (metadata.rs:204-207), given the JSON decoder as
   * `decode`: a fetch error passes through, an undecodable body is a parse
   * error tagged "json array".
   */
  function InstanceTags(hostVar: Option<string>, send: Transport, decode: string -> Option<seq<string>>): (r: Result<seq<string>>)
    ensures var m := GetMeta(hostVar, TAGS_PATH, send);
      && (m.Err? ==> r == Err(m.error))
      && (m.Ok? ==> (r.Ok? <==> decode(m.value).Some?))
      && (m.Ok? && r.Ok? ==> r.value == decode(m.value).value)
      && (m.Ok? && r.Err? ==> Kind(r.error) == MetadataParse(JSON_ARRAY_TAG))
  {
    GetMeta(hostVar, TAGS_PATH, send).AndThen((body: string) => JsonArray(decode(body)))
  }

  /**
   * `instance_name` (metadata.rs:209-212): the first `.`-segment of the
   * trimmed hostname. It is non-empty, holds no `.` and does not start with
   * whitespace; when the fetch succeeds but that segment is empty the error
   * is tagged "instance name".
   */
  function InstanceName(hostVar: Option<string>, send: Transport): (r: Result<string>)
    ensures var h := Hostname(hostVar, send);
      && (h.Err? ==> r == h)
      && (h.Ok? ==> (r.Ok? <==> h.value != "" && h.value[0] != '.'))
      && (h.Ok? && r.Ok? ==> IsFirstSegment(r.value, h.value, '.'))
      && (h.Ok? && r.Err? ==> Kind(r.error) == MetadataParse(INSTANCE_NAME_TAG))
    ensures r.Ok? ==> r.value != "" && '.' !in r.value && !IsWhitespace(r.value[0])
  {
    Hostname(hostVar, send).AndThen(ParseInstanceName)
  }

  /**
   * `zone` (metadata.rs:214-217): the last `/`-segment of the trimmed body.
   * It is non-empty, holds no `/` and does not end with whitespace; when the
   * fetch succeeds but that segment is empty the error is tagged "zone".
   */
  function Zone(hostVar: Option<string>, send: Transport): (r: Result<string>)
    ensures var t := TrimmedValue(hostVar, ZONE_PATH, send);
      && (t.Err? ==> r == t)
      && (t.Ok? ==> (r.Ok? <==> t.value != "" && t.value[|t.value| - 1] != '/'))
      && (t.Ok? && r.Ok? ==> IsLastSegment(r.value, t.value, '/'))
      && (t.Ok? && r.Err? ==> Kind(r.error) == MetadataParse(ZONE_TAG))
    ensures r.Ok? ==> r.value != "" && '/' !in r.value && !IsWhitespace(r.value[|r.value| - 1])
  {
    TrimmedValue(hostVar, ZONE_PATH, send).AndThen(ParseZone)
  }

  /**
   * A getter that splits the body into lines (`instance_attributes`,
   * `project_attributes`, `scopes`, metadata.rs:219-227, 244): it fails when
   * and as `get_meta` fails, and otherwise gives the non-empty trimmed lines.
   */
  function LinesValue(hostVar: Option<string>, path: string, send: Transport): (r: Result<seq<string>>)
    ensures var m := GetMeta(hostVar, path, send);
      && (r.Ok? <==> m.Ok?)
      && (r.Ok? ==> r.value == Lines(m.value))
      && (r.Err? ==> r.error == m.error)
    ensures r.Ok? ==> forall i :: 0 <= i < |r.value| ==> IsLine(r.value[i])
  {
    GetMeta(hostVar, path, send).Map(Lines)
  }

  function InstanceAttributes(hostVar: Option<string>, send: Transport): (r: Result<seq<string>>)
    ensures var m := GetMeta(hostVar, INSTANCE_ATTRIBUTES_PATH, send);
      && (r.Ok? <==> m.Ok?)
      && (r.Ok? ==> r.value == Lines(m.value))
      && (r.Err? ==> r.error == m.error)
    ensures r.Ok? ==> forall i :: 0 <= i < |r.value| ==> IsLine(r.value[i])
  {
    LinesValue(hostVar, INSTANCE_ATTRIBUTES_PATH, send)
  }

  function ProjectAttributes(hostVar: Option<string>, send: Transport): (r: Result<seq<string>>)
    ensures var m := GetMeta(hostVar, PROJECT_ATTRIBUTES_PATH, send);
      && (r.Ok? <==> m.Ok?)
      && (r.Ok? ==> r.value == Lines(m.value))
      && (r.Err? ==> r.error == m.error)
    ensures r.Ok? ==> forall i :: 0 <= i < |r.value| ==> IsLine(r.value[i])
  {
    LinesValue(hostVar, PROJECT_ATTRIBUTES_PATH, send)
  }

  /** `instance_attribute_value` (metadata.rs:229-232): `get` on the attribute's path; a missing attribute is `None`. */
  function InstanceAttributeValue(hostVar: Option<string>, attr: string, send: Transport): (r: Result<Option<string>>)
    ensures var sent := send(MetadataUrl(hostVar, INSTANCE_ATTRIBUTES_PATH + attr));
      r == Ok(None) <==> sent.Received? && sent.response.status == NOT_FOUND
    ensures var m := GetMeta(hostVar, INSTANCE_ATTRIBUTES_PATH + attr, send);
      && (r.Ok? && r.value.Some? <==> m.Ok?)
      && (m.Ok? ==> r == Ok(Some(m.value)))
      && (r.Err? <==> m.Err? && Kind(m.error) != HttpResponse(NOT_FOUND))
      && (r.Err? ==> m == Err(r.error))
  {
    Get(hostVar, INSTANCE_ATTRIBUTES_PATH + attr, send)
  }

  /** `project_attribute_value` (metadata.rs:234-237): `get` on the attribute's path; a missing attribute is `None`. */
  function ProjectAttributeValue(hostVar: Option<string>, attr: string, send: Transport): (r: Result<Option<string>>)
    ensures var sent := send(MetadataUrl(hostVar, PROJECT_ATTRIBUTES_PATH + attr));
      r == Ok(None) <==> sent.Received? && sent.response.status == NOT_FOUND
    ensures var m := GetMeta(hostVar, PROJECT_ATTRIBUTES_PATH + attr, send);
      && (r.Ok? && r.value.Some? <==> m.Ok?)
      && (m.Ok? ==> r == Ok(Some(m.value)))
      && (r.Err? <==> m.Err? && Kind(m.error) != HttpResponse(NOT_FOUND))
      && (r.Err? ==> m == Err(r.error))
  {
    Get(hostVar, PROJECT_ATTRIBUTES_PATH + attr, send)
  }

  /** The account `scopes` asks about (metadata.rs:243): the given one, else "default". */
  function ScopesAccount(account: Option<string>): (sa: string)
    ensures account.Some? ==> sa == account.value
    ensures account.None? ==> sa == DEFAULT_ACCOUNT
  {
    match account
    case Some(a) => a
    case None => DEFAULT_ACCOUNT
  }

  function ScopesPath(account: Option<string>): string {
    "instance/service-accounts/" + ScopesAccount(account) + "/scopes"
  }

  /** `scopes` (metadata.rs:242-245): the lines of the account's scopes list. */
  function Scopes(hostVar: Option<string>, account: Option<string>, send: Transport): (r: Result<seq<string>>)
    ensures var m := GetMeta(hostVar, ScopesPath(account), send);
      && (r.Ok? <==> m.Ok?)
      && (r.Ok? ==> r.value == Lines(m.value))
      && (r.Err? ==> r.error == m.error)
    ensures r.Ok? ==> forall i :: 0 <= i < |r.value| ==> IsLine(r.value[i])
  {
    LinesValue(hostVar, ScopesPath(account), send)
  }

  /** As documented at metadata.rs:241, no account and the account "default" ask for the same thing. */
  lemma ScopesDefaultAccount(hostVar: Option<string>, send: Transport)
    ensures Scopes(hostVar, None, send) == Scopes(hostVar, Some(DEFAULT_ACCOUNT), send)
  {
    assert ScopesPath(None) == ScopesPath(Some(DEFAULT_ACCOUNT));
  }
}
