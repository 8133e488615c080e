/** The pure decisions of the browser-side API client: where requests go, which headers they
    carry, and what a response turns into. The browser's storage is a map from keys to
    values; the network, the JSON parser and navigation are outside the model. */
module ApiClient {
  import opened Wrappers
  import opened Text

  // ---------------------------------------------------------------- base URL

  /** The configured base, where an unset and an empty setting both mean the empty string. */
  function ConfiguredBase(setting: Option<string>): string {
    setting.GetOr("")
  }

  /** The base every request path is appended to: the configured base followed by `api`,
      with a separating `/` unless the base already ends in one. */
  function BaseUrl(setting: Option<string>): (r: string)
    ensures EndsWith(r, "/api")
    ensures var base := ConfiguredBase(setting);
      && |base| <= |r| && r[..|base|] == base
      && |r| == |base| + (if EndsWith(base, "/") then 3 else 4)
  {
    var base := ConfiguredBase(setting);
    if EndsWith(base, "/") then base + "api" else base + "/api"
  }

  /** Without a configured base, requests go to `/api` on the page's own origin. */
  lemma UnsetBaseIsApi(setting: Option<string>)
    requires setting.None? || setting == Some("")
    ensures BaseUrl(setting) == "/api"
  {
  }

  /** A trailing slash on the configured base makes no difference. */
  lemma TrailingSlashIsIgnored(base: string)
    requires !EndsWith(base, "/")
    ensures BaseUrl(Some(base + "/")) == BaseUrl(Some(base))
  {
    assert EndsWith(base + "/", "/") by {
      assert (base + "/")[|base + "/"| - 1..] == "/";
    }
    assert base + "/" + "api" == base + "/api";
  }

  // ---------------------------------------------------------------- headers

  const ContentType: string := "Content-Type"
  const Authorization: string := "Authorization"
  const Bearer: string := "Bearer "

  /** A stored token counts only when it is present and not empty. */
  predicate HasToken(token: Option<string>) {
    token.Some? && token.value != ""
  }

  /** The headers of every request: JSON content, and the stored token as a bearer
      credential when there is one. */
  function AuthHeaders(token: Option<string>): (h: map<string, string>)
    ensures ContentType in h && h[ContentType] == "application/json"
    ensures Authorization in h <==> HasToken(token)
    ensures h.Keys <= {ContentType, Authorization}
  {
    var base := map[ContentType := "application/json"];
    if HasToken(token) then base[Authorization := Bearer + token.value] else base
  }

  /** The authorization header carries exactly the stored token after the `Bearer ` prefix. */
  lemma AuthorizationCarriesToken(token: Option<string>)
    requires HasToken(token)
    ensures var h := AuthHeaders(token)[Authorization];
      |h| > |Bearer| && h[..|Bearer|] == Bearer && h[|Bearer|..] == token.value
  {
    var h := AuthHeaders(token)[Authorization];
    assert h == Bearer + token.value;
  }

  // ---------------------------------------------------------------- responses

  /** What the client sees of a response: its status, its content type, the `detail` field
      of its body read as JSON (when there is one), and its body parsed as JSON. */
  datatype Response<J> = Response(status: nat, contentType: Option<string>, detail: Option<string>, json: J)

  /** The outcome of a request: the parsed body, an empty object, or an error message. */
  datatype Outcome<J> = Parsed(value: J) | EmptyObject | Failure(message: string)

  /** The outcome together with the storage afterwards and where the page is sent, if
      anywhere. */
  datatype Handled<J> = Handled(outcome: Outcome<J>, storage: map<string, string>, redirect: Option<string>)

  const UnauthorizedMessage: string := "Unauthorized access - please log in again"
  const TokenKey: string := "token"
  const UserKey: string := "user"
  const LoginPage: string := "/login"

  /** `response.ok`: a status from 200 to 299. */
  predicate IsOk(status: nat) {
    200 <= status <= 299
  }

  predicate IsJson(contentType: Option<string>) {
    contentType.Some? && Contains(contentType.value, "application/json")
  }

  function StatusMessage(status: nat): string {
    "HTTP error! status: " + NatToString(status)
  }

  /** Turns a response into an outcome. A 401 logs the user out before anything else is
      considered; any other failing status reports the server's detail or the status; a
      success yields the parsed body only for JSON content. */
  function HandleResponse<J>(resp: Response<J>, storage: map<string, string>): (h: Handled<J>)
    ensures h.outcome.Failure? <==> !IsOk(resp.status)
    ensures resp.status == 401 <==> h.redirect == Some(LoginPage)
    ensures resp.status == 401 ==>
      && h.outcome.message == UnauthorizedMessage
      && TokenKey !in h.storage && UserKey !in h.storage
      && forall k :: k != TokenKey && k != UserKey ==>
           (k in h.storage <==> k in storage) && (k in storage ==> h.storage[k] == storage[k])
    ensures resp.status != 401 ==> h.storage == storage && h.redirect.None?
    ensures !IsOk(resp.status) && resp.status != 401 ==>
      h.outcome.message == (if resp.detail.Some? && resp.detail.value != "" then resp.detail.value
                            else StatusMessage(resp.status))
    ensures IsOk(resp.status) ==> (h.outcome.Parsed? <==> IsJson(resp.contentType))
    ensures h.outcome.Parsed? ==> h.outcome.value == resp.json
  {
    if resp.status == 401 then
      Handled(Failure(UnauthorizedMessage), storage - {TokenKey, UserKey}, Some(LoginPage))
    else if !IsOk(resp.status) then
      var message := if resp.detail.Some? && resp.detail.value != "" then resp.detail.value
                     else StatusMessage(resp.status);
      Handled(Failure(message), storage, None)
    else if IsJson(resp.contentType) then Handled(Parsed(resp.json), storage, None)
    else Handled(EmptyObject, storage, None)
  }

  /** The status can be read back from a status message: the text after the fixed prefix is
      the status in decimal. */
  lemma StatusMessageNamesStatus(status: nat)
    ensures var m := StatusMessage(status); var prefix := "HTTP error! status: ";
      && |prefix| < |m| && m[..|prefix|] == prefix
      && AllDigits(m[|prefix|..]) && DigitsValue(m[|prefix|..]) == status
  {
    var prefix := "HTTP error! status: ";
    var m := StatusMessage(status);
    assert m[|prefix|..] == NatToString(status);
    DigitsValueOfNatToString(status);
  }
}
