/** Credentials and the predicates that classify them. */
module Auth {
  import opened Common
  import opened Urls

  type Byte = b: int | 0 <= b < 256

  datatype Credentials =
    | Basic(username: Option<string>, password: Option<string>)
    | Bearer(token: seq<Byte>)

  datatype Provider = Aws | Gcs | Azure

  /** Credentials, or an opaque request signer for a cloud provider. */
  datatype Authentication = Credential(credentials: Credentials) | Signer(provider: Provider)

  /** Empty usernames count as absent. */
  function NewUsername(value: Option<string>): Option<string> {
    if value == Some("") then None else value
  }

  function Username(a: Authentication): Option<string> {
    if a.Credential? && a.credentials.Basic? then a.credentials.username else None
  }

  function Password(a: Authentication): Option<string> {
    if a.Credential? && a.credentials.Basic? then a.credentials.password else None
  }

  predicate IsAuthenticated(a: Authentication) {
    match a
    case Credential(Basic(_, password)) => password.Some?
    case Credential(Bearer(token)) => token != []
    case Signer(_) => true
  }

  predicate IsEmpty(a: Authentication) {
    match a
    case Credential(Basic(username, password)) => username.None? && password.None?
    case Credential(Bearer(token)) => token == []
    case Signer(_) => false
  }

  datatype UrlError = InvalidUsername | InvalidPassword

  /** Credentials in the user-info part of a URL, if any. */
  function FromUrl(url: Url): Result<Option<Credentials>, UrlError> {
    if url.username == Decoded("") && url.password.None? then Ok(None)
    else if url.username.InvalidUtf8? then Err(InvalidUsername)
    else if url.password == Some(InvalidUtf8) then Err(InvalidPassword)
    else Ok(Some(Basic(
      NewUsername(Some(url.username.text)),
      if url.password.Some? then Some(url.password.value.text) else None)))
  }

  /** A URL with a user, a password or both carries just those; any component that is not UTF-8 is an error. */
  lemma FromUrlParts(url: Url, u: string, p: string)
    ensures url.username == Decoded(u) && url.password == Some(Decoded(p)) && u != "" ==>
      FromUrl(url) == Ok(Some(Basic(Some(u), Some(p))))
    ensures url.username == Decoded(u) && url.password.None? && u != "" ==>
      FromUrl(url) == Ok(Some(Basic(Some(u), None)))
    ensures url.username == Decoded("") && url.password == Some(Decoded(p)) ==>
      FromUrl(url) == Ok(Some(Basic(None, Some(p))))
    ensures url.username == Decoded("") && url.password.None? ==> FromUrl(url) == Ok(None)
    ensures url.username.InvalidUtf8? ==> FromUrl(url) == Err(InvalidUsername)
    ensures url.username.Decoded? && url.password == Some(InvalidUtf8) ==> FromUrl(url) == Err(InvalidPassword)
  {
  }

  /** Credentials are empty, or complete, or a username alone. */
  lemma ThreeKinds(a: Authentication)
    ensures IsAuthenticated(a) ==> !IsEmpty(a)
    ensures !IsEmpty(a) && !IsAuthenticated(a) <==> exists u :: a == Credential(Basic(Some(u), None))
    ensures IsEmpty(a) <==> a == Credential(Basic(None, None)) || a == Credential(Bearer([]))
  {
    if !IsEmpty(a) && !IsAuthenticated(a) {
      assert a == Credential(Basic(Some(a.credentials.username.value), None));
    }
  }

  datatype Authenticator = Authenticator(login: string, password: string)

  type Netrc = map<string, Authenticator>

  function FromNetrc(netrc: Netrc, url: Url, username: Option<string>): Option<Credentials> {
    if url.host.None? || (url.host.value !in netrc && "default" !in netrc) then None
    else
      var entry := netrc[if url.host.value in netrc then url.host.value else "default"];
      if username.Some? && username.value != entry.login then None
      else Some(Basic(NewUsername(Some(entry.login)), Some(entry.password)))
  }

  /** An entry for the host answers whatever the default is; without one the default does. */
  lemma HostBeforeDefault(netrc: Netrc, url: Url, host: string, entry: Authenticator)
    requires url.host == Some(host) && entry.login != ""
    ensures var c := Some(Basic(Some(entry.login), Some(entry.password)));
      && FromNetrc(netrc[host := entry], url, None) == c
      && FromNetrc(netrc[host := entry], url, Some(entry.login)) == c
      && (host != "default" && host !in netrc ==> FromNetrc(netrc["default" := entry], url, Some(entry.login)) == c)
      && forall u :: u != entry.login ==> FromNetrc(netrc[host := entry], url, Some(u)) == None
  {
  }
}
