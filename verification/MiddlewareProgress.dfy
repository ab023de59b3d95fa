/**
 What a call gets done: which source answers a fetch, which credentials a request is sent with, that a
 challenge is answered and that a success is remembered.

 Statuses, orders and switches are spelled out here rather than taken from `Middleware`.
 */
module MiddlewareProgress {
  import opened Common
  import opened Urls
  import opened Auth
  import opened Headers
  import opened Cache
  import opened Middleware
  import opened MiddlewareState
  import opened MiddlewareUsers
  import opened MiddlewareAlways
  import opened MiddlewareRealms

  // ---------------------------------------------------------------------------
  // What a request carries

  /** The header as it is read from its bytes. */
  function ReadHeader(bytes: seq<Byte>): Header {
    match FromHeaderValue(bytes)
    case Recognized(c) => Attached(Credential(c))
    case OtherScheme => Unrecognized
    case Panics => Malformed
  }

  /** User info in the URL comes before the header; a header is read only without it. */
  lemma UrlBeforeHeader(request: Request, u: string, p: string)
    ensures request.url.username == Decoded(u) && u != "" && request.url.password == Some(Decoded(p)) ==>
      FromRequest(request) == Ok(Some(Basic(Some(u), Some(p))))
    ensures request.url.username.InvalidUtf8? ==> FromRequest(request) == Err(BadUserInfo(InvalidUsername))
    ensures request.url.username == Decoded("") && request.url.password.None? && request.header.NoHeader? ==>
      FromRequest(request) == Ok(None)
  {
    FromUrlParts(request.url, u, p);
  }

  /** Without user info, credentials printed in the header are read in their normal form. */
  lemma HeaderIsRead(request: Request, c: Credentials)
    requires request.url.username == Decoded("") && request.url.password.None? && ToHeaderValue(c).Ok?
    ensures FromRequest(request.(header := ReadHeader(ToHeaderValue(c).value))) == Ok(Some(NormalForm(c)))
    ensures FromRequest(request.(header := ReadHeader([68, 105, 103, 101, 115, 116]))) == Ok(None)
    ensures FromRequest(request.(header := ReadHeader([66, 97, 115, 105, 99, 32, 61]))) == Err(HeaderPanic)
  {
    FromUrlParts(request.url, "", "");
    HeaderRoundTrip(c);
    UnreadableExamples();
  }

  // ---------------------------------------------------------------------------
  // Which source answers a fetch

  /** Nobody fetched this key before, and no endpoint is invalid. */
  ghost predicate IsFresh(ctx: Context, s: Session, url: Url, username: Option<string>) {
    && Alone(ctx.world) && FetchKeyFor(ctx, url, username) !in s.fetches
    && !ctx.config.s3.Invalid? && !ctx.config.gcs.Invalid? && !ctx.config.azure.Invalid?
  }

  predicate Inside(e: Endpoint, url: Url) {
    e.At? && IsEndpointUrl(url, e.url)
  }

  predicate HasToken(config: Config, url: Url) {
    config.huggingFaceToken.Some? && url.scheme == "https" && url.host == Some("huggingface.co") && url.port.None?
  }

  /** Neither the token nor a signer is for this URL. */
  predicate NoProvider(config: Config, url: Url) {
    !HasToken(config, url) && !Inside(config.s3, url) && !Inside(config.gcs, url) && !Inside(config.azure, url)
  }

  /** The Hugging Face token answers before anything else. */
  lemma TokenAnswers(ctx: Context, s: Session, credentials: Option<Authentication>, url: Url)
    requires IsFresh(ctx, s, url, UsernameIn(credentials)) && HasToken(ctx.config, url)
    ensures Fetch(ctx, s, credentials, url).result ==
      Ok(Some(Credential(Bearer(ctx.config.huggingFaceToken.value))))
  {
    assert ActAll(s, ctx.world.others(5)) == s;
  }

  /** An endpoint that is not a URL fails every fetch. */
  lemma InvalidEndpointFails(ctx: Context, s: Session, credentials: Option<Authentication>, url: Url)
    requires ctx.config.s3.Invalid? || ctx.config.gcs.Invalid? || ctx.config.azure.Invalid?
    ensures Fetch(ctx, s, credentials, url) == Fetched(s, Err(BadEndpoint))
  {
  }

  /** Then the signer, created if need be, of the first provider whose endpoint the URL is in: S3, GCS, Azure. */
  lemma SignersAnswer(ctx: Context, s: Session, credentials: Option<Authentication>, url: Url)
    requires IsFresh(ctx, s, url, UsernameIn(credentials)) && !HasToken(ctx.config, url)
    ensures var (config, r) := (ctx.config, Fetch(ctx, s, credentials, url).result);
      && (Inside(config.s3, url) ==> r == Ok(Some(Signer(Aws))))
      && (!Inside(config.s3, url) && Inside(config.gcs, url) ==> r == Ok(Some(Signer(Gcs))))
      && (!Inside(config.s3, url) && !Inside(config.gcs, url) && Inside(config.azure, url) ==>
            r == Ok(Some(Signer(Azure))))
      && (r.Ok? && r.value.Some? && r.value.value.Signer? ==>
            r.value.value.provider in Fetch(ctx, s, credentials, url).session.signers)
  {
    assert ActAll(s, ctx.world.others(5)) == s;
  }

  /** The netrc entry for the host, or else the default entry, is for this user. */
  predicate NetrcHas(netrc: Option<Netrc>, url: Url, username: Option<string>, entry: Authenticator) {
    && netrc.Some? && url.host.Some?
    && (username.Some? ==> username.value == entry.login)
    && if url.host.value in netrc.value then netrc.value[url.host.value] == entry
       else "default" in netrc.value && netrc.value["default"] == entry
  }

  ghost predicate NetrcSilent(netrc: Option<Netrc>, url: Url, username: Option<string>) {
    forall entry :: !NetrcHas(netrc, url, username, entry)
  }

  /** The native store is asked at the root of the index, if there is one. */
  predicate NativeHas(ctx: Context, url: Url, username: Option<string>, password: string) {
    && ctx.config.nativeAuth && username.Some?
    && var at := if ctx.index.Some? then ctx.index.value.rootUrl else url;
       ctx.world.nativePassword(at, username.value) == Some(password)
  }

  ghost predicate NativeSilent(ctx: Context, url: Url, username: Option<string>) {
    forall password :: !NativeHas(ctx, url, username, password)
  }

  /** The keyring is asked at the index itself; without a username only under Always. */
  predicate KeyringHas(ctx: Context, url: Url, username: Option<string>, user: string, password: string) {
    && ctx.config.keyring
    && if username.Some? then
         username.value == user &&
         ctx.world.keyringPassword(if ctx.index.Some? then ctx.index.value.url else url, user) == Some(password)
       else
         ctx.policy.Always? && ctx.index.Some? &&
         ctx.world.keyringPair(ctx.index.value.url) == Some((user, password))
  }

  ghost predicate KeyringSilent(ctx: Context, url: Url, username: Option<string>) {
    forall user, password :: !KeyringHas(ctx, url, username, user, password)
  }

  function Named(user: string, password: string): Authentication {
    Credential(Basic(if user == "" then None else Some(user), Some(password)))
  }

  lemma NetrcSays(config: Config, url: Url, username: Option<string>)
    ensures NetrcSilent(config.netrc, url, username) <==> NetrcLookup(config, url, username).None?
    ensures forall entry :: NetrcHas(config.netrc, url, username, entry) ==>
      NetrcLookup(config, url, username).Some? &&
      Credential(NetrcLookup(config, url, username).value) == Named(entry.login, entry.password)
  {
    if NetrcLookup(config, url, username).Some? {
      var netrc := config.netrc.value;
      assert NetrcHas(config.netrc, url, username,
                      if url.host.value in netrc then netrc[url.host.value] else netrc["default"]);
    }
  }

  lemma NativeSays(ctx: Context, url: Url, username: Option<string>)
    ensures NativeSilent(ctx, url, username) <==> NativeLookup(ctx, url, username).None?
    ensures forall password :: NativeHas(ctx, url, username, password) ==>
      NativeLookup(ctx, url, username).Some? &&
      Credential(NativeLookup(ctx, url, username).value) == Named(username.value, password)
  {
    if NativeLookup(ctx, url, username).Some? {
      var at := if ctx.index.Some? then ctx.index.value.rootUrl else url;
      assert NativeHas(ctx, url, username, ctx.world.nativePassword(at, username.value).value);
    }
  }

  lemma KeyringSays(ctx: Context, url: Url, username: Option<string>)
    ensures KeyringSilent(ctx, url, username) <==> KeyringLookup(ctx, url, username).None?
    ensures forall user, password :: KeyringHas(ctx, url, username, user, password) ==>
      KeyringLookup(ctx, url, username).Some? &&
      Credential(KeyringLookup(ctx, url, username).value) == Named(user, password)
  {
    if KeyringLookup(ctx, url, username).Some? {
      if username.Some? {
        var at := if ctx.index.Some? then ctx.index.value.url else url;
        assert KeyringHas(ctx, url, username, username.value, ctx.world.keyringPassword(at, username.value).value);
      } else {
        var pair := ctx.world.keyringPair(ctx.index.value.url).value;
        assert KeyringHas(ctx, url, username, pair.0, pair.1);
      }
    }
  }

  /** A fetch by the external sources, where no provider is for the URL. */
  ghost predicate Asks(ctx: Context, s: Session, credentials: Option<Authentication>, url: Url) {
    IsFresh(ctx, s, url, UsernameIn(credentials)) && NoProvider(ctx.config, url)
  }

  lemma AsksSources(ctx: Context, s: Session, credentials: Option<Authentication>, url: Url)
    requires Asks(ctx, s, credentials, url)
    ensures var found := ExternalLookup(ctx, url, UsernameIn(credentials));
      Fetch(ctx, s, credentials, url).result == Ok(if found.Some? then Some(Credential(found.value)) else None)
  {
    assert ActAll(s, ctx.world.others(5)) == s;
  }

  /** Netrc answers whatever the others hold. */
  lemma NetrcAnswers(
    ctx: Context, s: Session, credentials: Option<Authentication>, url: Url, entry: Authenticator)
    requires Asks(ctx, s, credentials, url) && NetrcHas(ctx.config.netrc, url, UsernameIn(credentials), entry)
    ensures Fetch(ctx, s, credentials, url).result == Ok(Some(Named(entry.login, entry.password)))
  {
    AsksSources(ctx, s, credentials, url);
    NetrcSays(ctx.config, url, UsernameIn(credentials));
  }

  /** The text store answers if netrc is silent. */
  lemma TextStoreAnswers(ctx: Context, s: Session, credentials: Option<Authentication>, url: Url)
    requires Asks(ctx, s, credentials, url) && NetrcSilent(ctx.config.netrc, url, UsernameIn(credentials))
    requires StoreLookup(ctx.world, url, UsernameIn(credentials)).Some?
    ensures Fetch(ctx, s, credentials, url).result ==
      Ok(Some(Credential(StoreLookup(ctx.world, url, UsernameIn(credentials)).value)))
  {
    AsksSources(ctx, s, credentials, url);
    NetrcSays(ctx.config, url, UsernameIn(credentials));
  }

  /** The native store answers if both are silent. */
  lemma NativeAnswers(
    ctx: Context, s: Session, credentials: Option<Authentication>, url: Url, u: string, password: string)
    requires Asks(ctx, s, credentials, url) && UsernameIn(credentials) == Some(u)
    requires NetrcSilent(ctx.config.netrc, url, Some(u)) && StoreLookup(ctx.world, url, Some(u)).None?
    requires NativeHas(ctx, url, Some(u), password)
    ensures Fetch(ctx, s, credentials, url).result == Ok(Some(Named(u, password)))
  {
    AsksSources(ctx, s, credentials, url);
    NetrcSays(ctx.config, url, Some(u));
    NativeSays(ctx, url, Some(u));
  }

  /** The keyring answers if all others are silent; and if it is too, nobody does. */
  lemma KeyringAnswers(ctx: Context, s: Session, credentials: Option<Authentication>, url: Url)
    requires Asks(ctx, s, credentials, url) && NetrcSilent(ctx.config.netrc, url, UsernameIn(credentials))
    requires StoreLookup(ctx.world, url, UsernameIn(credentials)).None?
    requires NativeSilent(ctx, url, UsernameIn(credentials))
    ensures forall user, password :: KeyringHas(ctx, url, UsernameIn(credentials), user, password) ==>
      Fetch(ctx, s, credentials, url).result == Ok(Some(Named(user, password)))
    ensures KeyringSilent(ctx, url, UsernameIn(credentials)) ==> Fetch(ctx, s, credentials, url).result == Ok(None)
  {
    AsksSources(ctx, s, credentials, url);
    NetrcSays(ctx.config, url, UsernameIn(credentials));
    NativeSays(ctx, url, UsernameIn(credentials));
    KeyringSays(ctx, url, UsernameIn(credentials));
  }

  /** Two fetches are one exactly if they are for one user and one index, or one realm without an index. */
  lemma FetchKeyExactly(a: Context, b: Context, x: Url, y: Url, u: string, v: string)
    requires u != "" && v != ""
    ensures FetchKeyFor(a, x, Some(u)) == FetchKeyFor(b, y, Some(v)) <==>
      && u == v
      && if a.index.Some? then b.index.Some? && a.index.value.url == b.index.value.url
         else b.index.None? && x.scheme == y.scheme && x.host == y.host && x.port == y.port
  {
  }

  /** Credentials can be attached exactly if they print as a header. */
  lemma AttachedPrints(w: World, c: Credentials)
    ensures CanAuthenticate(w, Credential(c)) <==> ToHeaderValue(c).Ok?
  {
    HeaderPrints(c);
  }

  // ---------------------------------------------------------------------------
  // Sending

  /** Neither a client nor a server error. */
  predicate IsSuccess(reply: Reply) {
    reply.Response? && (reply.status < 400 || reply.status >= 600)
  }

  /**
   After `before`, one more request is sent with `auth` and its reply is the verdict. Credentials that are
   new to the cache are remembered on success, and under Always must be complete.
   */
  ghost predicate Tries(
    ctx: Context, s: Session, o: Outcome, before: seq<Exchange>, request: Request, auth: Authentication, isNew: bool)
  {
    var again := request.(header := Attached(auth));
    var reply := ctx.world.server(|before|, again);
    if !CanAuthenticate(ctx.world, auth) then
      o.sent == before && o.verdict == Failed(CannotAuthenticate) && o.session.writes == s.writes
    else if isNew && ctx.policy.Always? && !IsAuthenticated(auth) then
      o.sent == before && o.verdict == Failed(IncompleteCredentials) && o.session.writes == s.writes
    else
      && o.sent == before + [Exchange(again, reply)] && o.verdict == Answered(reply)
      && o.session.writes == s.writes + if isNew && IsSuccess(reply) then WritesOf(request.url, auth) else []
  }

  lemma SendTries(ctx: Context, s: Session, n: nat, auth: Authentication, request: Request, isNew: bool)
    requires Alone(ctx.world) && n <= 1
    ensures SendWith(ctx, s, n, auth, request, isNew).session.prompted == s.prompted
    ensures var o := SendWith(ctx, s, n, auth, request, isNew);
      forall before: seq<Exchange> | |before| == n ::
        Tries(ctx, s, o.(sent := before + o.sent), before, request, auth, isNew)
  {
    assert ActAll(s, ctx.world.others(9)) == s;
    var o := SendWith(ctx, s, n, auth, request, isNew);
    forall before: seq<Exchange> | |before| == n
      ensures Tries(ctx, s, o.(sent := before + o.sent), before, request, auth, isNew)
    {
      assert before + [] == before && s.writes + [] == s.writes;
    }
  }

  ghost function FirstSome(xs: seq<Option<Authentication>>): (r: Option<Authentication>)
    ensures r.None? <==> forall i :: 0 <= i < |xs| ==> xs[i].None?
    ensures r.Some? ==> exists i :: 0 <= i < |xs| && xs[i] == r && forall j :: 0 <= j < i ==> xs[j].None?
  {
    if xs == [] then None else if xs[0].Some? then xs[0] else FirstSome(xs[1..])
  }

  lemma FirstOf(a: Option<Authentication>, b: Option<Authentication>, c: Option<Authentication>)
    ensures FirstSome([a, b]) == if a.Some? then a else b
    ensures FirstSome([a, b, c]) == if a.Some? then a else if b.Some? then b else c
  {
    assert [a, b, c][1..] == [b, c] && [b, c][1..] == [c] && [a, b][1..] == [b] && [b][1..] == [] && [c][1..] == [];
    assert FirstSome([b]) == b && FirstSome([c]) == c && FirstSome([b, c]) == if b.Some? then b else c;
  }

  // ---------------------------------------------------------------------------
  // A request that carries credentials

  /** Complete credentials go out as they came, and are remembered if the request succeeds. */
  lemma OwnIsRemembered(config: Config, world: World, s: Session, request: Request, c: Credentials)
    requires FromRequest(request) == Ok(Some(c)) && IsAuthenticated(Credential(c)) && Alone(world)
    requires !PolicyFor(config.indexes, request.url).Never?
    ensures var (o, reply) := (Handle(config, world, s, request), world.server(0, request));
      && o.sent == [Exchange(request, reply)] && o.verdict == Answered(reply)
      && o.session.writes == s.writes + if IsSuccess(reply) then WritesOf(request.url, Credential(c)) else []
  {
    assert ActAll(s, world.others(9)) == s && s.writes + [] == s.writes;
  }

  /** The table entries that are looked at, in this order. */
  ghost function Entries(ctx: Context, t: Tables, url: Url, username: Option<string>): seq<Option<Authentication>> {
    (match ctx.index
     case Some(index) => [GetUrl(t, index.url, username), GetUrl(t, index.rootUrl, username)]
     case None => [GetRealm(t, RealmOf(url), username)]) +
    [GetUrl(t, url, username)]
  }

  /** A request with incomplete credentials, and no interference. */
  ghost predicate Partial(config: Config, world: World, request: Request, c: Credentials) {
    && FromRequest(request) == Ok(Some(c)) && !IsAuthenticated(Credential(c)) && Alone(world)
    && !PolicyFor(config.indexes, request.url).Never?
  }

  lemma EntriesInOrder(ctx: Context, t: Tables, url: Url, username: Option<string>)
    ensures var (hit, last) := (FirstSome(Entries(ctx, t, url, username)), GetUrl(t, url, username));
      match ctx.index
      case Some(index) =>
        var first, second := GetUrl(t, index.url, username), GetUrl(t, index.rootUrl, username);
        hit == if first.Some? then first else if second.Some? then second else last
      case None =>
        var first := GetRealm(t, RealmOf(url), username);
        hit == if first.Some? then first else last
  {
    var entries := Entries(ctx, t, url, username);
    if ctx.index.Some? {
      FirstOf(entries[0], entries[1], entries[2]);
      assert entries == [entries[0], entries[1], entries[2]];
    } else {
      FirstOf(entries[0], entries[1], None);
      assert entries == [entries[0], entries[1]];
    }
  }

  /** Incomplete credentials are completed from the first table entry that has the user's password. */
  lemma EntryIsUsed(config: Config, world: World, s: Session, request: Request, c: Credentials)
    requires Partial(config, world, request, c)
    ensures var ctx := ContextFor(config, world, request.url);
      var hit := FirstSome(Entries(ctx, TablesOf(s), request.url, Username(Credential(c))));
      hit.Some? ==> Tries(ctx, s, Handle(config, world, s, request), [], request, hit.value, false)
  {
    var ctx, auth := ContextFor(config, world, request.url), Credential(c);
    var hit := FirstSome(Entries(ctx, TablesOf(s), request.url, Username(auth)));
    AloneThroughout(ctx, s);
    EntriesInOrder(ctx, TablesOf(s), request.url, Username(auth));
    if hit.Some? {
      SendTries(ctx, s, 0, hit.value, request, false);
      var o := Handle(config, world, s, request);
      assert o == SendWith(ctx, s, 0, hit.value, request, false);
      assert o.(sent := [] + o.sent) == o;
    }
  }

  lemma AloneThroughout(ctx: Context, s: Session)
    requires Alone(ctx.world)
    ensures forall n :: ActAll(s, ctx.world.others(n)) == s
  {
  }

  /** With no entry, the call goes on to the external sources. */
  lemma GoesElsewhere(config: Config, world: World, s: Session, request: Request, c: Credentials)
    requires Partial(config, world, request, c)
    requires FirstSome(Entries(ContextFor(config, world, request.url), TablesOf(s), request.url,
                               Username(Credential(c)))).None?
    ensures Handle(config, world, s, request) ==
      PasswordElsewhere(ContextFor(config, world, request.url), s, Credential(c), request)
    ensures GetUrl(TablesOf(s), request.url, Username(Credential(c))).None?
  {
    var ctx := ContextFor(config, world, request.url);
    AloneThroughout(ctx, s);
    var entries := Entries(ctx, TablesOf(s), request.url, Username(Credential(c)));
    assert entries[0].None? && entries[|entries| - 2].None? && Last(entries).None?;
  }

  lemma FetchKeepsRest(ctx: Context, s: Session, credentials: Option<Authentication>, url: Url)
    requires Alone(ctx.world)
    ensures var f := Fetch(ctx, s, credentials, url); f.session.writes == s.writes && f.session.prompted == s.prompted
  {
    AloneThroughout(ctx, s);
  }

  /** Otherwise from a fetch, and what was fetched is remembered on success. */
  lemma FetchIsUsed(config: Config, world: World, s: Session, request: Request, c: Credentials, found: Authentication)
    requires Partial(config, world, request, c)
    requires var ctx := ContextFor(config, world, request.url);
      && FirstSome(Entries(ctx, TablesOf(s), request.url, Username(Credential(c)))).None?
      && Fetch(ctx, s, Some(Credential(c)), request.url).result == Ok(Some(found))
    ensures var ctx := ContextFor(config, world, request.url);
      Tries(ctx, s, Handle(config, world, s, request), [], request, found, true)
  {
    var ctx, o := ContextFor(config, world, request.url), Handle(config, world, s, request);
    GoesElsewhere(config, world, s, request, c);
    FetchKeepsRest(ctx, s, Some(Credential(c)), request.url);
    SendTries(ctx, Fetch(ctx, s, Some(Credential(c)), request.url).session, 0, found, request, true);
    assert o.(sent := [] + o.sent) == o;
  }

  /** A fetch that fails is the end of the call. */
  lemma FetchFails(config: Config, world: World, s: Session, request: Request, c: Credentials, e: Failure)
    requires Partial(config, world, request, c)
    requires var ctx := ContextFor(config, world, request.url);
      && FirstSome(Entries(ctx, TablesOf(s), request.url, Username(Credential(c)))).None?
      && Fetch(ctx, s, Some(Credential(c)), request.url).result == Err(e)
    ensures Handle(config, world, s, request) == Outcome(s, [], [], Failed(e))
  {
    GoesElsewhere(config, world, s, request, c);
  }

  /**
   Otherwise, with an index, from the realm's entry, which is remembered too. Failing that the request goes
   out as it came, unless complete credentials are required, and its credentials are remembered.
   */
  lemma LastResorts(config: Config, world: World, s: Session, request: Request, c: Credentials)
    requires Partial(config, world, request, c)
    requires var ctx := ContextFor(config, world, request.url);
      && FirstSome(Entries(ctx, TablesOf(s), request.url, Username(Credential(c)))).None?
      && Fetch(ctx, s, Some(Credential(c)), request.url).result == Ok(None)
    ensures var (ctx, auth) := (ContextFor(config, world, request.url), Credential(c));
      var o, reply := Handle(config, world, s, request), world.server(0, request);
      var last := GetRealm(TablesOf(s), RealmOf(request.url), Username(auth));
      if ctx.index.Some? && last.Some? then Tries(ctx, s, o, [], request, last.value, true)
      else if ctx.policy.Always? then
        o.sent == [] && o.verdict == Failed(IncompleteCredentials) && o.session.writes == s.writes
      else
        && o.sent == [Exchange(request, reply)] && o.verdict == Answered(reply)
        && o.session.writes == s.writes + if IsSuccess(reply) then WritesOf(request.url, auth) else []
  {
    var ctx, o, auth := ContextFor(config, world, request.url), Handle(config, world, s, request), Credential(c);
    GoesElsewhere(config, world, s, request, c);
    FetchKeepsRest(ctx, s, Some(auth), request.url);
    var s1 := Fetch(ctx, s, Some(auth), request.url).session;
    AloneThroughout(ctx, s1);
    var last := GetRealm(TablesOf(s1), RealmOf(request.url), Username(auth));
    if ctx.index.Some? && last.Some? {
      SendTries(ctx, s1, 0, last.value, request, true);
      assert o.(sent := [] + o.sent) == o;
    } else {
      assert o == Complete(ctx, s1, 0, Some(auth), request);
      assert s.writes + [] == s.writes;
    }
  }

  // ---------------------------------------------------------------------------
  // Any other request

  predicate IsRequired(config: Config, policy: AuthPolicy) {
    config.onlyAuthenticated || (policy == Always && !config.dependabot)
  }

  predicate IsChallenge(reply: Reply) {
    reply == Response(401) || reply == Response(403) || reply == Response(404)
  }

  /** The request carries no credentials, or ones that are ignored, and nobody interferes. */
  ghost predicate Bare(config: Config, world: World, request: Request) {
    && Alone(world) && FromRequest(request).Ok?
    && (PolicyFor(config.indexes, request.url) == Never || FromRequest(request) == Ok(None))
  }

  /** The entry of the URL itself, which is looked at first. */
  ghost function FirstFound(config: Config, s: Session, request: Request): Option<Authentication> {
    if PolicyFor(config.indexes, request.url) == Never then None else GetUrl(TablesOf(s), request.url, None)
  }

  /** A complete entry of the URL is used at once. */
  lemma UrlEntryIsUsed(config: Config, world: World, s: Session, request: Request)
    requires Bare(config, world, request)
    requires var hit := FirstFound(config, s, request); hit.Some? && IsAuthenticated(hit.value)
    ensures Tries(ContextFor(config, world, request.url), s, Handle(config, world, s, request), [], request,
                  FirstFound(config, s, request).value, false)
  {
    var ctx, hit := ContextFor(config, world, request.url), FirstFound(config, s, request).value;
    AloneThroughout(ctx, s);
    assert s.writes + [] == s.writes;
  }

  /** The first attempt: with an incomplete entry of the URL attached, or as the request came. */
  ghost function FirstTry(config: Config, s: Session, request: Request): Request {
    var found := FirstFound(config, s, request);
    if found.Some? then request.(header := Attached(found.value)) else request
  }

  /** No complete entry of the URL, and nothing that cannot be attached. */
  ghost predicate Undecided(config: Config, world: World, s: Session, request: Request) {
    && Bare(config, world, request)
    && var found := FirstFound(config, s, request);
       found.Some? ==> !IsAuthenticated(found.value) && CanAuthenticate(world, found.value)
  }

  lemma IsAttempted(config: Config, world: World, s: Session, request: Request)
    requires Undecided(config, world, s, request)
    ensures Handle(config, world, s, request) ==
      Attempt(ContextFor(config, world, request.url), s, FirstFound(config, s, request), FirstTry(config, s, request))
  {
    AloneThroughout(ContextFor(config, world, request.url), s);
  }

  /** A reply to the first attempt that is no challenge is the verdict, and under Never any reply is. */
  lemma FirstReplyStands(config: Config, world: World, s: Session, request: Request)
    requires Undecided(config, world, s, request) && request.cloneable
    requires !IsRequired(config, PolicyFor(config.indexes, request.url))
    requires var reply := world.server(0, FirstTry(config, s, request));
      !IsChallenge(reply) || PolicyFor(config.indexes, request.url) == Never
    ensures var (first, o) := (FirstTry(config, s, request), Handle(config, world, s, request));
      o == Outcome(s, [Exchange(first, world.server(0, first))], [], Answered(world.server(0, first)))
  {
    IsAttempted(config, world, s, request);
  }

  /** A URL that no index covers is tried as it is. */
  lemma UncoveredIsTried(config: Config, world: World, s: Session, request: Request)
    requires Bare(config, world, request) && FirstFound(config, s, request).None? && request.cloneable
    requires !config.onlyAuthenticated && forall i :: i in config.indexes ==> !IsPrefixFor(i, request.url)
    ensures var o := Handle(config, world, s, request);
      o.sent != [] && o.sent[0] == Exchange(request, world.server(0, request))
  {
    IsAttempted(config, world, s, request);
  }

  /** More is needed: authentication is required, or the first attempt met a challenge. */
  ghost predicate Pressed(config: Config, world: World, s: Session, request: Request, before: seq<Exchange>) {
    && Undecided(config, world, s, request)
    && var (policy, first) := (PolicyFor(config.indexes, request.url), FirstTry(config, s, request));
       if IsRequired(config, policy) then before == []
       else
         && policy != Never && request.cloneable && IsChallenge(world.server(0, first))
         && before == [Exchange(first, world.server(0, first))]
  }

  ghost function FirstReply(before: seq<Exchange>): Option<Reply> {
    if before == [] then None else Some(before[0].reply)
  }

  lemma IsRetried(config: Config, world: World, s: Session, request: Request, before: seq<Exchange>)
    requires Pressed(config, world, s, request, before)
    ensures var r := Retry(ContextFor(config, world, request.url), s, FirstFound(config, s, request),
                           FirstTry(config, s, request), FirstReply(before));
      Handle(config, world, s, request) == r.(sent := before + r.sent)
  {
    IsAttempted(config, world, s, request);
    var r := Retry(ContextFor(config, world, request.url), s, FirstFound(config, s, request),
                   FirstTry(config, s, request), FirstReply(before));
    assert [] + r.sent == r.sent;
  }

  /** The best that was cached: the entry of the index URL, of the realm, or of the URL itself. */
  ghost function Best(ctx: Context, s: Session, request: Request, found: Option<Authentication>):
    Option<Authentication>
  {
    var (t, user) := (TablesOf(s), UsernameIn(found));
    FirstSome((if ctx.index.Some? then [GetUrl(t, ctx.index.value.url, user)] else []) +
              [GetRealm(t, RealmOf(request.url), user), found])
  }

  lemma BestIsFirst(ctx: Context, s: Session, request: Request, found: Option<Authentication>)
    requires Alone(ctx.world)
    ensures var (s1, cached) := CachedForRetry(ctx, s, UsernameIn(found), request);
      s1 == s && Best(ctx, s, request, found) == if cached.Some? then cached else found
  {
    AloneThroughout(ctx, s);
    var (t, user) := (TablesOf(s), UsernameIn(found));
    var rest := [GetRealm(t, RealmOf(request.url), user), found];
    if ctx.index.Some? {
      var byIndex := GetUrl(t, ctx.index.value.url, user);
      FirstOf(byIndex, rest[0], rest[1]);
      assert [byIndex] + rest == [byIndex, rest[0], rest[1]];
    } else {
      FirstOf(rest[0], rest[1], None);
      assert [] + rest == [rest[0], rest[1]];
    }
  }

  /** A challenge, or a requirement, is met from the cache if something complete is cached. */
  lemma CacheAnswers(config: Config, world: World, s: Session, request: Request, before: seq<Exchange>)
    requires Pressed(config, world, s, request, before)
    requires var best := Best(ContextFor(config, world, request.url), s, request, FirstFound(config, s, request));
      best.Some? && IsAuthenticated(best.value)
    ensures var ctx := ContextFor(config, world, request.url);
      Tries(ctx, s, Handle(config, world, s, request), before, request,
            Best(ctx, s, request, FirstFound(config, s, request)).value, false)
  {
    var ctx, found := ContextFor(config, world, request.url), FirstFound(config, s, request);
    IsRetried(config, world, s, request, before);
    BestIsFirst(ctx, s, FirstTry(config, s, request), found);
    SendTries(ctx, s, |before|, Best(ctx, s, request, found).value, FirstTry(config, s, request), false);
  }

  predicate PromptApplies(config: Config, policy: AuthPolicy, fetched: Option<Authentication>) {
    && config.prompt && IsRequired(config, policy) && policy != Never
    && !(fetched.Some? && IsAuthenticated(fetched.value))
  }

  function PromptAnswer(s: Session, world: World): Result<Option<Credentials>, ()> {
    if s.prompted.Some? then Ok(s.prompted.value) else world.prompt
  }

  lemma PromptGives(ctx: Context, s: Session, fetched: Option<Authentication>, c: Credentials)
    requires Alone(ctx.world) && PromptApplies(ctx.config, ctx.policy, fetched)
    requires PromptAnswer(s, ctx.world) == Ok(Some(c))
    ensures PromptIfNeeded(ctx, s, fetched) == Fetched(s.(prompted := Some(Some(c))), Ok(Some(Credential(c))))
  {
    AloneThroughout(ctx, s);
  }

  lemma PromptGivesNothing(ctx: Context, s: Session, fetched: Option<Authentication>)
    requires Alone(ctx.world)
    requires !PromptApplies(ctx.config, ctx.policy, fetched) || PromptAnswer(s, ctx.world) == Ok(None)
    ensures var p := PromptIfNeeded(ctx, s, fetched); p.result == Ok(fetched) && p.session.writes == s.writes
  {
    AloneThroughout(ctx, s);
  }

  /** Nothing complete is cached, and the external sources answered `fetched`. */
  ghost predicate Fetches(
    config: Config, world: World, s: Session, request: Request, before: seq<Exchange>, fetched: Option<Authentication>)
  {
    && Pressed(config, world, s, request, before)
    && var ctx := ContextFor(config, world, request.url);
       var best := Best(ctx, s, request, FirstFound(config, s, request));
       !(best.Some? && IsAuthenticated(best.value)) && Fetch(ctx, s, best, request.url).result == Ok(fetched)
  }

  /** What is sent, and remembered, once the sources and the prompt have answered. */
  lemma AfterFetch(
    config: Config, world: World, s: Session, request: Request, before: seq<Exchange>, fetched: Option<Authentication>)
    requires Fetches(config, world, s, request, before, fetched)
    ensures var ctx := ContextFor(config, world, request.url);
      var best := Best(ctx, s, request, FirstFound(config, s, request));
      var (found, first) := (FirstFound(config, s, request), FirstTry(config, s, request));
      var r := RetryOutside(ctx, s, found, best, first, FirstReply(before));
      Handle(config, world, s, request) == r.(sent := before + r.sent)
  {
    var ctx, found := ContextFor(config, world, request.url), FirstFound(config, s, request);
    IsRetried(config, world, s, request, before);
    BestIsFirst(ctx, s, FirstTry(config, s, request), found);
  }

  /** Without anything complete in the cache, fetched credentials are sent, and remembered on success. */
  lemma FetchAnswers(
    config: Config, world: World, s: Session, request: Request, before: seq<Exchange>, found: Authentication)
    requires Fetches(config, world, s, request, before, Some(found))
    requires !PromptApplies(config, PolicyFor(config.indexes, request.url), Some(found)) ||
             PromptAnswer(s, world) == Ok(None)
    ensures var ctx := ContextFor(config, world, request.url);
      Tries(ctx, s, Handle(config, world, s, request), before, request, found, true)
  {
    var ctx, first := ContextFor(config, world, request.url), FirstTry(config, s, request);
    var best := Best(ctx, s, request, FirstFound(config, s, request));
    var f := Fetch(ctx, s, best, request.url);
    AfterFetch(config, world, s, request, before, Some(found));
    FetchKeepsRest(ctx, s, best, request.url);
    PromptGivesNothing(ctx, f.session, Some(found));
    var p := PromptIfNeeded(ctx, f.session, Some(found));
    SendTries(ctx, p.session, |before|, found, first, true);
  }

  /** A fetch or a prompt that fails is the end of the call. */
  lemma RetryFails(config: Config, world: World, s: Session, request: Request, before: seq<Exchange>)
    requires Pressed(config, world, s, request, before)
    requires var ctx := ContextFor(config, world, request.url);
      var best := Best(ctx, s, request, FirstFound(config, s, request));
      !(best.Some? && IsAuthenticated(best.value))
    ensures var (ctx, o) := (ContextFor(config, world, request.url), Handle(config, world, s, request));
      match Fetch(ctx, s, Best(ctx, s, request, FirstFound(config, s, request)), request.url).result
      case Err(e) => o.sent == before && o.session == s && o.verdict == Failed(e)
      case Ok(fetched) =>
        PromptApplies(config, ctx.policy, fetched) && PromptAnswer(s, world).Err? ==>
          o.sent == before && o.session.writes == s.writes && o.verdict == Failed(PromptFailed)
  {
    var ctx, found := ContextFor(config, world, request.url), FirstFound(config, s, request);
    var best := Best(ctx, s, request, found);
    var f := Fetch(ctx, s, best, request.url);
    assert before + [] == before;
    if f.result.Err? {
      IsRetried(config, world, s, request, before);
      BestIsFirst(ctx, s, FirstTry(config, s, request), found);
    } else {
      AfterFetch(config, world, s, request, before, f.result.value);
      FetchKeepsRest(ctx, s, best, request.url);
      AloneThroughout(ctx, f.session);
    }
  }

  /** Where incomplete credentials are not enough, what the user types in is sent, kept, and remembered on success. */
  lemma PromptAnswersIt(
    config: Config, world: World, s: Session, request: Request, before: seq<Exchange>, fetched: Option<Authentication>,
    c: Credentials)
    requires Fetches(config, world, s, request, before, fetched)
    requires PromptApplies(config, PolicyFor(config.indexes, request.url), fetched)
    requires PromptAnswer(s, world) == Ok(Some(c))
    ensures var o := Handle(config, world, s, request);
      && Tries(ContextFor(config, world, request.url), s, o, before, request, Credential(c), true)
      && o.session.prompted == Some(Some(c))
  {
    var ctx, first := ContextFor(config, world, request.url), FirstTry(config, s, request);
    var best := Best(ctx, s, request, FirstFound(config, s, request));
    var f := Fetch(ctx, s, best, request.url);
    AfterFetch(config, world, s, request, before, fetched);
    FetchKeepsRest(ctx, s, best, request.url);
    PromptGives(ctx, f.session, fetched, c);
    var p := PromptIfNeeded(ctx, f.session, fetched);
    SendTries(ctx, p.session, |before|, Credential(c), first, true);
  }

  /**
   If nothing is found at all, a username cached for the index or realm is sent alone where the URL itself
   had no entry; otherwise the first reply stands, or the call fails for want of credentials.
   */
  lemma NothingAnswers(config: Config, world: World, s: Session, request: Request, before: seq<Exchange>)
    requires Fetches(config, world, s, request, before, None)
    requires !PromptApplies(config, PolicyFor(config.indexes, request.url), None) || PromptAnswer(s, world) == Ok(None)
    ensures var (ctx, o) := (ContextFor(config, world, request.url), Handle(config, world, s, request));
      var (found, best) := (FirstFound(config, s, request), Best(ctx, s, request, FirstFound(config, s, request)));
      if best.Some? && UsernameIn(found).None? then Tries(ctx, s, o, before, request, best.value, false)
      else
        && o.sent == before && o.session.writes == s.writes
        && o.verdict == if before == [] then Failed(MissingCredentials) else Answered(before[0].reply)
  {
    var ctx, first := ContextFor(config, world, request.url), FirstTry(config, s, request);
    var best := Best(ctx, s, request, FirstFound(config, s, request));
    var f := Fetch(ctx, s, best, request.url);
    AfterFetch(config, world, s, request, before, None);
    FetchKeepsRest(ctx, s, best, request.url);
    PromptGivesNothing(ctx, f.session, None);
    var p := PromptIfNeeded(ctx, f.session, None);
    assert before + [] == before;
    if best.Some? { SendTries(ctx, p.session, |before|, best.value, first, false); }
  }

  // ---------------------------------------------------------------------------
  // What was learned is used

  /**
   Amid steps of others that cache nothing incomplete: once a request with complete credentials succeeded, a
   request without credentials to the same URL or one below is sent once, with complete cached credentials.
   */
  lemma LearnedIsReused(config: Config, first: Call, s: Session, c: Credentials, second: Call)
    requires CacheEnough(true, s) && OthersEnough(true, first.world) && OthersEnough(true, second.world)
    requires FromRequest(first.request) == Ok(Some(c)) && IsAuthenticated(Credential(c))
    requires !PolicyFor(config.indexes, first.request.url).Never?
    requires IsSuccess(first.world.server(0, first.request))
    requires IsBelow(first.request.url, second.request.url) && NeedsCredentials(config, second.request)
    ensures SentFromCache(config, Handle(config, first.world, s, first.request).session, second)
  {
    var o, url := Handle(config, first.world, s, first.request), first.request.url;
    assert o.learned == [Insertion(url, Credential(c))];
    var _ := CallIsAllowed(config, first.world, s, first.request);
    HandleGood(config, first.world, s, first.request);
    FollowsKeeps(true, ContextFor(config, first.world, url), url, s, o);
    assert Last(o.session.writes) == UrlWrite(url, Credential(c));
    FiledIsReused(config, o.session, url, Credential(c), second);
  }

  /** The same once a request was answered with fetched credentials and succeeded. */
  lemma FetchedIsReused(
    config: Config, first: Call, s: Session, before: seq<Exchange>, found: Authentication, second: Call)
    requires CacheEnough(true, s) && OthersEnough(true, first.world) && OthersEnough(true, second.world)
    requires Fetches(config, first.world, s, first.request, before, Some(found))
    requires IsAuthenticated(found) && CanAuthenticate(first.world, found)
    requires IsSuccess(first.world.server(|before|, first.request.(header := Attached(found))))
    requires IsBelow(first.request.url, second.request.url) && NeedsCredentials(config, second.request)
    ensures SentFromCache(config, Handle(config, first.world, s, first.request).session, second)
  {
    var o, url := Handle(config, first.world, s, first.request), first.request.url;
    FetchAnswers(config, first.world, s, first.request, before, found);
    var _ := CallIsAllowed(config, first.world, s, first.request);
    assert Last(o.session.writes) == UrlWrite(url, found);
    AppendKeeps(s, o.session, url, found);
    FiledIsReused(config, o.session, url, found, second);
  }

  lemma AppendKeeps(s: Session, s': Session, url: Url, auth: Authentication)
    requires CacheEnough(true, s) && Sound(s') && IsAuthenticated(auth)
    requires s'.writes == s.writes + WritesOf(url, auth)
    ensures CacheEnough(true, s')
  {
    forall i | |s.writes| <= i < |s'.writes| ensures IsAuthenticated(s'.writes[i].auth) {
      WritesOfOne(url, auth, s'.writes[i]);
    }
    assert s'.writes[..|s.writes|] == s.writes;
    CompleteWritesKeep(s'.writes, |s.writes|);
  }
}
