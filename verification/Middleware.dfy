/**
 What the authentication middleware does with one request, as a function of the shared state, the
 configuration and the outside world.

 Other callers share the state. Before each access of this call, `World.others` gives the steps they
 take; everything below holds for any such steps.
 */
module Middleware {
  import opened Common
  import opened Urls
  import opened Auth
  import opened Headers
  import opened Cache
  import TextStore

  // ---------------------------------------------------------------------------
  // Requests and replies

  /** The `Authorization` header: what was attached, or what a header given by the caller parses to. */
  datatype Header = NoHeader | Unrecognized | Malformed | Attached(auth: Authentication)

  datatype Request = Request(url: Url, header: Header, cloneable: bool)

  datatype Reply = Response(status: nat) | TransportError

  datatype Exchange = Exchange(request: Request, reply: Reply)

  /** `error_for_status` accepts everything but client and server errors. */
  predicate Succeeds(reply: Reply) {
    reply.Response? && !(400 <= reply.status < 600)
  }

  predicate Challenges(reply: Reply) {
    reply.Response? && reply.status in {401, 403, 404}
  }

  datatype Failure =
    | BadUserInfo(error: UrlError) | HeaderPanic | NotCloneable | BadEndpoint | CannotAuthenticate
    | IncompleteCredentials | MissingCredentials | PromptFailed

  datatype Verdict = Answered(reply: Reply) | Failed(failure: Failure)

  function FromRequest(request: Request): Result<Option<Credentials>, Failure> {
    match FromUrl(request.url)
    case Err(e) => Err(BadUserInfo(e))
    case Ok(Some(c)) => Ok(Some(c))
    case Ok(None) =>
      match request.header
      case Malformed => Err(HeaderPanic)
      case Attached(Credential(c)) => Ok(Some(c))
      case _ => Ok(None)
  }

  /** The request names `auth`, in its header or its URL. */
  ghost predicate Carries(request: Request, auth: Authentication) {
    request.header == Attached(auth) || (auth.Credential? && FromRequest(request) == Ok(Some(auth.credentials)))
  }

  // ---------------------------------------------------------------------------
  // Configuration, shared state and the outside world

  datatype Endpoint = Unset | Invalid | At(url: Url)

  datatype Config = Config(
    indexes: seq<Index>, onlyAuthenticated: bool, dependabot: bool, netrc: Option<Netrc>,
    huggingFaceToken: Option<seq<Byte>>, s3: Endpoint, gcs: Endpoint, azure: Endpoint,
    nativeAuth: bool, keyring: bool, prompt: bool)

  datatype FetchUrl = IndexUrl(url: Url) | RealmUrl(realm: Realm)

  type FetchKey = (FetchUrl, Option<string>)

  /**
   The state shared by all callers: every cache write so far, finished fetches, the keys for which
   external sources were consulted, the signers created, and the answer to the prompt.
   */
  datatype Session = Session(
    writes: seq<Write>, fetches: map<FetchKey, Option<Authentication>>, consulted: seq<FetchKey>,
    signers: seq<Provider>, prompted: Option<Option<Credentials>>)

  ghost function TablesOf(s: Session): Tables {
    ApplyAll(EMPTY, s.writes)
  }

  /** A step on the shared state: a cache write, a finished fetch, a signer created, the prompt answered. */
  datatype Action =
    | FileWrite(write: Write)
    | FinishFetch(key: FetchKey, value: Option<Authentication>)
    | AddSigner(provider: Provider)
    | AnswerPrompt(answer: Option<Credentials>)

  function WithFetch(s: Session, key: FetchKey, value: Option<Authentication>): Session {
    s.(fetches := s.fetches[key := value], consulted := s.consulted + [key])
  }

  function WithSigner(s: Session, p: Provider): Session {
    if p in s.signers then s else s.(signers := s.signers + [p])
  }

  function Act(s: Session, a: Action): Session {
    match a
    case FileWrite(w) => s.(writes := s.writes + [w])
    case FinishFetch(k, v) => if k in s.fetches then s else WithFetch(s, k, v)
    case AddSigner(p) => WithSigner(s, p)
    case AnswerPrompt(answer) => if s.prompted.Some? then s else s.(prompted := Some(answer))
  }

  function ActAll(s: Session, actions: seq<Action>): Session {
    if actions == [] then s else Act(ActAll(s, Init(actions)), Last(actions))
  }

  datatype Stored = Stored(entries: TextStore.Store, order: seq<TextStore.Key>)

  /** Everything outside the program, for the duration of one call. */
  datatype World = World(
    server: (nat, Request) -> Reply,
    store: Option<Stored>,
    nativePassword: (Url, string) -> Option<string>,
    keyringPassword: (Url, string) -> Option<string>,
    keyringPair: Url -> Option<(string, string)>,
    prompt: Result<Option<Credentials>, ()>,
    signerWorks: Provider -> bool,
    others: nat -> seq<Action>)

  datatype Context = Context(config: Config, world: World, index: Option<Index>, policy: AuthPolicy)

  // ---------------------------------------------------------------------------
  // Sending

  predicate CanAuthenticate(w: World, auth: Authentication) {
    match auth
    case Credential(Basic(_, _)) => true
    case Credential(Bearer(token)) => IsHeaderValue(token)
    case Signer(p) => w.signerWorks(p)
  }

  datatype Outcome = Outcome(session: Session, sent: seq<Exchange>, learned: seq<Insertion>, verdict: Verdict)

  /** Send `request` as the `n`-th of this call, and remember `credentials` if it succeeds. */
  function Complete(ctx: Context, s: Session, n: nat, credentials: Option<Authentication>, request: Request): Outcome {
    if credentials.Some? && ctx.policy.Always? && !IsAuthenticated(credentials.value) then
      Outcome(s, [], [], Failed(IncompleteCredentials))
    else
      var reply := ctx.world.server(n, request);
      var sent := [Exchange(request, reply)];
      if credentials.Some? && Succeeds(reply) then
        var s1 := ActAll(s, ctx.world.others(9));
        var writes := s1.writes + WritesOf(request.url, credentials.value);
        Outcome(s1.(writes := writes), sent, [Insertion(request.url, credentials.value)], Answered(reply))
      else Outcome(s, sent, [], Answered(reply))
  }

  /** Attach `auth` and send; `remember` says whether the credentials are new to the cache. */
  function SendWith(ctx: Context, s: Session, n: nat, auth: Authentication, request: Request, remember: bool): Outcome {
    if !CanAuthenticate(ctx.world, auth) then Outcome(s, [], [], Failed(CannotAuthenticate))
    else Complete(ctx, s, n, if remember then Some(auth) else None, request.(header := Attached(auth)))
  }

  // ---------------------------------------------------------------------------
  // Fetching

  const HUGGING_FACE_REALM := Realm("https", Some("huggingface.co"), None)

  predicate InEndpoint(e: Endpoint, url: Url) {
    e.At? && IsEndpointUrl(url, e.url)
  }

  /** Some endpoint in the environment is not a URL, so every fetch fails. */
  predicate HasInvalidEndpoint(config: Config) {
    config.s3.Invalid? || config.gcs.Invalid? || config.azure.Invalid?
  }

  function SignerFor(config: Config, url: Url): Option<Provider> {
    if InEndpoint(config.s3, url) then Some(Aws)
    else if InEndpoint(config.gcs, url) then Some(Gcs)
    else if InEndpoint(config.azure, url) then Some(Azure)
    else None
  }

  function KeyringFetch(password: Option<string>, username: string): Option<Credentials> {
    if password.None? then None else Some(Basic(NewUsername(Some(username)), password))
  }

  ghost function StoreLookup(w: World, url: Url, username: Option<string>): Option<Credentials> {
    if w.store.None? then None
    else
      match TextStore.Lookup(w.store.value.entries, w.store.value.order, url, username)
      case Ok(found) => found
      case Err(_) => None
  }

  function NativeLookup(ctx: Context, url: Url, username: Option<string>): Option<Credentials> {
    if !ctx.config.nativeAuth || username.None? then None
    else
      var target := if ctx.index.Some? then ctx.index.value.rootUrl else url;
      KeyringFetch(ctx.world.nativePassword(target, username.value), username.value)
  }

  function KeyringLookup(ctx: Context, url: Url, username: Option<string>): Option<Credentials> {
    if !ctx.config.keyring then None
    else if username.Some? then
      var target := if ctx.index.Some? then ctx.index.value.url else url;
      KeyringFetch(ctx.world.keyringPassword(target, username.value), username.value)
    else if ctx.policy.Always? && ctx.index.Some? then
      match ctx.world.keyringPair(ctx.index.value.url)
      case None => None
      case Some((user, password)) => KeyringFetch(Some(password), user)
    else None
  }

  function NetrcLookup(config: Config, url: Url, username: Option<string>): Option<Credentials> {
    if config.netrc.None? then None else FromNetrc(config.netrc.value, url, username)
  }

  /** The external sources, in order of preference. */
  ghost function ExternalLookup(ctx: Context, url: Url, username: Option<string>): Option<Credentials> {
    var netrc := NetrcLookup(ctx.config, url, username);
    if netrc.Some? then netrc else
    var text := StoreLookup(ctx.world, url, username);
    if text.Some? then text else
    var native := NativeLookup(ctx, url, username);
    if native.Some? then native else
    KeyringLookup(ctx, url, username)
  }

  ghost function Consult(ctx: Context, s: Session, url: Url, username: Option<string>):
    (Session, Option<Authentication>)
  {
    if RealmOf(url) == HUGGING_FACE_REALM && ctx.config.huggingFaceToken.Some? then
      (s, Some(Credential(Bearer(ctx.config.huggingFaceToken.value))))
    else
      var signer := SignerFor(ctx.config, url);
      if signer.Some? then (WithSigner(s, signer.value), Some(Signer(signer.value)))
      else
        var found := ExternalLookup(ctx, url, username);
        (s, if found.Some? then Some(Credential(found.value)) else None)
  }

  function FetchKeyFor(ctx: Context, url: Url, username: Option<string>): FetchKey {
    (if ctx.index.Some? then IndexUrl(ctx.index.value.url) else RealmUrl(RealmOf(url)), NewUsername(username))
  }

  function UsernameIn(credentials: Option<Authentication>): Option<string> {
    if credentials.Some? then Username(credentials.value) else None
  }

  datatype Fetched = Fetched(session: Session, result: Result<Option<Authentication>, Failure>)

  /** Fetch once per key; a key already fetched answers from the map. */
  ghost function Fetch(ctx: Context, s: Session, credentials: Option<Authentication>, url: Url): Fetched {
    if HasInvalidEndpoint(ctx.config) then Fetched(s, Err(BadEndpoint))
    else
      var username := UsernameIn(credentials);
      var key := FetchKeyFor(ctx, url, username);
      var s1 := ActAll(s, ctx.world.others(5));
      if key in s1.fetches then Fetched(s1, Ok(s1.fetches[key]))
      else
        var (s2, value) := Consult(ctx, s1, url, username);
        Fetched(WithFetch(s2, key, value), Ok(value))
  }

  // ---------------------------------------------------------------------------
  // Handling a request that carries credentials

  ghost function WithRequestCredentials(ctx: Context, s: Session, auth: Authentication, request: Request): Outcome {
    if IsAuthenticated(auth) then Complete(ctx, s, 0, Some(auth), request)
    else
      var s1 := ActAll(s, ctx.world.others(0));
      var first := if ctx.index.Some? then GetUrl(TablesOf(s1), ctx.index.value.url, Username(auth))
                   else GetRealm(TablesOf(s1), RealmOf(request.url), Username(auth));
      if first.Some? then SendWith(ctx, s1, 0, first.value, request, false)
      else
        var s2 := ActAll(s1, ctx.world.others(1));
        var second := if ctx.index.Some? then GetUrl(TablesOf(s2), ctx.index.value.rootUrl, Username(auth)) else None;
        if second.Some? then SendWith(ctx, s2, 0, second.value, request, false)
        else PasswordElsewhere(ctx, ActAll(s2, ctx.world.others(2)), auth, request)
  }

  ghost function PasswordElsewhere(ctx: Context, s: Session, auth: Authentication, request: Request): Outcome {
    var third := GetUrl(TablesOf(s), request.url, Username(auth));
    if third.Some? then SendWith(ctx, s, 0, third.value, request, false)
    else
      var f := Fetch(ctx, s, Some(auth), request.url);
      match f.result
      case Err(e) => Outcome(f.session, [], [], Failed(e))
      case Ok(Some(found)) => SendWith(ctx, f.session, 0, found, request, true)
      case Ok(None) =>
        if ctx.index.None? then Complete(ctx, f.session, 0, Some(auth), request)
        else
          var s1 := ActAll(f.session, ctx.world.others(6));
          var last := GetRealm(TablesOf(s1), RealmOf(request.url), Username(auth));
          if last.Some? then SendWith(ctx, s1, 0, last.value, request, true)
          else Complete(ctx, s1, 0, Some(auth), request)
  }

  // ---------------------------------------------------------------------------
  // Handling any other request

  function MustAuthenticate(ctx: Context): bool {
    ctx.config.onlyAuthenticated || (ctx.policy.Always? && !ctx.config.dependabot)
  }

  /** Ask the user, once; later calls reuse the answer. */
  function AskUser(s: Session, w: World): (Session, Result<Option<Credentials>, ()>) {
    if s.prompted.Some? then (s, Ok(s.prompted.value))
    else if w.prompt.Err? then (s, w.prompt)
    else (s.(prompted := Some(w.prompt.value)), w.prompt)
  }

  /** Replace incomplete fetched credentials by prompted ones where a prompt applies. */
  function PromptIfNeeded(ctx: Context, s: Session, fetched: Option<Authentication>): Fetched {
    if MustAuthenticate(ctx) && !ctx.policy.Never? && ctx.config.prompt &&
       !(fetched.Some? && IsAuthenticated(fetched.value)) then
      var s1 := ActAll(s, ctx.world.others(7));
      match AskUser(s1, ctx.world)
      case (s2, Err(_)) => Fetched(s2, Err(PromptFailed))
      case (s2, Ok(Some(c))) => Fetched(s2, Ok(Some(Credential(c))))
      case (s2, Ok(None)) => Fetched(s2, Ok(fetched))
    else Fetched(s, Ok(fetched))
  }

  /** The index URL's entry, or else the realm's. */
  ghost function CachedForRetry(ctx: Context, s: Session, username: Option<string>, request: Request):
    (Session, Option<Authentication>)
  {
    var s1 := ActAll(s, ctx.world.others(3));
    var byIndex := if ctx.index.Some? then GetUrl(TablesOf(s1), ctx.index.value.url, username) else None;
    if byIndex.Some? then (s1, byIndex)
    else
      var s2 := ActAll(s1, ctx.world.others(4));
      (s2, GetRealm(TablesOf(s2), RealmOf(request.url), username))
  }

  /** After the first attempt, if any: look in the cache, then outside, and send again. */
  ghost function Retry(
    ctx: Context, s: Session, credentials: Option<Authentication>, request: Request, first: Option<Reply>): Outcome
  {
    var n := if first.Some? then 1 else 0;
    var (s1, cached) := CachedForRetry(ctx, s, UsernameIn(credentials), request);
    var best := if cached.Some? then cached else credentials;
    if best.Some? && IsAuthenticated(best.value) then SendWith(ctx, s1, n, best.value, request, false)
    else RetryOutside(ctx, s1, credentials, best, request, first)
  }

  ghost function RetryOutside(
    ctx: Context, s: Session, credentials: Option<Authentication>, best: Option<Authentication>, request: Request,
    first: Option<Reply>): Outcome
  {
    var n := if first.Some? then 1 else 0;
    var f := Fetch(ctx, s, best, request.url);
    match f.result
    case Err(e) => Outcome(f.session, [], [], Failed(e))
    case Ok(fetched) =>
      var p := PromptIfNeeded(ctx, f.session, fetched);
      match p.result
      case Err(e) => Outcome(p.session, [], [], Failed(e))
      case Ok(Some(found)) => SendWith(ctx, p.session, n, found, request, true)
      case Ok(None) =>
        if best.Some? && UsernameIn(credentials).None? then SendWith(ctx, p.session, n, best.value, request, false)
        else if first.Some? then Outcome(p.session, [], [], Answered(first.value))
        else Outcome(p.session, [], [], Failed(MissingCredentials))
  }

  /** Try without complete credentials unless they are required, then retry on a challenge. */
  ghost function Attempt(ctx: Context, s: Session, credentials: Option<Authentication>, request: Request): Outcome {
    if MustAuthenticate(ctx) then Retry(ctx, s, credentials, request, None)
    else if !request.cloneable then Outcome(s, [], [], Failed(NotCloneable))
    else
      var reply := ctx.world.server(0, request);
      var sent := [Exchange(request, reply)];
      if !Challenges(reply) || ctx.policy.Never? then Outcome(s, sent, [], Answered(reply))
      else
        var r := Retry(ctx, s, credentials, request, Some(reply));
        r.(sent := sent + r.sent)
  }

  ghost function Unauthenticated(ctx: Context, s: Session, request: Request): Outcome {
    var s1 := ActAll(s, ctx.world.others(8));
    var cached := GetUrl(TablesOf(s1), request.url, None);
    if cached.None? then Attempt(ctx, s1, None, request)
    else if !CanAuthenticate(ctx.world, cached.value) then Outcome(s1, [], [], Failed(CannotAuthenticate))
    else
      var attached := request.(header := Attached(cached.value));
      if IsAuthenticated(cached.value) then Complete(ctx, s1, 0, None, attached)
      else Attempt(ctx, s1, cached, attached)
  }

  function ContextFor(config: Config, world: World, url: Url): Context {
    Context(config, world, IndexFor(config.indexes, url), PolicyFor(config.indexes, url))
  }

  /** One call of the middleware. */
  ghost function Handle(config: Config, world: World, s: Session, request: Request): Outcome {
    match FromRequest(request)
    case Err(e) => Outcome(s, [], [], Failed(e))
    case Ok(credentials) =>
      var ctx := ContextFor(config, world, request.url);
      if ctx.policy.Never? then Attempt(ctx, s, None, request)
      else if credentials.Some? then WithRequestCredentials(ctx, s, Credential(credentials.value), request)
      else Unauthenticated(ctx, s, request)
  }
}
