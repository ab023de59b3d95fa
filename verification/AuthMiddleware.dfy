/** The middleware object: the shared tables changed in place, proved against `Middleware`. */
module AuthMiddleware {
  import opened Common
  import opened Urls
  import opened Auth
  import opened Cache
  import opened Middleware
  import opened MiddlewareState
  import opened MiddlewareUsers
  import TextStore

  /** The iteration order of the text store lists its entries. */
  ghost predicate StoreIsListed(w: World) {
    w.store.Some? ==> TextStore.Enumerates(w.store.value.order, w.store.value.entries)
  }

  /** What one call did, in terms of the state before and after and the requests sent in between. */
  ghost predicate CallKept(
    config: Config, world: World, s: Session, s': Session, sent: seq<Exchange>, request: Request)
  {
    && Sound(s') && Sends(world, sent, request.url, 0)
    && s.writes <= s'.writes
    && (forall i :: |s.writes| <= i < |s'.writes| ==>
          FromOthers(world, s'.writes[i]) || EarnedBy(sent, request.url, s'.writes[i]))
    && (!IgnoresRequestUser(config, request.url) ==>
          forall u, password | FromRequest(request) == Ok(Some(Basic(Some(u), password))) && u != "" ::
            KeepsUser(sent, request.header, u, true))
  }

  lemma HandleKeeps(config: Config, world: World, s: Session, request: Request)
    requires WorldOk(world) && Sound(s)
    ensures var o := Handle(config, world, s, request); CallKept(config, world, s, o.session, o.sent, request)
  {
    var o := Handle(config, world, s, request);
    var _ := CallIsAllowed(config, world, s, request);
    HandleGood(config, world, s, request);
    AddedWrites(config, world, s, request);
    if !IgnoresRequestUser(config, request.url) {
      forall u, password | FromRequest(request) == Ok(Some(Basic(Some(u), password))) && u != ""
        ensures KeepsUser(o.sent, request.header, u, true)
      {
        NeverSentAsAnother(config, world, s, request, u, password);
      }
    }
  }

  class AuthMiddleware {
    const config: Config
    const cache: CredentialsCache
    var fetches: map<FetchKey, Option<Authentication>>
    var signers: seq<Provider>
    var prompted: Option<Option<Credentials>>
    /** Every cache write so far. */
    ghost var writes: seq<Write>
    /** The keys for which external sources were consulted. */
    ghost var consulted: seq<FetchKey>
    /** Every request sent so far, with its reply. */
    ghost var trace: seq<Exchange>

    ghost predicate Valid()
      reads this, cache, cache.urls
    {
      cache.Valid() && cache.View() == ApplyAll(EMPTY, writes)
    }

    ghost function View(): Session
      reads this
    {
      Session(writes, fetches, consulted, signers, prompted)
    }

    constructor (config: Config)
      ensures Valid() && fresh(cache) && fresh(cache.urls) && this.config == config
      ensures View() == Session([], map[], [], [], None) && trace == []
    {
      this.config := config;
      cache := new CredentialsCache();
      fetches, signers, prompted := map[], [], None;
      writes, consulted, trace := [], [], [];
    }

    /** One step of another caller. */
    method Step(a: Action)
      requires Valid()
      modifies this`fetches, this`signers, this`prompted, this`writes, this`consulted, cache`realms, cache.urls
      ensures Valid() && View() == Act(old(View()), a)
    {
      match a
      case FileWrite(w) =>
        assert Init(writes + [w]) == writes;
        match w {
          case RealmWrite(_, _, auth) => var _ := cache.InsertRealm(KeyOf(w), auth);
          case UrlWrite(url, auth) => cache.urls.Insert(url, auth);
        }
        writes := writes + [w];
      case FinishFetch(k, v) =>
        if k !in fetches { Done(k, v); }
      case AddSigner(p) => EnsureSigner(p);
      case AnswerPrompt(answer) =>
        if prompted.None? { prompted := Some(answer); }
    }

    /** Other callers run before this call next looks at the shared state. */
    method Yield(others: seq<Action>)
      requires Valid()
      modifies this`fetches, this`signers, this`prompted, this`writes, this`consulted, cache`realms, cache.urls
      ensures Valid() && View() == ActAll(old(View()), others)
    {
      for i := 0 to |others|
        invariant Valid() && View() == ActAll(old(View()), others[..i])
      {
        assert Init(others[..i + 1]) == others[..i];
        Step(others[i]);
      }
      assert others[..|others|] == others;
    }

    method Done(key: FetchKey, value: Option<Authentication>)
      modifies this`fetches, this`consulted
      ensures View() == WithFetch(old(View()), key, value)
    {
      fetches := fetches[key := value];
      consulted := consulted + [key];
    }

    /** Create the provider's signer unless that was done before. */
    method EnsureSigner(p: Provider)
      modifies this`signers
      ensures View() == WithSigner(old(View()), p)
    {
      if p !in signers { signers := signers + [p]; }
    }

    method Remember(url: Url, auth: Authentication)
      requires Valid()
      modifies this`writes, cache`realms, cache.urls
      ensures Valid() && View() == old(View()).(writes := old(writes) + WritesOf(url, auth))
    {
      ApplyAppend(EMPTY, writes, WritesOf(url, auth));
      cache.Insert(url, auth);
      writes := writes + WritesOf(url, auth);
    }

    method CompleteRequest(ctx: Context, n: nat, credentials: Option<Authentication>, request: Request)
      returns (verdict: Verdict)
      requires Valid()
      modifies this, cache`realms, cache.urls
      ensures Valid()
      ensures var o := Complete(ctx, old(View()), n, credentials, request);
        View() == o.session && trace == old(trace) + o.sent && verdict == o.verdict
    {
      if credentials.None? {
        var reply := ctx.world.server(n, request);
        trace := trace + [Exchange(request, reply)];
        return Answered(reply);
      }
      if ctx.policy.Always? && !IsAuthenticated(credentials.value) {
        assert trace + [] == trace;
        return Failed(IncompleteCredentials);
      }
      var reply := ctx.world.server(n, request);
      trace := trace + [Exchange(request, reply)];
      if Succeeds(reply) {
        Yield(ctx.world.others(9));
        Remember(request.url, credentials.value);
      }
      return Answered(reply);
    }

    method Send(ctx: Context, n: nat, auth: Authentication, request: Request, remember: bool) returns (verdict: Verdict)
      requires Valid()
      modifies this, cache`realms, cache.urls
      ensures Valid()
      ensures var o := SendWith(ctx, old(View()), n, auth, request, remember);
        View() == o.session && trace == old(trace) + o.sent && verdict == o.verdict
    {
      if !CanAuthenticate(ctx.world, auth) {
        assert trace + [] == trace;
        return Failed(CannotAuthenticate);
      }
      verdict := CompleteRequest(ctx, n, if remember then Some(auth) else None, request.(header := Attached(auth)));
    }

    method LookupExternally(ctx: Context, url: Url, username: Option<string>) returns (found: Option<Credentials>)
      requires StoreIsListed(ctx.world)
      ensures found == ExternalLookup(ctx, url, username)
    {
      found := NetrcLookup(ctx.config, url, username);
      if found.Some? { return; }
      if ctx.world.store.Some? {
        var store := ctx.world.store.value;
        var answer := TextStore.GetCredentials(store.entries, store.order, url, username);
        if answer.Ok? && answer.value.Some? { return answer.value; }
      }
      found := NativeLookup(ctx, url, username);
      if found.Some? { return; }
      found := KeyringLookup(ctx, url, username);
    }

    /** Every path that registers the key also completes it. */
    method FetchCredentials(ctx: Context, credentials: Option<Authentication>, url: Url)
      returns (result: Result<Option<Authentication>, Failure>)
      requires Valid() && StoreIsListed(ctx.world)
      modifies this`fetches, this`signers, this`prompted, this`writes, this`consulted, cache`realms, cache.urls
      ensures Valid()
      ensures Fetched(View(), result) == Fetch(ctx, old(View()), credentials, url)
      ensures result.Ok? ==>
        var key := FetchKeyFor(ctx, url, UsernameIn(credentials)); key in fetches && fetches[key] == result.value
    {
      if ctx.config.s3.Invalid? { return Err(BadEndpoint); }
      if ctx.config.gcs.Invalid? { return Err(BadEndpoint); }
      if ctx.config.azure.Invalid? { return Err(BadEndpoint); }
      var username := UsernameIn(credentials);
      var key := FetchKeyFor(ctx, url, username);
      Yield(ctx.world.others(5));
      if key in fetches { return Ok(fetches[key]); }
      if RealmOf(url) == HUGGING_FACE_REALM && ctx.config.huggingFaceToken.Some? {
        result := Ok(Some(Credential(Bearer(ctx.config.huggingFaceToken.value))));
        Done(key, result.value);
        return;
      }
      var signer := SignerFor(ctx.config, url);
      if signer.Some? {
        EnsureSigner(signer.value);
        result := Ok(Some(Signer(signer.value)));
        Done(key, result.value);
        return;
      }
      var found := LookupExternally(ctx, url, username);
      result := Ok(if found.Some? then Some(Credential(found.value)) else None);
      Done(key, result.value);
    }

    method FindPasswordElsewhere(ctx: Context, auth: Authentication, request: Request) returns (verdict: Verdict)
      requires Valid() && StoreIsListed(ctx.world)
      modifies this, cache`realms, cache.urls
      ensures Valid()
      ensures var o := PasswordElsewhere(ctx, old(View()), auth, request);
        View() == o.session && trace == old(trace) + o.sent && verdict == o.verdict
    {
      var third := cache.FindUrl(request.url, Username(auth));
      if third.Some? {
        verdict := Send(ctx, 0, third.value, request, false);
        return;
      }
      var fetched := FetchCredentials(ctx, Some(auth), request.url);
      match fetched
      case Err(e) =>
        assert trace + [] == trace;
        return Failed(e);
      case Ok(Some(found)) => verdict := Send(ctx, 0, found, request, true);
      case Ok(None) =>
        if ctx.index.Some? {
          Yield(ctx.world.others(6));
          var last := cache.FindRealm(RealmOf(request.url), Username(auth));
          if last.Some? {
            verdict := Send(ctx, 0, last.value, request, true);
            return;
          }
        }
        verdict := CompleteRequest(ctx, 0, Some(auth), request);
    }

    /** The index URL if there is an index, otherwise the realm. */
    method FindFirst(ctx: Context, auth: Authentication, request: Request) returns (found: Option<Authentication>)
      requires Valid()
      modifies this`fetches, this`signers, this`prompted, this`writes, this`consulted, cache`realms, cache.urls
      ensures Valid() && View() == ActAll(old(View()), ctx.world.others(0))
      ensures found == if ctx.index.Some? then GetUrl(TablesOf(View()), ctx.index.value.url, Username(auth))
                       else GetRealm(TablesOf(View()), RealmOf(request.url), Username(auth))
    {
      Yield(ctx.world.others(0));
      if ctx.index.Some? {
        found := cache.FindUrl(ctx.index.value.url, Username(auth));
      } else {
        found := cache.FindRealm(RealmOf(request.url), Username(auth));
      }
    }

    method CompleteWithRequestCredentials(ctx: Context, auth: Authentication, request: Request)
      returns (verdict: Verdict)
      requires Valid() && StoreIsListed(ctx.world)
      modifies this, cache`realms, cache.urls
      ensures Valid()
      ensures var o := WithRequestCredentials(ctx, old(View()), auth, request);
        View() == o.session && trace == old(trace) + o.sent && verdict == o.verdict
    {
      if IsAuthenticated(auth) {
        verdict := CompleteRequest(ctx, 0, Some(auth), request);
        return;
      }
      var found := FindFirst(ctx, auth, request);
      if found.Some? {
        verdict := Send(ctx, 0, found.value, request, false);
        return;
      }
      Yield(ctx.world.others(1));
      if ctx.index.Some? {
        found := cache.FindUrl(ctx.index.value.rootUrl, Username(auth));
        if found.Some? {
          verdict := Send(ctx, 0, found.value, request, false);
          return;
        }
      }
      Yield(ctx.world.others(2));
      verdict := FindPasswordElsewhere(ctx, auth, request);
    }

    method PromptUser(ctx: Context, fetched: Option<Authentication>)
      returns (result: Result<Option<Authentication>, Failure>)
      requires Valid()
      modifies this`fetches, this`signers, this`prompted, this`writes, this`consulted, cache`realms, cache.urls
      ensures Valid()
      ensures Fetched(View(), result) == PromptIfNeeded(ctx, old(View()), fetched)
    {
      result := Ok(fetched);
      if MustAuthenticate(ctx) && !ctx.policy.Never? && ctx.config.prompt &&
         !(fetched.Some? && IsAuthenticated(fetched.value))
      {
        Yield(ctx.world.others(7));
        if prompted.None? {
          if ctx.world.prompt.Err? { return Err(PromptFailed); }
          prompted := Some(ctx.world.prompt.value);
        }
        if prompted.value.Some? { return Ok(Some(Credential(prompted.value.value))); }
      }
    }

    method RetryFromOutside(
      ctx: Context, credentials: Option<Authentication>, best: Option<Authentication>, request: Request,
      first: Option<Reply>) returns (verdict: Verdict)
      requires Valid() && StoreIsListed(ctx.world)
      modifies this, cache`realms, cache.urls
      ensures Valid()
      ensures var o := RetryOutside(ctx, old(View()), credentials, best, request, first);
        View() == o.session && trace == old(trace) + o.sent && verdict == o.verdict
    {
      var n := if first.Some? then 1 else 0;
      assert trace + [] == trace;
      var fetched := FetchCredentials(ctx, best, request.url);
      if fetched.Err? { return Failed(fetched.error); }
      fetched := PromptUser(ctx, fetched.value);
      if fetched.Err? { return Failed(fetched.error); }
      if fetched.value.Some? {
        verdict := Send(ctx, n, fetched.value.value, request, true);
        return;
      }
      if best.Some? && UsernameIn(credentials).None? {
        verdict := Send(ctx, n, best.value, request, false);
        return;
      }
      return if first.Some? then Answered(first.value) else Failed(MissingCredentials);
    }

    /** The index URL if there is an index, then the realm. */
    method FindForRetry(ctx: Context, username: Option<string>, request: Request)
      returns (found: Option<Authentication>)
      requires Valid()
      modifies this`fetches, this`signers, this`prompted, this`writes, this`consulted, cache`realms, cache.urls
      ensures Valid()
      ensures (View(), found) == CachedForRetry(ctx, old(View()), username, request)
    {
      Yield(ctx.world.others(3));
      if ctx.index.Some? {
        found := cache.FindUrl(ctx.index.value.url, username);
        if found.Some? { return; }
      }
      Yield(ctx.world.others(4));
      found := cache.FindRealm(RealmOf(request.url), username);
    }

    method RetryRequest(ctx: Context, credentials: Option<Authentication>, request: Request, first: Option<Reply>)
      returns (verdict: Verdict)
      requires Valid() && StoreIsListed(ctx.world)
      modifies this, cache`realms, cache.urls
      ensures Valid()
      ensures var o := Retry(ctx, old(View()), credentials, request, first);
        View() == o.session && trace == old(trace) + o.sent && verdict == o.verdict
    {
      var n := if first.Some? then 1 else 0;
      var best := FindForRetry(ctx, UsernameIn(credentials), request);
      if best.None? { best := credentials; }
      if best.Some? && IsAuthenticated(best.value) {
        verdict := Send(ctx, n, best.value, request, false);
      } else {
        verdict := RetryFromOutside(ctx, credentials, best, request, first);
      }
    }

    method AttemptRequest(ctx: Context, credentials: Option<Authentication>, request: Request)
      returns (verdict: Verdict)
      requires Valid() && StoreIsListed(ctx.world)
      modifies this, cache`realms, cache.urls
      ensures Valid()
      ensures var o := Attempt(ctx, old(View()), credentials, request);
        View() == o.session && trace == old(trace) + o.sent && verdict == o.verdict
    {
      if MustAuthenticate(ctx) {
        verdict := RetryRequest(ctx, credentials, request, None);
        return;
      }
      if !request.cloneable {
        assert trace + [] == trace;
        return Failed(NotCloneable);
      }
      var reply := SendPlain(ctx, request);
      if !Challenges(reply) || ctx.policy.Never? { return Answered(reply); }
      ghost var r := Retry(ctx, old(View()), credentials, request, Some(reply));
      verdict := RetryRequest(ctx, credentials, request, Some(reply));
      Associative(old(trace), [Exchange(request, reply)], r.sent);
    }

    method SendPlain(ctx: Context, request: Request) returns (reply: Reply)
      requires Valid()
      modifies this`trace
      ensures reply == ctx.world.server(0, request) && trace == old(trace) + [Exchange(request, reply)]
    {
      reply := ctx.world.server(0, request);
      trace := trace + [Exchange(request, reply)];
    }

    method HandleUnauthenticated(ctx: Context, request: Request) returns (verdict: Verdict)
      requires Valid() && StoreIsListed(ctx.world)
      modifies this, cache`realms, cache.urls
      ensures Valid()
      ensures var o := Unauthenticated(ctx, old(View()), request);
        View() == o.session && trace == old(trace) + o.sent && verdict == o.verdict
    {
      Yield(ctx.world.others(8));
      var cached := cache.FindUrl(request.url, None);
      if cached.None? {
        verdict := AttemptRequest(ctx, None, request);
        return;
      }
      if !CanAuthenticate(ctx.world, cached.value) {
        assert trace + [] == trace;
        return Failed(CannotAuthenticate);
      }
      var attached := request.(header := Attached(cached.value));
      if IsAuthenticated(cached.value) {
        verdict := CompleteRequest(ctx, 0, None, attached);
      } else {
        verdict := AttemptRequest(ctx, cached, attached);
      }
    }

    /** One call of the middleware, from the credentials on the request to the verdict. */
    method HandleRequest(world: World, request: Request) returns (verdict: Verdict)
      requires Valid()
      requires StoreIsListed(world)
      modifies this, cache`realms, cache.urls
      ensures Valid()
      ensures var o := Handle(config, world, old(View()), request);
        View() == o.session && trace == old(trace) + o.sent && verdict == o.verdict
      ensures WorldOk(world) && Sound(old(View())) ==>
        CallKept(config, world, old(View()), View(), trace[|old(trace)|..], request)
    {
      if WorldOk(world) && Sound(View()) { HandleKeeps(config, world, View(), request); }
      var credentials := FromRequest(request);
      if credentials.Err? {
        assert trace + [] == trace;
        return Failed(credentials.error);
      }
      var ctx := ContextFor(config, world, request.url);
      if ctx.policy.Never? {
        verdict := AttemptRequest(ctx, None, request);
      } else if credentials.value.Some? {
        verdict := CompleteWithRequestCredentials(ctx, Credential(credentials.value.value), request);
      } else {
        verdict := HandleUnauthenticated(ctx, request);
      }
    }
  }
}
