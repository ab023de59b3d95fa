/** Whose credentials a call sends, and where the cache learned them. */
module MiddlewareUsers {
  import opened Common
  import opened Urls
  import opened Auth
  import opened Headers
  import opened Cache
  import opened Middleware
  import opened MiddlewareState

  // ---------------------------------------------------------------------------
  // A request that names a user

  /** Each request went out with its original header, if that may be, or with no other user's Basic credentials. */
  ghost predicate KeepsUser(sent: seq<Exchange>, header: Header, u: string, own: bool) {
    forall i :: 0 <= i < |sent| ==>
      (own && sent[i].request.header == header) ||
      (sent[i].request.header.Attached? && SameUser(sent[i].request.header.auth, u))
  }

  lemma HitSameUser(s: Session, url: Url, realm: Realm, u: string)
    requires Sound(s)
    ensures var hit := GetRealm(TablesOf(s), realm, Some(u)); hit.Some? ==> SameUser(hit.value, u)
    ensures var hit := GetUrl(TablesOf(s), url, Some(u)); hit.Some? ==> SameUser(hit.value, u)
  {
    if GetRealm(TablesOf(s), realm, Some(u)).Some? { NamedEntries(s.writes, (realm, Some(u))); }
  }

  /** Every source asked for a user answers for that user. */
  lemma HeldSameUser(ctx: Context, base: Session, url: Url, auth: Authentication, table: bool, u: string)
    requires Held(ctx, base, url, Some(u), auth, table) && u != ""
    ensures SameUser(auth, u)
  {
    var s: Session, src: Source :|
      && Supplies(s, ctx, url, src, auth) && ForUser(src, Some(u)) && (table ==> IsTable(src))
      && Evolves(ctx, url, base, s);
    HitSameUser(s, if src.UrlTable? then src.at else url, RealmOf(url), u);
  }

  /** The one configuration in which a request that names a user is not treated as such. */
  predicate IgnoresRequestUser(config: Config, url: Url) {
    config.onlyAuthenticated && PolicyFor(config.indexes, url).Never?
  }

  /** Under any steps of other callers, a request that names a user is never sent as another. */
  lemma NeverSentAsAnother(
    config: Config, world: World, s: Session, request: Request, u: string, password: Option<string>)
    requires WorldOk(world) && Sound(s)
    requires FromRequest(request) == Ok(Some(Basic(Some(u), password))) && u != ""
    requires !IgnoresRequestUser(config, request.url)
    ensures KeepsUser(Handle(config, world, s, request).sent, request.header, u,
                      OwnMayGo(ContextFor(config, world, request.url), request))
  {
    var ctx, o := ContextFor(config, world, request.url), Handle(config, world, s, request);
    if !ctx.policy.Never? {
      HandleGood(config, world, s, request);
      forall i | 0 <= i < |o.sent|
        ensures (OwnMayGo(ctx, request) && o.sent[i].request.header == request.header) ||
                (o.sent[i].request.header.Attached? && SameUser(o.sent[i].request.header.auth, u))
      {
        var h := o.sent[i].request.header;
        if !(OwnMayGo(ctx, request) && h == request.header) {
          HeldSameUser(ctx, s, request.url, h.auth, Held(ctx, s, request.url, Some(u), h.auth, true), u);
        }
      }
    }
  }

  function NoPassword(url: Url, username: string): Option<string> {
    None
  }

  /** A world of our own: nothing is stored outside, and the server accepts every request. */
  const QUIET := World(
    (n, request) => Response(200), None, NoPassword, NoPassword, (url: Url) => None, Ok(None),
    p => true, (n: nat) => [])

  /** A shared state in which `auth` was cached for `url` and nothing else happened. */
  function After(url: Url, auth: Authentication): Session {
    Session(WritesOf(url, auth), map[], [], [], None)
  }

  lemma AfterIsSound(url: Url, auth: Authentication)
    ensures Sound(After(url, auth))
  {
  }

  /** Where only `auth` was ever written, every hit is `auth`. */
  lemma UniformHits(s: Session, auth: Authentication, url: Url, other: Url)
    requires Sound(s) && forall x :: x in s.writes ==> x.auth == auth
    requires RealmWrite(url, false, auth) in s.writes
    ensures GetRealm(TablesOf(s), RealmOf(url), None) == Some(auth)
    ensures var hit := GetUrl(TablesOf(s), other, None); hit.None? || hit == Some(auth)
  {
    WrittenIsThere(s.writes, RealmWrite(url, false, auth));
    var i := RealmHitOrigin(s.writes, RealmOf(url), None);
    assert s.writes[i] in s.writes;
    if GetUrl(TablesOf(s), other, None).Some? {
      var j := UrlHitWrite(s.writes, other, None);
      assert s.writes[j] in s.writes;
    }
  }

  lemma AfterHits(url: Url, auth: Authentication, other: Url)
    requires !IsEmpty(auth)
    ensures Sound(After(url, auth))
    ensures GetRealm(TablesOf(After(url, auth)), RealmOf(url), None) == Some(auth)
    ensures var hit := GetUrl(TablesOf(After(url, auth)), other, None); hit.None? || hit == Some(auth)
  {
    AfterIsSound(url, auth);
    forall x | x in After(url, auth).writes ensures x.auth == auth {
      WritesOfOne(url, auth, x);
    }
    UniformHits(After(url, auth), auth, url, other);
  }

  /** In that configuration cached credentials replace the request's own. */
  lemma CachedReplaces(config: Config, request: Request, s: Session, auth: Authentication)
    requires FromRequest(request).Ok? && IgnoresRequestUser(config, request.url)
    requires auth.Credential? && auth.credentials.Basic? && IsAuthenticated(auth)
    requires GetRealm(TablesOf(s), RealmOf(request.url), None) == Some(auth)
    requires var hit := GetUrl(TablesOf(s), IndexFor(config.indexes, request.url).value.url, None);
      hit.None? || hit == Some(auth)
    ensures Handle(config, QUIET, s, request) ==
      Outcome(s, [Exchange(request.(header := Attached(auth)), Response(200))], [], Answered(Response(200)))
  {
  }

  lemma SentAsAnother(config: Config, request: Request, u: string) returns (s: Session, auth: Authentication)
    requires FromRequest(request).Ok? && IgnoresRequestUser(config, request.url)
    ensures Sound(s) && !SameUser(auth, u) && Attached(auth) != request.header
    ensures Handle(config, QUIET, s, request) ==
      Outcome(s, [Exchange(request.(header := Attached(auth)), Response(200))], [], Answered(Response(200)))
  {
    auth := Credential(Basic(Some(u + "x"), Some("p")));
    if request.header == Attached(auth) { auth := Credential(Basic(Some(u + "x"), Some("q"))); }
    assert |u + "x"| == |u| + 1;
    s := After(request.url, auth);
    AfterHits(request.url, auth, IndexFor(config.indexes, request.url).value.url);
    CachedReplaces(config, request, s, auth);
  }

  /** The user is kept in every sound state and world exactly outside that configuration. */
  lemma UserIsKeptExactly(config: Config, request: Request, u: string, password: Option<string>)
    requires FromRequest(request) == Ok(Some(Basic(Some(u), password))) && u != ""
    ensures !IgnoresRequestUser(config, request.url) <==>
      forall world: World, s: Session :: WorldOk(world) && Sound(s) ==>
        KeepsUser(Handle(config, world, s, request).sent, request.header, u, true)
  {
    if IgnoresRequestUser(config, request.url) {
      var s, auth := SentAsAnother(config, request, u);
      assert WorldOk(QUIET);
      var sent := Handle(config, QUIET, s, request).sent;
      assert sent[0].request.header == Attached(auth);
      assert !KeepsUser(sent, request.header, u, true);
    } else {
      forall world: World, s: Session | WorldOk(world) && Sound(s)
        ensures KeepsUser(Handle(config, world, s, request).sent, request.header, u, true)
      {
        NeverSentAsAnother(config, world, s, request, u, password);
      }
    }
  }

  // ---------------------------------------------------------------------------
  // A request whose header and URL disagree

  ghost predicate SentOnlyAs(sent: seq<Exchange>, u: string) {
    forall i :: 0 <= i < |sent| && sent[i].request.header.Attached? ==> SameUser(sent[i].request.header.auth, u)
  }

  /** The header names another user than `u`, whom the URL names. */
  ghost predicate HeaderNamesAnother(request: Request, u: string) {
    request.header.Attached? && !SameUser(request.header.auth, u)
  }

  /** Nothing configured or fetched before answers for the user. */
  predicate FetchFindsNothing(ctx: Context, s: Session, url: Url, username: Option<string>) {
    var key := FetchKeyFor(ctx, url, username);
    && !HasInvalidEndpoint(ctx.config)
    && (if key in s.fetches then s.fetches[key].None?
        else !(RealmOf(url) == HUGGING_FACE_REALM && ctx.config.huggingFaceToken.Some?) &&
             SignerFor(ctx.config, url).None? && NetrcLookup(ctx.config, url, username).None?)
  }

  /** A fetch that finds nothing in some world had nothing on record. */
  lemma FoundNothing(ctx: Context, s: Session, credentials: Option<Authentication>, url: Url)
    requires Alone(ctx.world) && Fetch(ctx, s, credentials, url).result == Ok(None)
    ensures FetchFindsNothing(ctx, s, url, UsernameIn(credentials))
  {
    assert ActAll(s, ctx.world.others(5)) == s;
  }

  /** Where nothing is on record and the outside world is quiet, nothing is found. */
  lemma QuietFetch(ctx: Context, s: Session, credentials: Option<Authentication>, url: Url)
    requires ctx.world == QUIET && FetchFindsNothing(ctx, s, url, UsernameIn(credentials))
    ensures Fetch(ctx, s, credentials, url).result == Ok(None)
    ensures Fetch(ctx, s, credentials, url).session.writes == s.writes
    ensures Fetch(ctx, s, credentials, url).session.prompted == s.prompted
  {
    var username := UsernameIn(credentials);
    assert ActAll(s, ctx.world.others(5)) == s;
    assert ExternalLookup(ctx, url, username) == NetrcLookup(ctx.config, url, username);
  }

  /** No table has a password of the user for the URL, its realm or its index. */
  ghost predicate NoEntry(ctx: Context, t: Tables, url: Url, username: Option<string>) {
    && GetUrl(t, url, username).None? && GetRealm(t, RealmOf(url), username).None?
    && (ctx.index.Some? ==>
          GetUrl(t, ctx.index.value.url, username).None? && GetUrl(t, ctx.index.value.rootUrl, username).None?)
  }

  /** In state `s` the request, which carries `auth`, goes out with its own header if the outside world is quiet. */
  ghost predicate OwnGoes(ctx: Context, s: Session, request: Request, auth: Authentication) {
    if ctx.policy.Never? then PlainMayGo(ctx, request)
    else
      || IsAuthenticated(auth)
      || (!ctx.policy.Always? && FetchFindsNothing(ctx, s, request.url, Username(auth)) &&
          NoEntry(ctx, TablesOf(s), request.url, Username(auth)))
  }

  lemma OwnGoesOut(config: Config, s: Session, request: Request, c: Credentials)
    requires FromRequest(request) == Ok(Some(c))
    requires OwnGoes(ContextFor(config, QUIET, request.url), s, request, Credential(c))
    ensures Handle(config, QUIET, s, request).sent == [Exchange(request, Response(200))]
  {
    var ctx, auth := ContextFor(config, QUIET, request.url), Credential(c);
    if !ctx.policy.Never? && !IsAuthenticated(auth) {
      QuietFetch(ctx, s, Some(auth), request.url);
      var f := Fetch(ctx, s, Some(auth), request.url);
      assert PasswordElsewhere(ctx, s, auth, request) == Complete(ctx, f.session, 0, Some(auth), request);
    }
  }

  lemma AloneFetch(ctx: Context, s: Session, credentials: Option<Authentication>, url: Url)
    requires Alone(ctx.world) && WorldOk(ctx.world) && Sound(s)
    ensures var f := Fetch(ctx, s, credentials, url);
      && TablesOf(f.session) == TablesOf(s)
      && (f.result.Ok? ==> FetchOk(FetchKeyFor(ctx, url, UsernameIn(credentials)), f.result.value))
  {
    var f := Fetch(ctx, s, credentials, url);
    FetchEvolves(ctx, s, credentials, url);
    EvolvesIsTraced(ctx, url, s, f.session);
    AloneWritesNothing(ctx, url, s, f.session);
  }

  lemma ElsewhereSentAs(ctx: Context, s: Session, auth: Authentication, request: Request, u: string)
    requires Alone(ctx.world) && WorldOk(ctx.world) && Sound(s) && Username(auth) == Some(u) && u != ""
    requires !IsAuthenticated(auth)
    requires ctx.policy.Always? || !FetchFindsNothing(ctx, s, request.url, Some(u)) ||
             GetUrl(TablesOf(s), request.url, Some(u)).Some? ||
             (ctx.index.Some? && GetRealm(TablesOf(s), RealmOf(request.url), Some(u)).Some?)
    ensures SentOnlyAs(PasswordElsewhere(ctx, s, auth, request).sent, u)
  {
    HitSameUser(s, request.url, RealmOf(request.url), u);
    if GetUrl(TablesOf(s), request.url, Some(u)).None? {
      var f := Fetch(ctx, s, Some(auth), request.url);
      AloneFetch(ctx, s, Some(auth), request.url);
      if f.result == Ok(None) { FoundNothing(ctx, s, Some(auth), request.url); }
    }
  }

  /** Where the request's own header stays back, only the named user's credentials are attached. */
  lemma OwnStaysBack(ctx: Context, s: Session, auth: Authentication, request: Request, u: string)
    requires Alone(ctx.world) && WorldOk(ctx.world) && Sound(s) && Username(auth) == Some(u) && u != ""
    requires !ctx.policy.Never? && !OwnGoes(ctx, s, request, auth)
    ensures SentOnlyAs(WithRequestCredentials(ctx, s, auth, request).sent, u)
  {
    var target := if ctx.index.Some? then ctx.index.value.url else request.url;
    var root := if ctx.index.Some? then ctx.index.value.rootUrl else request.url;
    HitSameUser(s, target, RealmOf(request.url), u);
    HitSameUser(s, root, RealmOf(request.url), u);
    var t := TablesOf(s);
    var first := if ctx.index.Some? then GetUrl(t, target, Some(u)) else GetRealm(t, RealmOf(request.url), Some(u));
    if first.None? && (ctx.index.None? || GetUrl(t, root, Some(u)).None?) {
      ElsewhereSentAs(ctx, s, auth, request, u);
    }
  }

  /**
   In every sound state: only the named user's Basic credentials are in any header sent, whatever the
   outside world, exactly if the request's own header is not another user's or does not go out.
   */
  lemma SentOnlyAsUserExactly(config: Config, s: Session, request: Request, u: string, password: Option<string>)
    requires Sound(s) && !IgnoresRequestUser(config, request.url)
    requires FromRequest(request) == Ok(Some(Basic(Some(u), password))) && u != ""
    ensures (forall world: World :: WorldOk(world) && Alone(world) ==>
               SentOnlyAs(Handle(config, world, s, request).sent, u))
      <==> !(HeaderNamesAnother(request, u) &&
             OwnGoes(ContextFor(config, QUIET, request.url), s, request, Credential(Basic(Some(u), password))))
  {
    var quiet, auth := ContextFor(config, QUIET, request.url), Credential(Basic(Some(u), password));
    if HeaderNamesAnother(request, u) && OwnGoes(quiet, s, request, auth) {
      OwnGoesOut(config, s, request, auth.credentials);
      assert WorldOk(QUIET) && Alone(QUIET);
      assert Handle(config, QUIET, s, request).sent[0].request.header == request.header;
    } else {
      forall world: World | WorldOk(world) && Alone(world)
        ensures SentOnlyAs(Handle(config, world, s, request).sent, u)
      {
        var ctx := ContextFor(config, world, request.url);
        assert OwnGoes(ctx, s, request, auth) == OwnGoes(quiet, s, request, auth);
        if !HeaderNamesAnother(request, u) {
          NeverSentAsAnother(config, world, s, request, u, password);
        } else if !ctx.policy.Never? {
          OwnStaysBack(ctx, s, auth, request, u);
        }
      }
    }
  }

  // ---------------------------------------------------------------------------
  // The user on the wire

  /** What a server reads from the header names `u`. */
  ghost predicate ReadAs(c: Credentials, u: string) {
    && ToHeaderValue(c).Ok?
    && exists password :: FromHeaderValue(ToHeaderValue(c).value) == Recognized(Basic(Some(u), password))
  }

  /** A server reads the user that was meant exactly if the name has no colon. */
  lemma WireUserExactly(u: string, password: Option<string>)
    requires u != ""
    ensures ReadAs(Basic(Some(u), password), u) <==> ':' !in u
  {
    var c := Basic(Some(u), password);
    HeaderPrints(c);
    HeaderRoundTrip(c);
    if ':' in u {
      assert |SplitOnce(u).value.0| < |u|;
    } else {
      assert NormalForm(c) == Basic(Some(u), NormalForm(c).password);
    }
  }

  /** Basic credentials attached to a request that names `u` are read as `u` exactly if `u` has no colon. */
  lemma SentUserOnTheWire(
    config: Config, world: World, s: Session, request: Request, u: string, password: Option<string>, i: nat)
    requires WorldOk(world) && Sound(s) && !IgnoresRequestUser(config, request.url)
    requires FromRequest(request) == Ok(Some(Basic(Some(u), password))) && u != ""
    requires i < |Handle(config, world, s, request).sent|
    ensures var h := Handle(config, world, s, request).sent[i].request.header;
      h != request.header && h.Attached? && h.auth.Credential? && h.auth.credentials.Basic? ==>
        (ReadAs(h.auth.credentials, u) <==> ':' !in u)
  {
    NeverSentAsAnother(config, world, s, request, u, password);
    var h := Handle(config, world, s, request).sent[i].request.header;
    if h != request.header && h.Attached? && h.auth.Credential? && h.auth.credentials.Basic? {
      WireUserExactly(u, h.auth.credentials.password);
    }
  }

  // ---------------------------------------------------------------------------
  // Policy Never

  /** Without `onlyAuthenticated`, one unchanged request is sent and nothing shared is touched. */
  lemma NeverIsTransparent(config: Config, world: World, s: Session, request: Request)
    requires PolicyFor(config.indexes, request.url).Never? && !config.onlyAuthenticated
    requires FromRequest(request).Ok? && request.cloneable
    ensures Handle(config, world, s, request) ==
      Outcome(s, [Exchange(request, world.server(0, request))], [], Answered(world.server(0, request)))
  {
  }

  /**
   Under Never a call is bound to fail exactly if its URL or header cannot be read, or the request
   cannot be cloned for a first attempt; credentials on the request are not what makes it fail.
   */
  lemma NeverErrsExactly(config: Config, request: Request)
    requires PolicyFor(config.indexes, request.url).Never?
    ensures (forall world: World, s: Session :: WorldOk(world) && Sound(s) ==>
               Handle(config, world, s, request).verdict.Failed?)
      <==> FromRequest(request).Err? || (!config.onlyAuthenticated && !request.cloneable)
  {
    if FromRequest(request).Ok? && config.onlyAuthenticated {
      var s, auth := SentAsAnother(config, request, "");
      assert WorldOk(QUIET) && Handle(config, QUIET, s, request).verdict.Answered?;
    } else if FromRequest(request).Ok? && request.cloneable {
      var s := Session([], map[], [], [], None);
      NeverIsTransparent(config, QUIET, s, request);
      assert WorldOk(QUIET) && Sound(s) && Handle(config, QUIET, s, request).verdict.Answered?;
    }
  }

  // ---------------------------------------------------------------------------
  // Provenance

  datatype Call = Call(request: Request, world: World)

  /** The shared state after a sequence of calls. */
  ghost function AfterCalls(config: Config, s: Session, calls: seq<Call>): Session {
    if calls == [] then s
    else Handle(config, Last(calls).world, AfterCalls(config, s, Init(calls)), Last(calls).request).session
  }

  ghost function SentBy(config: Config, s: Session, calls: seq<Call>, n: nat): seq<Exchange>
    requires n < |calls|
  {
    Handle(config, calls[n].world, AfterCalls(config, s, calls[..n]), calls[n].request).sent
  }

  /** The write stems from a successful exchange, in one of the calls, that carried the credentials to that URL. */
  ghost predicate Earned(config: Config, s: Session, calls: seq<Call>, x: Write, n: int, i: int) {
    && 0 <= n < |calls| && 0 <= i < |SentBy(config, s, calls, n)|
    && var e := SentBy(config, s, calls, n)[i];
       e.request.url == x.url == calls[n].request.url && Carries(e.request, x.auth) && Succeeds(e.reply)
  }

  ghost predicate Justified(config: Config, s: Session, calls: seq<Call>, x: Write) {
    || x in s.writes
    || (exists n :: 0 <= n < |calls| && FromOthers(calls[n].world, x))
    || (exists n, i :: Earned(config, s, calls, x, n, i))
  }

  lemma JustifiedLater(config: Config, s: Session, calls: seq<Call>, x: Write)
    requires calls != [] && Justified(config, s, Init(calls), x)
    ensures Justified(config, s, calls, x)
  {
    if n :| 0 <= n < |Init(calls)| && FromOthers(Init(calls)[n].world, x) {
      assert FromOthers(calls[n].world, x);
    } else if x !in s.writes {
      var n, i :| Earned(config, s, Init(calls), x, n, i);
      assert Init(calls)[..n] == calls[..n];
      assert Earned(config, s, calls, x, n, i);
    }
  }

  /** The last call of a run adds only justified writes. */
  lemma LastCallIsJustified(config: Config, s: Session, calls: seq<Call>, x: Write)
    requires calls != [] && Sound(AfterCalls(config, s, Init(calls))) && WorldOk(Last(calls).world)
    requires x in AfterCalls(config, s, calls).writes && x !in AfterCalls(config, s, Init(calls)).writes
    ensures Justified(config, s, calls, x)
  {
    var before, call, n := AfterCalls(config, s, Init(calls)), Last(calls), |calls| - 1;
    var o := Handle(config, call.world, before, call.request);
    AddedWrite(config, call.world, before, call.request, x);
    assert calls[..n] == Init(calls) && SentBy(config, s, calls, n) == o.sent;
    if FromOthers(call.world, x) {
      assert FromOthers(calls[n].world, x);
    } else {
      assert Earned(config, s, calls, x, n, |o.sent| - 1);
    }
  }

  /** Over every run, each cache write was there before, made by another caller, or earned. */
  lemma {:induction false} WritesAreJustified(config: Config, s: Session, calls: seq<Call>)
    requires Sound(s) && forall n :: 0 <= n < |calls| ==> WorldOk(calls[n].world)
    ensures Sound(AfterCalls(config, s, calls))
    ensures forall x :: x in AfterCalls(config, s, calls).writes ==> Justified(config, s, calls, x)
  {
    if calls != [] {
      var before, call := AfterCalls(config, s, Init(calls)), Last(calls);
      WritesAreJustified(config, s, Init(calls));
      var _ := CallIsAllowed(config, call.world, before, call.request);
      forall x | x in AfterCalls(config, s, calls).writes ensures Justified(config, s, calls, x) {
        if x in before.writes {
          JustifiedLater(config, s, calls, x);
        } else {
          LastCallIsJustified(config, s, calls, x);
        }
      }
    }
  }

  /** Over every run, no call that names a user sends another user's Basic credentials. */
  lemma RunKeepsUsers(config: Config, s: Session, calls: seq<Call>, n: nat, u: string, password: Option<string>)
    requires Sound(s) && n < |calls| && forall m :: 0 <= m < |calls| ==> WorldOk(calls[m].world)
    requires FromRequest(calls[n].request) == Ok(Some(Basic(Some(u), password))) && u != ""
    requires !IgnoresRequestUser(config, calls[n].request.url)
    ensures KeepsUser(SentBy(config, s, calls, n), calls[n].request.header, u, true)
  {
    WritesAreJustified(config, s, calls[..n]);
    NeverSentAsAnother(config, calls[n].world, AfterCalls(config, s, calls[..n]), calls[n].request, u, password);
  }

  /** The URLs of a call, its own and those of others' writes, are as the parser produces them. */
  ghost predicate UrlsOk(call: Call) {
    WellFormed(call.request.url) && forall x :: FromOthers(call.world, x) ==> WellFormed(x.url)
  }

  /** Every cache hit after any run was written for the realm it is used in, and that write is justified. */
  lemma HitsAreJustified(config: Config, s: Session, calls: seq<Call>, url: Url, username: Option<string>)
    requires Sound(s) && AllWellFormed(s.writes) && WellFormed(url)
    requires forall n :: 0 <= n < |calls| ==> WorldOk(calls[n].world) && UrlsOk(calls[n])
    ensures var hit := GetRealm(TablesOf(AfterCalls(config, s, calls)), RealmOf(url), username);
      hit.Some? ==>
        exists x: Write :: x.auth == hit.value && RealmOf(x.url) == RealmOf(url) && Justified(config, s, calls, x)
    ensures var hit := GetUrl(TablesOf(AfterCalls(config, s, calls)), url, username);
      hit.Some? ==>
        exists x: Write :: x.auth == hit.value && RealmOf(x.url) == RealmOf(url) && Justified(config, s, calls, x)
  {
    var ws := AfterCalls(config, s, calls).writes;
    WritesAreJustified(config, s, calls);
    forall i | 0 <= i < |ws| ensures WellFormed(ws[i].url) {
      assert Justified(config, s, calls, ws[i]);
    }
    if GetRealm(ApplyAll(EMPTY, ws), RealmOf(url), username).Some? {
      var i := RealmHitOrigin(ws, RealmOf(url), username);
      assert ws[i] in ws;
    }
    if GetUrl(ApplyAll(EMPTY, ws), url, username).Some? {
      var i := UrlHitOrigin(ws, url, username);
      assert ws[i] in ws;
    }
  }

  /** A call all of whose replies are errors remembers nothing: whatever the cache gains is others'. */
  lemma ErrorsTeachNothing(config: Config, world: World, s: Session, request: Request)
    requires WorldOk(world) && Sound(s)
    requires forall i :: 0 <= i < |Handle(config, world, s, request).sent| ==>
      !Succeeds(Handle(config, world, s, request).sent[i].reply)
    ensures var ws := Handle(config, world, s, request).session.writes;
      s.writes <= ws && forall i :: |s.writes| <= i < |ws| ==> FromOthers(world, ws[i])
    ensures Alone(world) ==> TablesOf(Handle(config, world, s, request).session) == TablesOf(s)
  {
    HandleGood(config, world, s, request);
    AddedWrites(config, world, s, request);
    assert s.writes + [] == s.writes;
  }

  // ---------------------------------------------------------------------------
  // Calls that run at the same time

  /** A call and the shared state it started in. */
  datatype Running = Running(start: Session, call: Call)

  ghost function OutcomeOf(config: Config, r: Running): Outcome {
    Handle(config, r.call.world, r.start, r.call.request)
  }

  ghost predicate LearnedBy(config: Config, r: Running, x: Write) {
    x in LearnedWrites(OutcomeOf(config, r).learned)
  }

  /** Whatever a call starts with or sees others write is seeded or written by a call of the family. */
  ghost predicate ClosedFamily(config: Config, seed: seq<Write>, family: seq<Running>) {
    forall i :: 0 <= i < |family| ==>
      && Sound(family[i].start) && WorldOk(family[i].call.world)
      && forall x :: x in family[i].start.writes || FromOthers(family[i].call.world, x) ==>
           x in seed || exists j :: 0 <= j < |family| && LearnedBy(config, family[j], x)
  }

  lemma LearnedIsEarned(config: Config, r: Running, x: Write)
    requires Sound(r.start) && WorldOk(r.call.world) && LearnedBy(config, r, x)
    ensures EarnedBy(OutcomeOf(config, r).sent, r.call.request.url, x)
  {
    var o := OutcomeOf(config, r);
    HandleGood(config, r.call.world, r.start, r.call.request);
    WritesOfOne(o.learned[0].url, o.learned[0].auth, x);
  }

  /** However calls interleave, every write any of them ends with is seeded or earned by one of their own exchanges. */
  lemma FamilyWritesAreEarned(config: Config, seed: seq<Write>, family: seq<Running>, i: nat, x: Write)
    requires ClosedFamily(config, seed, family) && i < |family| && x in OutcomeOf(config, family[i]).session.writes
    ensures x in seed || exists j ::
      0 <= j < |family| && EarnedBy(OutcomeOf(config, family[j]).sent, family[j].call.request.url, x)
  {
    var r := family[i];
    if x !in r.start.writes { AddedWrite(config, r.call.world, r.start, r.call.request, x); }
    if x in r.start.writes || FromOthers(r.call.world, x) {
      if x !in seed {
        var j :| 0 <= j < |family| && LearnedBy(config, family[j], x);
        LearnedIsEarned(config, family[j], x);
      }
    }
  }
}
