/** Credentials stay within their realm, and learned credentials are put to use. */
module MiddlewareRealms {
  import opened Common
  import opened Urls
  import opened Auth
  import opened Cache
  import opened Middleware
  import opened MiddlewareState
  import opened MiddlewareUsers
  import opened MiddlewareAlways
  import TextStore

  // ---------------------------------------------------------------------------
  // Where the credentials on a request come from

  /** Index URLs are well formed and share the realm of the endpoint they belong to. */
  ghost predicate IndexesOk(indexes: seq<Index>) {
    forall i :: i in indexes ==>
      WellFormed(i.url) && WellFormed(i.rootUrl) && RealmOf(i.url) == RealmOf(i.rootUrl)
  }

  /** An index that covers a URL is in its realm. */
  lemma IndexSharesRealm(index: Index, url: Url)
    requires IsPrefixFor(index, url) && WellFormed(index.rootUrl) && WellFormed(url)
    ensures RealmOf(index.rootUrl) == RealmOf(url)
  {
  }

  /** Written for the realm before the call or by another caller, so not by the call itself. */
  ghost predicate CachedFor(ctx: Context, s: Session, realm: Realm, auth: Authentication) {
    exists x: Write :: (x in s.writes || FromOthers(ctx.world, x)) && x.auth == auth && RealmOf(x.url) == realm
  }

  /** Fetched under a key of this request: before the call, by another caller, or from the external sources. */
  ghost predicate FetchedFor(ctx: Context, s: Session, url: Url, auth: Authentication) {
    exists username: Option<string> ::
      var key := FetchKeyFor(ctx, url, username);
      (key in s.fetches && s.fetches[key] == Some(auth)) || Taken(ctx, url, FinishFetch(key, Some(auth)))
  }

  ghost predicate PromptedFor(ctx: Context, s: Session, url: Url, auth: Authentication) {
    auth.Credential? &&
    (s.prompted == Some(Some(auth.credentials)) || Taken(ctx, url, AnswerPrompt(Some(auth.credentials))))
  }

  /** Where credentials for a request that starts in state `s` may come from. */
  ghost predicate Sourced(ctx: Context, s: Session, url: Url, auth: Authentication) {
    CachedFor(ctx, s, RealmOf(url), auth) || FetchedFor(ctx, s, url, auth) || PromptedFor(ctx, s, url, auth)
  }

  /** Every request kept its header or got credentials with a proper source. */
  ghost predicate SentSourced(ctx: Context, s: Session, sent: seq<Exchange>, url: Url, header: Header) {
    forall i :: 0 <= i < |sent| ==>
      sent[i].request.header == header ||
      (sent[i].request.header.Attached? && Sourced(ctx, s, url, sent[i].request.header.auth))
  }

  /** The state and world in which URLs are as the parser produces them. */
  ghost predicate Tidy(ctx: Context, s: Session, url: Url) {
    && WorldOk(ctx.world) && Sound(s) && AllWellFormed(s.writes) && WellFormed(url)
    && (forall x :: FromOthers(ctx.world, x) ==> WellFormed(x.url))
    && (ctx.index.Some? ==> WellFormed(ctx.index.value.url) && WellFormed(ctx.index.value.rootUrl))
    && (ctx.index.Some? ==> RealmOf(ctx.index.value.url) == RealmOf(ctx.index.value.rootUrl) == RealmOf(url))
  }

  lemma TidyLater(ctx: Context, s: Session, s': Session, url: Url)
    requires Tidy(ctx, s, url) && Evolves(ctx, url, s, s')
    ensures Tidy(ctx, s', url)
  {
    EvolvesIsTraced(ctx, url, s, s');
    forall i | 0 <= i < |s'.writes| ensures WellFormed(s'.writes[i].url) {
      if i < |s.writes| { assert s'.writes[i] == s.writes[i]; }
    }
  }

  /** A table hit stems from a write for the realm of the URL. */
  lemma TableHitOrigin(ctx: Context, s: Session, url: Url, src: Source, auth: Authentication) returns (i: nat)
    requires Tidy(ctx, s, url) && Supplies(s, ctx, url, src, auth) && IsTable(src)
    ensures i < |s.writes| && s.writes[i].auth == auth && RealmOf(s.writes[i].url) == RealmOf(url)
  {
    if src.UrlTable? {
      i := UrlHitOrigin(s.writes, src.at, src.user);
    } else {
      i := RealmHitOrigin(s.writes, RealmOf(url), src.user);
    }
  }

  /** Whatever answers in a later state has a proper source. */
  lemma SuppliedIsSourced(ctx: Context, s: Session, s': Session, url: Url, src: Source, auth: Authentication)
    requires Tidy(ctx, s, url) && Evolves(ctx, url, s, s') && Supplies(s', ctx, url, src, auth)
    ensures Sourced(ctx, s, url, auth)
  {
    EvolvesIsTraced(ctx, url, s, s');
    if IsTable(src) {
      TidyLater(ctx, s, s', url);
      var i := TableHitOrigin(ctx, s', url, src, auth);
      var x := s'.writes[i];
      if i < |s.writes| { assert x == s.writes[i]; }
      assert x in s.writes || FromOthers(ctx.world, x);
    } else if src.FetchedAs? {
      var key := FetchKeyFor(ctx, url, src.user);
      assert key in s.fetches || Taken(ctx, url, FinishFetch(key, s'.fetches[key]));
    }
  }

  lemma HeldIsSourced(
    ctx: Context, base: Session, url: Url, named: Option<string>, auth: Authentication, table: bool)
    requires Tidy(ctx, base, url) && Held(ctx, base, url, named, auth, table)
    ensures Sourced(ctx, base, url, auth)
  {
    var s: Session, src: Source :|
      && Supplies(s, ctx, url, src, auth) && ForUser(src, named) && (table ==> IsTable(src))
      && Evolves(ctx, url, base, s);
    SuppliedIsSourced(ctx, base, s, url, src, auth);
  }

  /**
   Amid any steps of other callers, credentials are only ever attached to a request if they were written
   for the request's own realm before this call or by another caller, were fetched under the request's
   own key, or were typed in by the user.
   */
  lemma CredentialsStayInRealm(config: Config, world: World, s: Session, request: Request)
    requires WorldOk(world) && Sound(s) && AllWellFormed(s.writes) && WellFormed(request.url)
    requires IndexesOk(config.indexes) && forall x :: FromOthers(world, x) ==> WellFormed(x.url)
    ensures SentSourced(ContextFor(config, world, request.url), s, Handle(config, world, s, request).sent,
                        request.url, request.header)
    ensures AllWellFormed(Handle(config, world, s, request).session.writes)
  {
    var ctx, o := ContextFor(config, world, request.url), Handle(config, world, s, request);
    var url, named := request.url, NamedUser(config, request);
    if ctx.index.Some? { IndexSharesRealm(ctx.index.value, url); }
    HandleGood(config, world, s, request);
    forall i | 0 <= i < |o.sent| && o.sent[i].request.header != request.header
      ensures o.sent[i].request.header.Attached? && Sourced(ctx, s, url, o.sent[i].request.header.auth)
    {
      var auth := o.sent[i].request.header.auth;
      HeldIsSourced(ctx, s, url, named, auth, Held(ctx, s, url, named, auth, true));
    }
    AddedWrites(config, world, s, request);
    forall i | 0 <= i < |o.session.writes| ensures WellFormed(o.session.writes[i].url) {
      if i < |s.writes| { assert o.session.writes[i] == s.writes[i]; }
    }
  }

  // ---------------------------------------------------------------------------
  // Learned credentials are used

  /** Once filed, credentials are found from every URL below. */
  lemma FiledIsFound(ws: seq<Write>, filed: Url, auth: Authentication, url: Url)
    requires UrlWrite(filed, auth) in ws && TrieKey(filed).Some? && TrieKey(url).Some?
    requires TrieKey(filed).value <= TrieKey(url).value
    ensures GetUrl(ApplyAll(EMPTY, ws), url, None).Some?
  {
    var key := TrieKey(filed).value;
    FiledIsStored(ws, filed, auth);
    assert TrieKey(url).value[..|key|] == key;
  }

  lemma {:induction false} FiledIsStored(ws: seq<Write>, filed: Url, auth: Authentication)
    requires UrlWrite(filed, auth) in ws && TrieKey(filed).Some?
    ensures TrieKey(filed).value in ApplyAll(EMPTY, ws).urls
  {
    if Last(ws) != UrlWrite(filed, auth) {
      InitAndLast(ws);
      FiledIsStored(Init(ws), filed, auth);
    }
  }

  ghost predicate IsBelow(upper: Url, url: Url) {
    TrieKey(upper).Some? && TrieKey(url).Some? && TrieKey(upper).value <= TrieKey(url).value
  }

  predicate NeedsCredentials(config: Config, request: Request) {
    FromRequest(request) == Ok(None) && !PolicyFor(config.indexes, request.url).Never?
  }

  /** The call finds complete credentials for its URL in the cache, sends them once and consults nobody. */
  ghost predicate SentFromCache(config: Config, s: Session, call: Call) {
    var s' := ActAll(s, call.world.others(8));
    var hit := GetUrl(TablesOf(s'), call.request.url, None);
    && hit.Some? && IsAuthenticated(hit.value)
    && var sent := call.request.(header := Attached(hit.value));
       Handle(config, call.world, s, call.request) ==
         if CanAuthenticate(call.world, hit.value) then
           Outcome(s', [Exchange(sent, call.world.server(0, sent))], [], Answered(call.world.server(0, sent)))
         else Outcome(s', [], [], Failed(CannotAuthenticate))
  }

  /** Where nobody caches incomplete credentials, what was filed for a URL serves every request at or below it. */
  lemma FiledIsReused(config: Config, s: Session, filed: Url, auth: Authentication, call: Call)
    requires CacheEnough(true, s) && OthersEnough(true, call.world) && UrlWrite(filed, auth) in s.writes
    requires IsBelow(filed, call.request.url) && NeedsCredentials(config, call.request)
    ensures SentFromCache(config, s, call)
  {
    var ctx, url := ContextFor(config, call.world, call.request.url), call.request.url;
    var s' := ActAll(s, call.world.others(8));
    OthersEvolve(ctx, url, s, 8);
    EvolvesKeeps(true, ctx, url, s, s');
    EvolvesIsTraced(ctx, url, s, s');
    var i :| 0 <= i < |s.writes| && s.writes[i] == UrlWrite(filed, auth);
    assert s'.writes[i] == UrlWrite(filed, auth);
    FiledIsFound(s'.writes, filed, auth, url);
    UrlHitEnough(true, s', url, None);
  }

  // ---------------------------------------------------------------------------
  // Fetched credentials are shared within a realm

  /** Without an index, what was fetched for one URL answers every URL of the realm, whatever its path. */
  lemma FetchIsShared(
    config: Config, first: World, second: World, s: Session, credentials: Option<Authentication>, url: Url, other: Url)
    requires IndexFor(config.indexes, url).None? && IndexFor(config.indexes, other).None?
    requires RealmOf(url) == RealmOf(other) && Alone(second) && !HasInvalidEndpoint(config)
    ensures var f := Fetch(ContextFor(config, first, url), s, credentials, url);
      Fetch(ContextFor(config, second, other), f.session, credentials, other) == Fetched(f.session, f.result)
  {
    assert ActAll(Fetch(ContextFor(config, first, url), s, credentials, url).session, second.others(5)) ==
      Fetch(ContextFor(config, first, url), s, credentials, url).session;
  }

  /** The text store files `c` under a service of the realm whose path leads to `url`. */
  ghost predicate ServiceCovers(w: World, c: Credentials, url: Url) {
    && w.store.Some?
    && exists k ::
         && k in w.store.value.entries && w.store.value.entries[k] == c
         && RealmOf(k.0) == RealmOf(url) && IsPathPrefix(k.0.path, url.path)
  }

  /** What the text store answers for a URL is filed under a service that covers it. */
  lemma StoreAnswerCovers(w: World, url: Url, username: Option<string>)
    requires StoreLookup(w, url, username).Some?
    ensures ServiceCovers(w, StoreLookup(w, url, username).value, url)
  {
    var m, order := w.store.value.entries, w.store.value.order;
    if TextStore.Exact(m, url, username).Some? {
      var k := (url, NewUsername(username));
      assert k in m && IsPathPrefix(k.0.path, url.path);
    } else {
      var k: TextStore.Key :| TextStore.IsLongest(m, url, username, k) &&
        TextStore.ScanAnswer(m, order, url, username) == Ok(Some(m[k]));
    }
  }

  /** A world whose text store holds one service, `url` itself. */
  function OneService(url: Url, username: Option<string>): World {
    QUIET.(store := Some(Stored(map[(url, username) := Basic(username, Some("p"))], [(url, username)])))
  }

  lemma OneServiceAnswers(url: Url, username: Option<string>)
    ensures WorldOk(OneService(url, username))
    ensures StoreLookup(OneService(url, username), url, username) == Some(Basic(username, Some("p")))
  {
    var m, k := map[(url, username) := Basic(username, Some("p"))], (url, username);
    assert TextStore.Matches(k, url, username) && TextStore.IsLongest(m, url, username, k);
    assert !TextStore.MeetsTie([k], url, username);
  }

  /**
   Credentials the text store gave for `url` belong to a service that also covers another URL of the
   realm, in every world, exactly if the path of `url` leads to that of the other.
   */
  lemma SharedFetchIsCoveredExactly(url: Url, other: Url, username: Option<string>)
    requires RealmOf(url) == RealmOf(other)
    ensures (forall world: World :: WorldOk(world) && StoreLookup(world, url, username).Some? ==>
               ServiceCovers(world, StoreLookup(world, url, username).value, other))
      <==> IsPathPrefix(url.path, other.path)
  {
    if IsPathPrefix(url.path, other.path) {
      forall world: World | WorldOk(world) && StoreLookup(world, url, username).Some?
        ensures ServiceCovers(world, StoreLookup(world, url, username).value, other)
      {
        StoreAnswerCovers(world, url, username);
        var c, m := StoreLookup(world, url, username).value, world.store.value.entries;
        var k :| k in m && m[k] == c && RealmOf(k.0) == RealmOf(url) && IsPathPrefix(k.0.path, url.path);
        PathPrefixTransitive(k.0.path, url.path, other.path);
      }
    } else {
      OneServiceAnswers(url, username);
      assert !ServiceCovers(OneService(url, username), Basic(username, Some("p")), other);
    }
  }

  /** A password stored for one page is fetched again, from the shared result, for a sibling it does not cover. */
  lemma SiblingExample()
    ensures var (config, user) := (STRICT.(indexes := []), Some(USER_ONLY));
      var world := OneService(Page("/a"), Some("user"));
      var f := Fetch(ContextFor(config, world, Page("/a")), Session([], map[], [], [], None), user, Page("/a"));
      && f.result == Ok(Some(Credential(Basic(Some("user"), Some("p")))))
      && Fetch(ContextFor(config, world, Page("/b")), f.session, user, Page("/b")) == Fetched(f.session, f.result)
      && !ServiceCovers(world, Basic(Some("user"), Some("p")), Page("/b"))
  {
    var config, world, user := STRICT.(indexes := []), OneService(Page("/a"), Some("user")), Some(USER_ONLY);
    OneServiceAnswers(Page("/a"), Some("user"));
    FetchIsShared(config, world, world, Session([], map[], [], [], None), user, Page("/a"), Page("/b"));
  }
}
