/** What policy Always guarantees about the requests that are sent. */
module MiddlewareAlways {
  import opened Common
  import opened Urls
  import opened Auth
  import opened Cache
  import opened Middleware
  import opened MiddlewareState
  import opened MiddlewareUsers

  /** Complete credentials if asked for, otherwise merely non-empty ones. */
  predicate Enough(complete: bool, auth: Authentication) {
    if complete then IsAuthenticated(auth) else !IsEmpty(auth)
  }

  ghost predicate CarriesEnough(complete: bool, request: Request) {
    exists auth :: Carries(request, auth) && Enough(complete, auth)
  }

  ghost predicate SendsEnough(complete: bool, sent: seq<Exchange>) {
    forall i :: 0 <= i < |sent| ==> CarriesEnough(complete, sent[i].request)
  }

  /** No username-only entry in either table. */
  ghost predicate CompleteTables(t: Tables) {
    && (forall k :: k in t.realms ==> IsAuthenticated(t.realms[k]))
    && (forall k :: k in t.urls ==> IsAuthenticated(t.urls[k]))
  }

  ghost predicate CacheEnough(complete: bool, s: Session) {
    Sound(s) && (complete ==> CompleteTables(TablesOf(s)))
  }

  ghost predicate OthersEnough(complete: bool, w: World) {
    WorldOk(w) &&
    (complete ==> forall n, i :: 0 <= i < |w.others(n)| && w.others(n)[i].FileWrite? ==>
       IsAuthenticated(w.others(n)[i].write.auth))
  }

  /** Complete writes after the first `n` leave complete tables complete. */
  lemma {:induction false} CompleteWritesKeep(ws: seq<Write>, n: nat)
    requires n <= |ws| && CompleteTables(ApplyAll(EMPTY, ws[..n]))
    requires forall i :: n <= i < |ws| ==> IsAuthenticated(ws[i].auth)
    ensures CompleteTables(ApplyAll(EMPTY, ws))
  {
    if n == |ws| {
      assert ws[..n] == ws;
    } else {
      assert Init(ws)[..n] == ws[..n];
      CompleteWritesKeep(Init(ws), n);
    }
  }

  /** Others add complete credentials only. */
  lemma EvolvesKeeps(complete: bool, ctx: Context, url: Url, s: Session, s': Session)
    requires CacheEnough(complete, s) && OthersEnough(complete, ctx.world) && Evolves(ctx, url, s, s')
    ensures CacheEnough(complete, s')
  {
    if complete {
      EvolvesIsTraced(ctx, url, s, s');
      assert s'.writes[..|s.writes|] == s.writes;
      CompleteWritesKeep(s'.writes, |s.writes|);
    }
  }

  /** A call that learns complete credentials adds no incomplete ones. */
  lemma FollowsKeeps(complete: bool, ctx: Context, url: Url, s: Session, o: Outcome)
    requires CacheEnough(complete, s) && OthersEnough(complete, ctx.world)
    requires Follows(ctx, url, s, o) && Sound(o.session)
    requires o.learned != [] ==> IsAuthenticated(o.learned[0].auth)
    ensures CacheEnough(complete, o.session)
  {
    var s1: Session :| Evolves(ctx, url, s, s1) && o.session == s1.(writes := s1.writes + LearnedWrites(o.learned));
    EvolvesKeeps(complete, ctx, url, s, s1);
    if complete {
      forall x | x in LearnedWrites(o.learned) ensures IsAuthenticated(x.auth) {
        WritesOfOne(o.learned[0].url, o.learned[0].auth, x);
      }
      assert o.session.writes[..|s1.writes|] == s1.writes;
      CompleteWritesKeep(o.session.writes, |s1.writes|);
    }
  }

  lemma RealmHitEnough(complete: bool, s: Session, realm: Realm, username: Option<string>)
    requires CacheEnough(complete, s) && GetRealm(TablesOf(s), realm, username).Some?
    ensures Enough(complete, GetRealm(TablesOf(s), realm, username).value)
  {
    NamedEntries(s.writes, (realm, username));
  }

  lemma UrlHitEnough(complete: bool, s: Session, url: Url, username: Option<string>)
    requires CacheEnough(complete, s) && GetUrl(TablesOf(s), url, username).Some?
    ensures Enough(complete, GetUrl(TablesOf(s), url, username).value)
  {
    var i := UrlHitWrite(s.writes, url, username);
    assert Issued(s.writes[i]);
  }

  ghost predicate EnoughOutcome(complete: bool, o: Outcome) {
    SendsEnough(complete, o.sent) && CacheEnough(complete, o.session)
  }

  lemma HeldEnough(
    complete: bool, ctx: Context, base: Session, url: Url, named: Option<string>, auth: Authentication)
    requires CacheEnough(complete, base) && OthersEnough(complete, ctx.world)
    requires Held(ctx, base, url, named, auth, true)
    ensures Enough(complete, auth)
  {
    var s: Session, src: Source :|
      && Supplies(s, ctx, url, src, auth) && ForUser(src, named) && (true ==> IsTable(src))
      && Evolves(ctx, url, base, s);
    EvolvesKeeps(complete, ctx, url, base, s);
    if src.UrlTable? {
      UrlHitEnough(complete, s, src.at, src.user);
    } else {
      RealmHitEnough(complete, s, RealmOf(url), src.user);
    }
  }

  /**
   Under Always, outside Dependabot: every request sent carries non-empty credentials; and if no
   username-only entry is cached, every one carries complete credentials and none is ever added.
   */
  lemma AlwaysSendsEnough(complete: bool, config: Config, world: World, s: Session, request: Request)
    requires PolicyFor(config.indexes, request.url).Always? && !config.dependabot
    requires CacheEnough(complete, s) && OthersEnough(complete, world)
    ensures EnoughOutcome(complete, Handle(config, world, s, request))
  {
    var ctx, o := ContextFor(config, world, request.url), Handle(config, world, s, request);
    var named := NamedUser(config, request);
    var _ := CallIsAllowed(config, world, s, request);
    HandleGood(config, world, s, request);
    FollowsKeeps(complete, ctx, request.url, s, o);
    forall i | 0 <= i < |o.sent| ensures CarriesEnough(complete, o.sent[i].request) {
      var sent := o.sent[i].request;
      if OwnMayGo(ctx, request) && sent.header == request.header {
        var auth := Credential(FromRequest(request).value.value);
        assert Carries(sent, auth) && Enough(complete, auth);
      } else {
        if Held(ctx, s, request.url, named, sent.header.auth, true) {
          HeldEnough(complete, ctx, s, request.url, named, sent.header.auth);
        }
        assert Carries(sent, sent.header.auth) && Enough(complete, sent.header.auth);
      }
    }
  }

  /** The same over every run of calls under Always. */
  lemma {:induction false} AlwaysOverRuns(complete: bool, config: Config, s: Session, calls: seq<Call>, n: nat)
    requires n <= |calls| && !config.dependabot && CacheEnough(complete, s)
    requires forall m :: 0 <= m < |calls| ==>
      PolicyFor(config.indexes, calls[m].request.url).Always? && OthersEnough(complete, calls[m].world)
    ensures CacheEnough(complete, AfterCalls(config, s, calls[..n]))
    ensures n < |calls| ==> SendsEnough(complete, SentBy(config, s, calls, n))
  {
    if n > 0 {
      AlwaysOverRuns(complete, config, s, calls, n - 1);
      assert Init(calls[..n]) == calls[..n - 1] && Last(calls[..n]) == calls[n - 1];
      var call := calls[n - 1];
      AlwaysSendsEnough(complete, config, call.world, AfterCalls(config, s, calls[..n - 1]), call.request);
    }
    if n < |calls| {
      AlwaysSendsEnough(complete, config, calls[n].world, AfterCalls(config, s, calls[..n]), calls[n].request);
    }
  }

  // ---------------------------------------------------------------------------
  // When incomplete credentials are sent all the same

  /** Nothing configured, fetched before or typed in earlier answers for the user. */
  predicate NothingOnRecord(ctx: Context, s: Session, url: Url, username: Option<string>) {
    && FetchFindsNothing(ctx, s, url, username)
    && !(ctx.config.prompt && s.prompted.Some? && s.prompted.value.Some?)
  }

  ghost predicate Incomplete(hit: Option<Authentication>) {
    hit.Some? && !IsAuthenticated(hit.value)
  }

  /** The entry of the index URL, or else of the realm. */
  ghost function RetryEntry(ctx: Context, t: Tables, url: Url): Option<Authentication> {
    var byIndex := if ctx.index.Some? then GetUrl(t, ctx.index.value.url, None) else None;
    if byIndex.Some? then byIndex else GetRealm(t, RealmOf(url), None)
  }

  /** The first entry found for a request that carries credentials without a username. */
  ghost function FirstEntry(ctx: Context, t: Tables, url: Url): Option<Authentication> {
    var first := if ctx.index.Some? then GetUrl(t, ctx.index.value.url, None) else GetRealm(t, RealmOf(url), None);
    var second := if ctx.index.Some? then GetUrl(t, ctx.index.value.rootUrl, None) else None;
    if first.Some? then first else if second.Some? then second else GetUrl(t, url, None)
  }

  /** A username-only entry is what the request is sent with. */
  ghost function UsernameAlone(ctx: Context, s: Session, request: Request): Option<Authentication> {
    var t, url := TablesOf(s), request.url;
    match FromRequest(request)
    case Err(_) => None
    case Ok(Some(c)) =>
      var hit := FirstEntry(ctx, t, url);
      if !IsAuthenticated(Credential(c)) && Username(Credential(c)).None? && Incomplete(hit) then hit else None
    case Ok(None) =>
      var hit := RetryEntry(ctx, t, url);
      if GetUrl(t, url, None).None? && Incomplete(hit) && NothingOnRecord(ctx, s, url, Username(hit.value)) then hit
      else None
  }

  ghost predicate SentComplete(o: Outcome) {
    SendsEnough(true, o.sent)
  }

  /** Credentials that are to be remembered are complete, or nothing is sent. */
  lemma SendComplete(ctx: Context, s: Session, n: nat, auth: Authentication, request: Request, remember: bool)
    requires ctx.policy.Always? && (remember || IsAuthenticated(auth))
    ensures SentComplete(SendWith(ctx, s, n, auth, request, remember))
  {
    var attached := request.(header := Attached(auth));
    assert Carries(attached, auth);
    if IsAuthenticated(auth) { assert CarriesEnough(true, attached); }
  }

  lemma OwnComplete(ctx: Context, s: Session, auth: Authentication, request: Request)
    requires ctx.policy.Always? && Carries(request, auth)
    ensures SentComplete(Complete(ctx, s, 0, Some(auth), request))
  {
    if IsAuthenticated(auth) { assert CarriesEnough(true, request); }
  }

  /** A named lookup yields a password; an unnamed one at least a username. */
  lemma HitKinds(s: Session, url: Url, realm: Realm, username: Option<string>)
    requires Sound(s)
    ensures var hit := GetUrl(TablesOf(s), url, username);
      hit.Some? ==> !IsEmpty(hit.value) && (username.Some? ==> IsAuthenticated(hit.value))
    ensures var hit := GetRealm(TablesOf(s), realm, username);
      hit.Some? ==> !IsEmpty(hit.value) && (username.Some? ==> IsAuthenticated(hit.value))
  {
    if GetUrl(TablesOf(s), url, username).Some? { UrlHitEnough(false, s, url, username); }
    if GetRealm(TablesOf(s), realm, username).Some? { RealmHitEnough(false, s, realm, username); }
  }

  lemma PasswordElsewhereComplete(ctx: Context, s: Session, auth: Authentication, request: Request)
    requires ctx.policy.Always? && Alone(ctx.world) && Sound(s) && Carries(request, auth)
    requires var third := GetUrl(TablesOf(s), request.url, Username(auth)); third.Some? ==> IsAuthenticated(third.value)
    ensures SentComplete(PasswordElsewhere(ctx, s, auth, request))
  {
    var third := GetUrl(TablesOf(s), request.url, Username(auth));
    if third.Some? {
      SendComplete(ctx, s, 0, third.value, request, false);
    } else {
      var f := Fetch(ctx, s, Some(auth), request.url);
      if f.result.Ok? && f.result.value.Some? {
        SendComplete(ctx, f.session, 0, f.result.value.value, request, true);
      } else if f.result.Ok? {
        var last := GetRealm(TablesOf(f.session), RealmOf(request.url), Username(auth));
        OwnComplete(ctx, f.session, auth, request);
        if last.Some? { SendComplete(ctx, f.session, 0, last.value, request, true); }
      }
    }
  }

  lemma WithCredentialsComplete(ctx: Context, s: Session, auth: Authentication, request: Request)
    requires ctx.policy.Always? && Alone(ctx.world) && Sound(s) && Carries(request, auth)
    requires IsAuthenticated(auth) || Username(auth).Some? || !Incomplete(FirstEntry(ctx, TablesOf(s), request.url))
    ensures SentComplete(WithRequestCredentials(ctx, s, auth, request))
  {
    if IsAuthenticated(auth) {
      OwnComplete(ctx, s, auth, request);
    } else {
      var t, user := TablesOf(s), Username(auth);
      HitKinds(s, request.url, RealmOf(request.url), user);
      if ctx.index.Some? {
        HitKinds(s, ctx.index.value.url, RealmOf(request.url), user);
        HitKinds(s, ctx.index.value.rootUrl, RealmOf(request.url), user);
      }
      var first := if ctx.index.Some? then GetUrl(t, ctx.index.value.url, user)
                   else GetRealm(t, RealmOf(request.url), user);
      var second := if ctx.index.Some? then GetUrl(t, ctx.index.value.rootUrl, user) else None;
      if first.Some? {
        SendComplete(ctx, s, 0, first.value, request, false);
      } else if second.Some? {
        SendComplete(ctx, s, 0, second.value, request, false);
      } else {
        PasswordElsewhereComplete(ctx, s, auth, request);
      }
    }
  }

  /** If neither a fetch nor the prompt gives anything, nothing on record does. */
  lemma NothingFound(ctx: Context, s: Session, best: Option<Authentication>, url: Url)
    requires ctx.policy.Always? && MustAuthenticate(ctx) && Alone(ctx.world)
    requires var f := Fetch(ctx, s, best, url);
      f.result.Ok? && PromptIfNeeded(ctx, f.session, f.result.value).result == Ok(None)
    ensures NothingOnRecord(ctx, s, url, UsernameIn(best))
  {
  }

  lemma RetryComplete(ctx: Context, s: Session, credentials: Option<Authentication>, request: Request)
    requires ctx.policy.Always? && MustAuthenticate(ctx) && Alone(ctx.world) && Sound(s)
    requires if credentials.Some? then Username(credentials.value).Some?
             else var hit := RetryEntry(ctx, TablesOf(s), request.url);
               Incomplete(hit) ==> !NothingOnRecord(ctx, s, request.url, Username(hit.value))
    ensures SentComplete(Retry(ctx, s, credentials, request, None))
  {
    var (s1, cached) := CachedForRetry(ctx, s, UsernameIn(credentials), request);
    assert s1 == s;
    var best := if cached.Some? then cached else credentials;
    if best.Some? && IsAuthenticated(best.value) {
      SendComplete(ctx, s, 0, best.value, request, false);
    } else {
      var f := Fetch(ctx, s, best, request.url);
      if f.result.Ok? {
        var p := PromptIfNeeded(ctx, f.session, f.result.value);
        if p.result.Ok? && p.result.value.Some? {
          SendComplete(ctx, p.session, 0, p.result.value.value, request, true);
        } else if p.result.Ok? {
          NothingFound(ctx, s, best, request.url);
        }
      }
    }
  }

  lemma UnauthenticatedComplete(ctx: Context, s: Session, request: Request)
    requires ctx.policy.Always? && !ctx.config.dependabot && Alone(ctx.world) && Sound(s)
    requires FromRequest(request) == Ok(None) && UsernameAlone(ctx, s, request).None?
    ensures SentComplete(Unauthenticated(ctx, s, request))
  {
    var cached := GetUrl(TablesOf(s), request.url, None);
    assert ActAll(s, ctx.world.others(8)) == s;
    if cached.None? {
      RetryComplete(ctx, s, None, request);
    } else {
      HitKinds(s, request.url, RealmOf(request.url), None);
      var attached := request.(header := Attached(cached.value));
      if IsAuthenticated(cached.value) {
        assert Carries(attached, cached.value) && CarriesEnough(true, attached);
      } else {
        RetryComplete(ctx, s, cached, attached);
      }
    }
  }

  /** Incomplete credentials from the tables always print, and do not complete the request. */
  lemma AttachedIsIncomplete(request: Request, auth: Authentication)
    requires FromRequest(request).Ok? && !IsAuthenticated(auth)
    requires FromRequest(request).value.Some? ==> !IsAuthenticated(Credential(FromRequest(request).value.value))
    ensures !CarriesEnough(true, request.(header := Attached(auth)))
  {
  }

  lemma WithCredentialsIncomplete(ctx: Context, s: Session, auth: Authentication, request: Request)
    requires ctx.world == QUIET && Sound(s) && !IsAuthenticated(auth) && Username(auth).None?
    requires Incomplete(FirstEntry(ctx, TablesOf(s), request.url))
    ensures var hit := FirstEntry(ctx, TablesOf(s), request.url).value;
      WithRequestCredentials(ctx, s, auth, request).sent == [Exchange(request.(header := Attached(hit)), Response(200))]
  {
    HitKinds(s, request.url, RealmOf(request.url), None);
    if ctx.index.Some? {
      HitKinds(s, ctx.index.value.url, RealmOf(request.url), None);
      HitKinds(s, ctx.index.value.rootUrl, RealmOf(request.url), None);
    }
  }

  /** Where nothing on record answers and the outside world is quiet, nothing is found. */
  lemma NothingOutside(ctx: Context, s: Session, best: Option<Authentication>, url: Url)
    requires ctx.world == QUIET && NothingOnRecord(ctx, s, url, UsernameIn(best))
    ensures var f := Fetch(ctx, s, best, url);
      f.result == Ok(None) && PromptIfNeeded(ctx, f.session, None).result == Ok(None)
  {
    QuietFetch(ctx, s, best, url);
  }

  lemma RetryIncomplete(ctx: Context, s: Session, request: Request)
    requires ctx.world == QUIET && MustAuthenticate(ctx) && Sound(s)
    requires Incomplete(RetryEntry(ctx, TablesOf(s), request.url))
    requires NothingOnRecord(ctx, s, request.url, Username(RetryEntry(ctx, TablesOf(s), request.url).value))
    ensures var hit := RetryEntry(ctx, TablesOf(s), request.url).value;
      Retry(ctx, s, None, request, None).sent == [Exchange(request.(header := Attached(hit)), Response(200))]
  {
    HitKinds(s, request.url, RealmOf(request.url), None);
    if ctx.index.Some? { HitKinds(s, ctx.index.value.url, RealmOf(request.url), None); }
    var best := RetryEntry(ctx, TablesOf(s), request.url);
    NothingOutside(ctx, s, best, request.url);
    var p := PromptIfNeeded(ctx, Fetch(ctx, s, best, request.url).session, None);
    assert RetryOutside(ctx, s, None, best, request, None) == SendWith(ctx, p.session, 0, best.value, request, false);
  }

  lemma UsernameAloneIsSent(config: Config, s: Session, request: Request)
    requires PolicyFor(config.indexes, request.url).Always? && !config.dependabot && Sound(s)
    requires UsernameAlone(ContextFor(config, QUIET, request.url), s, request).Some?
    ensures var auth := UsernameAlone(ContextFor(config, QUIET, request.url), s, request).value;
      && !IsAuthenticated(auth)
      && Handle(config, QUIET, s, request).sent == [Exchange(request.(header := Attached(auth)), Response(200))]
      && !CarriesEnough(true, request.(header := Attached(auth)))
  {
    var ctx := ContextFor(config, QUIET, request.url);
    AttachedIsIncomplete(request, UsernameAlone(ctx, s, request).value);
    match FromRequest(request)
    case Ok(Some(c)) => WithCredentialsIncomplete(ctx, s, Credential(c), request);
    case Ok(None) => RetryIncomplete(ctx, s, request);
  }

  /**
   Under Always, outside Dependabot, in any sound state: every request sent carries complete credentials,
   whatever the outside world, exactly if the state holds no username-only entry that applies.
   */
  lemma AlwaysIsCompleteExactly(config: Config, s: Session, request: Request)
    requires PolicyFor(config.indexes, request.url).Always? && !config.dependabot && Sound(s)
    ensures (forall world: World :: WorldOk(world) && Alone(world) ==>
               SendsEnough(true, Handle(config, world, s, request).sent))
      <==> UsernameAlone(ContextFor(config, QUIET, request.url), s, request).None?
  {
    if UsernameAlone(ContextFor(config, QUIET, request.url), s, request).Some? {
      UsernameAloneIsSent(config, s, request);
      var sent := Handle(config, QUIET, s, request).sent;
      assert WorldOk(QUIET) && Alone(QUIET) && |sent| == 1 && !CarriesEnough(true, sent[0].request);
    } else {
      forall world: World | WorldOk(world) && Alone(world)
        ensures SendsEnough(true, Handle(config, world, s, request).sent)
      {
        NoUsernameAlone(config, world, s, request);
      }
    }
  }

  lemma NoUsernameAlone(config: Config, world: World, s: Session, request: Request)
    requires PolicyFor(config.indexes, request.url).Always? && !config.dependabot && Sound(s) && Alone(world)
    requires UsernameAlone(ContextFor(config, QUIET, request.url), s, request).None?
    ensures SentComplete(Handle(config, world, s, request))
  {
    var ctx := ContextFor(config, world, request.url);
    assert UsernameAlone(ctx, s, request) == UsernameAlone(ContextFor(config, QUIET, request.url), s, request);
    match FromRequest(request)
    case Err(_) =>
    case Ok(Some(c)) => WithCredentialsComplete(ctx, s, Credential(c), request);
    case Ok(None) => UnauthenticatedComplete(ctx, s, request);
  }

  // ---------------------------------------------------------------------------
  // One such state

  function Page(path: string): Url {
    Url("https", Some("example.org"), None, path, Decoded(""), None, "")
  }

  /** One index under Always and no external sources. */
  const STRICT := Config(
    [Index(Page("/a"), Page("/a"), Always)], false, false, None, None, Unset, Unset, Unset, false, false, false)

  const USER_ONLY := Credential(Basic(Some("user"), None))

  lemma PageKeys()
    ensures TrieKey(Page("/a")).value[1] == "a" && TrieKey(Page("/b")).value[1] == "b"
    ensures |TrieKey(Page("/a")).value| == |TrieKey(Page("/b")).value| == 2
  {
    assert "/a"[1..] == "a" && "/b"[1..] == "b";
    SplitWithoutSeparator("a", '/');
    SplitWithoutSeparator("b", '/');
    assert NonEmpty(["a"]) == ["a"] && NonEmpty(["b"]) == ["b"];
  }

  lemma OtherPageMisses()
    ensures GetUrl(TablesOf(After(Page("/b"), USER_ONLY)), Page("/a"), None).None?
  {
    var ws := After(Page("/b"), USER_ONLY).writes;
    PageKeys();
    if GetUrl(ApplyAll(EMPTY, ws), Page("/a"), None).Some? {
      var i := UrlHitWrite(ws, Page("/a"), None);
      WritesOfOne(Page("/b"), USER_ONLY, ws[i]);
    }
  }

  lemma StrictApplies()
    ensures IndexFor(STRICT.indexes, Page("/a")) == Some(Index(Page("/a"), Page("/a"), Always))
    ensures var ctx := ContextFor(STRICT, QUIET, Page("/a"));
      NothingOnRecord(ctx, After(Page("/b"), USER_ONLY), Page("/a"), Some("user"))
  {
  }

  /** With only `user` cached for one page, a request for another goes out with `user` and no password. */
  lemma UsernameAloneExample()
    ensures var request := Request(Page("/a"), NoHeader, true);
      Handle(STRICT, QUIET, After(Page("/b"), USER_ONLY), request).sent ==
        [Exchange(request.(header := Attached(USER_ONLY)), Response(200))]
  {
    var request, s := Request(Page("/a"), NoHeader, true), After(Page("/b"), USER_ONLY);
    AfterHits(Page("/b"), USER_ONLY, Page("/a"));
    OtherPageMisses();
    StrictApplies();
    assert UsernameAlone(ContextFor(STRICT, QUIET, Page("/a")), s, request) == Some(USER_ONLY);
    UsernameAloneIsSent(STRICT, s, request);
  }
}
