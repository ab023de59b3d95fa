/** What every call keeps about the shared state, and what it sends. */
module MiddlewareState {
  import opened Common
  import opened Urls
  import opened Auth
  import opened Cache
  import opened Middleware
  import TextStore

  // ---------------------------------------------------------------------------
  // The invariant of the shared state

  ghost predicate SameUser(auth: Authentication, u: string) {
    auth.Credential? && auth.credentials.Basic? ==> Username(auth) == Some(u)
  }

  /** A fetch for a named user never finished with another user's Basic credentials. */
  ghost predicate FetchOk(key: FetchKey, value: Option<Authentication>) {
    key.1.Some? && value.Some? ==> SameUser(value.value, key.1.value)
  }

  ghost predicate Sound(s: Session) {
    && AllIssued(s.writes)
    && (forall k :: k in s.fetches ==> FetchOk(k, s.fetches[k]))
    && Distinct(s.consulted) && (forall k :: k in s.consulted <==> k in s.fetches)
    && Distinct(s.signers)
  }

  /** The steps callers may take; `CallIsAllowed` shows that a call takes no others. */
  ghost predicate Allowed(a: Action) {
    match a
    case FileWrite(w) => Issued(w)
    case FinishFetch(k, v) => FetchOk(k, v)
    case _ => true
  }

  ghost predicate WorldOk(w: World) {
    && (forall n, i :: 0 <= i < |w.others(n)| ==> Allowed(w.others(n)[i]))
    && (w.store.Some? ==> TextStore.Consistent(w.store.value.entries))
  }

  ghost predicate OthersTake(w: World, a: Action) {
    exists n, i :: 0 <= i < |w.others(n)| && w.others(n)[i] == a
  }

  ghost predicate FromOthers(w: World, write: Write) {
    OthersTake(w, FileWrite(write))
  }

  /** No other caller takes a step during this call. */
  ghost predicate Alone(w: World) {
    forall n :: w.others(n) == []
  }

  lemma ActSound(s: Session, a: Action)
    requires Sound(s) && Allowed(a)
    ensures Sound(Act(s, a))
  {
  }

  lemma {:induction false} ActAllSound(s: Session, actions: seq<Action>)
    requires Sound(s) && forall i :: 0 <= i < |actions| ==> Allowed(actions[i])
    ensures Sound(ActAll(s, actions))
  {
    if actions != [] {
      ActAllSound(s, Init(actions));
      ActSound(ActAll(s, Init(actions)), Last(actions));
    }
  }

  lemma {:induction false} ActAllAppend(s: Session, a: seq<Action>, b: seq<Action>)
    ensures ActAll(s, a + b) == ActAll(ActAll(s, a), b)
  {
    if b == [] {
      assert a + b == a;
    } else {
      assert Init(a + b) == a + Init(b);
      ActAllAppend(s, a, Init(b));
    }
  }

  // ---------------------------------------------------------------------------
  // How the shared state changes before a request is sent

  /** `value` is what the external sources say for `key` on behalf of a request for `url`. */
  ghost predicate Consulted(ctx: Context, url: Url, key: FetchKey, value: Option<Authentication>) {
    exists username: Option<string>, s: Session ::
      key == FetchKeyFor(ctx, url, username) && value == Consult(ctx, s, url, username).1
  }

  /** A call finishes fetches, creates the signer of its URL and keeps the answer to the prompt. */
  ghost predicate OwnAction(ctx: Context, url: Url, a: Action) {
    match a
    case FileWrite(_) => false
    case FinishFetch(k, v) => Consulted(ctx, url, k, v)
    case AddSigner(p) => SignerFor(ctx.config, url) == Some(p)
    case AnswerPrompt(answer) => ctx.world.prompt == Ok(answer)
  }

  ghost predicate Taken(ctx: Context, url: Url, a: Action) {
    OwnAction(ctx, url, a) || OthersTake(ctx.world, a)
  }

  ghost predicate AllTaken(ctx: Context, url: Url, actions: seq<Action>) {
    forall i :: 0 <= i < |actions| ==> Taken(ctx, url, actions[i])
  }

  /** `s'` is sound and reached from `s` by steps of this call and of others. */
  ghost predicate Evolves(ctx: Context, url: Url, s: Session, s': Session) {
    Sound(s') && exists actions :: AllTaken(ctx, url, actions) && ActAll(s, actions) == s'
  }

  lemma EvolvesReflexive(ctx: Context, url: Url, s: Session)
    requires Sound(s)
    ensures Evolves(ctx, url, s, s)
  {
    assert AllTaken(ctx, url, []) && ActAll(s, []) == s;
  }

  lemma EvolvesTransitive(ctx: Context, url: Url, s: Session, s1: Session, s2: Session)
    requires Evolves(ctx, url, s, s1) && Evolves(ctx, url, s1, s2)
    ensures Evolves(ctx, url, s, s2)
  {
    var a :| AllTaken(ctx, url, a) && ActAll(s, a) == s1;
    var b :| AllTaken(ctx, url, b) && ActAll(s1, b) == s2;
    ActAllAppend(s, a, b);
    assert AllTaken(ctx, url, a + b);
  }

  lemma OthersEvolve(ctx: Context, url: Url, s: Session, n: nat)
    requires Sound(s) && WorldOk(ctx.world)
    ensures Evolves(ctx, url, s, ActAll(s, ctx.world.others(n)))
  {
    var actions := ctx.world.others(n);
    ActAllSound(s, actions);
    assert AllTaken(ctx, url, actions);
  }

  lemma ActEvolves(ctx: Context, url: Url, s: Session, a: Action)
    requires Sound(s) && Allowed(a) && Taken(ctx, url, a)
    ensures Evolves(ctx, url, s, Act(s, a))
  {
    ActSound(s, a);
    assert Init([a]) == [] && ActAll(s, [a]) == Act(s, a) && AllTaken(ctx, url, [a]);
  }

  /** What that says about each part of the state. */
  ghost predicate Traced(ctx: Context, url: Url, s: Session, s': Session) {
    && s.writes <= s'.writes
    && (forall i :: |s.writes| <= i < |s'.writes| ==> FromOthers(ctx.world, s'.writes[i]))
    && (forall k :: k in s.fetches ==> k in s'.fetches && s'.fetches[k] == s.fetches[k])
    && (forall k :: k in s'.fetches && k !in s.fetches ==> Taken(ctx, url, FinishFetch(k, s'.fetches[k])))
    && (s'.prompted != s.prompted ==>
          s.prompted.None? && s'.prompted.Some? && Taken(ctx, url, AnswerPrompt(s'.prompted.value)))
  }

  lemma TracedStep(ctx: Context, url: Url, s: Session, s1: Session, a: Action)
    requires Traced(ctx, url, s, s1) && Taken(ctx, url, a)
    ensures Traced(ctx, url, s, Act(s1, a))
  {
  }

  lemma {:induction false} ActionsAreTraced(ctx: Context, url: Url, s: Session, actions: seq<Action>)
    requires AllTaken(ctx, url, actions)
    ensures Traced(ctx, url, s, ActAll(s, actions))
  {
    if actions != [] {
      ActionsAreTraced(ctx, url, s, Init(actions));
      TracedStep(ctx, url, s, ActAll(s, Init(actions)), Last(actions));
    }
  }

  lemma EvolvesIsTraced(ctx: Context, url: Url, s: Session, s': Session)
    requires Evolves(ctx, url, s, s')
    ensures Traced(ctx, url, s, s')
  {
    var actions :| AllTaken(ctx, url, actions) && ActAll(s, actions) == s';
    ActionsAreTraced(ctx, url, s, actions);
  }

  // ---------------------------------------------------------------------------
  // Fetching

  lemma ExternalSameUser(ctx: Context, url: Url, u: string)
    requires WorldOk(ctx.world) && u != ""
    requires ExternalLookup(ctx, url, Some(u)).Some?
    ensures SameUser(Credential(ExternalLookup(ctx, url, Some(u)).value), u)
  {
  }

  lemma {:induction false} ConsultOk(ctx: Context, s: Session, url: Url, username: Option<string>)
    requires WorldOk(ctx.world)
    ensures FetchOk(FetchKeyFor(ctx, url, username), Consult(ctx, s, url, username).1)
  {
    var key := FetchKeyFor(ctx, url, username);
    if key.1.Some? && ExternalLookup(ctx, url, username).Some? {
      ExternalSameUser(ctx, url, key.1.value);
    }
  }

  /** Consulting external sources at most creates the signer of the URL. */
  lemma ConsultEvolves(ctx: Context, s: Session, url: Url, username: Option<string>)
    requires Sound(s)
    ensures Evolves(ctx, url, s, Consult(ctx, s, url, username).0)
    ensures Consult(ctx, s, url, username).0.fetches == s.fetches
  {
    var s1, signer := Consult(ctx, s, url, username).0, SignerFor(ctx.config, url);
    if s1 == s {
      EvolvesReflexive(ctx, url, s);
    } else {
      ActEvolves(ctx, url, s, AddSigner(signer.value));
    }
  }

  /** A fetch keeps the state sound, and its result is filed for the user it was for. */
  lemma FetchEvolves(ctx: Context, s: Session, credentials: Option<Authentication>, url: Url)
    requires WorldOk(ctx.world) && Sound(s)
    ensures var f, key := Fetch(ctx, s, credentials, url), FetchKeyFor(ctx, url, UsernameIn(credentials));
      && Evolves(ctx, url, s, f.session)
      && (f.result.Ok? ==> key in f.session.fetches && f.session.fetches[key] == f.result.value)
      && (f.result.Ok? ==> FetchOk(key, f.result.value))
  {
    if HasInvalidEndpoint(ctx.config) {
      EvolvesReflexive(ctx, url, s);
    } else {
      var username := UsernameIn(credentials);
      var key := FetchKeyFor(ctx, url, username);
      var s1 := ActAll(s, ctx.world.others(5));
      OthersEvolve(ctx, url, s, 5);
      if key !in s1.fetches {
        var (s2, value) := Consult(ctx, s1, url, username);
        ConsultOk(ctx, s1, url, username);
        ConsultEvolves(ctx, s1, url, username);
        EvolvesTransitive(ctx, url, s, s1, s2);
        assert Consulted(ctx, url, key, value);
        ActEvolves(ctx, url, s2, FinishFetch(key, value));
        EvolvesTransitive(ctx, url, s, s2, WithFetch(s2, key, value));
      }
    }
  }

  lemma AskEvolves(ctx: Context, url: Url, s: Session)
    requires Sound(s)
    ensures Evolves(ctx, url, s, AskUser(s, ctx.world).0)
  {
    if AskUser(s, ctx.world).0 == s {
      EvolvesReflexive(ctx, url, s);
    } else {
      ActEvolves(ctx, url, s, AnswerPrompt(ctx.world.prompt.value));
    }
  }

  lemma PromptEvolves(ctx: Context, url: Url, s: Session, fetched: Option<Authentication>)
    requires WorldOk(ctx.world) && Sound(s)
    ensures Evolves(ctx, url, s, PromptIfNeeded(ctx, s, fetched).session)
  {
    var s' := PromptIfNeeded(ctx, s, fetched).session;
    var s1 := ActAll(s, ctx.world.others(7));
    if s' == s {
      EvolvesReflexive(ctx, url, s);
    } else {
      assert s' == AskUser(s1, ctx.world).0;
      OthersEvolve(ctx, url, s, 7);
      AskEvolves(ctx, url, s1);
      EvolvesTransitive(ctx, url, s, s1, s');
    }
  }

  // ---------------------------------------------------------------------------
  // Where credentials come from

  /** A lookup in one of the tables, a finished fetch, or the answer to the prompt. */
  datatype Source =
    | UrlTable(at: Url, user: Option<string>)
    | RealmTable(user: Option<string>)
    | FetchedAs(user: Option<string>)
    | Prompted

  predicate IsTable(src: Source) {
    src.UrlTable? || src.RealmTable?
  }

  /** In state `s`, the source answers a request for `url` with `auth`. */
  ghost predicate Supplies(s: Session, ctx: Context, url: Url, src: Source, auth: Authentication) {
    match src
    case UrlTable(at, user) =>
      && (at == url || (ctx.index.Some? && at in [ctx.index.value.url, ctx.index.value.rootUrl]))
      && GetUrl(TablesOf(s), at, user) == Some(auth)
    case RealmTable(user) => GetRealm(TablesOf(s), RealmOf(url), user) == Some(auth)
    case FetchedAs(user) =>
      FetchKeyFor(ctx, url, user) in s.fetches && s.fetches[FetchKeyFor(ctx, url, user)] == Some(auth)
    case Prompted => auth.Credential? && s.prompted == Some(Some(auth.credentials))
  }

  /** For a request that names a user, only sources asked for that user count. */
  ghost predicate ForUser(src: Source, named: Option<string>) {
    named.Some? ==> !src.Prompted? && src.user == named
  }

  /** In some state since `base`, before anything was sent, a source, a table if so required, supplied `auth`. */
  ghost predicate Held(
    ctx: Context, base: Session, url: Url, named: Option<string>, auth: Authentication, table: bool)
  {
    exists s: Session, src: Source ::
      && Supplies(s, ctx, url, src, auth) && ForUser(src, named) && (table ==> IsTable(src))
      && Evolves(ctx, url, base, s)
  }

  lemma HeldNow(
    ctx: Context, base: Session, s: Session, url: Url, named: Option<string>, auth: Authentication, src: Source)
    requires Supplies(s, ctx, url, src, auth) && ForUser(src, named) && Evolves(ctx, url, base, s)
    ensures Held(ctx, base, url, named, auth, IsTable(src))
  {
  }

  lemma HeldEarlier(
    ctx: Context, base: Session, s: Session, url: Url, named: Option<string>, auth: Authentication, table: bool)
    requires Evolves(ctx, url, base, s) && Held(ctx, s, url, named, auth, table)
    ensures Held(ctx, base, url, named, auth, table)
  {
    var s0: Session, src: Source :|
      && Supplies(s0, ctx, url, src, auth) && ForUser(src, named) && (table ==> IsTable(src))
      && Evolves(ctx, url, s, s0);
    EvolvesTransitive(ctx, url, base, s, s0);
  }

  // ---------------------------------------------------------------------------
  // Sending

  function LearnedWrites(learned: seq<Insertion>): seq<Write> {
    if learned == [] then [] else WritesOf(learned[0].url, learned[0].auth)
  }

  /** The whole effect on the shared state: steps before the last request, then the writes of what was learned. */
  ghost predicate Follows(ctx: Context, url: Url, base: Session, o: Outcome) {
    exists s: Session ::
      Evolves(ctx, url, base, s) && o.session == s.(writes := s.writes + LearnedWrites(o.learned))
  }

  /** From the `n`-th request on: at most two in all, to one URL, the second only after a challenge. */
  ghost predicate Sends(w: World, sent: seq<Exchange>, url: Url, n: nat) {
    && n + |sent| <= 2 && (|sent| == 2 ==> Challenges(sent[0].reply))
    && (forall i :: 0 <= i < |sent| ==>
          sent[i].request.url == url && sent[i].reply == w.server(n + i, sent[i].request))
  }

  /** Only the credentials of a request that was just sent, and succeeded, are remembered. */
  ghost predicate LearnsFromSuccess(ctx: Context, o: Outcome, url: Url) {
    && |o.learned| <= 1
    && (o.learned != [] ==>
          && o.sent != [] && Succeeds(Last(o.sent).reply)
          && o.learned[0].url == url && Last(o.sent).request.url == url
          && Carries(Last(o.sent).request, o.learned[0].auth)
          && (ctx.policy.Always? ==> IsAuthenticated(o.learned[0].auth)))
  }

  /**
   Every header sent is the request's own, where that may go out, or was supplied by a source; under
   Always only a table supplies incomplete credentials.
   */
  ghost predicate Accounted(
    ctx: Context, base: Session, sent: seq<Exchange>, request: Request, named: Option<string>, own: bool)
  {
    forall i :: 0 <= i < |sent| ==>
      var h := sent[i].request.header;
      || (own && h == request.header)
      || (h.Attached? && Held(ctx, base, request.url, named, h.auth, true))
      || (h.Attached? && Held(ctx, base, request.url, named, h.auth, false) &&
          (ctx.policy.Always? ==> IsAuthenticated(h.auth)))
  }

  /** What a call does from its `n`-th request on. */
  ghost predicate Good(
    ctx: Context, base: Session, o: Outcome, request: Request, n: nat, named: Option<string>, own: bool)
  {
    && Follows(ctx, request.url, base, o)
    && Sends(ctx.world, o.sent, request.url, n)
    && LearnsFromSuccess(ctx, o, request.url)
    && Accounted(ctx, base, o.sent, request, named, own)
  }

  lemma QuietFollows(ctx: Context, url: Url, base: Session, o: Outcome)
    requires Evolves(ctx, url, base, o.session) && o.learned == []
    ensures Follows(ctx, url, base, o)
  {
    assert o.session == o.session.(writes := o.session.writes + LearnedWrites(o.learned));
  }

  lemma LearnedFollows(ctx: Context, url: Url, base: Session, s: Session, o: Outcome)
    requires Evolves(ctx, url, base, s) && o.session == s.(writes := s.writes + LearnedWrites(o.learned))
    ensures Follows(ctx, url, base, o)
  {
  }

  lemma CompleteFollows(
    ctx: Context, base: Session, s: Session, n: nat, credentials: Option<Authentication>, request: Request)
    requires WorldOk(ctx.world) && Evolves(ctx, request.url, base, s)
    ensures Follows(ctx, request.url, base, Complete(ctx, s, n, credentials, request))
  {
    var o, s1 := Complete(ctx, s, n, credentials, request), ActAll(s, ctx.world.others(9));
    if o.learned == [] {
      QuietFollows(ctx, request.url, base, o);
    } else {
      OthersEvolve(ctx, request.url, s, 9);
      EvolvesTransitive(ctx, request.url, base, s, s1);
      LearnedFollows(ctx, request.url, base, s1, o);
    }
  }

  lemma CompleteSends(ctx: Context, s: Session, n: nat, credentials: Option<Authentication>, request: Request)
    requires n <= 1 && (credentials.Some? ==> Carries(request, credentials.value))
    ensures var o := Complete(ctx, s, n, credentials, request);
      && Sends(ctx.world, o.sent, request.url, n) && LearnsFromSuccess(ctx, o, request.url)
      && (forall i :: 0 <= i < |o.sent| ==> o.sent[i].request == request)
      && (credentials.Some? && ctx.policy.Always? && o.sent != [] ==> IsAuthenticated(credentials.value))
  {
  }

  /** Sending the request as it came, with its own credentials. */
  lemma OwnGood(
    ctx: Context, base: Session, s: Session, auth: Authentication, request: Request, named: Option<string>, own: bool)
    requires WorldOk(ctx.world) && Evolves(ctx, request.url, base, s) && Carries(request, auth)
    requires own || (ctx.policy.Always? && !IsAuthenticated(auth))
    ensures Good(ctx, base, Complete(ctx, s, 0, Some(auth), request), request, 0, named, own)
  {
    CompleteFollows(ctx, base, s, 0, Some(auth), request);
    CompleteSends(ctx, s, 0, Some(auth), request);
  }

  /** Sending with supplied credentials. */
  lemma SendGood(
    ctx: Context, base: Session, s: Session, n: nat, auth: Authentication, request: Request, remember: bool,
    named: Option<string>, own: bool)
    requires WorldOk(ctx.world) && Evolves(ctx, request.url, base, s)
    requires Held(ctx, base, request.url, named, auth, !remember) && n <= 1
    ensures Good(ctx, base, SendWith(ctx, s, n, auth, request, remember), request, n, named, own)
  {
    if CanAuthenticate(ctx.world, auth) {
      var credentials, attached := if remember then Some(auth) else None, request.(header := Attached(auth));
      CompleteFollows(ctx, base, s, n, credentials, attached);
      CompleteSends(ctx, s, n, credentials, attached);
    } else {
      QuietFollows(ctx, request.url, base, SendWith(ctx, s, n, auth, request, remember));
    }
  }

  // ---------------------------------------------------------------------------
  // A request that carries credentials

  /** With incomplete credentials the request goes out as it came only if a fetch can say so. */
  predicate CredentialsMayGo(ctx: Context, auth: Authentication) {
    IsAuthenticated(auth) || (!ctx.policy.Always? && !HasInvalidEndpoint(ctx.config))
  }

  lemma PasswordElsewhereGood(ctx: Context, base: Session, s: Session, auth: Authentication, request: Request)
    requires WorldOk(ctx.world) && Evolves(ctx, request.url, base, s) && Carries(request, auth)
    ensures Good(ctx, base, PasswordElsewhere(ctx, s, auth, request), request, 0,
                 NewUsername(Username(auth)), CredentialsMayGo(ctx, auth))
  {
    var w, url, user, named := ctx.world, request.url, Username(auth), NewUsername(Username(auth));
    var own, third := CredentialsMayGo(ctx, auth), GetUrl(TablesOf(s), url, user);
    if third.Some? {
      HeldNow(ctx, base, s, url, named, third.value, UrlTable(url, user));
      SendGood(ctx, base, s, 0, third.value, request, false, named, own);
    } else {
      var f := Fetch(ctx, s, Some(auth), url);
      FetchEvolves(ctx, s, Some(auth), url);
      EvolvesTransitive(ctx, url, base, s, f.session);
      match f.result
      case Err(_) => QuietFollows(ctx, url, base, PasswordElsewhere(ctx, s, auth, request));
      case Ok(Some(found)) =>
        HeldNow(ctx, base, f.session, url, named, found, FetchedAs(user));
        SendGood(ctx, base, f.session, 0, found, request, true, named, own);
      case Ok(None) =>
        if ctx.index.None? {
          OwnGood(ctx, base, f.session, auth, request, named, own);
        } else {
          var s1 := ActAll(f.session, w.others(6));
          OthersEvolve(ctx, url, f.session, 6);
          EvolvesTransitive(ctx, url, base, f.session, s1);
          var last := GetRealm(TablesOf(s1), RealmOf(url), user);
          if last.Some? {
            HeldNow(ctx, base, s1, url, named, last.value, RealmTable(user));
            assert Held(ctx, base, url, named, last.value, false);
            SendGood(ctx, base, s1, 0, last.value, request, true, named, own);
          } else {
            OwnGood(ctx, base, s1, auth, request, named, own);
          }
        }
    }
  }

  lemma WithRequestCredentialsGood(ctx: Context, s: Session, auth: Authentication, request: Request)
    requires WorldOk(ctx.world) && Sound(s) && Carries(request, auth)
    ensures Good(ctx, s, WithRequestCredentials(ctx, s, auth, request), request, 0,
                 NewUsername(Username(auth)), CredentialsMayGo(ctx, auth))
  {
    var w, url, user, named := ctx.world, request.url, Username(auth), NewUsername(Username(auth));
    var own := CredentialsMayGo(ctx, auth);
    if IsAuthenticated(auth) {
      EvolvesReflexive(ctx, url, s);
      OwnGood(ctx, s, s, auth, request, named, own);
    } else {
      var s1 := ActAll(s, w.others(0));
      OthersEvolve(ctx, url, s, 0);
      var src := if ctx.index.Some? then UrlTable(ctx.index.value.url, user) else RealmTable(user);
      var first := if ctx.index.Some? then GetUrl(TablesOf(s1), ctx.index.value.url, user)
                   else GetRealm(TablesOf(s1), RealmOf(url), user);
      if first.Some? {
        HeldNow(ctx, s, s1, url, named, first.value, src);
        SendGood(ctx, s, s1, 0, first.value, request, false, named, own);
      } else {
        var s2 := ActAll(s1, w.others(1));
        OthersEvolve(ctx, url, s1, 1);
        EvolvesTransitive(ctx, url, s, s1, s2);
        var second := if ctx.index.Some? then GetUrl(TablesOf(s2), ctx.index.value.rootUrl, user) else None;
        if second.Some? {
          HeldNow(ctx, s, s2, url, named, second.value, UrlTable(ctx.index.value.rootUrl, user));
          SendGood(ctx, s, s2, 0, second.value, request, false, named, own);
        } else {
          var s3 := ActAll(s2, w.others(2));
          OthersEvolve(ctx, url, s2, 2);
          EvolvesTransitive(ctx, url, s, s2, s3);
          PasswordElsewhereGood(ctx, s, s3, auth, request);
        }
      }
    }
  }

  // ---------------------------------------------------------------------------
  // Any other request

  /** Credentials found earlier in the call, if any, came from a table. */
  ghost predicate Kept(ctx: Context, base: Session, url: Url, credentials: Option<Authentication>) {
    credentials.Some? ==> Held(ctx, base, url, None, credentials.value, true)
  }

  lemma PromptAnswers(ctx: Context, s: Session, fetched: Option<Authentication>, url: Url)
    ensures var p := PromptIfNeeded(ctx, s, fetched);
      p.result.Ok? && p.result.value.Some? && p.result.value != fetched ==>
        Supplies(p.session, ctx, url, Prompted, p.result.value.value)
  {
  }

  /** What the prompt leaves to send was fetched or typed in. */
  lemma PromptHeld(
    ctx: Context, base: Session, s: Session, user: Option<string>, fetched: Option<Authentication>, url: Url)
    requires WorldOk(ctx.world) && Evolves(ctx, url, base, s)
    requires fetched.Some? ==> Supplies(s, ctx, url, FetchedAs(user), fetched.value)
    ensures var p := PromptIfNeeded(ctx, s, fetched);
      && Evolves(ctx, url, base, p.session)
      && (p.result.Ok? && p.result.value.Some? ==> Held(ctx, base, url, None, p.result.value.value, false))
  {
    var p := PromptIfNeeded(ctx, s, fetched);
    PromptEvolves(ctx, url, s, fetched);
    PromptAnswers(ctx, s, fetched, url);
    EvolvesTransitive(ctx, url, base, s, p.session);
    if p.result.Ok? && p.result.value.Some? {
      if p.result.value == fetched {
        HeldNow(ctx, base, s, url, None, fetched.value, FetchedAs(user));
      } else {
        HeldNow(ctx, base, p.session, url, None, p.result.value.value, Prompted);
      }
    }
  }

  lemma RetryOutsideGood(
    ctx: Context, base: Session, s: Session, credentials: Option<Authentication>, best: Option<Authentication>,
    request: Request, first: Option<Reply>, own: bool)
    requires WorldOk(ctx.world) && Evolves(ctx, request.url, base, s) && Kept(ctx, base, request.url, best)
    ensures Good(ctx, base, RetryOutside(ctx, s, credentials, best, request, first), request,
                 if first.Some? then 1 else 0, None, own)
  {
    var n, url := if first.Some? then 1 else 0, request.url;
    var f, o := Fetch(ctx, s, best, url), RetryOutside(ctx, s, credentials, best, request, first);
    FetchEvolves(ctx, s, best, url);
    EvolvesTransitive(ctx, url, base, s, f.session);
    if f.result.Err? {
      QuietFollows(ctx, url, base, o);
    } else {
      var p := PromptIfNeeded(ctx, f.session, f.result.value);
      PromptHeld(ctx, base, f.session, UsernameIn(best), f.result.value, url);
      if p.result.Ok? && p.result.value.Some? {
        SendGood(ctx, base, p.session, n, p.result.value.value, request, true, None, own);
      } else if p.result.Ok? && best.Some? && UsernameIn(credentials).None? {
        SendGood(ctx, base, p.session, n, best.value, request, false, None, own);
      } else {
        QuietFollows(ctx, url, base, o);
      }
    }
  }

  lemma CachedForRetryKept(ctx: Context, base: Session, s: Session, username: Option<string>, request: Request)
    requires WorldOk(ctx.world) && Evolves(ctx, request.url, base, s)
    ensures var (s', cached) := CachedForRetry(ctx, s, username, request);
      Evolves(ctx, request.url, base, s') && Kept(ctx, base, request.url, cached)
  {
    var w, url := ctx.world, request.url;
    var s1 := ActAll(s, w.others(3));
    OthersEvolve(ctx, url, s, 3);
    EvolvesTransitive(ctx, url, base, s, s1);
    if ctx.index.Some? && GetUrl(TablesOf(s1), ctx.index.value.url, username).Some? {
      var hit := GetUrl(TablesOf(s1), ctx.index.value.url, username).value;
      HeldNow(ctx, base, s1, url, None, hit, UrlTable(ctx.index.value.url, username));
    } else {
      var s2 := ActAll(s1, w.others(4));
      OthersEvolve(ctx, url, s1, 4);
      EvolvesTransitive(ctx, url, base, s1, s2);
      var hit := GetRealm(TablesOf(s2), RealmOf(url), username);
      if hit.Some? { HeldNow(ctx, base, s2, url, None, hit.value, RealmTable(username)); }
    }
  }

  lemma RetryGood(
    ctx: Context, base: Session, s: Session, credentials: Option<Authentication>, request: Request,
    first: Option<Reply>, own: bool)
    requires WorldOk(ctx.world) && Evolves(ctx, request.url, base, s) && Kept(ctx, base, request.url, credentials)
    ensures Good(ctx, base, Retry(ctx, s, credentials, request, first), request,
                 if first.Some? then 1 else 0, None, own)
  {
    var n := if first.Some? then 1 else 0;
    var (s1, cached) := CachedForRetry(ctx, s, UsernameIn(credentials), request);
    CachedForRetryKept(ctx, base, s, UsernameIn(credentials), request);
    var best := if cached.Some? then cached else credentials;
    if best.Some? && IsAuthenticated(best.value) {
      SendGood(ctx, base, s1, n, best.value, request, false, None, own);
    } else {
      RetryOutsideGood(ctx, base, s1, credentials, best, request, first, own);
    }
  }

  lemma PrependGood(ctx: Context, base: Session, x: Exchange, r: Outcome, request: Request)
    requires Good(ctx, base, r, request, 1, None, true)
    requires x == Exchange(request, ctx.world.server(0, request)) && Challenges(x.reply)
    ensures Good(ctx, base, r.(sent := [x] + r.sent), request, 0, None, true)
  {
    var o := r.(sent := [x] + r.sent);
    if r.sent != [] { assert Last(o.sent) == Last(r.sent) && o.sent == [x, r.sent[0]]; }
  }

  /** A first attempt is made with the header as it is. */
  predicate PlainMayGo(ctx: Context, request: Request) {
    !MustAuthenticate(ctx) && request.cloneable
  }

  lemma AttemptGood(ctx: Context, s: Session, credentials: Option<Authentication>, request: Request)
    requires WorldOk(ctx.world) && Sound(s) && Kept(ctx, s, request.url, credentials)
    ensures Good(ctx, s, Attempt(ctx, s, credentials, request), request, 0, None, PlainMayGo(ctx, request))
  {
    EvolvesReflexive(ctx, request.url, s);
    var x := Exchange(request, ctx.world.server(0, request));
    if MustAuthenticate(ctx) {
      RetryGood(ctx, s, s, credentials, request, None, false);
    } else if request.cloneable && Challenges(x.reply) && !ctx.policy.Never? {
      RetryGood(ctx, s, s, credentials, request, Some(x.reply), true);
      PrependGood(ctx, s, x, Retry(ctx, s, credentials, request, Some(x.reply)), request);
    } else {
      QuietFollows(ctx, request.url, s, Attempt(ctx, s, credentials, request));
    }
  }

  /** A header attached before the attempt is accounted for like any other. */
  lemma Rebase(ctx: Context, s: Session, s1: Session, o: Outcome, attached: Request, request: Request, own: bool)
    requires Evolves(ctx, request.url, s, s1) && Good(ctx, s1, o, attached, 0, None, own)
    requires attached.url == request.url
    requires attached == request || (attached.header.Attached? &&
               Held(ctx, s, request.url, None, attached.header.auth, true))
    ensures Good(ctx, s, o, request, 0, None, own)
  {
    var url := request.url;
    var s2: Session :| Evolves(ctx, url, s1, s2) && o.session == s2.(writes := s2.writes + LearnedWrites(o.learned));
    EvolvesTransitive(ctx, url, s, s1, s2);
    forall auth, table | Held(ctx, s1, url, None, auth, table) ensures Held(ctx, s, url, None, auth, table) {
      HeldEarlier(ctx, s, s1, url, None, auth, table);
    }
  }

  lemma UnauthenticatedGood(ctx: Context, s: Session, request: Request)
    requires WorldOk(ctx.world) && Sound(s)
    ensures Good(ctx, s, Unauthenticated(ctx, s, request), request, 0, None, PlainMayGo(ctx, request))
  {
    var w, url, o, own := ctx.world, request.url, Unauthenticated(ctx, s, request), PlainMayGo(ctx, request);
    var s1 := ActAll(s, w.others(8));
    OthersEvolve(ctx, url, s, 8);
    var cached := GetUrl(TablesOf(s1), url, None);
    if cached.None? {
      AttemptGood(ctx, s1, None, request);
      Rebase(ctx, s, s1, o, request, request, own);
    } else if CanAuthenticate(w, cached.value) {
      HeldNow(ctx, s, s1, url, None, cached.value, UrlTable(url, None));
      if IsAuthenticated(cached.value) {
        assert o == SendWith(ctx, s1, 0, cached.value, request, false);
        SendGood(ctx, s, s1, 0, cached.value, request, false, None, own);
      } else {
        var attached := request.(header := Attached(cached.value));
        EvolvesReflexive(ctx, url, s1);
        HeldNow(ctx, s1, s1, url, None, cached.value, UrlTable(url, None));
        AttemptGood(ctx, s1, cached, attached);
        Rebase(ctx, s, s1, o, attached, request, own);
      }
    } else {
      QuietFollows(ctx, url, s, o);
    }
  }

  /** The user a request is handled for, where its own credentials are looked at. */
  function NamedUser(config: Config, request: Request): Option<string> {
    var credentials := FromRequest(request);
    if credentials.Ok? && credentials.value.Some? && !PolicyFor(config.indexes, request.url).Never? then
      NewUsername(Username(Credential(credentials.value.value)))
    else None
  }

  /** Whether the request may go out with the header it came with. */
  predicate OwnMayGo(ctx: Context, request: Request) {
    match FromRequest(request)
    case Err(_) => false
    case Ok(credentials) =>
      if credentials.Some? && !ctx.policy.Never? then CredentialsMayGo(ctx, Credential(credentials.value))
      else PlainMayGo(ctx, request)
  }

  /**
   Every call, amid any steps of other callers: sends at most two requests, the second only after a
   401, 403 or 404; changes only the header; accounts for every header by the request itself or a
   source asked for the user it names; changes the shared state only by the steps of `OwnAction`; and
   then remembers credentials only from its own last request, if that succeeded.
   */
  lemma HandleGood(config: Config, world: World, s: Session, request: Request)
    requires WorldOk(world) && Sound(s)
    ensures var ctx := ContextFor(config, world, request.url);
      Good(ctx, s, Handle(config, world, s, request), request, 0, NamedUser(config, request), OwnMayGo(ctx, request))
  {
    var ctx := ContextFor(config, world, request.url);
    match FromRequest(request)
    case Err(_) =>
      EvolvesReflexive(ctx, request.url, s);
      QuietFollows(ctx, request.url, s, Handle(config, world, s, request));
    case Ok(credentials) =>
      if ctx.policy.Never? {
        AttemptGood(ctx, s, None, request);
      } else if credentials.Some? {
        var auth := Credential(credentials.value);
        WithRequestCredentialsGood(ctx, s, auth, request);
      } else {
        UnauthenticatedGood(ctx, s, request);
      }
  }

  // ---------------------------------------------------------------------------
  // Callers keep to what they expect of each other

  function FileAll(ws: seq<Write>): seq<Action> {
    seq(|ws|, i requires 0 <= i < |ws| => FileWrite(ws[i]))
  }

  lemma {:induction false} FileAllAppends(s: Session, ws: seq<Write>)
    ensures ActAll(s, FileAll(ws)) == s.(writes := s.writes + ws)
  {
    if ws == [] {
      assert s.writes + ws == s.writes;
    } else {
      FileAllAppends(s, Init(ws));
      assert Init(FileAll(ws)) == FileAll(Init(ws));
      assert s.writes + ws == s.writes + Init(ws) + [Last(ws)];
    }
  }

  lemma TakenIsAllowed(ctx: Context, url: Url, a: Action)
    requires WorldOk(ctx.world) && Taken(ctx, url, a)
    ensures Allowed(a)
  {
    if a.FinishFetch? && Consulted(ctx, url, a.key, a.value) {
      var username: Option<string>, s: Session :|
        a.key == FetchKeyFor(ctx, url, username) && a.value == Consult(ctx, s, url, username).1;
      ConsultOk(ctx, s, url, username);
    }
  }

  lemma LearnedIsAllowed(learned: seq<Insertion>)
    ensures forall i :: 0 <= i < |LearnedWrites(learned)| ==> Allowed(FileAll(LearnedWrites(learned))[i])
  {
    var ws := LearnedWrites(learned);
    forall i | 0 <= i < |ws| ensures Issued(ws[i]) {
      WritesOfOne(learned[0].url, learned[0].auth, ws[i]);
    }
  }

  /** What `WorldOk` expects of other callers holds of every call: its whole effect is a run of allowed steps. */
  lemma CallIsAllowed(config: Config, world: World, s: Session, request: Request) returns (actions: seq<Action>)
    requires WorldOk(world) && Sound(s)
    ensures ActAll(s, actions) == Handle(config, world, s, request).session
    ensures forall i :: 0 <= i < |actions| ==> Allowed(actions[i])
    ensures Sound(Handle(config, world, s, request).session)
  {
    var ctx, url, o := ContextFor(config, world, request.url), request.url, Handle(config, world, s, request);
    HandleGood(config, world, s, request);
    var s1: Session :| Evolves(ctx, url, s, s1) && o.session == s1.(writes := s1.writes + LearnedWrites(o.learned));
    var before :| AllTaken(ctx, url, before) && ActAll(s, before) == s1;
    var ws := LearnedWrites(o.learned);
    actions := before + FileAll(ws);
    FileAllAppends(s1, ws);
    ActAllAppend(s, before, FileAll(ws));
    forall i | 0 <= i < |before| ensures Allowed(before[i]) {
      TakenIsAllowed(ctx, url, before[i]);
    }
    LearnedIsAllowed(o.learned);
    ActAllSound(s, actions);
  }

  /** The write's credentials were carried to its URL by the last request, which succeeded. */
  ghost predicate EarnedBy(sent: seq<Exchange>, url: Url, x: Write) {
    && sent != [] && Succeeds(Last(sent).reply)
    && Last(sent).request.url == url == x.url && Carries(Last(sent).request, x.auth)
  }

  /** Every cache write a call adds was earned by its last request, or is another caller's. */
  lemma AddedWrites(config: Config, world: World, s: Session, request: Request)
    requires WorldOk(world) && Sound(s)
    ensures var o := Handle(config, world, s, request);
      && s.writes <= o.session.writes
      && (forall i :: |s.writes| <= i < |o.session.writes| ==>
            FromOthers(world, o.session.writes[i]) || EarnedBy(o.sent, request.url, o.session.writes[i]))
      && (Alone(world) ==> o.session.writes == s.writes + LearnedWrites(o.learned))
  {
    var ctx, url, o := ContextFor(config, world, request.url), request.url, Handle(config, world, s, request);
    HandleGood(config, world, s, request);
    var s1: Session :| Evolves(ctx, url, s, s1) && o.session == s1.(writes := s1.writes + LearnedWrites(o.learned));
    EvolvesIsTraced(ctx, url, s, s1);
    forall x | x in LearnedWrites(o.learned) ensures EarnedBy(o.sent, url, x) {
      WritesOfOne(o.learned[0].url, o.learned[0].auth, x);
    }
    if Alone(world) { AloneWritesNothing(ctx, url, s, s1); }
  }

  lemma AddedWrite(config: Config, world: World, s: Session, request: Request, x: Write)
    requires WorldOk(world) && Sound(s)
    requires x in Handle(config, world, s, request).session.writes && x !in s.writes
    ensures FromOthers(world, x) || EarnedBy(Handle(config, world, s, request).sent, request.url, x)
  {
    var ws := Handle(config, world, s, request).session.writes;
    AddedWrites(config, world, s, request);
    var k :| 0 <= k < |ws| && ws[k] == x;
    assert s.writes == ws[..|s.writes|];
  }

  lemma AloneTakesNothing(w: World, x: Write)
    requires Alone(w)
    ensures !FromOthers(w, x)
  {
  }

  lemma AloneWritesNothing(ctx: Context, url: Url, s: Session, s': Session)
    requires Alone(ctx.world) && Traced(ctx, url, s, s')
    ensures s'.writes == s.writes
  {
    if |s.writes| < |s'.writes| { AloneTakesNothing(ctx.world, s'.writes[|s.writes|]); }
  }
}
