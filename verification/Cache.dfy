/** The credentials cache: a realm table and a URL trie, written under different replacement rules. */
module Cache {
  import opened Common
  import opened Urls
  import opened Auth
  import opened Trie

  type RealmKey = (Realm, Option<string>)

  datatype Tables = Tables(realms: map<RealmKey, Authentication>, urls: map<seq<string>, Authentication>)

  const EMPTY := Tables(map[], map[])

  /** One locked update of one of the two tables. */
  datatype Write =
    | RealmWrite(url: Url, named: bool, auth: Authentication)
    | UrlWrite(url: Url, auth: Authentication)

  function KeyOf(w: Write): RealmKey
    requires w.RealmWrite?
  {
    (RealmOf(w.url), if w.named then Username(w.auth) else None)
  }

  /** The updates made by one insertion, in order. */
  function WritesOf(url: Url, auth: Authentication): seq<Write> {
    if IsEmpty(auth) then []
    else (if Username(auth).Some? then [RealmWrite(url, true, auth)] else []) +
         [RealmWrite(url, false, auth), UrlWrite(url, auth)]
  }

  ghost predicate Issued(w: Write) {
    w in WritesOf(w.url, w.auth)
  }

  ghost predicate AllIssued(ws: seq<Write>) {
    forall i :: 0 <= i < |ws| ==> Issued(ws[i])
  }

  /** Incomplete credentials never displace a password. */
  predicate Accepts(realms: map<RealmKey, Authentication>, key: RealmKey, auth: Authentication) {
    && !IsEmpty(auth)
    && (IsAuthenticated(auth) || key !in realms || Password(realms[key]).None?)
  }

  function WriteRealm(realms: map<RealmKey, Authentication>, key: RealmKey, auth: Authentication):
    map<RealmKey, Authentication>
  {
    if Accepts(realms, key, auth) then realms[key := auth] else realms
  }

  function WriteUrl(urls: map<seq<string>, Authentication>, url: Url, auth: Authentication):
    map<seq<string>, Authentication>
  {
    if TrieKey(url).None? then urls else urls[TrieKey(url).value := auth]
  }

  function Apply(t: Tables, w: Write): Tables {
    match w
    case RealmWrite(_, _, auth) => t.(realms := WriteRealm(t.realms, KeyOf(w), auth))
    case UrlWrite(url, auth) => t.(urls := WriteUrl(t.urls, url, auth))
  }

  function ApplyAll(t: Tables, ws: seq<Write>): Tables {
    if ws == [] then t else Apply(ApplyAll(t, Init(ws)), Last(ws))
  }

  lemma {:induction false} ApplyAppend(t: Tables, a: seq<Write>, b: seq<Write>)
    ensures ApplyAll(t, a + b) == ApplyAll(ApplyAll(t, a), b)
  {
    if b == [] {
      assert a + b == a;
    } else {
      assert Init(a + b) == a + Init(b);
      ApplyAppend(t, a, Init(b));
    }
  }

  ghost function Find<K, V>(m: map<K, V>, k: K): Option<V> {
    if k in m then Some(m[k]) else None
  }

  ghost function GetRealm(t: Tables, realm: Realm, username: Option<string>): Option<Authentication> {
    var found := Find(t.realms, (realm, username));
    if found.Some? && username.Some? && Password(found.value).None? then None else found
  }

  ghost function GetUrl(t: Tables, url: Url, username: Option<string>): Option<Authentication> {
    var found := if TrieKey(url).None? then None else ShortestPrefix(t.urls, TrieKey(url).value);
    if found.None? then None
    else if username.Some? && (username != Username(found.value) || Password(found.value).None?) then None
    else found
  }

  // ---------------------------------------------------------------------------
  // What the tables hold, as a function of the history

  /** The last write to `key`. */
  ghost function Latest(ws: seq<Write>, key: RealmKey): (r: Option<Authentication>)
    ensures r.Some? ==> exists i :: 0 <= i < |ws| && ws[i].RealmWrite? && KeyOf(ws[i]) == key && ws[i].auth == r.value
    ensures r.None? ==> forall i :: 0 <= i < |ws| && ws[i].RealmWrite? ==> KeyOf(ws[i]) != key
  {
    if ws == [] then None
    else if Last(ws).RealmWrite? && KeyOf(Last(ws)) == key then Some(Last(ws).auth)
    else Latest(Init(ws), key)
  }

  /** The last write to `key` that carried a password, token or signer. */
  ghost function LatestAuthenticated(ws: seq<Write>, key: RealmKey): (r: Option<Authentication>)
    ensures r.Some? ==> IsAuthenticated(r.value) &&
                        exists i :: 0 <= i < |ws| && ws[i].RealmWrite? && KeyOf(ws[i]) == key && ws[i].auth == r.value
    ensures r.None? ==>
      forall i :: 0 <= i < |ws| && ws[i].RealmWrite? && IsAuthenticated(ws[i].auth) ==> KeyOf(ws[i]) != key
  {
    if ws == [] then None
    else if Last(ws).RealmWrite? && KeyOf(Last(ws)) == key && IsAuthenticated(Last(ws).auth) then Some(Last(ws).auth)
    else LatestAuthenticated(Init(ws), key)
  }

  /** A password outlives later incomplete credentials; a token or signer does not. */
  ghost function Winner(ws: seq<Write>, key: RealmKey): Option<Authentication> {
    var complete := LatestAuthenticated(ws, key);
    if complete.Some? && Password(complete.value).Some? then complete else Latest(ws, key)
  }

  lemma WinnerPassword(ws: seq<Write>, key: RealmKey)
    requires Winner(ws, key).Some?
    ensures Password(Winner(ws, key).value).Some? <==>
      LatestAuthenticated(ws, key).Some? && Password(LatestAuthenticated(ws, key).value).Some?
  {
  }

  lemma {:induction false} LatestWithPassword(ws: seq<Write>, key: RealmKey)
    ensures Latest(ws, key).Some? && Password(Latest(ws, key).value).Some? ==>
      LatestAuthenticated(ws, key) == Latest(ws, key)
  {
    if ws != [] { LatestWithPassword(Init(ws), key); }
  }

  /** The realm table in closed form. */
  lemma {:induction false} RealmTable(ws: seq<Write>, key: RealmKey)
    requires AllIssued(ws)
    ensures Find(ApplyAll(EMPTY, ws).realms, key) == Winner(ws, key)
  {
    if ws != [] {
      RealmTable(Init(ws), key);
      WinnerStep(ws, key);
      ApplyStep(ApplyAll(EMPTY, Init(ws)), Last(ws), key);
    }
  }

  ghost predicate WritesTo(w: Write, key: RealmKey) {
    w.RealmWrite? && KeyOf(w) == key
  }

  ghost predicate Displaces(auth: Authentication, held: Option<Authentication>) {
    IsAuthenticated(auth) || held.None? || Password(held.value).None?
  }

  lemma WinnerStep(ws: seq<Write>, key: RealmKey)
    requires ws != []
    ensures Winner(ws, key) ==
      var held := Winner(Init(ws), key);
      if WritesTo(Last(ws), key) && Displaces(Last(ws).auth, held) then Some(Last(ws).auth) else held
  {
    if Winner(Init(ws), key).Some? { WinnerPassword(Init(ws), key); }
  }

  lemma ApplyStep(t: Tables, w: Write, key: RealmKey)
    requires Issued(w)
    ensures Find(Apply(t, w).realms, key) ==
      var held := Find(t.realms, key);
      if WritesTo(w, key) && Displaces(w.auth, held) then Some(w.auth) else held
  {
  }

  /** The last value filed under exactly `key`. */
  ghost function LatestUrl(ws: seq<Write>, key: seq<string>): (r: Option<Authentication>)
    ensures r.Some? ==>
      exists i :: 0 <= i < |ws| && ws[i].UrlWrite? && TrieKey(ws[i].url) == Some(key) && ws[i].auth == r.value
  {
    if ws == [] then None
    else if Last(ws).UrlWrite? && TrieKey(Last(ws).url) == Some(key) then Some(Last(ws).auth)
    else LatestUrl(Init(ws), key)
  }

  /** The URL table in closed form. */
  lemma {:induction false} UrlTable(ws: seq<Write>, key: seq<string>)
    ensures Find(ApplyAll(EMPTY, ws).urls, key) == LatestUrl(ws, key)
  {
    if ws != [] { UrlTable(Init(ws), key); }
  }

  // ---------------------------------------------------------------------------
  // Invariants of every reachable cache

  /** No stored credential is empty, and a named entry is Basic with that name. */
  lemma {:induction false} NamedEntries(ws: seq<Write>, key: RealmKey)
    requires AllIssued(ws) && key in ApplyAll(EMPTY, ws).realms
    ensures var auth := ApplyAll(EMPTY, ws).realms[key];
      !IsEmpty(auth) && (key.1.Some? ==> Username(auth) == key.1)
  {
    RealmTable(ws, key);
    var auth := ApplyAll(EMPTY, ws).realms[key];
    var i :| 0 <= i < |ws| && ws[i].RealmWrite? && KeyOf(ws[i]) == key && ws[i].auth == auth;
    assert Issued(ws[i]);
  }

  lemma {:induction false} AuthenticatedPersists(ws: seq<Write>, more: seq<Write>, key: RealmKey)
    requires LatestAuthenticated(ws, key).Some?
    ensures LatestAuthenticated(ws + more, key).Some?
  {
    if more == [] {
      assert ws + more == ws;
    } else {
      assert Init(ws + more) == ws + Init(more);
      AuthenticatedPersists(ws, Init(more), key);
    }
  }

  lemma NamedIsBasic(ws: seq<Write>, key: RealmKey)
    requires AllIssued(ws) && key.1.Some? && LatestAuthenticated(ws, key).Some?
    ensures var r := LatestAuthenticated(ws, key).value; Username(r) == key.1 && Password(r).Some?
  {
  }

  /** A lookup for a user answers the last password ever written for that user, whatever was written since. */
  lemma {:induction false} NamedLookup(ws: seq<Write>, realm: Realm, u: string)
    requires AllIssued(ws)
    ensures GetRealm(ApplyAll(EMPTY, ws), realm, Some(u)) == LatestAuthenticated(ws, (realm, Some(u)))
  {
    var key := (realm, Some(u));
    RealmTable(ws, key);
    LatestWithPassword(ws, key);
    if LatestAuthenticated(ws, key).Some? { NamedIsBasic(ws, key); }
  }

  /** Once a named key holds a password it holds one forever. */
  lemma PasswordsPersist(ws: seq<Write>, more: seq<Write>, key: RealmKey)
    requires AllIssued(ws) && AllIssued(more) && key.1.Some?
    requires key in ApplyAll(EMPTY, ws).realms && Password(ApplyAll(EMPTY, ws).realms[key]).Some?
    ensures var t := ApplyAll(EMPTY, ws + more);
      key in t.realms && Password(t.realms[key]).Some? && Username(t.realms[key]) == key.1
  {
    RealmTable(ws, key);
    WinnerPassword(ws, key);
    AuthenticatedPersists(ws, more, key);
    assert AllIssued(ws + more);
    NamedIsBasic(ws + more, key);
    RealmTable(ws + more, key);
  }

  /** Each URL entry was preceded by the named realm entry of the same insertion. */
  ghost predicate RealmFirst(ws: seq<Write>) {
    forall j :: 0 <= j < |ws| && ws[j].UrlWrite? && Username(ws[j].auth).Some? ==>
      exists i :: 0 <= i < j && ws[i] == RealmWrite(ws[j].url, true, ws[j].auth)
  }

  ghost predicate AllWellFormed(ws: seq<Write>) {
    forall i :: 0 <= i < |ws| ==> WellFormed(ws[i].url)
  }

  /** A URL hit was written under a key that leads to the requested URL. */
  lemma UrlHitWrite(ws: seq<Write>, url: Url, username: Option<string>)
    returns (i: nat)
    requires GetUrl(ApplyAll(EMPTY, ws), url, username).Some?
    ensures i < |ws| && ws[i].UrlWrite? && ws[i].auth == GetUrl(ApplyAll(EMPTY, ws), url, username).value
    ensures TrieKey(ws[i].url).Some? && TrieKey(url).Some? && TrieKey(ws[i].url).value <= TrieKey(url).value
    ensures TrieKey(ws[i].url).value != []
  {
    var t, key := ApplyAll(EMPTY, ws), TrieKey(url).value;
    var n: nat :| IsShortest(t.urls, key, 1, n) && ShortestPrefix(t.urls, key).value == t.urls[key[..n]];
    UrlTable(ws, key[..n]);
    i :| 0 <= i < |ws| && ws[i].UrlWrite? && TrieKey(ws[i].url) == Some(key[..n]) && ws[i].auth == t.urls[key[..n]];
  }

  /** A URL hit was written for the same realm, at a key that leads to the requested URL. */
  lemma UrlHitOrigin(ws: seq<Write>, url: Url, username: Option<string>)
    returns (i: nat)
    requires AllWellFormed(ws) && WellFormed(url)
    requires GetUrl(ApplyAll(EMPTY, ws), url, username).Some?
    ensures i < |ws| && ws[i].UrlWrite? && ws[i].auth == GetUrl(ApplyAll(EMPTY, ws), url, username).value
    ensures RealmOf(ws[i].url) == RealmOf(url)
    ensures TrieKey(ws[i].url).Some? && TrieKey(url).Some? && TrieKey(ws[i].url).value <= TrieKey(url).value
  {
    i := UrlHitWrite(ws, url, username);
    assert TrieKey(ws[i].url).value[0] == TrieKey(url).value[0];
    PrintRealmInjective(RealmOf(ws[i].url), RealmOf(url));
  }

  /** A realm hit was written for that realm. */
  lemma RealmHitOrigin(ws: seq<Write>, realm: Realm, username: Option<string>)
    returns (i: nat)
    requires AllIssued(ws) && GetRealm(ApplyAll(EMPTY, ws), realm, username).Some?
    ensures i < |ws| && ws[i].RealmWrite? && ws[i].auth == GetRealm(ApplyAll(EMPTY, ws), realm, username).value
    ensures RealmOf(ws[i].url) == realm
  {
    RealmTable(ws, (realm, username));
    i :| 0 <= i < |ws| && ws[i].RealmWrite? && KeyOf(ws[i]) == (realm, username) &&
         ws[i].auth == GetRealm(ApplyAll(EMPTY, ws), realm, username).value;
  }

  /** The two tables agree: a named URL hit is matched by a named realm hit with a password. */
  lemma UrlHitGivesRealmHit(ws: seq<Write>, url: Url, u: string)
    requires AllIssued(ws) && AllWellFormed(ws) && RealmFirst(ws) && WellFormed(url)
    requires GetUrl(ApplyAll(EMPTY, ws), url, Some(u)).Some?
    ensures var hit := GetRealm(ApplyAll(EMPTY, ws), RealmOf(url), Some(u));
      hit.Some? && Username(hit.value) == Some(u) && Password(hit.value).Some?
  {
    var key := (RealmOf(url), Some(u));
    var j := UrlHitOrigin(ws, url, Some(u));
    var i :| 0 <= i < j && ws[i] == RealmWrite(ws[j].url, true, ws[j].auth);
    assert KeyOf(ws[i]) == key && IsAuthenticated(ws[i].auth);
    RealmTable(ws, key);
    NamedIsBasic(ws, key);
  }

  // ---------------------------------------------------------------------------
  // Two consequences of the replacement rules

  /** What one insertion does to the URL table and to the realm's entry for requests without a username. */
  lemma InsertionEffect(t: Tables, url: Url, auth: Authentication)
    requires !IsEmpty(auth)
    ensures ApplyAll(t, WritesOf(url, auth)).urls == WriteUrl(t.urls, url, auth)
    ensures var key, held := (RealmOf(url), None), Find(t.realms, (RealmOf(url), None));
      Find(ApplyAll(t, WritesOf(url, auth)).realms, key) == if Displaces(auth, held) then Some(auth) else held
  {
    var t1 := if Username(auth).Some? then Apply(t, RealmWrite(url, true, auth)) else t;
    var t2 := Apply(t1, RealmWrite(url, false, auth));
    InsertIsApply(t, url, auth, t1, t2, Apply(t2, UrlWrite(url, auth)));
  }

  /**
   After any history, credentials just filed for a URL answer for it exactly if no shorter prefix
   answers otherwise.
   */
  lemma FiledAnswersExactly(ws: seq<Write>, url: Url, auth: Authentication)
    requires TrieKey(url).Some? && !IsEmpty(auth)
    ensures var key, urls := TrieKey(url).value, ApplyAll(EMPTY, ws).urls;
      GetUrl(ApplyAll(EMPTY, ws + WritesOf(url, auth)), url, None) == Some(auth) <==>
        forall n: nat :: n < |key| && IsShortest(urls, key, 1, n) ==> urls[key[..n]] == auth
  {
    var key, urls := TrieKey(url).value, ApplyAll(EMPTY, ws).urls;
    ApplyAppend(EMPTY, ws, WritesOf(url, auth));
    InsertionEffect(ApplyAll(EMPTY, ws), url, auth);
    ShortestAfterFiling(urls, key, auth);
  }

  /** A lookup of a URL for a user is the lookup without one if that gives the user's password, else nothing. */
  lemma NamedUrlLookup(t: Tables, url: Url, u: string)
    ensures var hit := GetUrl(t, url, None);
      GetUrl(t, url, Some(u)) ==
        if exists p :: hit == Some(Credential(Basic(Some(u), Some(p)))) then hit else None
  {
    var hit := GetUrl(t, url, None);
    if hit.Some? && Username(hit.value) == Some(u) && Password(hit.value).Some? {
      assert hit == Some(Credential(Basic(Some(u), Some(Password(hit.value).value))));
    }
  }

  lemma ShorterUnchanged(urls: map<seq<string>, Authentication>, key: seq<string>, auth: Authentication, n: nat)
    requires n < |key|
    ensures IsShortest(urls[key := auth], key, 1, n) <==> IsShortest(urls, key, 1, n)
  {
    assert forall m: nat :: m <= n ==> key[..m] != key;
  }

  lemma ShortestUnique(urls: map<seq<string>, Authentication>, key: seq<string>, n: nat)
    requires IsShortest(urls, key, 1, n)
    ensures ShortestPrefix(urls, key) == Some(urls[key[..n]])
  {
    var m: nat :| IsShortest(urls, key, 1, m) && ShortestPrefix(urls, key).value == urls[key[..m]];
  }

  lemma ShortestExists(urls: map<seq<string>, Authentication>, key: seq<string>) returns (n: nat)
    requires key != [] && key in urls
    ensures IsShortest(urls, key, 1, n)
  {
    assert key[..|key|] == key && key[..|key|] in urls;
    assert ShortestPrefix(urls, key).Some?;
    n :| IsShortest(urls, key, 1, n) && ShortestPrefix(urls, key).value == urls[key[..n]];
  }

  lemma ShortestAfterFiling(urls: map<seq<string>, Authentication>, key: seq<string>, auth: Authentication)
    requires key != []
    ensures ShortestPrefix(urls[key := auth], key) == Some(auth) <==>
      forall n: nat :: n < |key| && IsShortest(urls, key, 1, n) ==> urls[key[..n]] == auth
  {
    var m := ShortestExists(urls[key := auth], key);
    ShortestUnique(urls[key := auth], key, m);
    if m < |key| {
      ShorterUnchanged(urls, key, auth, m);
      assert key[..m] != key;
    } else {
      assert key[..m] == key;
      forall n: nat | n < |key| ensures !IsShortest(urls, key, 1, n) {
        ShorterUnchanged(urls, key, auth, n);
      }
    }
  }

  /** Of two URLs filed one below the other, the upper one answers, even for the lower one itself. */
  lemma UpperUrlAnswers(upper: Url, lower: Url, a: Authentication, b: Authentication)
    requires TrieKey(upper).Some? && TrieKey(lower).Some? && TrieKey(upper).value < TrieKey(lower).value
    requires !IsEmpty(a) && !IsEmpty(b)
    ensures GetUrl(ApplyAll(EMPTY, WritesOf(upper, a) + WritesOf(lower, b)), lower, None) == Some(a)
  {
    var t := ApplyAll(EMPTY, WritesOf(upper, a) + WritesOf(lower, b));
    var key, short := TrieKey(lower).value, TrieKey(upper).value;
    ApplyAppend(EMPTY, WritesOf(upper, a), WritesOf(lower, b));
    InsertionEffect(EMPTY, upper, a);
    InsertionEffect(ApplyAll(EMPTY, WritesOf(upper, a)), lower, b);
    assert t.urls == map[short := a][key := b];
    assert key[..|short|] == short && |short| >= 1;
    var n: nat :| IsShortest(t.urls, key, 1, n) && ShortestPrefix(t.urls, key).value == t.urls[key[..n]];
  }

  /** Kept for requests without a username, a token or signer gives way to a username alone; a password does not. */
  lemma TokenGivesWay(url: Url, complete: Authentication, u: string)
    requires IsAuthenticated(complete)
    ensures var userOnly := Credential(Basic(Some(u), None));
      GetRealm(ApplyAll(EMPTY, WritesOf(url, complete) + WritesOf(url, userOnly)), RealmOf(url), None) ==
        Some(if Password(complete).Some? then complete else userOnly)
  {
    var userOnly := Credential(Basic(Some(u), None));
    ApplyAppend(EMPTY, WritesOf(url, complete), WritesOf(url, userOnly));
    InsertionEffect(EMPTY, url, complete);
    InsertionEffect(ApplyAll(EMPTY, WritesOf(url, complete)), url, userOnly);
  }

  /** The same at particular URLs and credentials. */
  lemma ReplacementExample()
    ensures var (site, page) := (Url("https", Some("h"), None, "/", Decoded(""), None, ""),
                                 Url("https", Some("h"), None, "/a", Decoded(""), None, ""));
      var (password, token) := (Credential(Basic(Some("u"), Some("p"))), Credential(Bearer([116])));
      var userOnly := Credential(Basic(Some("u"), None));
      && GetUrl(ApplyAll(EMPTY, WritesOf(site, token) + WritesOf(page, password)), page, None) == Some(token)
      && var (afterToken, afterPassword) := (WritesOf(page, token) + WritesOf(page, userOnly),
                                             WritesOf(page, password) + WritesOf(page, userOnly));
      && GetRealm(ApplyAll(EMPTY, afterToken), RealmOf(page), None) == Some(userOnly)
      && GetRealm(ApplyAll(EMPTY, afterPassword), RealmOf(page), None) == Some(password)
  {
    var site, page := Url("https", Some("h"), None, "/", Decoded(""), None, ""),
                      Url("https", Some("h"), None, "/a", Decoded(""), None, "");
    var password, token := Credential(Basic(Some("u"), Some("p"))), Credential(Bearer([116]));
    TokenGivesWay(page, token, "u");
    TokenGivesWay(page, password, "u");
    PathPrefixIsKeyPrefix(site, page);
    assert "/"[1..] == "" && "/a"[1..] == "a";
    SplitWithoutSeparator("a", '/');
    assert NonEmpty([""]) == [] && NonEmpty(["a"]) == ["a"];
    UpperUrlAnswers(site, page, token, password);
  }

  // ---------------------------------------------------------------------------
  // Insertions that interleave

  datatype Insertion = Insertion(url: Url, auth: Authentication)

  lemma WritesOfOne(url: Url, auth: Authentication, w: Write)
    ensures w in WritesOf(url, auth) <==> w.url == url && w.auth == auth && Issued(w)
  {
  }

  lemma WrittenIsThere(ws: seq<Write>, w: Write)
    requires AllIssued(ws) && w in ws && w.RealmWrite?
    ensures KeyOf(w) in ApplyAll(EMPTY, ws).realms
  {
    RealmTable(ws, KeyOf(w));
    var i :| 0 <= i < |ws| && ws[i] == w;
  }

  function Count(schedule: seq<nat>, who: nat): nat {
    if schedule == [] then 0 else Count(Init(schedule), who) + if Last(schedule) == who then 1 else 0
  }

  /** `h[who]` is inserted by its own task; `schedule` says which task does its next write. */
  function Interleave(h: seq<Insertion>, schedule: seq<nat>): seq<Write> {
    if schedule == [] then []
    else
      var before, who := Interleave(h, Init(schedule)), Last(schedule);
      if who >= |h| then before
      else
        var todo := WritesOf(h[who].url, h[who].auth);
        var k := Count(Init(schedule), who);
        if k >= |todo| then before else before + [todo[k]]
  }

  lemma {:induction false} InterleaveDone(h: seq<Insertion>, schedule: seq<nat>, who: nat, k: nat)
    requires who < |h| && k < Count(schedule, who) && k < |WritesOf(h[who].url, h[who].auth)|
    ensures WritesOf(h[who].url, h[who].auth)[k] in Interleave(h, schedule)
  {
    if k < Count(Init(schedule), who) { InterleaveDone(h, Init(schedule), who, k); }
  }

  lemma {:induction false} InterleaveIssued(h: seq<Insertion>, schedule: seq<nat>)
    ensures AllIssued(Interleave(h, schedule))
    ensures forall w :: w in Interleave(h, schedule) ==> Insertion(w.url, w.auth) in h
  {
    if schedule != [] {
      var before, ws, who := Interleave(h, Init(schedule)), Interleave(h, schedule), Last(schedule);
      InterleaveIssued(h, Init(schedule));
      if ws != before {
        var w := Last(ws);
        assert w in WritesOf(h[who].url, h[who].auth) && w.url == h[who].url && w.auth == h[who].auth;
        assert ws == before + [w];
      }
    }
  }

  /** Whose write it is. */
  lemma {:induction false} InterleaveWho(h: seq<Insertion>, schedule: seq<nat>, w: Write) returns (who: nat)
    requires w in Interleave(h, schedule)
    ensures who < |h| && Count(schedule, who) > 0 && w in WritesOf(h[who].url, h[who].auth)
  {
    if w in Interleave(h, Init(schedule)) {
      who := InterleaveWho(h, Init(schedule), w);
    } else {
      who := Last(schedule);
    }
  }

  /** No insertion is under way: each has made all of its writes or none. */
  ghost predicate AtRest(h: seq<Insertion>, schedule: seq<nat>) {
    forall who: nat :: who < |h| && Count(schedule, who) > 0 ==>
      |WritesOf(h[who].url, h[who].auth)| <= Count(schedule, who)
  }

  lemma CompanionIsWritten(h: seq<Insertion>, schedule: seq<nat>, who: nat)
    requires AtRest(h, schedule) && who < |h| && Count(schedule, who) > 0 && !IsEmpty(h[who].auth)
    ensures RealmWrite(h[who].url, false, h[who].auth) in Interleave(h, schedule)
  {
    var todo := WritesOf(h[who].url, h[who].auth);
    assert todo[|todo| - 2] == RealmWrite(h[who].url, false, h[who].auth);
    InterleaveDone(h, schedule, who, |todo| - 2);
  }

  /** However insertions interleaved, at rest every named entry has a companion for requests without a username. */
  lemma NamedEntriesHaveCompanions(h: seq<Insertion>, schedule: seq<nat>, realm: Realm, u: string)
    requires AtRest(h, schedule) && (realm, Some(u)) in ApplyAll(EMPTY, Interleave(h, schedule)).realms
    ensures (realm, None) in ApplyAll(EMPTY, Interleave(h, schedule)).realms
  {
    var ws := Interleave(h, schedule);
    InterleaveIssued(h, schedule);
    RealmTable(ws, (realm, Some(u)));
    var i :| 0 <= i < |ws| && ws[i].RealmWrite? && KeyOf(ws[i]) == (realm, Some(u));
    var who := InterleaveWho(h, schedule, ws[i]);
    WritesOfOne(h[who].url, h[who].auth, ws[i]);
    CompanionIsWritten(h, schedule, who);
    WrittenIsThere(ws, RealmWrite(h[who].url, false, h[who].auth));
  }

  /** The order of the three writes keeps the realm table ahead, however tasks are scheduled. */
  lemma {:induction false} InterleaveRealmFirst(h: seq<Insertion>, schedule: seq<nat>)
    ensures RealmFirst(Interleave(h, schedule))
  {
    if schedule != [] {
      var before, ws, who := Interleave(h, Init(schedule)), Interleave(h, schedule), Last(schedule);
      InterleaveRealmFirst(h, Init(schedule));
      if ws != before {
        var w := Last(ws);
        if w.UrlWrite? && Username(w.auth).Some? {
          InterleaveDone(h, Init(schedule), who, 0);
          var i :| 0 <= i < |before| && before[i] == RealmWrite(w.url, true, w.auth);
          assert ws[i] == before[i];
        }
        forall j | 0 <= j < |ws| && ws[j].UrlWrite? && Username(ws[j].auth).Some?
          ensures exists i :: 0 <= i < j && ws[i] == RealmWrite(ws[j].url, true, ws[j].auth)
        {
          if j < |before| {
            assert before[j] == ws[j];
            var i :| 0 <= i < j && before[i] == RealmWrite(before[j].url, true, before[j].auth);
            assert ws[i] == before[i];
          }
        }
      }
    }
  }

  /** Table agreement at every moment of every interleaving of insertions. */
  lemma TablesAgree(h: seq<Insertion>, schedule: seq<nat>, url: Url, u: string)
    requires WellFormed(url) && forall i :: 0 <= i < |h| ==> WellFormed(h[i].url)
    requires GetUrl(ApplyAll(EMPTY, Interleave(h, schedule)), url, Some(u)).Some?
    ensures var hit := GetRealm(ApplyAll(EMPTY, Interleave(h, schedule)), RealmOf(url), Some(u));
      hit.Some? && Username(hit.value) == Some(u) && Password(hit.value).Some?
  {
    InterleaveIssued(h, schedule);
    InterleaveRealmFirst(h, schedule);
    UrlHitGivesRealmHit(Interleave(h, schedule), url, u);
  }

  // ---------------------------------------------------------------------------
  // The cache object

  class CredentialsCache {
    var realms: map<RealmKey, Authentication>
    const urls: UrlTrie<Authentication>

    ghost predicate Valid()
      reads this, urls
    {
      urls.Valid()
    }

    ghost function View(): Tables
      reads this, urls
    {
      Tables(realms, urls.entries)
    }

    constructor ()
      ensures Valid() && fresh(urls) && View() == EMPTY
    {
      realms := map[];
      urls := new UrlTrie();
    }

    /** Returns the replaced credentials, if any. */
    method InsertRealm(key: RealmKey, auth: Authentication) returns (replaced: Option<Authentication>)
      modifies this`realms
      ensures realms == WriteRealm(old(realms), key, auth)
      ensures replaced == if Accepts(old(realms), key, auth) then Find(old(realms), key) else None
    {
      if IsEmpty(auth) { return None; }
      replaced := if key in realms then Some(realms[key]) else None;
      if IsAuthenticated(auth) {
        realms := realms[key := auth];
        return;
      }
      if replaced.None? || Password(replaced.value).None? {
        realms := realms[key := auth];
        return;
      }
      return None;
    }

    method Insert(url: Url, auth: Authentication)
      requires Valid()
      modifies this`realms, urls
      ensures Valid() && View() == ApplyAll(old(View()), WritesOf(url, auth))
    {
      ghost var t0 := View();
      if IsEmpty(auth) { return; }
      if Username(auth).Some? {
        var _ := InsertRealm((RealmOf(url), Username(auth)), auth);
      }
      ghost var t1 := View();
      var _ := InsertRealm((RealmOf(url), None), auth);
      ghost var t2 := View();
      urls.Insert(url, auth);
      InsertIsApply(t0, url, auth, t1, t2, View());
    }

    /** Whatever history led here: for a user, the last password written for them; otherwise the entry that won. */
    method FindRealm(realm: Realm, username: Option<string>) returns (r: Option<Authentication>)
      ensures r == GetRealm(View(), realm, username)
      ensures forall ws :: AllIssued(ws) && ApplyAll(EMPTY, ws) == View() ==>
        r == if username.Some? then LatestAuthenticated(ws, (realm, username)) else Winner(ws, (realm, None))
    {
      forall ws | AllIssued(ws) && ApplyAll(EMPTY, ws) == View()
        ensures GetRealm(View(), realm, username) ==
          if username.Some? then LatestAuthenticated(ws, (realm, username)) else Winner(ws, (realm, None))
      {
        RealmTable(ws, (realm, None));
        if username.Some? { NamedLookup(ws, realm, username.value); }
      }
      var key := (realm, username);
      if key !in realms { return None; }
      if username.Some? && Password(realms[key]).None? { return None; }
      return Some(realms[key]);
    }

    method FindUrl(url: Url, username: Option<string>) returns (r: Option<Authentication>)
      requires Valid()
      ensures r == GetUrl(View(), url, username)
    {
      var found := urls.Get(url);
      if found.Some? && (username.None? || username == Username(found.value)) {
        if username.Some? && Password(found.value).None? { return None; }
        return found;
      }
      return None;
    }

    method StoreCredentialsFromUrl(url: Url) returns (stored: Result<bool, UrlError>)
      requires Valid()
      modifies this`realms, urls
      ensures Valid()
      ensures View() == match FromUrl(url)
                        case Ok(Some(c)) => ApplyAll(old(View()), WritesOf(url, Credential(c)))
                        case _ => old(View())
      ensures stored == match FromUrl(url) case Ok(c) => Ok(c.Some?) case Err(e) => Err(e)
    {
      var credentials := FromUrl(url);
      match credentials
      case Err(e) => return Err(e);
      case Ok(None) => return Ok(false);
      case Ok(Some(c)) =>
        Insert(url, Credential(c));
        return Ok(true);
    }
  }

  lemma InsertIsApply(t0: Tables, url: Url, auth: Authentication, t1: Tables, t2: Tables, t3: Tables)
    requires !IsEmpty(auth)
    requires t1 == if Username(auth).Some? then Apply(t0, RealmWrite(url, true, auth)) else t0
    requires t2 == Apply(t1, RealmWrite(url, false, auth))
    requires t3 == Apply(t2, UrlWrite(url, auth))
    ensures t3 == ApplyAll(t0, WritesOf(url, auth))
  {
    var ws := WritesOf(url, auth);
    assert Last(ws) == UrlWrite(url, auth) && Last(Init(ws)) == RealmWrite(url, false, auth);
    var named := Init(Init(ws));
    assert ApplyAll(t0, named) == t1 by {
      if Username(auth).Some? {
        assert named == [RealmWrite(url, true, auth)] && Init(named) == [];
      } else {
        assert named == [];
      }
    }
    assert ApplyAll(t0, Init(ws)) == t2;
  }
}
