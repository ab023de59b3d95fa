# Verified model of uv's credential handling and three build-side algorithms

This project models, in Dafny, how uv decides which credentials a request carries, and proves what
that decision keeps over whole runs. It also covers three smaller algorithms: finding a version in a
streamed manifest, pruning redundant module names, and emitting directory entries in archives.

`dafny verify dfyconfig.toml` checks everything.

## How the model is laid out

| file | what it models |
|---|---|
| `Common.dfy` | string order, splitting at a separator |
| `Urls.dfy` | URLs, realms and their printed form, path prefixes, endpoints, indexes |
| `Auth.dfy` | credentials and their classification, URL user info, netrc |
| `Headers.dfy` | UTF-8, Base64 and the `Authorization` header |
| `Trie.dfy` | the arena trie with sorted children and binary search |
| `Cache.dfy` | the realm table and the URL trie behind one `insert` |
| `OnceMap.dfy` | the once-only fetch map, as atomic steps of concurrent callers |
| `Middleware.dfy` | one call of the middleware, as a function of shared state and outside world |
| `MiddlewareState.dfy` | what every call keeps and what it sends |
| `MiddlewareUsers.dfy` | whose credentials are sent; where the cache learned them |
| `MiddlewareAlways.dfy` | policy Always |
| `MiddlewareRealms.dfy` | credentials stay in their realm; filed credentials are reused |
| `MiddlewareProgress.dfy` | which source answers, what is sent, and what is remembered |
| `ConcurrentFetch.dfy` | credential fetches through the once-only map |
| `AuthMiddleware.dfy` | the middleware object, changed in place, proved against `Middleware.dfy` |
| `TextStore.dfy` | the plain-text store: lookup in any iteration order, and the credentials file |
| `Manifest.dfy` | the streaming manifest reader |
| `Modules.dfy` | pruning of module names |
| `Archives.dfy` | directory entries in built archives |

**Shared state.** The cache is represented by the list of table writes made so far; the two tables are
functions of that list (`Cache.RealmTable` and `Cache.UrlTable` give them in closed form). The objects
hold the tables themselves and are proved to agree with the list.

**Concurrency.** Three views are proved. In `OnceMap.dfy` every atomic action of the fetch map is a
step and callers interleave freely. In `Cache.dfy` the three writes of each insertion interleave with
those of other insertions. In `Middleware.dfy` other callers take arbitrary steps before every access
a call makes to the shared state (`World.others`); the theorems hold for all of them, and
`MiddlewareState.CallIsAllowed` shows that what is expected of other callers holds of every call.

**Outside world.** Server replies, the keyring, the native store, the prompt and signing are arbitrary
functions, given per call. Netrc and the text store are modelled as data. JSON, URL parsing of
artifacts, mirror selection and version constraints are arbitrary functions of the query.

**URLs.** `WellFormed` states what the URL parser guarantees: no colon in a scheme, a host that is not
empty and holds a colon only inside brackets, and no explicit default port. A path has segments exactly
when it starts with a slash.

## Findings

- A request that names a user can be sent as another user, but only with `onlyAuthenticated` and policy
  Never together: the request's own credentials are then ignored and cached ones overwrite the header.
  `MiddlewareUsers.UserIsKeptExactly` proves this is the only such configuration.
- A request whose URL names one user and whose header another can go out with that header. In each state this
  happens, in some outside world, exactly if the URL's credentials are complete, or the policy is not Always, no
  table has a password for the user, and nothing fetched before or configured (endpoint, token, signer, netrc)
  answers for them; under Never, if a first attempt can be made (`MiddlewareUsers.SentOnlyAsUserExactly`).
- A username with a colon is read by the server as the part before the colon
  (`MiddlewareUsers.WireUserExactly`).
- Policy Never is documented as an error when credentials are provided (`index.rs:35-38`). The code sends
  the request unchanged (`MiddlewareUsers.NeverIsTransparent`); it is bound to fail only if the URL or
  header cannot be read or the request cannot be cloned (`MiddlewareUsers.NeverErrsExactly`).
- Policy Always does not always mean complete credentials: a cached username goes out alone when nothing
  better is found. `MiddlewareAlways.AlwaysIsCompleteExactly` says exactly when, and
  `MiddlewareAlways.UsernameAloneExample` gives one such state.
- The trie answers with the shortest stored prefix, not the longest (`Cache.UpperUrlAnswers`). After any history,
  credentials just filed for a URL answer for it exactly if no shorter prefix answers otherwise
  (`Cache.FiledAnswersExactly`).
- In the realm table a password outlives later username-only credentials, but a token or signer kept
  for requests without a username does not (`Cache.TokenGivesWay`, and both at particular values in
  `Cache.ReplacementExample`).
- The documented pruning example keeps `bbb.foo`; the code keeps `bbb` (`Modules.DocumentedExample`).
- Pruning keeps exactly the names no other name includes, unless a name such as `foo-stubs` sorts
  between `foo` and `foo.bar` (`Modules.PruningIsMinimalExactly`).
- The text store's answer depends on the map's iteration order exactly when no exact entry answers and the
  only ties are below a unique longest match (`TextStore.OrderMattersExactly`; a particular store in
  `TextStore.OrderExample`).
- Without an index, fetched credentials are shared by the whole realm (`MiddlewareRealms.FetchIsShared`). What the
  text store gave for one URL belongs to a service that covers another for certain exactly if the first path leads
  to the second (`MiddlewareRealms.SharedFetchIsCoveredExactly`, `MiddlewareRealms.SiblingExample`).

## Model

| member | source | states |
|---|---|---|
| Urls.PrintRealmInjective | crates/uv-auth/src/realm.rs:42-74 | two realms print alike exactly when they are equal, so a printed realm can stand for its realm |
| Urls.PrintRealmCollides | crates/uv-auth/src/realm.rs:42-60 | outside what the parser produces, two different realms print alike |
| Urls.PathPrefixIsSegmentwise | crates/uv-auth/src/index.rs:76-90 | the string test for path prefixes is the prefix relation on segment lists, with a trailing slash leaving the last segment open |
| Urls.PathPrefixIsKeyPrefix | crates/uv-auth/src/cache.rs:223-249 | within a realm, a path-prefix match is always a prefix match on trie keys |
| Urls.EndpointOrder | crates/uv-auth/src/providers.rs:202-214 | being inside an endpoint is reflexive, transitive and antisymmetric on realm and path |
| Urls.SubdomainIsLabelwise | crates/uv-auth/src/realm.rs:85-97 | one realm is a subdomain of another if and only if scheme and port agree and the labels of the other's host are a proper suffix of its own |
| Urls.SuffixIsNotSubdomain | crates/uv-auth/src/realm.rs:91-93 | `notexample.com` is not inside `example.com` and `not.example.com` is |
| Urls.IndexFor | crates/uv-auth/src/index.rs:113-127 | the index found covers the URL, and none is found only if none covers it |
| Urls.IndexForExactly | crates/uv-auth/src/index.rs:63-127 | for parsed URLs an index is found if and only if one has the URL's realm and its root's path segments lead to the URL's |
| Urls.DefaultPorts | crates/uv-auth/src/index.rs:63-74 | for each scheme with a default port, naming that port is the same as naming none |
| Auth.FromUrlParts | crates/uv-auth/src/credentials.rs:228-259 | a URL yields exactly the user and password it names; a component that is not UTF-8 is an error |
| Auth.ThreeKinds | crates/uv-auth/src/credentials.rs:186-203 | credentials are empty, complete, or a username alone |
| Auth.HostBeforeDefault | crates/uv-auth/src/credentials.rs:208-225 | a netrc entry for the host answers whatever the default is, for its own login only |
| MiddlewareRealms.IndexSharesRealm | crates/uv-auth/src/index.rs:63-74 | comparing ports with their defaults, an index that covers a URL has its realm |
| Headers.DecodeEncodeUtf8 | crates/uv-auth/src/credentials.rs:302-306 | decoding undoes encoding for every text |
| Headers.EncodeDecodeUtf8 | crates/uv-auth/src/store.rs:166-172 | bytes accepted as text are the only encoding of that text |
| Headers.DecodeEncodeBase64 | crates/uv-auth/src/credentials.rs:301-306 | Base64 decoding, with canonical padding, undoes encoding for every byte string |
| Headers.HeaderPrints | crates/uv-auth/src/credentials.rs:336-360 | Basic credentials always print; a token prints exactly if it holds no control byte |
| Headers.HeaderRoundTrip | crates/uv-auth/src/credentials.rs:299-360 | every printed header is parsed without panicking, into the normal form of the credentials |
| Headers.HeaderRoundTripExact | crates/uv-auth/src/credentials.rs:299-360 | the credentials come back exactly for tokens, and for Basic if and only if the username is not empty and has no colon and the password is not the empty string |
| Headers.NormalFormSameHeader | crates/uv-auth/src/credentials.rs:307-323 | normalising changes no header and is idempotent |
| Headers.Utf8Examples | crates/uv-auth/src/credentials.rs:302-306 | one character of each encoded length |
| Headers.Base64Examples | crates/uv-auth/src/credentials.rs:301-306 | vectors of RFC 4648 and the last two symbols of its alphabet |
| Headers.HeaderExamples | crates/uv-auth/src/credentials.rs:336-360 | `Basic dTpw` for `u` and `p`, and `Bearer t` |
| Headers.UnreadableExamples | crates/uv-auth/src/credentials.rs:299-330 | another scheme is ignored and a malformed Basic header panics |
| Headers.HeaderByteExamples | crates/uv-auth/src/credentials.rs:336-360 | which bytes a header may hold, at the boundaries |
| Trie.Search | crates/uv-auth/src/cache.rs:277-280 | binary search finds the label or the place where it belongs |
| Trie.ShortestPrefix | crates/uv-auth/src/cache.rs:223-237 | the value of the shortest stored non-empty prefix, or nothing if no prefix is stored |
| Trie.WalkInjective | crates/uv-auth/src/cache.rs:196-214 | two label sequences never lead to the same node |
| Trie.AddChildWellFormed | crates/uv-auth/src/cache.rs:250-259 | inserting a child keeps labels sorted, children after parents and one parent per node |
| Trie.AddChildKeepsEntries | crates/uv-auth/src/cache.rs:252-258 | allocating nodes changes the value of no key |
| Trie.SetValueUpdatesOne | crates/uv-auth/src/cache.rs:261-261 | storing a value changes the entry of exactly one key |
| Trie.UrlTrie.constructor | crates/uv-auth/src/cache.rs:217-221 | a new trie stands for the empty map |
| Trie.UrlTrie.Get | crates/uv-auth/src/cache.rs:223-237 | the lookup returns the shortest stored prefix of the URL's key; opaque URLs find nothing |
| Trie.UrlTrie.Descend | crates/uv-auth/src/cache.rs:250-259 | one step of an insertion reaches the named child and leaves the map alone |
| Trie.UrlTrie.Reach | crates/uv-auth/src/cache.rs:244-260 | the insertion loop reaches the node of the whole key and leaves the map alone |
| Trie.UrlTrie.Insert | crates/uv-auth/src/cache.rs:239-262 | inserting updates the map at exactly the URL's key; opaque URLs change nothing |
| Cache.RealmTable | crates/uv-auth/src/cache.rs:169-193 | after any writes, each realm key holds its last complete credentials if those have a password, otherwise its last write |
| Cache.UrlTable | crates/uv-auth/src/cache.rs:161-163 | after any writes, each URL key holds the last value filed under it |
| Cache.NamedEntries | crates/uv-auth/src/cache.rs:145-159 | no stored credential is empty, and an entry for a user is Basic with that username |
| Cache.NamedEntriesHaveCompanions | crates/uv-auth/src/cache.rs:151-159 | however insertions interleave, whenever none is under way a realm with an entry for a user has one for requests without a username |
| Cache.PasswordsPersist | crates/uv-auth/src/cache.rs:181-192 | once a user's key holds a password it holds one, of that user, after any further writes |
| Cache.NamedLookup | crates/uv-auth/src/cache.rs:85-193 | a realm lookup for a user answers exactly the last password ever written for that user |
| Cache.NamedUrlLookup | crates/uv-auth/src/cache.rs:122-142 | a URL lookup for a user is the lookup without one if that gives the user's password, and nothing otherwise |
| Cache.UpperUrlAnswers | crates/uv-auth/src/cache.rs:223-237 | of two URLs filed one below the other, the upper one answers even for the lower one itself |
| Cache.TokenGivesWay | crates/uv-auth/src/cache.rs:181-192 | without a username, a token or signer is displaced by a later username alone and a password is not |
| Cache.FiledAnswersExactly | crates/uv-auth/src/cache.rs:223-262 | after any history, credentials just filed for a URL answer for it if and only if no shorter stored prefix answers with others |
| Cache.ReplacementExample | crates/uv-auth/src/cache.rs:181-237 | both at particular URLs and credentials |
| Cache.UrlHitOrigin | crates/uv-auth/src/cache.rs:122-142 | a URL hit was filed for the same realm under a prefix of the requested key |
| Cache.RealmHitOrigin | crates/uv-auth/src/cache.rs:85-115 | a realm hit was written for that realm |
| Cache.UrlHitGivesRealmHit | crates/uv-auth/src/cache.rs:85-164 | if the URL table hits for a user, the realm table hits for that user with a password |
| Cache.InterleaveRealmFirst | crates/uv-auth/src/cache.rs:151-163 | however insertions interleave, a user's realm entry is written before the URL entry |
| Cache.TablesAgree | crates/uv-auth/src/cache.rs:85-193 | the two tables agree at every moment of every interleaving of insertions |
| Cache.CredentialsCache.constructor | crates/uv-auth/src/cache.rs:52-58 | a new cache has two empty tables |
| Cache.CredentialsCache.InsertRealm | crates/uv-auth/src/cache.rs:169-193 | the realm table changes by the acceptance rule, and the replaced entry is returned |
| Cache.CredentialsCache.Insert | crates/uv-auth/src/cache.rs:145-164 | both tables change by the three writes of an insertion, in order |
| Cache.CredentialsCache.FindRealm | crates/uv-auth/src/cache.rs:85-115 | whatever history led to the table: for a user, the last password written for them; otherwise the entry that won |
| Cache.CredentialsCache.FindUrl | crates/uv-auth/src/cache.rs:122-142 | the URL lookup, which checks the username and asks for a password when one is given |
| Cache.CredentialsCache.StoreCredentialsFromUrl | crates/uv-auth/src/cache.rs:63-74 | credentials in the URL are inserted; a decoding error or their absence changes nothing |
| OnceMap.StepKeepsInv | crates/uv-once-map/src/lib.rs:57-114 | every atomic action of every caller keeps the invariant: one worker per pending key, no sleeper that missed its broadcast |
| OnceMap.StepLowersRank | crates/uv-once-map/src/lib.rs:57-114 | every action brings its caller closer to returning |
| OnceMap.RunInvariant | crates/uv-once-map/src/lib.rs:57-114 | the invariant holds after every run, and every stored value is one a fetch produced |
| OnceMap.OncePerKey | crates/uv-once-map/src/lib.rs:12-21 | in every run a key is fetched at most once, no caller panics, and all callers of a key return the same value |
| OnceMap.NeverStuck | crates/uv-once-map/src/lib.rs:86-107 | no wake-up is lost: while a caller has not returned, some caller can act |
| OnceMap.EveryoneReturns | crates/uv-once-map/src/lib.rs:57-114 | every run is finite, and a run that cannot go on has answered every caller |
| ConcurrentFetch.ConcurrentFetches | crates/uv-auth/src/middleware.rs:675-703 | in any interleaving, sources are consulted at most once per key, callers of a key agree, and none gets another user's Basic credentials |
| ConcurrentFetch.StepIsFetch | crates/uv-once-map/src/lib.rs:57-114 | each atomic action leaves the finished fetches alone or finishes the mover's own, not yet finished, key |
| ConcurrentFetch.RunIsFetches | crates/uv-auth/src/middleware.rs:675-898 | every run of concurrent fetches is, on the session, a sequence of finished fetches, each with what some caller's sources said |
| ConcurrentFetch.ReturnedIsFetched | crates/uv-auth/src/middleware.rs:690-703 | what a caller returns is what a fetch in one step gets from a session with those finished fetches |
| MiddlewareState.ConsultOk | crates/uv-auth/src/middleware.rs:705-892 | whatever source answers a fetch for a named user, its Basic credentials are that user's |
| MiddlewareState.FetchEvolves | crates/uv-auth/src/middleware.rs:668-898 | a fetch keeps the shared state sound, changes it only by steps of its own kind, and its result is filed under its key and answers for the user asked |
| MiddlewareState.HandleGood | crates/uv-auth/src/middleware.rs:344-577 | amid any steps of others, a call sends at most two requests, the second only after a 401, 403 or 404; changes only the header; accounts for every header by the request itself or by a table, fetch or prompt asked for the user it names; changes the shared state only by finishing fetches, creating its signer and keeping the prompt's answer; and then remembers only credentials its last request carried to success |
| MiddlewareState.CallIsAllowed | crates/uv-auth/src/middleware.rs:344-898 | the whole effect of a call is a run of steps of the kind every call may expect of others, so the expectation is met by every caller, and a sound state stays sound |
| MiddlewareState.AddedWrites | crates/uv-auth/src/middleware.rs:546-577 | each cache write a call adds is another caller's or was carried to that URL by its last request, with success |
| MiddlewareUsers.NeverSentAsAnother | crates/uv-auth/src/middleware.rs:580-663 | a request that names a user goes out with its own header, where that may go out, or with no other user's Basic credentials |
| MiddlewareUsers.SentAsAnother | crates/uv-auth/src/middleware.rs:361-483 | with `onlyAuthenticated` and policy Never, a cached user's credentials replace the request's own |
| MiddlewareUsers.UserIsKeptExactly | crates/uv-auth/src/middleware.rs:344-663 | the user is kept in every sound state and world if and only if that configuration does not apply |
| MiddlewareUsers.OwnGoesOut | crates/uv-auth/src/middleware.rs:580-663 | in a state where nothing on record or in the tables answers, or with complete credentials, the request goes out with the header it came with when the outside world is quiet |
| MiddlewareUsers.SentOnlyAsUserExactly | crates/uv-auth/src/middleware.rs:344-663 | in every sound state, no other user's Basic credentials are in any header sent, the request's own included, whatever the outside world, if and only if the request's own header is not another user's or does not go out in that state |
| MiddlewareUsers.WireUserExactly | crates/uv-auth/src/credentials.rs:299-360 | a server reads the user that was meant if and only if the name has no colon |
| MiddlewareUsers.SentUserOnTheWire | crates/uv-auth/src/middleware.rs:580-663 | so Basic credentials attached to a request that names a user are read as that user's if and only if the name has no colon |
| MiddlewareUsers.RunKeepsUsers | crates/uv-auth/src/middleware.rs:344-663 | over every run of calls, no call that names a user sends another user's Basic credentials |
| MiddlewareUsers.NeverIsTransparent | crates/uv-auth/src/middleware.rs:414-441 | under policy Never one unchanged request is sent and no shared state is touched |
| MiddlewareUsers.NeverErrsExactly | crates/uv-auth/src/index.rs:35-38 | under Never a call fails in every state and world if and only if its URL or header cannot be read, or it cannot be cloned and no authentication is required; credentials on it do not matter |
| MiddlewareUsers.WritesAreJustified | crates/uv-auth/src/middleware.rs:546-577 | over every run, each cache write was seeded, made by another caller, or earned by a successful exchange that carried it to that URL |
| MiddlewareUsers.HitsAreJustified | crates/uv-auth/src/middleware.rs:546-577 | every cache hit after a run stems from such a write in the realm it is used for |
| MiddlewareUsers.ErrorsTeachNothing | crates/uv-auth/src/middleware.rs:566-574 | a call whose replies are all errors adds nothing to the cache but what others write; alone it leaves both tables unchanged |
| MiddlewareUsers.FamilyWritesAreEarned | crates/uv-auth/src/middleware.rs:546-577 | for calls that run at the same time and see only each other's writes, every write any of them ends with is seeded or was carried to its URL, with success, by one of them |
| MiddlewareAlways.AlwaysSendsEnough | crates/uv-auth/src/middleware.rs:407-412 | under Always and outside Dependabot every request carries non-empty credentials; without cached username-only entries, complete ones, and none is added |
| MiddlewareAlways.AlwaysOverRuns | crates/uv-auth/src/middleware.rs:554-563 | the same over every run of calls under Always |
| MiddlewareAlways.UsernameAloneIsSent | crates/uv-auth/src/middleware.rs:522-529 | a username-only entry that applies is sent as it is when the outside world is quiet |
| MiddlewareAlways.AlwaysIsCompleteExactly | crates/uv-auth/src/middleware.rs:407-663 | under Always and outside Dependabot, for every request and sound state: all requests sent are complete in every world if and only if no username-only entry applies |
| MiddlewareAlways.UsernameAloneExample | crates/uv-auth/src/middleware.rs:522-529 | a particular index, cache and request where the username goes out alone |
| MiddlewareRealms.CredentialsStayInRealm | crates/uv-auth/src/middleware.rs:344-663 | credentials are attached only if written for the request's own realm before the call or by another caller, fetched under its own key, or typed in by the user |
| MiddlewareRealms.FiledIsFound | crates/uv-auth/src/middleware.rs:381-385 | credentials filed for a URL make the lookup succeed for every URL below it |
| MiddlewareRealms.FiledIsReused | crates/uv-auth/src/middleware.rs:381-395 | amid steps of others that cache nothing incomplete, an unauthenticated request at or below a URL that credentials were filed for finds complete ones and is sent once with them, with no fetch; it fails only if they cannot be attached |
| MiddlewareRealms.FetchIsShared | crates/uv-auth/src/middleware.rs:683-703 | without an index, what was fetched for one URL answers every URL of the realm for that user, with no source consulted |
| MiddlewareRealms.StoreAnswerCovers | crates/uv-auth/src/store.rs:346-397 | what the text store answers for a URL is filed under a service of its realm whose path leads to it |
| MiddlewareRealms.SharedFetchIsCoveredExactly | crates/uv-auth/src/middleware.rs:683-703 | the service of shared credentials covers the other URL, whatever is stored, if and only if the first path leads to the other |
| MiddlewareRealms.SiblingExample | crates/uv-auth/src/middleware.rs:683-703 | a particular store, and two sibling pages that share its one password |
| MiddlewareProgress.UrlBeforeHeader | crates/uv-auth/src/credentials.rs:275-291 | user info in the URL counts before the header, and if unreadable fails the call |
| MiddlewareProgress.HeaderIsRead | crates/uv-auth/src/credentials.rs:285-330 | without user info, credentials printed in the header are read in normal form |
| MiddlewareProgress.TokenAnswers | crates/uv-auth/src/middleware.rs:705-714 | the Hugging Face token answers a fetch before anything else |
| MiddlewareProgress.SignersAnswer | crates/uv-auth/src/middleware.rs:715-780 | then the signer of S3, GCS or Azure, in this order, created if need be |
| MiddlewareProgress.InvalidEndpointFails | crates/uv-auth/src/middleware.rs:675-680 | an endpoint that is not a URL fails every fetch |
| MiddlewareProgress.NetrcAnswers | crates/uv-auth/src/middleware.rs:781-795 | a netrc entry for the user answers whatever the other sources hold |
| MiddlewareProgress.TextStoreAnswers | crates/uv-auth/src/middleware.rs:796-812 | the text store answers where netrc is silent |
| MiddlewareProgress.NativeAnswers | crates/uv-auth/src/middleware.rs:813-843 | the native store, asked at the index root, answers where both are silent |
| MiddlewareProgress.KeyringAnswers | crates/uv-auth/src/middleware.rs:844-890 | the keyring, asked at the index, answers where all others are silent; if it is too, nobody does |
| MiddlewareProgress.FetchKeyExactly | crates/uv-auth/src/middleware.rs:685-691 | two fetches are one if and only if they are for one user and one index, or one realm where there is no index |
| MiddlewareProgress.AttachedPrints | crates/uv-auth/src/credentials.rs:336-400 | credentials can be attached if and only if they print as a header |
| MiddlewareProgress.OwnIsRemembered | crates/uv-auth/src/middleware.rs:546-577 | complete credentials on the request go out as they came, and are filed if and only if the reply is no error |
| MiddlewareProgress.EntryIsUsed | crates/uv-auth/src/middleware.rs:593-635 | incomplete ones are completed from the first of: index URL, index root and URL, or realm and URL without an index |
| MiddlewareProgress.FetchIsUsed | crates/uv-auth/src/middleware.rs:636-645 | otherwise from a fetch, whose result is filed on success |
| MiddlewareProgress.FetchFails | crates/uv-auth/src/middleware.rs:636-645 | a fetch that fails ends the call with nothing sent |
| MiddlewareProgress.LastResorts | crates/uv-auth/src/middleware.rs:646-662 | otherwise from the realm's entry where there is an index; failing that the request goes out as it came unless complete credentials are required; either is filed on success |
| MiddlewareProgress.UrlEntryIsUsed | crates/uv-auth/src/middleware.rs:378-395 | an unauthenticated request uses a complete entry of its URL at once |
| MiddlewareProgress.FirstReplyStands | crates/uv-auth/src/middleware.rs:414-441 | a first reply other than 401, 403 and 404 is the verdict, and under Never any reply is |
| MiddlewareProgress.UncoveredIsTried | crates/uv-auth/src/index.rs:113-127 | a request to a URL no index covers is first tried as it came |
| MiddlewareProgress.CacheAnswers | crates/uv-auth/src/middleware.rs:435-483 | a 401, 403 or 404, or a requirement to authenticate, is answered with the complete entry of the index URL or of the realm, and that reply is the verdict |
| MiddlewareProgress.FetchAnswers | crates/uv-auth/src/middleware.rs:485-520 | otherwise with fetched credentials, which are filed on success |
| MiddlewareProgress.RetryFails | crates/uv-auth/src/middleware.rs:485-506 | a fetch or prompt that fails ends the call with nothing more sent |
| MiddlewareProgress.PromptAnswersIt | crates/uv-auth/src/middleware.rs:496-520 | where authentication is required and what was fetched is incomplete, with what the user types in, which is kept and filed on success |
| MiddlewareProgress.NothingAnswers | crates/uv-auth/src/middleware.rs:522-538 | otherwise with a cached username if the URL itself had none; failing that the first reply stands, or the call fails for want of credentials |
| MiddlewareProgress.LearnedIsReused | crates/uv-auth/src/middleware.rs:546-577 | amid steps of others that cache nothing incomplete, once a request with complete credentials got a reply that is no error, an unauthenticated request at or below its URL is sent once with complete cached credentials |
| MiddlewareProgress.FetchedIsReused | crates/uv-auth/src/middleware.rs:485-577 | the same once a challenge was answered with fetched credentials and that succeeded |
| AuthMiddleware.AuthMiddleware.constructor | crates/uv-auth/src/middleware.rs:204-219 | a new middleware shares an empty state |
| AuthMiddleware.AuthMiddleware.CompleteRequest | crates/uv-auth/src/middleware.rs:546-577 | the request is sent as specified and its credentials inserted on success and only then |
| AuthMiddleware.AuthMiddleware.LookupExternally | crates/uv-auth/src/middleware.rs:781-890 | netrc, text store, native store and keyring are asked as specified, in the order `NetrcAnswers`, `TextStoreAnswers`, `NativeAnswers` and `KeyringAnswers` state |
| AuthMiddleware.AuthMiddleware.FetchCredentials | crates/uv-auth/src/middleware.rs:668-898 | a fetch acts as specified, and every path that returns a result has completed its key with it |
| AuthMiddleware.AuthMiddleware.FindPasswordElsewhere | crates/uv-auth/src/middleware.rs:627-662 | after the first cache lookups miss: URL entry, fetch, realm fallback, then the request as it is |
| AuthMiddleware.AuthMiddleware.CompleteWithRequestCredentials | crates/uv-auth/src/middleware.rs:580-663 | the path for requests that carry credentials acts as specified |
| AuthMiddleware.AuthMiddleware.PromptUser | crates/uv-auth/src/middleware.rs:496-506 | the prompt applies only where required, and its answer is kept |
| AuthMiddleware.AuthMiddleware.RetryFromOutside | crates/uv-auth/src/middleware.rs:485-538 | fetch, prompt, cached username or the first reply, in this order |
| AuthMiddleware.AuthMiddleware.RetryRequest | crates/uv-auth/src/middleware.rs:456-483 | complete credentials cached for the index or realm are used before anything else |
| AuthMiddleware.AuthMiddleware.AttemptRequest | crates/uv-auth/src/middleware.rs:407-455 | a first attempt is made unless authentication is required, and retried on a challenge |
| AuthMiddleware.AuthMiddleware.HandleUnauthenticated | crates/uv-auth/src/middleware.rs:378-402 | the URL table is consulted before the first attempt |
| AuthMiddleware.AuthMiddleware.HandleRequest | crates/uv-auth/src/middleware.rs:344-539 | one call changes the shared state, extends the trace and answers as specified; the requests it adds to the trace keep the named user and the two-request rule, and the writes it adds are earned or others' |
| TextStore.GetCredentials | crates/uv-auth/src/store.rs:341-398 | in every iteration order: the exact entry, or an error if a tie for the best match so far is met, or the most specific match |
| TextStore.TwoLongestTie | crates/uv-auth/src/store.rs:383-389 | two most specific matches are met as a tie in every order |
| TextStore.NoTieNoError | crates/uv-auth/src/store.rs:383-390 | with distinct match lengths no order reports a tie |
| TextStore.LongestTieAlwaysErrs | crates/uv-auth/src/store.rs:387-389 | a tie at the longest length is an error in every order |
| TextStore.OrderMattersExactly | crates/uv-auth/src/store.rs:360-397 | the order can change the answer if and only if no exact entry answers and there is a tie but none at the longest length |
| TextStore.OrderExample | crates/uv-auth/src/store.rs:360-397 | a particular store and two orders, one of which finds the entry and one of which reports a tie |
| TextStore.ExactNeedsService | crates/uv-auth/src/store.rs:346-358 | an entry for the URL itself settles a tie if and only if the URL is HTTPS or a local HTTP address |
| TextStore.NamedLookup | crates/uv-auth/src/store.rs:346-397 | if realm and path determine a service, a lookup with a username is never ambiguous and equals the unique most specific match, also when the exact entry answers |
| TextStore.LookupKeepsUsername | crates/uv-auth/src/store.rs:376-381 | a lookup for a user never yields another user's credentials |
| TextStore.WireRoundTrip | crates/uv-auth/src/store.rs:156-228 | an entry survives the wire form exactly if Basic has a username and a token is text; Basic without a username is rejected |
| TextStore.WireErrors | crates/uv-auth/src/store.rs:175-228 | each error is reported if and only if its field is missing or surplus |
| TextStore.LaterTableWins | crates/uv-auth/src/store.rs:272-292 | of two tables for one service and user the later counts, and a bad table rejects the file |
| TextStore.ReadFile | crates/uv-auth/src/store.rs:272-292 | a store read from a file files every entry under its own username |
| TextStore.FileRoundTrip | crates/uv-auth/src/store.rs:272-336 | writing in any order and reading back restores the store if and only if every entry survives the wire form |
| TextStore.TextCredentialStore.Insert | crates/uv-auth/src/store.rs:401-407 | the entry is filed under its own username and the replaced one returned |
| TextStore.TextCredentialStore.Remove | crates/uv-auth/src/store.rs:410-413 | exactly the given entry is removed and returned |
| Manifest.CheckVersion | crates/uv-bin-install/src/lib.rs:636-682 | an eligible version resolves to its first usable artifact, any other to nothing |
| Manifest.CheckVersionMatch | crates/uv-bin-install/src/lib.rs:636-682 | the search loop with early return computes that, and nothing after the cutoff or outside the constraints resolves |
| Manifest.CutoffIsInclusive | crates/uv-bin-install/src/lib.rs:636-682 | a version at the moment of the cutoff resolves, a later one does not, and only `zip` and `tar.gz` are usable |
| Manifest.BlankExamples | crates/uv-bin-install/src/lib.rs:578-580 | which texts are blank, at the boundaries |
| Manifest.FirstDecisive | crates/uv-bin-install/src/lib.rs:506-511 | the result of the first line that errors or matches |
| Manifest.ParseAndCheck | crates/uv-bin-install/src/lib.rs:575-588 | a line is passed over if and only if it encodes a text that is blank or describes a version that is not eligible or has nothing usable; it is rejected as text if and only if it encodes none |
| Manifest.DrainLines | crates/uv-bin-install/src/lib.rs:602-610 | complete lines are taken off the buffer up to the first that decides |
| Manifest.Feed | crates/uv-bin-install/src/lib.rs:599-610 | after a chunk, the answer is that of the complete lines delivered so far |
| Manifest.LineByLine | crates/uv-bin-install/src/lib.rs:599-630 | the first line decides or is passed over; a last line without a newline counts at the end of the stream and not when it breaks off |
| Manifest.CompleteLinesAreFinal | crates/uv-bin-install/src/lib.rs:601-610 | an answer given by complete lines is the answer of every continuation, complete or broken off |
| Manifest.FindMatchingVersion | crates/uv-bin-install/src/lib.rs:549-630 | for every cutting into chunks the result is that of splitting the delivered body at newlines; a broken stream is decided by its complete lines or is a fetch error |
| Modules.PruneRedundantModules | crates/uv-build-backend/src/lib.rs:262-281 | the result is strictly sorted, taken from the input, free of adjacent inclusion, and includes every input name through the last kept name not above it |
| Modules.PruningIsUnique | crates/uv-build-backend/src/lib.rs:244-261 | the result depends only on the set of names |
| Modules.MinimalIsKept | crates/uv-build-backend/src/lib.rs:256-259 | a name that no other name includes is never dropped |
| Modules.PruningIsMinimalExactly | crates/uv-build-backend/src/lib.rs:262-281 | exactly those names are kept if and only if no name sorts between one of them and a descendant of it |
| Modules.IdentifiersAreFine | crates/uv-build-backend/src/lib.rs:256-259 | names made of characters from '.' on are always pruned to exactly those |
| Modules.StubsSeparate | crates/uv-build-backend/src/lib.rs:270-276 | with `foo`, `foo-stubs` and `foo.bar`, `foo.bar` is kept beside `foo` |
| Modules.DocumentedExample | crates/uv-build-backend/src/lib.rs:259-259 | among dotted names `bbb` survives and `bbb.foo` does not, unlike the documented example |
| Modules.PruneRedundantModulesWarn | crates/uv-build-backend/src/lib.rs:284-296 | kept and ignored names together are exactly the input, with multiplicity |
| Archives.EveryArchive | crates/uv-build-backend/src/lib.rs:133-162 | for every sequence of writes sharing one directory set, each directory is emitted once and every ancestor of a file below its prefix before the file |
| Archives.EveryFileIsWritten | crates/uv-build-backend/src/lib.rs:145-162 | the files in an archive are exactly those written, in order and with repetitions |
| Archives.EveryDirectoryIsNeeded | crates/uv-build-backend/src/lib.rs:133-162 | a directory is in an archive if and only if it was written or lies strictly between a written file and its prefix |
| Archives.ArchiveExample | crates/uv-build-backend/src/lib.rs:145-162 | two archives of one file |
| Archives.PrefixWellOrdered | crates/uv-build-backend/src/lib.rs:133-162 | that order holds for whatever was written before a failure |
| Archives.ArchiveWriter.WriteDirectoryOnce | crates/uv-build-backend/src/lib.rs:133-143 | a directory is emitted unless it was before; a rejected one still counts as written |
| Archives.ArchiveWriter.WriteAncestors | crates/uv-build-backend/src/lib.rs:152-159 | the directories between a file and its prefix are emitted outermost first, up to one that is rejected |
| Archives.ArchiveWriter.WriteFileWithDirectories | crates/uv-build-backend/src/lib.rs:145-162 | missing ancestors and then the file are emitted, the file last; on failure exactly what comes before the rejected entry, still in order |

## Left out

- URL parsing, percent decoding and TOML syntax: parsed values and wire records are modelled; a user-info component that fails to decode is a case of its own.
- Signing by AWS, GCS and Azure: a signer is an opaque complete credential that may fail; that signing can rewrite the request's path and query is not modelled.
- A malformed `Basic` header makes the original panic; in the middleware model this is a failed call.
- Keyring subprocess and native calls, the prompt's terminal input, lock files: only that a lookup for a username answers for that username.
- Environment variables, lazily initialised globals, logging, tracing and redaction: no effect on the modelled state.
- Cancellation and panics inside a fetch: a fetch step always produces a result.
- In the middleware model one call's own insertion is not interrupted by others; `Cache.TablesAgree` covers interrupted insertions.
- Retries, URL fallback, archive extraction and installation in `uv-bin-install`: I/O around the modelled reader.
- Version constraint evaluation, JSON parsing and mirror URLs: arbitrary functions.
- The rest of `uv-build-backend` (metadata, globs, wheel and sdist writing) and audit rendering: mostly field copying and formatting.
- `apply`, `from_env`, `Display` and `Debug` implementations: single-step conversions.
- Absolute paths and `..` in archive entries: paths are lists of normal components.
