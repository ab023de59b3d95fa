/** The plain-text credential store: prefix lookup over an unordered map, and the credentials file. */
module TextStore {
  import opened Common
  import opened Urls
  import opened Auth
  import opened Headers

  /** A service URL and a username. */
  type Key = (Url, Option<string>)

  type Store = map<Key, Credentials>

  function UsernameOf(c: Credentials): Option<string> {
    if c.Basic? then c.username else None
  }

  /** Entries are filed under their own username. */
  ghost predicate Consistent(m: Store) {
    forall k :: k in m ==> k.1 == UsernameOf(m[k])
  }

  /** Which URLs can be turned into a service. */
  predicate IsService(url: Url) {
    url.scheme == "https" ||
    (url.scheme == "http" && url.host in [Some("localhost"), Some("127.0.0.1"), Some("[::1]")])
  }

  predicate Matches(k: Key, url: Url, username: Option<string>) {
    && RealmOf(k.0) == RealmOf(url)
    && IsPathPrefix(k.0.path, url.path)
    && (username.Some? ==> k.1 == username)
  }

  function Specificity(k: Key): nat {
    |k.0.path|
  }

  function Exact(m: Store, url: Url, username: Option<string>): Option<Credentials> {
    var k := (url, NewUsername(username));
    if IsService(url) && k in m then Some(m[k]) else None
  }

  datatype LookupError = AmbiguousUsername(url: Url)

  type Answer = Result<Option<Credentials>, LookupError>

  /** `order` lists every key of the map once. */
  ghost predicate Enumerates(order: seq<Key>, m: Store) {
    Distinct(order) && forall k :: k in order <==> k in m
  }

  /** Entries `i` and `j` tie for the most specific match seen up to `j`. */
  ghost predicate TieAt(order: seq<Key>, url: Url, username: Option<string>, i: int, j: int) {
    && 0 <= i < j < |order|
    && Matches(order[i], url, username) && Matches(order[j], url, username)
    && Specificity(order[i]) == Specificity(order[j])
    && forall k :: 0 <= k < j && Matches(order[k], url, username) ==> Specificity(order[k]) <= Specificity(order[j])
  }

  ghost predicate MeetsTie(order: seq<Key>, url: Url, username: Option<string>) {
    exists i, j :: TieAt(order, url, username, i, j)
  }

  ghost predicate IsLongest(m: Store, url: Url, username: Option<string>, k: Key) {
    k in m && Matches(k, url, username) &&
    forall k' :: k' in m && Matches(k', url, username) ==> Specificity(k') <= Specificity(k)
  }

  /** The outcome of scanning the entries in the given order. */
  ghost function ScanAnswer(m: Store, order: seq<Key>, url: Url, username: Option<string>): Answer {
    if MeetsTie(order, url, username) then Err(AmbiguousUsername(url))
    else if exists k :: IsLongest(m, url, username, k) then
      var k :| IsLongest(m, url, username, k);
      Ok(Some(m[k]))
    else Ok(None)
  }

  ghost function Lookup(m: Store, order: seq<Key>, url: Url, username: Option<string>): Answer {
    var exact := Exact(m, url, username);
    if exact.Some? then Ok(exact) else ScanAnswer(m, order, url, username)
  }

  /** Two most specific matches are met as a tie in every order. */
  lemma TwoLongestTie(m: Store, order: seq<Key>, url: Url, username: Option<string>, a: Key, b: Key)
    requires Enumerates(order, m) && a != b
    requires IsLongest(m, url, username, a) && IsLongest(m, url, username, b)
    ensures MeetsTie(order, url, username)
  {
    var i :| 0 <= i < |order| && order[i] == a;
    var j :| 0 <= j < |order| && order[j] == b;
    assert forall n :: 0 <= n < |order| ==> order[n] in m;
    assert TieAt(order, url, username, if i < j then i else j, if i < j then j else i);
  }

  method GetCredentials(m: Store, order: seq<Key>, url: Url, username: Option<string>) returns (r: Answer)
    requires Enumerates(order, m)
    ensures r == Lookup(m, order, url, username)
  {
    var exact := Exact(m, url, username);
    if exact.Some? { return Ok(exact); }
    var best: Option<Key> := None;
    ghost var bestAt := 0;
    for n := 0 to |order|
      invariant best.None? ==> forall k :: 0 <= k < n ==> !Matches(order[k], url, username)
      invariant best.Some? ==> 0 <= bestAt < n && order[bestAt] == best.value && Matches(best.value, url, username)
      invariant best.Some? ==> forall k :: 0 <= k < n && Matches(order[k], url, username) ==>
        Specificity(order[k]) < Specificity(best.value) || (k == bestAt)
      invariant forall i, j :: TieAt(order, url, username, i, j) ==> n <= j
    {
      var k := order[n];
      if RealmOf(k.0) != RealmOf(url) { continue; }
      if !IsPathPrefix(k.0.path, url.path) { continue; }
      if username.Some? && username != k.1 { continue; }
      var specificity := |k.0.path|;
      if best.None? || specificity > Specificity(best.value) {
        best := Some(k);
        bestAt := n;
      } else if specificity == Specificity(best.value) {
        assert TieAt(order, url, username, bestAt, n);
        return Err(AmbiguousUsername(url));
      }
    }
    assert !MeetsTie(order, url, username);
    if best.Some? {
      assert best.value in m;
      assert IsLongest(m, url, username, best.value);
      forall k | IsLongest(m, url, username, k) ensures k == best.value {
        if k != best.value { TwoLongestTie(m, order, url, username, k, best.value); }
      }
      return Ok(Some(m[best.value]));
    }
    assert forall k :: k in m ==> !Matches(k, url, username);
    return Ok(None);
  }

  // ---------------------------------------------------------------------------
  // Which answers depend on the iteration order

  ghost predicate TiedPair(m: Store, url: Url, username: Option<string>, a: Key, b: Key) {
    a in m && b in m && a != b && Matches(a, url, username) && Matches(b, url, username) &&
    Specificity(a) == Specificity(b)
  }

  /** Two entries tie for the most specific match. */
  ghost predicate LongestTie(m: Store, url: Url, username: Option<string>) {
    exists a, b :: TiedPair(m, url, username, a, b) && IsLongest(m, url, username, a)
  }

  ghost predicate SomeTie(m: Store, url: Url, username: Option<string>) {
    exists a, b :: TiedPair(m, url, username, a, b)
  }

  /** With distinct lengths every order finds the longest match. */
  lemma NoTieNoError(m: Store, order: seq<Key>, url: Url, username: Option<string>)
    requires Enumerates(order, m) && !SomeTie(m, url, username)
    ensures !MeetsTie(order, url, username)
  {
    forall i, j | TieAt(order, url, username, i, j) ensures false {
      assert TiedPair(m, url, username, order[i], order[j]);
    }
  }

  /** A tie at the longest length is an error in every order. */
  lemma LongestTieAlwaysErrs(m: Store, order: seq<Key>, url: Url, username: Option<string>)
    requires Enumerates(order, m) && LongestTie(m, url, username)
    ensures MeetsTie(order, url, username)
  {
    var a, b :| TiedPair(m, url, username, a, b) && IsLongest(m, url, username, a);
    assert IsLongest(m, url, username, b);
    TwoLongestTie(m, order, url, username, a, b);
  }

  lemma {:induction false} EnumerateSet(s: set<Key>) returns (order: seq<Key>)
    ensures Distinct(order) && forall k :: k in order <==> k in s
    decreases |s|
  {
    if s == {} {
      order := [];
    } else {
      var k :| k in s;
      var rest := EnumerateSet(s - {k});
      order := [k] + rest;
    }
  }

  /** Reading the longest match first hides every tie. */
  lemma LongestFirst(m: Store, url: Url, username: Option<string>, best: Key) returns (order: seq<Key>)
    requires IsLongest(m, url, username, best) && !LongestTie(m, url, username)
    ensures Enumerates(order, m) && !MeetsTie(order, url, username)
  {
    var rest := EnumerateSet(m.Keys - {best});
    order := [best] + rest;
    assert forall k :: k in order <==> k in m;
    forall i, j | TieAt(order, url, username, i, j) ensures false {
      assert order[0] == best && order[i] in m && order[j] in m;
      assert IsLongest(m, url, username, order[i]);
      assert TiedPair(m, url, username, order[i], order[j]);
    }
  }

  /** Reading a tied pair first reports it. */
  lemma TieFirst(m: Store, url: Url, username: Option<string>, a: Key, b: Key) returns (order: seq<Key>)
    requires TiedPair(m, url, username, a, b)
    ensures Enumerates(order, m) && MeetsTie(order, url, username)
  {
    var rest := EnumerateSet(m.Keys - {a, b});
    order := [a, b] + rest;
    assert TieAt(order, url, username, 0, 1);
  }

  /** Two iteration orders of one store give different answers. */
  ghost predicate OrderMatters(m: Store, url: Url, username: Option<string>) {
    exists o1, o2 :: Enumerates(o1, m) && Enumerates(o2, m) &&
      Lookup(m, o1, url, username) != Lookup(m, o2, url, username)
  }

  lemma {:induction false} LongestExists(m: Store, s: set<Key>, url: Url, username: Option<string>, a: Key)
    returns (best: Key)
    requires s <= m.Keys && a in s && Matches(a, url, username)
    ensures best in s && Matches(best, url, username)
    ensures forall k :: k in s && Matches(k, url, username) ==> Specificity(k) <= Specificity(best)
    decreases |s|
  {
    best := a;
    if k :| k in s && Matches(k, url, username) && Specificity(a) < Specificity(k) {
      var smaller := s - {a};
      best := LongestExists(m, smaller, url, username, k);
    }
  }

  /**
   The order of the map shows exactly when no exact entry answers and the only ties are below a unique
   longest match.
   */
  lemma OrderMattersExactly(m: Store, url: Url, username: Option<string>)
    ensures OrderMatters(m, url, username) <==>
      Exact(m, url, username).None? && SomeTie(m, url, username) && !LongestTie(m, url, username)
  {
    if Exact(m, url, username).None? && SomeTie(m, url, username) && !LongestTie(m, url, username) {
      var a, b :| TiedPair(m, url, username, a, b);
      var best := LongestExists(m, m.Keys, url, username, a);
      var o1 := LongestFirst(m, url, username, best);
      var o2 := TieFirst(m, url, username, a, b);
      assert Lookup(m, o1, url, username).Ok? && Lookup(m, o2, url, username).Err?;
    }
    forall o1, o2 | Enumerates(o1, m) && Enumerates(o2, m) &&
                    Lookup(m, o1, url, username) != Lookup(m, o2, url, username)
      ensures Exact(m, url, username).None? && SomeTie(m, url, username) && !LongestTie(m, url, username)
    {
      if !SomeTie(m, url, username) {
        NoTieNoError(m, o1, url, username);
        NoTieNoError(m, o2, url, username);
      } else if LongestTie(m, url, username) {
        LongestTieAlwaysErrs(m, o1, url, username);
        LongestTieAlwaysErrs(m, o2, url, username);
      }
    }
  }

  function Service(path: string): Url {
    Url("https", Some("h"), None, path, Decoded(""), None, "")
  }

  /** Users `x` and `y` tie below the service of `z`: whether `z` is found depends on who is met first. */
  lemma OrderExample()
    ensures var (x, y, z) := ((Service("/a"), Some("x")), (Service("/a"), Some("y")), (Service("/a/b"), Some("z")));
      var c := Basic(Some("z"), Some("p"));
      var m := map[x := Basic(Some("x"), Some("p")), y := Basic(Some("y"), Some("p")), z := c];
      && Consistent(m) && Enumerates([z, x, y], m) && Enumerates([x, y, z], m)
      && Lookup(m, [z, x, y], Service("/a/b/c"), None) == Ok(Some(c))
      && Lookup(m, [x, y, z], Service("/a/b/c"), None).Err?
  {
    var x, y, z := (Service("/a"), Some("x")), (Service("/a"), Some("y")), (Service("/a/b"), Some("z"));
    var c, url := Basic(Some("z"), Some("p")), Service("/a/b/c");
    var m := map[x := Basic(Some("x"), Some("p")), y := Basic(Some("y"), Some("p")), z := c];
    assert url.path[2..] == "/b/c" && url.path[4..] == "/c";
    assert Matches(x, url, None) && Matches(y, url, None) && Matches(z, url, None);
    assert TieAt([x, y, z], url, None, 0, 1);
    assert IsLongest(m, url, None, z) && forall k :: IsLongest(m, url, None, k) ==> k == z;
    assert Specificity(z) == 4 && Specificity(x) == Specificity(y) == 2;
    assert [z, x, y][0] == z;
    assert !MeetsTie([z, x, y], url, None);
  }

  /** An entry for the URL itself settles a tie only where the URL can be a service: not remote plain HTTP. */
  lemma ExactNeedsService(order: seq<Key>, scheme: string, host: string)
    requires var url := Service("/a").(scheme := scheme, host := Some(host));
      Enumerates(order, map[(url, None) := Bearer([116]), (url, Some("x")) := Basic(Some("x"), None)])
    ensures var url := Service("/a").(scheme := scheme, host := Some(host));
      var m := map[(url, None) := Bearer([116]), (url, Some("x")) := Basic(Some("x"), None)];
      && (scheme == "https" ==> Lookup(m, order, url, None) == Ok(Some(Bearer([116]))))
      && (scheme == "http" && host in {"localhost", "127.0.0.1", "[::1]"} ==>
            Lookup(m, order, url, None) == Ok(Some(Bearer([116]))))
      && (scheme == "http" && host !in {"localhost", "127.0.0.1", "[::1]"} ==>
            Lookup(m, order, url, None) == Err(AmbiguousUsername(url)))
  {
    var url := Service("/a").(scheme := scheme, host := Some(host));
    var m := map[(url, None) := Bearer([116]), (url, Some("x")) := Basic(Some("x"), None)];
    assert Matches((url, None), url, None) && Matches((url, Some("x")), url, None);
    assert IsLongest(m, url, None, (url, None)) && IsLongest(m, url, None, (url, Some("x")));
    TwoLongestTie(m, order, url, None, (url, None), (url, Some("x")));
  }

  // ---------------------------------------------------------------------------
  // Lookup with a username

  /** No two services differ only in query, fragment or user info. */
  ghost predicate Determined(m: Store) {
    forall a, b :: a in m && b in m && RealmOf(a.0) == RealmOf(b.0) && a.0.path == b.0.path ==> a.0 == b.0
  }

  /** Equal-length prefixes of one path are equal, so a username settles every tie. */
  lemma UsernameSettlesTies(m: Store, url: Url, u: string, a: Key, b: Key)
    requires Determined(m) && a in m && b in m
    requires Matches(a, url, Some(u)) && Matches(b, url, Some(u)) && Specificity(a) == Specificity(b)
    ensures a == b
  {
  }

  /** With a username the answer is the unique most specific match, in every order and on both paths. */
  lemma {:induction false} NamedLookup(m: Store, order: seq<Key>, url: Url, u: string)
    requires Determined(m) && Enumerates(order, m) && u != ""
    ensures Lookup(m, order, url, Some(u)).Ok?
    ensures forall k :: IsLongest(m, url, Some(u), k) ==> Lookup(m, order, url, Some(u)) == Ok(Some(m[k]))
    ensures (forall k :: k in m ==> !Matches(k, url, Some(u))) ==> Lookup(m, order, url, Some(u)) == Ok(None)
  {
    var exact := (url, Some(u));
    forall i, j | TieAt(order, url, Some(u), i, j) ensures false {
      UsernameSettlesTies(m, url, u, order[i], order[j]);
    }
    forall k | IsLongest(m, url, Some(u), k) ensures Lookup(m, order, url, Some(u)) == Ok(Some(m[k])) {
      if exact in m {
        assert Matches(exact, url, Some(u)) && Specificity(k) <= |url.path|;
        UsernameSettlesTies(m, url, u, k, exact);
      }
      forall k' | IsLongest(m, url, Some(u), k') ensures k' == k {
        UsernameSettlesTies(m, url, u, k, k');
      }
    }
  }

  /** A lookup for a named user never yields Basic credentials of another. */
  lemma LookupKeepsUsername(m: Store, order: seq<Key>, url: Url, u: string)
    requires Consistent(m) && u != ""
    requires Lookup(m, order, url, Some(u)).Ok? && Lookup(m, order, url, Some(u)).value.Some?
    ensures UsernameOf(Lookup(m, order, url, Some(u)).value.value) == Some(u)
  {
  }

  // ---------------------------------------------------------------------------
  // The credentials file

  datatype Scheme = BasicScheme | BearerScheme

  /** One `credential` table of the file. */
  datatype Wire = Wire(
    service: Url, username: Option<string>, scheme: Scheme, password: Option<string>, token: Option<string>)

  datatype WireError =
    | MissingUsername | UnexpectedToken
    | UnexpectedUsername | UnexpectedPassword | MissingToken

  /** No result when the token is not text, on which the original panics. */
  function ToWire(service: Url, c: Credentials): Option<Wire> {
    match c
    case Basic(username, password) => Some(Wire(service, username, BasicScheme, password, None))
    case Bearer(token) =>
      var text := DecodeUtf8(token);
      if text.None? then None else Some(Wire(service, None, BearerScheme, None, text))
  }

  function FromWire(w: Wire): Result<Credentials, WireError> {
    match w.scheme
    case BasicScheme =>
      if w.username.None? then Err(MissingUsername)
      else if w.token.Some? then Err(UnexpectedToken)
      else Ok(Basic(w.username, w.password))
    case BearerScheme =>
      if w.username.Some? then Err(UnexpectedUsername)
      else if w.password.Some? then Err(UnexpectedPassword)
      else if w.token.None? then Err(MissingToken)
      else Ok(Bearer(EncodeUtf8(w.token.value)))
  }

  function WriteFile(m: Store, order: seq<Key>): Option<seq<Wire>>
    requires forall k :: k in order ==> k in m
  {
    if order == [] then Some([])
    else
      var first, rest := ToWire(order[0].0, m[order[0]]), WriteFile(m, order[1..]);
      if first.None? || rest.None? then None else Some([first.value] + rest.value)
  }

  /** Later entries for the same key win; any bad entry rejects the file. */
  function ReadFile(file: seq<Wire>): (r: Result<Store, WireError>)
    ensures r.Ok? ==> Consistent(r.value)
  {
    if file == [] then Ok(map[])
    else
      match (ReadFile(Init(file)), FromWire(Last(file)))
      case (Err(e), _) => Err(e)
      case (_, Err(e)) => Err(e)
      case (Ok(m), Ok(c)) => Ok(m[(Last(file).service, UsernameOf(c)) := c])
  }

  /** An entry that survives the file. */
  predicate Storable(c: Credentials) {
    match c
    case Basic(username, _) => username.Some?
    case Bearer(token) => DecodeUtf8(token).Some?
  }

  /** A `credential` table with a field too many or too few is rejected. */
  lemma WireErrors(w: Wire)
    ensures w.scheme.BasicScheme? ==>
      (FromWire(w) == Err(MissingUsername) <==> w.username.None?) &&
      (FromWire(w) == Err(UnexpectedToken) <==> w.username.Some? && w.token.Some?)
    ensures w.scheme.BearerScheme? ==>
      (FromWire(w) == Err(UnexpectedUsername) <==> w.username.Some?) &&
      (FromWire(w) == Err(UnexpectedPassword) <==> w.username.None? && w.password.Some?) &&
      (FromWire(w) == Err(MissingToken) <==> w.username.None? && w.password.None? && w.token.None?)
  {
  }

  /** Of two tables for one service and user the later one counts, and a bad table rejects the file. */
  lemma LaterTableWins(service: Url, u: string, p: Option<string>, q: Option<string>)
    ensures ReadFile([Wire(service, Some(u), BasicScheme, p, None), Wire(service, Some(u), BasicScheme, q, None)]) ==
      Ok(map[(service, Some(u)) := Basic(Some(u), q)])
    ensures ReadFile([Wire(service, None, BasicScheme, p, None), Wire(service, Some(u), BasicScheme, q, None)]) ==
      Err(MissingUsername)
  {
    var good, bad := Wire(service, Some(u), BasicScheme, p, None), Wire(service, None, BasicScheme, p, None);
    var last := Wire(service, Some(u), BasicScheme, q, None);
    assert Init([good, last]) == [good] && Init([bad, last]) == [bad] && Init([good]) == [] && Init([bad]) == [];
    assert ReadFile([good]) == Ok(map[(service, Some(u)) := Basic(Some(u), p)]);
    assert ReadFile([bad]) == Err(MissingUsername);
    var k := (service, Some(u));
    assert map[k := Basic(Some(u), p)][k := Basic(Some(u), q)] == map[k := Basic(Some(u), q)];
  }

  lemma WireRoundTrip(service: Url, c: Credentials)
    ensures ToWire(service, c).Some? && FromWire(ToWire(service, c).value) == Ok(c) <==> Storable(c)
    ensures ToWire(service, c).Some? && !Storable(c) ==> FromWire(ToWire(service, c).value) == Err(MissingUsername)
  {
    if c.Bearer? && DecodeUtf8(c.token).Some? { EncodeDecodeUtf8(c.token); }
  }

  lemma {:induction false} WrittenEntries(m: Store, order: seq<Key>)
    requires forall k :: k in order ==> k in m
    ensures WriteFile(m, order).Some? <==> forall i :: 0 <= i < |order| ==> ToWire(order[i].0, m[order[i]]).Some?
    ensures WriteFile(m, order).Some? ==>
      && |WriteFile(m, order).value| == |order|
      && forall i :: 0 <= i < |order| ==> Some(WriteFile(m, order).value[i]) == ToWire(order[i].0, m[order[i]])
  {
    if order != [] {
      WrittenEntries(m, order[1..]);
      assert forall i :: 0 < i < |order| ==> order[i] == order[1..][i - 1];
    }
  }

  ghost function Restrict(m: Store, order: seq<Key>): (r: Store)
    requires forall k :: k in order ==> k in m
    ensures r.Keys == (set k | k in order) && forall k :: k in order ==> r[k] == m[k]
  {
    if order == [] then map[]
    else
      assert order == Init(order) + [Last(order)];
      Restrict(m, Init(order))[Last(order) := m[Last(order)]]
  }

  lemma {:induction false} ReadEntries(m: Store, order: seq<Key>, file: seq<Wire>)
    requires Consistent(m) && |file| == |order| && forall k :: k in order ==> k in m
    requires forall i :: 0 <= i < |order| ==> Storable(m[order[i]]) && Some(file[i]) == ToWire(order[i].0, m[order[i]])
    ensures ReadFile(file) == Ok(Restrict(m, order))
  {
    if order != [] {
      var k, w := Last(order), Last(file);
      ReadEntries(m, Init(order), Init(file));
      WireRoundTrip(k.0, m[k]);
      assert FromWire(w) == Ok(m[k]) && (w.service, UsernameOf(m[k])) == k;
    }
  }

  lemma {:induction false} BadEntryRejects(file: seq<Wire>, i: nat)
    requires i < |file| && FromWire(file[i]).Err?
    ensures ReadFile(file).Err?
  {
    if i < |file| - 1 { BadEntryRejects(Init(file), i); }
  }

  lemma StorableSurvives(m: Store, order: seq<Key>)
    requires Consistent(m) && Enumerates(order, m) && forall k :: k in m ==> Storable(m[k])
    ensures WriteFile(m, order).Some? && ReadFile(WriteFile(m, order).value) == Ok(m)
  {
    WrittenEntries(m, order);
    forall i | 0 <= i < |order| ensures ToWire(order[i].0, m[order[i]]).Some? {
      WireRoundTrip(order[i].0, m[order[i]]);
    }
    ReadEntries(m, order, WriteFile(m, order).value);
    assert Restrict(m, order) == m;
  }

  lemma UnstorableIsRejected(m: Store, order: seq<Key>, k: Key)
    requires Enumerates(order, m) && k in m && !Storable(m[k]) && WriteFile(m, order).Some?
    ensures ReadFile(WriteFile(m, order).value).Err?
  {
    WrittenEntries(m, order);
    var i :| 0 <= i < |order| && order[i] == k;
    WireRoundTrip(k.0, m[k]);
    BadEntryRejects(WriteFile(m, order).value, i);
  }

  /** Writing in any order and reading back restores the store exactly when every entry is storable. */
  lemma FileRoundTrip(m: Store, order: seq<Key>)
    requires Consistent(m) && Enumerates(order, m)
    ensures WriteFile(m, order).Some? && ReadFile(WriteFile(m, order).value) == Ok(m)
      <==> forall k :: k in m ==> Storable(m[k])
  {
    if forall k :: k in m ==> Storable(m[k]) {
      StorableSurvives(m, order);
    } else if WriteFile(m, order).Some? {
      var k :| k in m && !Storable(m[k]);
      UnstorableIsRejected(m, order, k);
    }
  }

  // ---------------------------------------------------------------------------
  // The store object

  class TextCredentialStore {
    var credentials: Store

    ghost predicate Valid()
      reads this
    {
      Consistent(credentials)
    }

    constructor ()
      ensures Valid() && credentials == map[]
    {
      credentials := map[];
    }

    /** Returns the credentials this insertion replaced. */
    method Insert(service: Url, c: Credentials) returns (replaced: Option<Credentials>)
      requires Valid()
      modifies this
      ensures Valid() && credentials == old(credentials)[(service, UsernameOf(c)) := c]
      ensures var k := (service, UsernameOf(c));
        replaced == if k in old(credentials) then Some(old(credentials)[k]) else None
    {
      var username := match c case Basic(username, _) => username case Bearer(_) => None;
      var k := (service, username);
      replaced := if k in credentials then Some(credentials[k]) else None;
      credentials := credentials[k := c];
    }

    /** Returns the removed credentials, if any. */
    method Remove(service: Url, username: Option<string>) returns (removed: Option<Credentials>)
      requires Valid()
      modifies this
      ensures Valid() && credentials == old(credentials) - {(service, username)}
      ensures var k := (service, username);
        removed == if k in old(credentials) then Some(old(credentials)[k]) else None
    {
      var k := (service, username);
      removed := if k in credentials then Some(credentials[k]) else None;
      credentials := credentials - {k};
    }
  }
}
