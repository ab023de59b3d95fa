/** Parsed URLs, realms, and the path-prefix order used to scope credentials. */
module Urls {
  import opened Common

  /** A percent-decoded user-info component; decoding can fail on invalid UTF-8. */
  datatype Component = Decoded(text: string) | InvalidUtf8

  /** A parsed URL. `tail` is the query and fragment text. */
  datatype Url = Url(
    scheme: string, host: Option<string>, port: Option<nat>, path: string,
    username: Component, password: Option<Component>, tail: string)

  datatype Realm = Realm(scheme: string, host: Option<string>, port: Option<nat>)

  function RealmOf(url: Url): Realm {
    Realm(url.scheme, url.host, url.port)
  }

  /** What the URL parser guarantees about scheme, host and port. */
  predicate WellFormedRealm(r: Realm) {
    && ':' !in r.scheme
    && (r.host.Some? ==> r.host.value != "" && (':' in r.host.value ==> Last(r.host.value) == ']'))
    && (r.port.Some? ==> r.port != KnownDefaultPort(r.scheme))
  }

  predicate WellFormed(url: Url) {
    WellFormedRealm(RealmOf(url))
  }

  // ---------------------------------------------------------------------------
  // Realm printing

  function Digit(d: nat): char
    requires d < 10
  {
    "0123456789"[d]
  }

  function Decimal(n: nat): (s: string)
    ensures s != "" && ':' !in s && Last(s) != ']'
  {
    if n < 10 then [Digit(n)] else Decimal(n / 10) + [Digit(n % 10)]
  }

  function HostText(host: Option<string>): string {
    if host.Some? then host.value else ""
  }

  function PrintRealm(r: Realm): string {
    r.scheme + "://" + HostText(r.host) + if r.port.Some? then ":" + Decimal(r.port.value) else ""
  }

  lemma {:induction false} DecimalInjective(m: nat, n: nat)
    requires Decimal(m) == Decimal(n)
    ensures m == n
  {
    if m >= 10 && n >= 10 {
      assert Init(Decimal(m)) == Decimal(m / 10) && Init(Decimal(n)) == Decimal(n / 10);
      assert Last(Decimal(m)) == Digit(m % 10) && Last(Decimal(n)) == Digit(n % 10);
      DecimalInjective(m / 10, n / 10);
    }
  }

  /** The first separator of a text is unique. */
  lemma FirstSeparator<T>(a: seq<T>, x: seq<T>, b: seq<T>, y: seq<T>, sep: T)
    requires sep !in a && sep !in b
    requires a + [sep] + x == b + [sep] + y
    ensures a == b && x == y
  {
    var t := a + [sep] + x;
    assert t[|a|] == sep && t[|b|] == sep;
    assert forall i :: 0 <= i < |a| ==> t[i] == a[i];
    assert forall i :: 0 <= i < |b| ==> t[i] == b[i];
    assert |a| == |b|;
    assert a == t[..|a|] && b == t[..|b|];
    assert x == t[|a| + 1..] && y == t[|b| + 1..];
  }

  /** The last separator of a text is unique. */
  lemma LastSeparator<T>(a: seq<T>, x: seq<T>, b: seq<T>, y: seq<T>, sep: T)
    requires sep !in x && sep !in y
    requires a + [sep] + x == b + [sep] + y
    ensures a == b && x == y
  {
    var t := a + [sep] + x;
    assert t[|a|] == sep && t[|b|] == sep;
    assert forall i :: |a| < i < |t| ==> t[i] == x[i - |a| - 1];
    assert forall i :: |b| < i < |t| ==> t[i] == y[i - |b| - 1];
    assert |a| == |b|;
    assert a == t[..|a|] && b == t[..|b|];
    assert x == t[|a| + 1..] && y == t[|b| + 1..];
  }

  function Authority(r: Realm): string {
    HostText(r.host) + if r.port.Some? then ":" + Decimal(r.port.value) else ""
  }

  /** A host without a port is never read as a host with one. */
  lemma PortIsVisible(a: Realm, b: Realm)
    requires WellFormedRealm(a) && a.port.None? && b.port.Some?
    ensures Authority(a) != Authority(b)
  {
    var t := Authority(b);
    assert Authority(a) == HostText(a.host);
    assert t[|HostText(b.host)|] == ':';
    assert Last(t) == Last(Decimal(b.port.value));
  }

  lemma AuthorityInjective(a: Realm, b: Realm)
    requires WellFormedRealm(a) && WellFormedRealm(b) && Authority(a) == Authority(b)
    ensures a.host == b.host && a.port == b.port
  {
    if a.port.Some? && b.port.Some? {
      var da, db := Decimal(a.port.value), Decimal(b.port.value);
      assert Authority(a) == HostText(a.host) + [':'] + da;
      assert Authority(b) == HostText(b.host) + [':'] + db;
      LastSeparator(HostText(a.host), da, HostText(b.host), db, ':');
      DecimalInjective(a.port.value, b.port.value);
    } else if a.port.None? && b.port.None? {
      assert Authority(a) == HostText(a.host) && Authority(b) == HostText(b.host);
    } else if a.port.Some? {
      PortIsVisible(b, a);
    } else {
      PortIsVisible(a, b);
    }
  }

  lemma PrintParts(r: Realm)
    ensures PrintRealm(r) == r.scheme + [':'] + ("//" + Authority(r))
    ensures ("//" + Authority(r))[2..] == Authority(r)
  {
  }

  /** Printing separates realms, so a printed realm identifies its realm. */
  lemma PrintRealmInjective(a: Realm, b: Realm)
    requires WellFormedRealm(a) && WellFormedRealm(b)
    ensures PrintRealm(a) == PrintRealm(b) <==> a == b
  {
    if PrintRealm(a) == PrintRealm(b) {
      PrintParts(a);
      PrintParts(b);
      FirstSeparator(a.scheme, "//" + Authority(a), b.scheme, "//" + Authority(b), ':');
      AuthorityInjective(a, b);
    }
  }

  /** Outside what the parser produces, two realms can print alike. */
  lemma PrintRealmCollides()
    ensures PrintRealm(Realm("https", Some("a:8"), None)) == PrintRealm(Realm("https", Some("a"), Some(8)))
  {
    assert Decimal(8) == "8";
  }

  // ---------------------------------------------------------------------------
  // Paths

  predicate EndsWith(s: string, c: char) {
    s != "" && Last(s) == c
  }

  predicate StartsWith(s: string, c: char) {
    s != "" && s[0] == c
  }

  predicate IsPathPrefix(prefix: string, path: string) {
    if prefix == path then true
    else if !(prefix <= path) then false
    else EndsWith(prefix, '/') || StartsWith(path[|prefix|..], '/')
  }

  /** The same relation on lists of segments: a trailing slash leaves the last segment open. */
  predicate SegmentPrefix(prefix: string, path: string) {
    var x, y := Split(prefix, '/'), Split(path, '/');
    x <= y || (|x| > 1 && Last(x) == "" && |x| <= |y| && Init(x) <= y)
  }

  lemma SplitTrailing(p: string)
    requires EndsWith(p, '/')
    ensures |Split(p, '/')| > 1 && Last(Split(p, '/')) == ""
  {
  }

  lemma PathPrefixGivesSegments(prefix: string, path: string)
    requires IsPathPrefix(prefix, path)
    ensures SegmentPrefix(prefix, path)
  {
    if prefix != path {
      var x, s := Split(prefix, '/'), path[|prefix|..];
      assert path == prefix + s;
      SplitAppend(prefix, s, '/');
      if EndsWith(prefix, '/') {
        SplitTrailing(prefix);
      } else {
        assert Last(x) + [] == Last(x);
        assert x == Init(x) + [Last(x)];
      }
    }
  }

  lemma SegmentsGivePathPrefix(prefix: string, path: string)
    requires SegmentPrefix(prefix, path)
    ensures IsPathPrefix(prefix, path)
  {
    var x, y := Split(prefix, '/'), Split(path, '/');
    JoinSplit(prefix, '/');
    JoinSplit(path, '/');
    if x <= y {
      if x != y {
        var z := y[|x|..];
        assert y == x + z;
        JoinConcat(x, z, '/');
        assert path[|prefix|..] == ['/'] + Join(z, '/');
      }
    } else {
      var h, w := Init(x), y[|x| - 1..];
      assert x == h + [""] && y == h + w;
      JoinConcat(h, [""], '/');
      JoinConcat(h, w, '/');
      assert prefix == Join(h, '/') + ['/'];
      assert path == prefix + Join(w, '/');
    }
  }

  lemma PathPrefixIsSegmentwise(prefix: string, path: string)
    ensures IsPathPrefix(prefix, path) <==> SegmentPrefix(prefix, path)
  {
    if IsPathPrefix(prefix, path) {
      PathPrefixGivesSegments(prefix, path);
    } else if SegmentPrefix(prefix, path) {
      SegmentsGivePathPrefix(prefix, path);
    }
  }

  /** `path_segments`: none unless the path is hierarchical. */
  function PathSegments(url: Url): Option<seq<string>> {
    if StartsWith(url.path, '/') then Some(Split(url.path[1..], '/')) else None
  }

  function NonEmpty(pieces: seq<string>): (r: seq<string>)
    ensures "" !in r
  {
    if pieces == [] then []
    else (if pieces[0] == "" then [] else [pieces[0]]) + NonEmpty(pieces[1..])
  }

  lemma {:induction false} NonEmptyConcat(a: seq<string>, b: seq<string>)
    ensures NonEmpty(a + b) == NonEmpty(a) + NonEmpty(b)
  {
    if a == [] {
      assert a + b == b;
    } else {
      assert (a + b)[1..] == a[1..] + b;
      NonEmptyConcat(a[1..], b);
    }
  }

  /** The labels under which a URL is filed in the trie. */
  function TrieKey(url: Url): Option<seq<string>> {
    match PathSegments(url)
    case None => None
    case Some(segments) => Some([PrintRealm(RealmOf(url))] + NonEmpty(segments))
  }

  lemma OpenAfter(h: string, s: string)
    ensures NonEmpty(Split(h + ['/'] + "", '/')) <= NonEmpty(Split(h + ['/'] + s, '/'))
  {
    SplitAtSeparator(h, '/', "");
    SplitAtSeparator(h, '/', s);
    assert NonEmpty([""]) == [];
    NonEmptyPrefix(Split(h, '/'), [""], Split(s, '/'));
  }

  lemma OpenSegments(p: string, s: string)
    requires p == "" || EndsWith(p, '/')
    ensures NonEmpty(Split(p, '/')) <= NonEmpty(Split(p + s, '/'))
  {
    if p == "" {
      assert NonEmpty([""]) == [];
    } else {
      assert p == Init(p) + ['/'] + "" && p + s == Init(p) + ['/'] + s;
      OpenAfter(Init(p), s);
    }
  }

  lemma NonEmptyPrefix(h: seq<string>, t: seq<string>, z: seq<string>)
    requires NonEmpty(t) == []
    ensures NonEmpty(h + t) <= NonEmpty(h + z)
  {
    NonEmptyConcat(h, t);
    NonEmptyConcat(h, z);
  }

  lemma ClosedSegments(p: string, s: string)
    requires StartsWith(s, '/')
    ensures NonEmpty(Split(p, '/')) <= NonEmpty(Split(p + s, '/'))
  {
    assert p + s == p + ['/'] + s[1..] && Split(p, '/') == Split(p, '/') + [];
    SplitAtSeparator(p, '/', s[1..]);
    NonEmptyPrefix(Split(p, '/'), [], Split(s[1..], '/'));
  }

  /** A same-realm path-prefix match is always a prefix match on trie keys. */
  lemma PathPrefixIsKeyPrefix(outer: Url, inner: Url)
    requires RealmOf(outer) == RealmOf(inner)
    requires IsPathPrefix(outer.path, inner.path)
    requires TrieKey(outer).Some?
    ensures TrieKey(inner).Some? && TrieKey(outer).value <= TrieKey(inner).value
  {
    if outer.path != inner.path {
      var p, s := outer.path[1..], inner.path[|outer.path|..];
      assert inner.path[1..] == p + s;
      if StartsWith(s, '/') {
        ClosedSegments(p, s);
      } else {
        OpenSegments(p, s);
      }
    }
  }

  // ---------------------------------------------------------------------------
  // Endpoints

  /** `host` ends in `domain`, after a dot. */
  predicate EndsInDomain(host: string, domain: string) {
    var n := |host| - |domain|;
    n >= 0 && host[n..] == domain && EndsWith(host[..n], '.')
  }

  predicate IsSubdomainOf(self: Realm, other: Realm) {
    && other.scheme == self.scheme
    && other.port == self.port
    && other.host.Some? && self.host.Some? && EndsInDomain(self.host.value, other.host.value)
  }

  predicate IsEndpointUrl(url: Url, endpoint: Url) {
    && (RealmOf(url) == RealmOf(endpoint) || IsSubdomainOf(RealmOf(url), RealmOf(endpoint)))
    && IsPathPrefix(endpoint.path, url.path)
  }

  lemma PathPrefixTransitive(p: string, q: string, r: string)
    requires IsPathPrefix(p, q) && IsPathPrefix(q, r)
    ensures IsPathPrefix(p, r)
  {
  }

  lemma SubdomainTransitive(a: Realm, b: Realm, c: Realm)
    requires IsSubdomainOf(a, b) && IsSubdomainOf(b, c)
    ensures IsSubdomainOf(a, c)
  {
  }

  /** `b` is a proper suffix of `a`. */
  ghost predicate IsProperSuffix<T>(b: seq<T>, a: seq<T>) {
    |b| < |a| && a[|a| - |b|..] == b
  }

  lemma DomainIsLabelwise(s: string, o: string)
    ensures EndsInDomain(s, o) <==> IsProperSuffix(Split(o, '.'), Split(s, '.'))
  {
    var x, y := Split(s, '.'), Split(o, '.');
    if EndsInDomain(s, o) {
      var h := Init(s[..|s| - |o|]);
      assert s == h + ['.'] + o;
      SplitAtSeparator(h, '.', o);
    }
    if IsProperSuffix(y, x) {
      var front := x[..|x| - |y|];
      assert x == front + y;
      JoinSplit(s, '.');
      JoinSplit(o, '.');
      JoinConcat(front, y, '.');
      assert s[..|s| - |o|] == Join(front, '.') + ['.'];
    }
  }

  /** A subdomain has the labels of the domain after some labels of its own. */
  lemma SubdomainIsLabelwise(self: Realm, other: Realm)
    ensures IsSubdomainOf(self, other) <==>
      && self.scheme == other.scheme && self.port == other.port && self.host.Some? && other.host.Some?
      && IsProperSuffix(Split(other.host.value, '.'), Split(self.host.value, '.'))
  {
    if self.host.Some? && other.host.Some? {
      DomainIsLabelwise(self.host.value, other.host.value);
    }
  }

  /** A host that merely ends in the same letters is not inside an endpoint. */
  lemma SuffixIsNotSubdomain()
    ensures var root := Url("https", Some("example.com"), None, "/", Decoded(""), None, "");
      && !IsEndpointUrl(root.(host := Some("notexample.com")), root)
      && IsEndpointUrl(root.(host := Some("not.example.com")), root)
  {
    var a, b, o := "notexample.com", "not.example.com", "example.com";
    assert a[..3] == "not" && Last("not") == 't' && b[..4] == "not." && Last("not.") == '.' && b[4..] == o;
  }

  /** Being inside an endpoint is a partial order on (realm, path). */
  lemma EndpointOrder(a: Url, b: Url, c: Url)
    ensures IsEndpointUrl(a, a)
    ensures IsEndpointUrl(a, b) && IsEndpointUrl(b, c) ==> IsEndpointUrl(a, c)
    ensures IsEndpointUrl(a, b) && IsEndpointUrl(b, a) ==> RealmOf(a) == RealmOf(b) && a.path == b.path
  {
    if IsEndpointUrl(a, b) && IsEndpointUrl(b, c) {
      PathPrefixTransitive(c.path, b.path, a.path);
      if IsSubdomainOf(RealmOf(a), RealmOf(b)) && IsSubdomainOf(RealmOf(b), RealmOf(c)) {
        SubdomainTransitive(RealmOf(a), RealmOf(b), RealmOf(c));
      }
    }
  }

  // ---------------------------------------------------------------------------
  // Indexes

  function KnownDefaultPort(scheme: string): Option<nat> {
    match scheme
    case "http" => Some(80)
    case "https" => Some(443)
    case "ws" => Some(80)
    case "wss" => Some(443)
    case "ftp" => Some(21)
    case _ => None
  }

  function PortOrKnownDefault(url: Url): Option<nat> {
    if url.port.Some? then url.port else KnownDefaultPort(url.scheme)
  }

  datatype AuthPolicy = Auto | Always | Never

  datatype Index = Index(url: Url, rootUrl: Url, policy: AuthPolicy)

  predicate IsPrefixFor(index: Index, url: Url) {
    && index.rootUrl.scheme == url.scheme
    && index.rootUrl.host == url.host
    && PortOrKnownDefault(index.rootUrl) == PortOrKnownDefault(url)
    && IsPathPrefix(index.rootUrl.path, url.path)
  }

  /** The first matching index in the set's iteration order. */
  function IndexFor(indexes: seq<Index>, url: Url): (r: Option<Index>)
    ensures r.Some? ==> r.value in indexes && IsPrefixFor(r.value, url)
    ensures r.None? ==> forall i :: i in indexes ==> !IsPrefixFor(i, url)
    ensures indexes != [] && IsPrefixFor(indexes[0], url) ==> r == Some(indexes[0])
  {
    if indexes == [] then None
    else if IsPrefixFor(indexes[0], url) then Some(indexes[0])
    else IndexFor(indexes[1..], url)
  }

  function PolicyFor(indexes: seq<Index>, url: Url): AuthPolicy {
    match IndexFor(indexes, url)
    case None => Auto
    case Some(index) => index.policy
  }

  /** For parsed URLs an index covers exactly the URLs of its realm whose path segments extend those of its root. */
  lemma IndexForExactly(indexes: seq<Index>, url: Url)
    requires WellFormed(url) && forall i :: i in indexes ==> WellFormed(i.rootUrl)
    ensures IndexFor(indexes, url).Some? <==>
      exists i :: i in indexes && RealmOf(i.rootUrl) == RealmOf(url) && SegmentPrefix(i.rootUrl.path, url.path)
  {
    forall i | i in indexes
      ensures IsPrefixFor(i, url) <==> RealmOf(i.rootUrl) == RealmOf(url) && SegmentPrefix(i.rootUrl.path, url.path)
    {
      PathPrefixIsSegmentwise(i.rootUrl.path, url.path);
    }
  }

  /** An explicit default port is the same as none. */
  lemma DefaultPorts(index: Index, url: Url)
    requires index.rootUrl.scheme == url.scheme && index.rootUrl.host == url.host && index.rootUrl.path == url.path
    requires index.rootUrl.port.None?
    ensures url.scheme == "https" ==> (IsPrefixFor(index, url) <==> url.port.None? || url.port == Some(443))
    ensures url.scheme == "http" ==> (IsPrefixFor(index, url) <==> url.port.None? || url.port == Some(80))
    ensures url.scheme == "wss" ==> (IsPrefixFor(index, url) <==> url.port.None? || url.port == Some(443))
    ensures url.scheme == "ws" ==> (IsPrefixFor(index, url) <==> url.port.None? || url.port == Some(80))
    ensures url.scheme == "ftp" ==> (IsPrefixFor(index, url) <==> url.port.None? || url.port == Some(21))
    ensures url.scheme == "file" ==> (IsPrefixFor(index, url) <==> url.port.None?)
  {
  }
}
