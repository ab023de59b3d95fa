/** The `Authorization` header: UTF-8, Base64 (section 4 of RFC 4648), and the header text itself. */
module Headers {
  import opened Common
  import opened Auth
  import opened Urls

  // ---------------------------------------------------------------------------
  // UTF-8

  function EncodeChar(c: char): (r: seq<Byte>)
    ensures 1 <= |r| <= 4
  {
    var n := c as int;
    if n < 0x80 then [n]
    else if n < 0x800 then [0xC0 + n / 64, 0x80 + n % 64]
    else if n < 0x10000 then [0xE0 + n / 4096, 0x80 + n / 64 % 64, 0x80 + n % 64]
    else [0xF0 + n / 262144, 0x80 + n / 4096 % 64, 0x80 + n / 64 % 64, 0x80 + n % 64]
  }

  function EncodeUtf8(s: string): (r: seq<Byte>)
    ensures s != "" ==> r != []
  {
    if s == "" then [] else EncodeChar(s[0]) + EncodeUtf8(s[1..])
  }

  function SequenceLength(lead: Byte): nat {
    if lead < 0x80 then 1 else if lead < 0xE0 then 2 else if lead < 0xF0 then 3 else 4
  }

  /** The scalar value spelled by the first sequence, before any validity check. */
  function RawScalar(b: seq<Byte>): int
    requires b != [] && |b| >= SequenceLength(b[0])
  {
    var lead: int := b[0];
    match SequenceLength(b[0])
    case 1 => lead
    case 2 => (lead - 0xC0) * 64 + Continuation(b[1])
    case 3 => (lead - 0xE0) * 4096 + Continuation(b[1]) * 64 + Continuation(b[2])
    case _ => (lead - 0xF0) * 262144 + Continuation(b[1]) * 4096 + Continuation(b[2]) * 64 + Continuation(b[3])
  }

  function Continuation(b: Byte): int {
    b - 0x80
  }

  predicate IsScalar(n: int) {
    0 <= n < 0xD800 || 0xE000 <= n < 0x11_0000
  }

  /** The first character, accepted only in its shortest form. */
  function DecodeChar(b: seq<Byte>): (r: Option<char>)
    ensures r.Some? ==> EncodeChar(r.value) <= b
  {
    if b == [] || |b| < SequenceLength(b[0]) then None
    else
      var n := RawScalar(b);
      if !IsScalar(n) then None
      else if EncodeChar(n as char) <= b then Some(n as char)
      else None
  }

  function DecodeUtf8(b: seq<Byte>): Option<string>
    decreases |b|
  {
    if b == [] then Some("")
    else
      var c := DecodeChar(b);
      if c.None? then None
      else
        var rest := DecodeUtf8(b[|EncodeChar(c.value)|..]);
        if rest.None? then None else Some([c.value] + rest.value)
  }

  lemma SextetDigits(n: nat)
    ensures n == n / 64 * 64 + n % 64
    ensures n == n / 4096 * 4096 + n / 64 % 64 * 64 + n % 64
    ensures n == n / 262144 * 262144 + n / 4096 % 64 * 4096 + n / 64 % 64 * 64 + n % 64
  {
    assert n / 4096 == n / 64 / 64;
    assert n / 262144 == n / 4096 / 64;
  }

  lemma DecodeEncodedChar(c: char, rest: seq<Byte>)
    ensures DecodeChar(EncodeChar(c) + rest) == Some(c)
  {
    var n, e := c as int, EncodeChar(c);
    var b := e + rest;
    assert e <= b;
    assert SequenceLength(e[0]) == |e|;
    assert b[0] == e[0] && (|e| > 1 ==> b[1] == e[1]) && (|e| > 2 ==> b[2] == e[2]) && (|e| > 3 ==> b[3] == e[3]);
    SextetDigits(n);
    assert RawScalar(b) == n;
  }

  lemma DecodeAfter(b: seq<Byte>, c: char, rest: seq<Byte>, text: string)
    requires b == EncodeChar(c) + rest && DecodeChar(b) == Some(c) && DecodeUtf8(rest) == Some(text)
    ensures DecodeUtf8(b) == Some([c] + text)
  {
    assert b[|EncodeChar(c)|..] == rest;
  }

  lemma {:induction false} DecodeEncodeUtf8(s: string)
    ensures DecodeUtf8(EncodeUtf8(s)) == Some(s)
  {
    if s != "" {
      var rest := EncodeUtf8(s[1..]);
      DecodeEncodedChar(s[0], rest);
      DecodeEncodeUtf8(s[1..]);
      DecodeAfter(EncodeUtf8(s), s[0], rest, s[1..]);
      assert s == [s[0]] + s[1..];
    }
  }

  /** Decoding is canonical: a text has one encoding. */
  lemma {:induction false} EncodeDecodeUtf8(b: seq<Byte>)
    requires DecodeUtf8(b).Some?
    ensures EncodeUtf8(DecodeUtf8(b).value) == b
    decreases |b|
  {
    if b != [] {
      var c, tail := DecodeStep(b);
      EncodeDecodeUtf8(tail);
      EncodeCons(c, DecodeUtf8(tail).value);
    }
  }

  lemma DecodeStep(b: seq<Byte>) returns (c: char, tail: seq<Byte>)
    requires b != [] && DecodeUtf8(b).Some?
    ensures b == EncodeChar(c) + tail && DecodeUtf8(tail).Some?
    ensures DecodeUtf8(b).value == [c] + DecodeUtf8(tail).value
  {
    c := DecodeChar(b).value;
    tail := b[|EncodeChar(c)|..];
  }

  lemma EncodeCons(c: char, s: string)
    ensures EncodeUtf8([c] + s) == EncodeChar(c) + EncodeUtf8(s)
  {
  }

  // ---------------------------------------------------------------------------
  // Base64

  const PAD: Byte := 61

  function Symbol(v: int): Byte
    requires 0 <= v < 64
  {
    if v < 26 then 65 + v
    else if v < 52 then 97 + (v - 26)
    else if v < 62 then 48 + (v - 52)
    else if v == 62 then 43
    else 47
  }

  function Sextet(c: Byte): Option<int> {
    if 65 <= c <= 90 then Some(c - 65)
    else if 97 <= c <= 122 then Some(c - 97 + 26)
    else if 48 <= c <= 57 then Some(c - 48 + 52)
    else if c == 43 then Some(62)
    else if c == 47 then Some(63)
    else None
  }

  // The four sextets of three bytes, and back.

  function First(x: Byte): (v: int)
    ensures 0 <= v < 64
  {
    x / 4
  }

  function Second(x: Byte, y: Byte): (v: int)
    ensures 0 <= v < 64
  {
    x % 4 * 16 + y / 16
  }

  function Third(y: Byte, z: Byte): (v: int)
    ensures 0 <= v < 64
  {
    y % 16 * 4 + z / 64
  }

  function Fourth(z: Byte): (v: int)
    ensures 0 <= v < 64
  {
    z % 64
  }

  function EncodeBase64(b: seq<Byte>): seq<Byte> {
    if b == [] then []
    else if |b| == 1 then [Symbol(First(b[0])), Symbol(Second(b[0], 0)), PAD, PAD]
    else if |b| == 2 then [Symbol(First(b[0])), Symbol(Second(b[0], b[1])), Symbol(Third(b[1], 0)), PAD]
    else
      [Symbol(First(b[0])), Symbol(Second(b[0], b[1])), Symbol(Third(b[1], b[2])), Symbol(Fourth(b[2]))] +
      EncodeBase64(b[3..])
  }

  /** The bytes of a group; unused trailing bits must be zero. */
  function Unpack(s0: int, s1: int, s2: Option<int>, s3: Option<int>): Option<seq<Byte>>
    requires 0 <= s0 < 64 && 0 <= s1 < 64
    requires (s2.Some? ==> 0 <= s2.value < 64) && (s3.Some? ==> 0 <= s3.value < 64)
  {
    if s2.None? then
      if s1 % 16 == 0 && s3.None? then Some([s0 * 4 + s1 / 16]) else None
    else if s3.None? then
      if s2.value % 4 == 0 then Some([s0 * 4 + s1 / 16, s1 % 16 * 16 + s2.value / 4]) else None
    else Some([s0 * 4 + s1 / 16, s1 % 16 * 16 + s2.value / 4, s2.value % 4 * 64 + s3.value])
  }

  function DecodeGroup(c0: Byte, c1: Byte, c2: Byte, c3: Byte): Option<seq<Byte>> {
    var (s0, s1, s2, s3) := (Sextet(c0), Sextet(c1), Sextet(c2), Sextet(c3));
    if s0.None? || s1.None? || (s2.None? && c2 != PAD) || (s3.None? && c3 != PAD) then None
    else Unpack(s0.value, s1.value, s2, s3)
  }

  /** Padding is allowed in the last group only. */
  function DecodeBase64(s: seq<Byte>): Option<seq<Byte>> {
    if s == [] then Some([])
    else if |s| < 4 then None
    else
      var group := DecodeGroup(s[0], s[1], s[2], s[3]);
      if group.None? then None
      else if |s| == 4 then group
      else if |group.value| != 3 then None
      else
        var rest := DecodeBase64(s[4..]);
        if rest.None? then None else Some(group.value + rest.value)
  }

  lemma SextetOfSymbol(v: int)
    requires 0 <= v < 64
    ensures Sextet(Symbol(v)) == Some(v) && Symbol(v) != PAD && 43 <= Symbol(v) <= 122
  {
  }

  lemma UnpackThree(x: Byte, y: Byte, z: Byte)
    ensures Unpack(First(x), Second(x, y), Some(Third(y, z)), Some(Fourth(z))) == Some([x, y, z])
  {
    var s1, s2 := Second(x, y), Third(y, z);
    assert s1 / 16 == x % 4 && s1 % 16 == y / 16;
    assert s2 / 4 == y % 16 && s2 % 4 == z / 64;
  }

  lemma UnpackTwo(x: Byte, y: Byte)
    ensures Unpack(First(x), Second(x, y), Some(Third(y, 0)), None) == Some([x, y])
  {
    var s1, s2 := Second(x, y), Third(y, 0);
    assert s1 / 16 == x % 4 && s1 % 16 == y / 16;
    assert s2 / 4 == y % 16 && s2 % 4 == 0;
  }

  lemma DecodeSymbols(v0: int, v1: int, v2: int, v3: int)
    requires 0 <= v0 < 64 && 0 <= v1 < 64 && 0 <= v2 < 64 && 0 <= v3 < 64
    ensures DecodeGroup(Symbol(v0), Symbol(v1), Symbol(v2), Symbol(v3)) == Unpack(v0, v1, Some(v2), Some(v3))
    ensures DecodeGroup(Symbol(v0), Symbol(v1), Symbol(v2), PAD) == Unpack(v0, v1, Some(v2), None)
    ensures DecodeGroup(Symbol(v0), Symbol(v1), PAD, PAD) == Unpack(v0, v1, None, None)
  {
    SextetOfSymbol(v0);
    SextetOfSymbol(v1);
    SextetOfSymbol(v2);
    SextetOfSymbol(v3);
  }

  lemma DecodeFullGroup(g: seq<Byte>, rest: seq<Byte>, bytes: seq<Byte>)
    requires |g| == 4 && |bytes| == 3 && DecodeGroup(g[0], g[1], g[2], g[3]) == Some(bytes)
    requires DecodeBase64(rest).Some?
    ensures DecodeBase64(g + rest) == Some(bytes + DecodeBase64(rest).value)
  {
    var s := g + rest;
    assert s[0] == g[0] && s[1] == g[1] && s[2] == g[2] && s[3] == g[3] && s[4..] == rest;
    if rest == [] { assert bytes + [] == bytes; }
  }

  lemma DecodeTwo(x: Byte, y: Byte)
    ensures DecodeGroup(Symbol(First(x)), Symbol(Second(x, y)), Symbol(Third(y, 0)), PAD) == Some([x, y])
  {
    DecodeSymbols(First(x), Second(x, y), Third(y, 0), 0);
    UnpackTwo(x, y);
  }

  lemma DecodeLastOne(x: Byte)
    ensures DecodeBase64(EncodeBase64([x])) == Some([x])
  {
  }

  lemma DecodeLastTwo(x: Byte, y: Byte)
    ensures DecodeBase64(EncodeBase64([x, y])) == Some([x, y])
  {
    DecodeTwo(x, y);
    DecodeSingleGroup([Symbol(First(x)), Symbol(Second(x, y)), Symbol(Third(y, 0)), PAD]);
  }

  lemma DecodeSingleGroup(g: seq<Byte>)
    requires |g| == 4
    ensures DecodeBase64(g) == DecodeGroup(g[0], g[1], g[2], g[3])
  {
  }

  lemma DecodeEncodeStep(x: Byte, y: Byte, z: Byte, rest: seq<Byte>)
    requires DecodeBase64(EncodeBase64(rest)) == Some(rest)
    ensures DecodeBase64(EncodeBase64([x, y, z] + rest)) == Some([x, y, z] + rest)
  {
    var b := [x, y, z] + rest;
    assert b[3..] == rest;
    DecodeSymbols(First(x), Second(x, y), Third(y, z), Fourth(z));
    UnpackThree(x, y, z);
    DecodeFullGroup(
      [Symbol(First(x)), Symbol(Second(x, y)), Symbol(Third(y, z)), Symbol(Fourth(z))], EncodeBase64(rest), [x, y, z]);
  }

  lemma {:induction false} DecodeEncodeBase64(b: seq<Byte>)
    ensures DecodeBase64(EncodeBase64(b)) == Some(b)
  {
    if |b| == 1 {
      assert b == [b[0]];
      DecodeLastOne(b[0]);
    } else if |b| == 2 {
      assert b == [b[0], b[1]];
      DecodeLastTwo(b[0], b[1]);
    } else if b != [] {
      assert b == [b[0], b[1], b[2]] + b[3..];
      DecodeEncodeBase64(b[3..]);
      DecodeEncodeStep(b[0], b[1], b[2], b[3..]);
    }
  }

  lemma {:induction false} Base64IsPrintable(b: seq<Byte>)
    ensures forall i :: 0 <= i < |EncodeBase64(b)| ==> 43 <= EncodeBase64(b)[i] <= 122
  {
    if |b| >= 3 { Base64IsPrintable(b[3..]); }
  }

  // ---------------------------------------------------------------------------
  // The header

  const BASIC_PREFIX: seq<Byte> := [66, 97, 115, 105, 99, 32]
  const BEARER_PREFIX: seq<Byte> := [66, 101, 97, 114, 101, 114, 32]

  predicate IsHeaderValue(b: seq<Byte>) {
    forall i :: 0 <= i < |b| ==> (b[i] >= 32 && b[i] != 127) || b[i] == 9
  }

  function OrEmpty(s: Option<string>): string {
    if s.Some? then s.value else ""
  }

  /** The user-pass text of section 2 of RFC 7617. */
  function UserPass(c: Credentials): string
    requires c.Basic?
  {
    OrEmpty(c.username) + ":" + OrEmpty(c.password)
  }

  datatype HeaderError = InvalidHeaderValue

  function HeaderBytes(c: Credentials): seq<Byte> {
    match c
    case Basic(_, _) => BASIC_PREFIX + EncodeBase64(EncodeUtf8(UserPass(c)))
    case Bearer(token) => BEARER_PREFIX + token
  }

  function ToHeaderValue(c: Credentials): Result<seq<Byte>, HeaderError> {
    if IsHeaderValue(HeaderBytes(c)) then Ok(HeaderBytes(c)) else Err(InvalidHeaderValue)
  }

  datatype Parsed = Recognized(credentials: Credentials) | OtherScheme | Panics

  /** The text before and after the first colon. */
  function SplitOnce(s: string): (r: Option<(string, string)>)
    ensures r.None? <==> ':' !in s
    ensures r.Some? ==> s == r.value.0 + [':'] + r.value.1 && ':' !in r.value.0
  {
    if s == "" then None
    else if s[0] == ':' then Some(("", s[1..]))
    else
      var rest := SplitOnce(s[1..]);
      if rest.None? then None else Some(([s[0]] + rest.value.0, rest.value.1))
  }

  function FromUserPass(text: string): Option<Credentials> {
    var parts := SplitOnce(text);
    if parts.None? then None
    else Some(Basic(NewUsername(Some(parts.value.0)), NewUsername(Some(parts.value.1))))
  }

  function FromHeaderValue(header: seq<Byte>): Parsed {
    if BASIC_PREFIX <= header then
      var raw := DecodeBase64(header[|BASIC_PREFIX|..]);
      if raw.None? then Panics
      else
        var text := DecodeUtf8(raw.value);
        if text.None? then Panics
        else
          var c := FromUserPass(text.value);
          if c.None? then Panics else Recognized(c.value)
    else if BEARER_PREFIX <= header then Recognized(Bearer(header[|BEARER_PREFIX|..]))
    else OtherScheme
  }

  /** What a server can recover from the header: the username ends at the first colon. */
  function NormalForm(c: Credentials): Credentials {
    match c
    case Bearer(_) => c
    case Basic(username, password) =>
      var u, p := OrEmpty(username), OrEmpty(password);
      var parts := SplitOnce(u);
      if parts.None? then Basic(NewUsername(Some(u)), NewUsername(Some(p)))
      else Basic(NewUsername(Some(parts.value.0)), Some(parts.value.1 + ":" + p))
  }

  /** Basic credentials always print; a bearer token prints unless it holds a control byte. */
  lemma HeaderPrints(c: Credentials)
    ensures ToHeaderValue(c).Ok? <==> c.Basic? || IsHeaderValue(c.token)
  {
    match c
    case Basic(_, _) =>
      Base64IsPrintable(EncodeUtf8(UserPass(c)));
    case Bearer(token) =>
      var h := HeaderBytes(c);
      assert forall i :: 0 <= i < |token| ==> h[i + |BEARER_PREFIX|] == token[i];
      if IsHeaderValue(token) {
        assert forall i :: |BEARER_PREFIX| <= i < |h| ==> h[i] == token[i - |BEARER_PREFIX|];
      }
  }

  lemma SplitOnceAt(a: string, b: string)
    requires ':' !in a
    ensures SplitOnce(a + [':'] + b) == Some((a, b))
  {
    var r := SplitOnce(a + [':'] + b);
    assert (a + [':'] + b)[|a|] == ':';
    FirstSeparator(a, b, r.value.0, r.value.1, ':');
  }

  lemma FromUserPassIsNormalForm(c: Credentials)
    requires c.Basic?
    ensures FromUserPass(UserPass(c)) == Some(NormalForm(c))
  {
    var u, p := OrEmpty(c.username), OrEmpty(c.password);
    var parts := SplitOnce(u);
    assert UserPass(c) == u + [':'] + p;
    if parts.None? {
      SplitOnceAt(u, p);
    } else {
      var (a, b) := parts.value;
      assert UserPass(c) == a + [':'] + (b + ":" + p);
      SplitOnceAt(a, b + ":" + p);
    }
  }

  /** Every printed header is read back, without panicking, as the normal form. */
  lemma HeaderRoundTrip(c: Credentials)
    requires ToHeaderValue(c).Ok?
    ensures FromHeaderValue(ToHeaderValue(c).value) == Recognized(NormalForm(c))
  {
    var h := HeaderBytes(c);
    match c
    case Basic(_, _) =>
      var utf8 := EncodeUtf8(UserPass(c));
      assert h[|BASIC_PREFIX|..] == EncodeBase64(utf8);
      DecodeEncodeBase64(utf8);
      DecodeEncodeUtf8(UserPass(c));
      FromUserPassIsNormalForm(c);
    case Bearer(token) =>
      assert h[1] == 101;
      assert h[|BEARER_PREFIX|..] == token;
  }

  /** The credentials themselves come back exactly when no information is in the wrong place. */
  lemma HeaderRoundTripExact(c: Credentials)
    requires ToHeaderValue(c).Ok?
    ensures FromHeaderValue(ToHeaderValue(c).value) == Recognized(c)
      <==> c.Bearer? || (c.username != Some("") && ':' !in OrEmpty(c.username) && c.password != Some(""))
  {
    HeaderRoundTrip(c);
    if c.Basic? && ':' in OrEmpty(c.username) {
      var parts := SplitOnce(OrEmpty(c.username)).value;
      assert |parts.0| < |OrEmpty(c.username)|;
    }
  }

  /** Normalising is invisible on the wire and idempotent. */
  lemma NormalFormSameHeader(c: Credentials)
    ensures HeaderBytes(NormalForm(c)) == HeaderBytes(c)
    ensures NormalForm(NormalForm(c)) == NormalForm(c)
  {
    if c.Basic? {
      FromUserPassIsNormalForm(c);
      var n := NormalForm(c);
      var parts := SplitOnce(UserPass(c)).value;
      assert UserPass(n) == parts.0 + ":" + parts.1;
      FromUserPassIsNormalForm(n);
    }
  }

  // ---------------------------------------------------------------------------
  // Particular values

  /** One character of each length. */
  lemma Utf8Examples()
    ensures EncodeUtf8("A") == [0x41] && EncodeUtf8("\U{E9}") == [0xC3, 0xA9]
    ensures EncodeUtf8("\U{20AC}") == [0xE2, 0x82, 0xAC] && EncodeUtf8("\U{1F600}") == [0xF0, 0x9F, 0x98, 0x80]
  {
    assert EncodeUtf8("") == [];
  }

  /** From the test vectors in section 10 of RFC 4648, and the last two symbols. */
  lemma Base64Examples()
    ensures EncodeBase64([102]) == [90, 103, 61, 61]
    ensures EncodeBase64([102, 111]) == [90, 109, 56, 61]
    ensures EncodeBase64([102, 111, 111, 98, 97, 114]) == [90, 109, 57, 118, 89, 109, 70, 121]
    ensures EncodeBase64([251, 255, 191]) == [43, 47, 43, 47]
  {
    assert [102, 111, 111, 98, 97, 114][3..] == [98, 97, 114] && [98, 97, 114][3..] == [];
    assert EncodeBase64([98, 97, 114]) == [89, 109, 70, 121];
  }

  lemma UserPassExample()
    ensures EncodeBase64(EncodeUtf8(UserPass(Basic(Some("u"), Some("p"))))) == [100, 84, 112, 119]
  {
    var c := Basic(Some("u"), Some("p"));
    assert UserPass(c) == ['u', ':', 'p'];
    assert ['u', ':', 'p'][1..] == [':', 'p'] && [':', 'p'][1..] == ['p'] && ['p'][1..] == [];
    assert EncodeUtf8(['p']) == [112] && EncodeUtf8([':', 'p']) == [58, 112];
    assert EncodeUtf8(UserPass(c)) == [117, 58, 112];
    assert [117, 58, 112][3..] == [];
  }

  /** `Basic dTpw` for user `u` and password `p`, and `Bearer t`. */
  lemma HeaderExamples()
    ensures ToHeaderValue(Basic(Some("u"), Some("p"))) == Ok([66, 97, 115, 105, 99, 32, 100, 84, 112, 119])
    ensures ToHeaderValue(Bearer([116])) == Ok([66, 101, 97, 114, 101, 114, 32, 116])
  {
    UserPassExample();
    HeaderPrints(Basic(Some("u"), Some("p")));
    HeaderPrints(Bearer([116]));
    assert HeaderBytes(Basic(Some("u"), Some("p"))) == [66, 97, 115, 105, 99, 32, 100, 84, 112, 119];
    assert HeaderBytes(Bearer([116])) == [66, 101, 97, 114, 101, 114, 32, 116];
  }

  /** `Digest` is another scheme; `Basic =` is malformed. */
  lemma UnreadableExamples()
    ensures FromHeaderValue([68, 105, 103, 101, 115, 116]) == OtherScheme
    ensures FromHeaderValue([66, 97, 115, 105, 99, 32, 61]) == Panics
  {
    var broken: seq<Byte> := [66, 97, 115, 105, 99, 32, 61];
    assert broken[|BASIC_PREFIX|..] == [61];
    var digest: seq<Byte> := [68, 105, 103, 101, 115, 116];
    assert digest[0] != BASIC_PREFIX[0] && digest[0] != BEARER_PREFIX[0];
  }

  /** Tabs, printable characters and bytes above ASCII are allowed; other control characters are not. */
  lemma HeaderByteExamples()
    ensures IsHeaderValue([9]) && IsHeaderValue([32]) && IsHeaderValue([126])
    ensures IsHeaderValue([128]) && IsHeaderValue([255])
    ensures !IsHeaderValue([10]) && !IsHeaderValue([31]) && !IsHeaderValue([127])
  {
    assert [10][0] == 10 && [31][0] == 31 && [127][0] == 127;
  }
}
