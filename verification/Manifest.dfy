/** Finding a version in a streamed manifest of one JSON object per line. */
module Manifest {
  import opened Common
  import opened Auth
  import opened Headers

  // ---------------------------------------------------------------------------
  // One line

  datatype Artifact = Artifact(platform: string, url: string, archiveFormat: string)

  datatype VersionInfo = VersionInfo(version: string, date: int, artifacts: seq<Artifact>)

  datatype ArchiveFormat = TarGz | Zip

  datatype Resolved = Resolved(version: string, urls: seq<string>, format: ArchiveFormat)

  datatype LineError = NotUtf8 | NotJson | BadMirror

  /** What is asked for, and the parsers of libraries used on the way. */
  datatype Query = Query(
    platform: string, cutoff: Option<int>, constraints: Option<string -> bool>,
    json: string -> Option<VersionInfo>, parseUrl: string -> Option<string>,
    mirrors: string -> Option<seq<string>>)

  type LineResult = Result<Option<Resolved>, LineError>

  function FormatOf(text: string): Option<ArchiveFormat> {
    match text
    case "tar.gz" => Some(TarGz)
    case "zip" => Some(Zip)
    case _ => None
  }

  predicate Usable(q: Query, a: Artifact) {
    a.platform == q.platform && q.parseUrl(a.url).Some? && FormatOf(a.archiveFormat).Some?
  }

  predicate Eligible(q: Query, info: VersionInfo) {
    && (q.cutoff.Some? ==> info.date <= q.cutoff.value)
    && (q.constraints.Some? ==> q.constraints.value(info.version))
  }

  function Resolve(q: Query, info: VersionInfo, a: Artifact): LineResult
    requires Usable(q, a)
  {
    var urls := q.mirrors(q.parseUrl(a.url).value);
    if urls.None? then Err(BadMirror)
    else Ok(Some(Resolved.Resolved(info.version, urls.value, FormatOf(a.archiveFormat).value)))
  }

  ghost predicate IsFirstUsable(q: Query, info: VersionInfo, from: nat, i: nat) {
    from <= i < |info.artifacts| && Usable(q, info.artifacts[i]) &&
    forall j :: from <= j < i ==> !Usable(q, info.artifacts[j])
  }

  /** The first usable artifact of an eligible version. */
  function CheckVersion(q: Query, info: VersionInfo): (r: LineResult)
    ensures !Eligible(q, info) ==> r == Ok(None)
    ensures (forall i :: 0 <= i < |info.artifacts| ==> !Usable(q, info.artifacts[i])) ==> r == Ok(None)
    ensures forall i: nat | Eligible(q, info) && IsFirstUsable(q, info, 0, i) ::
      r == Resolve(q, info, info.artifacts[i])
    ensures r.Err? ==> r.error == BadMirror
  {
    if Eligible(q, info) then FirstUsable(q, info, 0) else Ok(None)
  }

  function FirstUsable(q: Query, info: VersionInfo, from: nat): (r: LineResult)
    requires from <= |info.artifacts|
    ensures (forall i :: from <= i < |info.artifacts| ==> !Usable(q, info.artifacts[i])) ==> r == Ok(None)
    ensures forall i: nat | IsFirstUsable(q, info, from, i) :: r == Resolve(q, info, info.artifacts[i])
    ensures r.Err? ==> r.error == BadMirror
    decreases |info.artifacts| - from
  {
    if from == |info.artifacts| then Ok(None)
    else if Usable(q, info.artifacts[from]) then
      assert forall i: nat | IsFirstUsable(q, info, from, i) :: i == from;
      Resolve(q, info, info.artifacts[from])
    else
      assert forall i: nat | IsFirstUsable(q, info, from, i) :: IsFirstUsable(q, info, from + 1, i);
      FirstUsable(q, info, from + 1)
  }

  method CheckVersionMatch(q: Query, info: VersionInfo) returns (r: LineResult)
    ensures r == CheckVersion(q, info)
    ensures q.cutoff.Some? && info.date > q.cutoff.value ==> r == Ok(None)
    ensures q.constraints.Some? && !q.constraints.value(info.version) ==> r == Ok(None)
  {
    if q.cutoff.Some? && info.date > q.cutoff.value { return Ok(None); }
    if q.constraints.Some? && !q.constraints.value(info.version) { return Ok(None); }
    for i := 0 to |info.artifacts|
      invariant CheckVersion(q, info) == FirstUsable(q, info, i)
    {
      var a := info.artifacts[i];
      if a.platform != q.platform { continue; }
      var url := q.parseUrl(a.url);
      if url.None? { continue; }
      var format := FormatOf(a.archiveFormat);
      if format.None? { continue; }
      var urls := q.mirrors(url.value);
      if urls.None? { return Err(BadMirror); }
      return Ok(Some(Resolved.Resolved(info.version, urls.value, format.value)));
    }
    return Ok(None);
  }

  /** A version from the very moment of the cutoff resolves to its first artifact for the platform. */
  lemma CutoffIsInclusive(q: Query, version: string, date: int, url: string, urls: seq<string>, rest: seq<Artifact>)
    requires q.cutoff == Some(date) && (q.constraints.Some? ==> q.constraints.value(version))
    requires q.parseUrl(url) == Some(url) && q.mirrors(url) == Some(urls)
    ensures CheckVersion(q, VersionInfo(version, date, [Artifact(q.platform, url, "zip")] + rest)) ==
      Ok(Some(Resolved.Resolved(version, urls, Zip)))
    ensures CheckVersion(q, VersionInfo(version, date, [Artifact(q.platform, url, "tar.gz")] + rest)) ==
      Ok(Some(Resolved.Resolved(version, urls, TarGz)))
    ensures CheckVersion(q, VersionInfo(version, date + 1, [Artifact(q.platform, url, "zip")] + rest)) == Ok(None)
    ensures CheckVersion(q, VersionInfo(version, date, [Artifact(q.platform, url, "exe")])) == Ok(None)
  {
    assert IsFirstUsable(q, VersionInfo(version, date, [Artifact(q.platform, url, "zip")] + rest), 0, 0);
    assert IsFirstUsable(q, VersionInfo(version, date, [Artifact(q.platform, url, "tar.gz")] + rest), 0, 0);
  }

  /** The Unicode `White_Space` property. */
  predicate IsWhitespace(c: char) {
    var n := c as int;
    0x9 <= n <= 0xD || n == 0x20 || n == 0x85 || n == 0xA0 || n == 0x1680 || 0x2000 <= n <= 0x200A ||
    n == 0x2028 || n == 0x2029 || n == 0x202F || n == 0x205F || n == 0x3000
  }

  predicate IsBlank(s: string) {
    forall i :: 0 <= i < |s| ==> IsWhitespace(s[i])
  }

  lemma BlankExamples()
    ensures IsBlank("") && IsBlank(" \t\r") && IsBlank("\U{A0}\U{3000}") && !IsBlank(" {") && !IsBlank("\U{200B}")
  {
    assert " {"[1] == '{' && "\U{200B}"[0] == '\U{200B}';
  }

  function ParseLine(q: Query, line: seq<Byte>): LineResult {
    var text := DecodeUtf8(line);
    if text.None? then Err(NotUtf8)
    else if IsBlank(text.value) then Ok(None)
    else
      var info := q.json(text.value);
      if info.None? then Err(NotJson) else CheckVersion(q, info.value)
  }

  // ---------------------------------------------------------------------------
  // The whole body

  const NEWLINE: Byte := 10

  datatype Outcome = Version(resolved: Resolved) | BadLine(error: LineError) | FetchFailed | NoMatch(constrained: bool)

  predicate IsDecisive(r: LineResult) {
    r != Ok(None)
  }

  /** The result of the first line that errors or matches. */
  function FirstDecisive(q: Query, lines: seq<seq<Byte>>): (r: Option<LineResult>)
    ensures r.None? <==> forall i :: 0 <= i < |lines| ==> !IsDecisive(ParseLine(q, lines[i]))
    ensures r.Some? ==> exists i :: 0 <= i < |lines| && IsDecisive(r.value) && r.value == ParseLine(q, lines[i]) &&
                                    forall j :: 0 <= j < i ==> !IsDecisive(ParseLine(q, lines[j]))
  {
    if lines == [] then None
    else if IsDecisive(ParseLine(q, lines[0])) then Some(ParseLine(q, lines[0]))
    else
      var r := FirstDecisive(q, lines[1..]);
      assert forall i :: 0 < i < |lines| ==> lines[i] == lines[1..][i - 1];
      assert r.Some? ==> forall i :: 0 <= i < |lines[1..]| ==> lines[1..][i] == lines[i + 1];
      r
  }

  function Report(r: LineResult): Outcome
    requires IsDecisive(r)
  {
    match r
    case Ok(Some(resolved)) => Version(resolved)
    case Err(e) => BadLine(e)
  }

  /** Reading the whole body at once. */
  function ReadWhole(q: Query, body: seq<Byte>): Outcome {
    match FirstDecisive(q, Split(body, NEWLINE))
    case Some(r) => Report(r)
    case None => NoMatch(q.constraints.Some?)
  }

  /** Losing the stream after `body`: only complete lines count. */
  function ReadBroken(q: Query, body: seq<Byte>): Outcome {
    match FirstDecisive(q, Init(Split(body, NEWLINE)))
    case Some(r) => Report(r)
    case None => FetchFailed
  }

  datatype Chunk = Data(bytes: seq<Byte>) | Failure

  /** The bytes before the first failure. */
  function Delivered(chunks: seq<Chunk>): seq<Byte> {
    if chunks == [] || chunks[0].Failure? then [] else chunks[0].bytes + Delivered(chunks[1..])
  }

  predicate Breaks(chunks: seq<Chunk>) {
    exists i :: 0 <= i < |chunks| && chunks[i].Failure?
  }

  /** The answer depends on the delivered bytes only, not on how they were cut. */
  function ReadChunks(q: Query, chunks: seq<Chunk>): Outcome {
    if Breaks(chunks) then ReadBroken(q, Delivered(chunks)) else ReadWhole(q, Delivered(chunks))
  }

  lemma {:induction false} FirstDecisiveAppend(q: Query, a: seq<seq<Byte>>, b: seq<seq<Byte>>)
    ensures FirstDecisive(q, a + b) == if FirstDecisive(q, a).Some? then FirstDecisive(q, a) else FirstDecisive(q, b)
  {
    if a == [] {
      assert a + b == b;
    } else {
      assert (a + b)[1..] == a[1..] + b;
      FirstDecisiveAppend(q, a[1..], b);
    }
  }

  /**
   The body read line by line: the first line decides or is passed over, a last line without a newline counts
   if the stream ended there, and one that was broken off does not.
   */
  lemma LineByLine(q: Query, line: seq<Byte>, rest: seq<Byte>)
    requires 10 !in line
    ensures ReadWhole(q, line) ==
      if IsDecisive(ParseLine(q, line)) then Report(ParseLine(q, line)) else NoMatch(q.constraints.Some?)
    ensures ReadBroken(q, line) == FetchFailed
    ensures ReadWhole(q, line + [10] + rest) ==
      if IsDecisive(ParseLine(q, line)) then Report(ParseLine(q, line)) else ReadWhole(q, rest)
    ensures ReadBroken(q, line + [10] + rest) ==
      if IsDecisive(ParseLine(q, line)) then Report(ParseLine(q, line)) else ReadBroken(q, rest)
  {
    SplitWithoutSeparator(line, NEWLINE);
    SplitAtSeparator(line, NEWLINE, rest);
    var pieces := Split(rest, NEWLINE);
    FirstDecisiveAppend(q, [line], pieces);
    assert Init([line] + pieces) == [line] + Init(pieces);
    FirstDecisiveAppend(q, [line], Init(pieces));
  }

  /** A line that was complete stays complete, so an early answer is final. */
  lemma CompleteLinesAreFinal(q: Query, body: seq<Byte>, more: seq<Byte>)
    requires FirstDecisive(q, Init(Split(body, NEWLINE))).Some?
    ensures ReadWhole(q, body + more) == ReadBroken(q, body + more) == ReadBroken(q, body)
  {
    var tail := CompletePiecesStay(body, more, NEWLINE);
    DecidedEarly(q, Init(Split(body, NEWLINE)), tail);
  }

  lemma DecidedEarly(q: Query, lines: seq<seq<Byte>>, tail: seq<seq<Byte>>)
    requires FirstDecisive(q, lines).Some? && tail != []
    ensures FirstDecisive(q, lines + tail) == FirstDecisive(q, lines)
    ensures FirstDecisive(q, Init(lines + tail)) == FirstDecisive(q, lines)
  {
    FirstDecisiveAppend(q, lines, tail);
    assert Init(lines + tail) == lines + Init(tail);
    FirstDecisiveAppend(q, lines, Init(tail));
  }

  // ---------------------------------------------------------------------------
  // The streaming reader

  method Position(buffer: seq<Byte>) returns (r: Option<nat>)
    ensures r.None? <==> NEWLINE !in buffer
    ensures r.Some? ==> r.value < |buffer| && buffer[r.value] == NEWLINE && NEWLINE !in buffer[..r.value]
  {
    for i := 0 to |buffer|
      invariant NEWLINE !in buffer[..i]
    {
      if buffer[i] == NEWLINE { return Some(i); }
      assert buffer[..i + 1] == buffer[..i] + [buffer[i]];
    }
    assert buffer[..|buffer|] == buffer;
    return None;
  }

  /** The line carries text that is blank, or a version that is not eligible or has nothing usable. */
  ghost predicate PassedOver(q: Query, text: string) {
    IsBlank(text) || (q.json(text).Some? && !Resolvable(q, q.json(text).value))
  }

  ghost predicate Resolvable(q: Query, info: VersionInfo) {
    Eligible(q, info) && exists i :: 0 <= i < |info.artifacts| && Usable(q, info.artifacts[i])
  }

  lemma {:induction false} FirstUsableExists(q: Query, info: VersionInfo, n: nat) returns (i: nat)
    requires n < |info.artifacts| && Usable(q, info.artifacts[n])
    ensures IsFirstUsable(q, info, 0, i)
  {
    if j: nat :| j < n && Usable(q, info.artifacts[j]) {
      i := FirstUsableExists(q, info, j);
    } else {
      i := n;
    }
  }

  lemma CheckIsDecisive(q: Query, info: VersionInfo)
    ensures IsDecisive(CheckVersion(q, info)) <==> Resolvable(q, info)
  {
    if Resolvable(q, info) {
      var n: nat :| n < |info.artifacts| && Usable(q, info.artifacts[n]);
      var i := FirstUsableExists(q, info, n);
      assert CheckVersion(q, info) == Resolve(q, info, info.artifacts[i]);
    }
  }

  lemma TextOfLine(line: seq<Byte>, text: string)
    ensures EncodeUtf8(text) == line <==> DecodeUtf8(line) == Some(text)
  {
    DecodeEncodeUtf8(text);
    if DecodeUtf8(line) == Some(text) { EncodeDecodeUtf8(line); }
  }

  lemma TextIsPassedOver(q: Query, line: seq<Byte>, text: string)
    requires DecodeUtf8(line) == Some(text)
    ensures !IsDecisive(ParseLine(q, line)) <==> PassedOver(q, text)
    ensures ParseLine(q, line) != Err(NotUtf8)
  {
    if q.json(text).Some? { CheckIsDecisive(q, q.json(text).value); }
  }

  /**
   A line is passed over exactly if it is the encoding of some text to pass over; bytes that encode no
   text are an error.
   */
  lemma LineIsPassedOver(q: Query, line: seq<Byte>)
    ensures !IsDecisive(ParseLine(q, line)) <==> exists text :: EncodeUtf8(text) == line && PassedOver(q, text)
    ensures ParseLine(q, line) == Err(NotUtf8) <==> forall text :: EncodeUtf8(text) != line
  {
    forall text ensures EncodeUtf8(text) == line <==> DecodeUtf8(line) == Some(text) {
      TextOfLine(line, text);
    }
    if DecodeUtf8(line).Some? {
      assert EncodeUtf8(DecodeUtf8(line).value) == line;
      TextIsPassedOver(q, line, DecodeUtf8(line).value);
    }
  }

  method ParseAndCheck(q: Query, line: seq<Byte>) returns (r: LineResult)
    ensures r == ParseLine(q, line)
    ensures !IsDecisive(r) <==> exists text :: EncodeUtf8(text) == line && PassedOver(q, text)
    ensures r == Err(NotUtf8) <==> forall text :: EncodeUtf8(text) != line
  {
    LineIsPassedOver(q, line);
    var text := DecodeUtf8(line);
    if text.None? { return Err(NotUtf8); }
    if IsBlank(text.value) { return Ok(None); }
    var info := q.json(text.value);
    if info.None? { return Err(NotJson); }
    r := CheckVersionMatch(q, info.value);
  }

  lemma DrainLine(buffer: seq<Byte>, pos: nat)
    requires pos < |buffer| && buffer[pos] == NEWLINE && NEWLINE !in buffer[..pos]
    ensures Split(buffer, NEWLINE) == [buffer[..pos]] + Split(buffer[pos + 1..], NEWLINE)
  {
    assert buffer == buffer[..pos] + [NEWLINE] + buffer[pos + 1..];
    SplitAtSeparator(buffer[..pos], NEWLINE, buffer[pos + 1..]);
    SplitWithoutSeparator(buffer[..pos], NEWLINE);
  }

  lemma TakeLine(buffer: seq<Byte>, lines: seq<seq<Byte>>, rest: seq<Byte>, pos: nat)
    requires Split(buffer, NEWLINE) == lines + Split(rest, NEWLINE)
    requires pos < |rest| && rest[pos] == NEWLINE && NEWLINE !in rest[..pos]
    ensures Split(buffer, NEWLINE) == lines + [rest[..pos]] + Split(rest[pos + 1..], NEWLINE)
  {
    DrainLine(rest, pos);
  }

  /** Take complete lines off the buffer until one decides or none is left. */
  method DrainLines(q: Query, buffer: seq<Byte>)
    returns (rest: seq<Byte>, answer: Option<LineResult>, ghost lines: seq<seq<Byte>>)
    ensures Split(buffer, NEWLINE) == lines + Split(rest, NEWLINE)
    ensures answer == FirstDecisive(q, lines)
    ensures answer.None? ==> NEWLINE !in rest
  {
    rest, lines, answer := buffer, [], None;
    while true
      invariant Split(buffer, NEWLINE) == lines + Split(rest, NEWLINE)
      invariant FirstDecisive(q, lines) == None && answer == None
      decreases |rest|
    {
      var pos := Position(rest);
      if pos.None? { return; }
      var line := rest[..pos.value];
      var result := ParseAndCheck(q, line);
      TakeLine(buffer, lines, rest, pos.value);
      FirstDecisiveAppend(q, lines, [line]);
      rest, lines := rest[pos.value + 1..], lines + [line];
      if IsDecisive(result) { return rest, Some(result), lines; }
    }
  }

  /** The reader's position: all complete lines of `body` were passed over, and `buffer` is the rest. */
  ghost predicate Scanned(q: Query, body: seq<Byte>, buffer: seq<Byte>) {
    NEWLINE !in buffer && FirstDecisive(q, Init(Split(body, NEWLINE))) == None && Last(Split(body, NEWLINE)) == buffer
  }

  method Feed(q: Query, buffer: seq<Byte>, bytes: seq<Byte>, ghost body: seq<Byte>)
    returns (rest: seq<Byte>, answer: Option<LineResult>)
    requires Scanned(q, body, buffer)
    ensures answer == FirstDecisive(q, Init(Split(body + bytes, NEWLINE)))
    ensures answer.None? ==> Scanned(q, body + bytes, rest)
  {
    ghost var lines;
    rest, answer, lines := DrainLines(q, buffer + bytes);
    FedLines(q, body, bytes, buffer, lines, rest);
    if answer.Some? {
      DecidedBy(q, body + bytes, Init(Split(body, NEWLINE)) + lines, rest);
    } else {
      UndecidedBy(q, body + bytes, Init(Split(body, NEWLINE)) + lines, rest);
    }
  }

  lemma FedLines(
    q: Query, body: seq<Byte>, bytes: seq<Byte>, buffer: seq<Byte>, lines: seq<seq<Byte>>, rest: seq<Byte>)
    requires Scanned(q, body, buffer) && Split(buffer + bytes, NEWLINE) == lines + Split(rest, NEWLINE)
    ensures Split(body + bytes, NEWLINE) == (Init(Split(body, NEWLINE)) + lines) + Split(rest, NEWLINE)
    ensures FirstDecisive(q, Init(Split(body, NEWLINE)) + lines) == FirstDecisive(q, lines)
  {
    var done := Init(Split(body, NEWLINE));
    SplitWithoutSeparator(buffer, NEWLINE);
    InitAndLast(Split(body, NEWLINE));
    SplitExtend(body, done, buffer, bytes, NEWLINE);
    Associative(done, lines, Split(rest, NEWLINE));
    FirstDecisiveAppend(q, done, lines);
  }

  lemma UndecidedBy(q: Query, body: seq<Byte>, lines: seq<seq<Byte>>, rest: seq<Byte>)
    requires Split(body, NEWLINE) == lines + Split(rest, NEWLINE) && FirstDecisive(q, lines) == None
    requires NEWLINE !in rest
    ensures Scanned(q, body, rest)
  {
    SplitWithoutSeparator(rest, NEWLINE);
    assert Init(lines + [rest]) == lines;
  }

  method FindMatchingVersion(q: Query, chunks: seq<Chunk>) returns (r: Outcome)
    ensures r == ReadChunks(q, chunks)
  {
    var buffer: seq<Byte> := [];
    ghost var body: seq<Byte> := [];
    assert chunks[0..] == chunks;
    for i := 0 to |chunks|
      invariant body + Delivered(chunks[i..]) == Delivered(chunks)
      invariant Breaks(chunks) <==> Breaks(chunks[i..])
      invariant Scanned(q, body, buffer)
    {
      DeliveredStep(chunks, i);
      if chunks[i].Failure? {
        assert body + [] == body;
        return FetchFailed;
      }
      var rest, answer := Feed(q, buffer, chunks[i].bytes, body);
      Associative(body, chunks[i].bytes, Delivered(chunks[i + 1..]));
      if answer.Some? {
        CompleteLinesAreFinal(q, body + chunks[i].bytes, Delivered(chunks[i + 1..]));
        return Report(answer.value);
      }
      buffer, body := rest, body + chunks[i].bytes;
    }
    assert body + [] == body;
    LastLineDecides(q, body, buffer);
    var last := ParseAndCheck(q, buffer);
    if IsDecisive(last) { return Report(last); }
    return NoMatch(q.constraints.Some?);
  }

  /** After all complete lines, the unterminated rest is the last line. */
  lemma LastLineDecides(q: Query, body: seq<Byte>, buffer: seq<Byte>)
    requires Scanned(q, body, buffer)
    ensures ReadWhole(q, body) ==
      if IsDecisive(ParseLine(q, buffer)) then Report(ParseLine(q, buffer)) else NoMatch(q.constraints.Some?)
  {
    var lines := Split(body, NEWLINE);
    InitAndLast(lines);
    FirstDecisiveAppend(q, Init(lines), [buffer]);
  }

  lemma DeliveredStep(chunks: seq<Chunk>, i: nat)
    requires i < |chunks|
    ensures chunks[i].Failure? ==> Breaks(chunks[i..]) && Delivered(chunks[i..]) == []
    ensures chunks[i].Data? ==> (Breaks(chunks[i..]) <==> Breaks(chunks[i + 1..]))
    ensures chunks[i].Data? ==> Delivered(chunks[i..]) == chunks[i].bytes + Delivered(chunks[i + 1..])
  {
  }

  lemma DecidedBy(q: Query, body: seq<Byte>, lines: seq<seq<Byte>>, rest: seq<Byte>)
    requires Split(body, NEWLINE) == lines + Split(rest, NEWLINE) && FirstDecisive(q, lines).Some?
    ensures FirstDecisive(q, Init(Split(body, NEWLINE))) == FirstDecisive(q, lines)
  {
    DecidedEarly(q, lines, Split(rest, NEWLINE));
  }
}
