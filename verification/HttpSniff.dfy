/**
 Finding the Host of an HTTP/1.x request in the first bytes of a connection
 (src/sniff/http.rs).
 */
module HttpSniff {
  import opened Common
  import TlsHello

  datatype HttpError =
    | PeekEmpty | InsufficientPrefix | ProtocolNotMatched
    | NoHost | ParseError | InvalidHostname | TooLargeHeader

  type Host = TlsHello.Host
  type Verdict = Result<Host, HttpError>

  /** Decoded text: Unicode scalar values. */
  type Text = seq<nat>

  const CR := 13
  const LF := 10
  const CRLF := [13, 10]
  const CRLFCRLF := [13, 10, 13, 10]
  const SPACE := 32
  const COLON := 58
  const BRACKET := 91

  /** "HTTP/1.0" and "HTTP/1.1". */
  const HTTP_10: Text := [72, 84, 84, 80, 47, 49, 46, 48]
  const HTTP_11: Text := [72, 84, 84, 80, 47, 49, 46, 49]

  /** "host". */
  const HOST: Text := [104, 111, 115, 116]

  // ----- text

  predicate IsContinuation(b: Byte) {
    128 <= b < 192
  }

  /** How many bytes the scalar value at the front takes, 0 if the bytes are not well-formed UTF-8. */
  function ScalarLength(bs: Bytes): (n: nat)
    ensures n <= |bs| && n <= 4
  {
    if bs == [] then 0
    else if bs[0] < 128 then 1
    else if 194 <= bs[0] < 224 && |bs| >= 2 && IsContinuation(bs[1]) then 2
    else if 224 <= bs[0] < 240 && |bs| >= 3 && IsContinuation(bs[1]) && IsContinuation(bs[2])
            && (bs[0] == 224 ==> bs[1] >= 160) && (bs[0] == 237 ==> bs[1] < 160) then 3
    else if 240 <= bs[0] < 245 && |bs| >= 4 && IsContinuation(bs[1]) && IsContinuation(bs[2]) && IsContinuation(bs[3])
            && (bs[0] == 240 ==> bs[1] >= 144) && (bs[0] == 244 ==> bs[1] < 144) then 4
    else 0
  }

  function Scalar(bs: Bytes): nat
    requires ScalarLength(bs) > 0
  {
    var n := ScalarLength(bs);
    var a: int := bs[0];
    var b: int := if n > 1 then bs[1] % 64 else 0;
    var c: int := if n > 2 then bs[2] % 64 else 0;
    var d: int := if n > 3 then bs[3] % 64 else 0;
    if n == 1 then a
    else if n == 2 then a % 32 * 64 + b
    else if n == 3 then a % 16 * 4096 + b * 64 + c
    else a % 8 * 262144 + b * 4096 + c * 64 + d
  }

  /** `std::str::from_utf8`. */
  function Utf8(bs: Bytes): Option<Text>
    decreases |bs|
  {
    if bs == [] then Some([])
    else if ScalarLength(bs) == 0 then None
    else match Utf8(bs[ScalarLength(bs)..])
      case None => None
      case Some(rest) => Some([Scalar(bs)] + rest)
  }

  predicate IsWhitespace(c: nat) {
    || 9 <= c <= 13 || c == 32 || c == 0x85 || c == 0xA0 || c == 0x1680
    || 0x2000 <= c <= 0x200A || c == 0x2028 || c == 0x2029 || c == 0x202F || c == 0x205F || c == 0x3000
  }

  function TrimStart(t: Text): Text {
    if t != [] && IsWhitespace(t[0]) then TrimStart(t[1..]) else t
  }

  function TrimEnd(t: Text): Text {
    if t != [] && IsWhitespace(t[|t| - 1]) then TrimEnd(t[..|t| - 1]) else t
  }

  function Trim(t: Text): Text {
    TrimEnd(TrimStart(t))
  }

  function LowerScalar(c: nat): nat {
    if 65 <= c <= 90 then c + 32 else c
  }

  function LowerText(t: Text): Text {
    seq(|t|, i requires 0 <= i < |t| => LowerScalar(t[i]))
  }

  predicate IsAscii(t: Text) {
    forall c | c in t :: c < 128
  }

  function AsBytes(t: Text): Bytes
    requires IsAscii(t)
  {
    assert forall i | 0 <= i < |t| :: t[i] in t;
    t
  }

  /** The pieces between line ends, as `split("\r\n")` gives them. */
  function Lines(t: Text): (r: seq<Text>)
    ensures |r| >= 1
    decreases |t|
  {
    match Find<int>(t, CRLF)
    case None => [t]
    case Some(i) => [t[..i]] + Lines(t[i + 2..])
  }

  /** Where a character first occurs. */
  function IndexOf(t: Text, c: nat): (r: Option<nat>)
    ensures r.Some? ==> r.value < |t| && t[r.value] == c && forall j | 0 <= j < r.value :: t[j] != c
    ensures r.None? ==> c !in t
  {
    if t == [] then None
    else if t[0] == c then Some(0)
    else match IndexOf(t[1..], c)
      case None => None
      case Some(i) => Some(i + 1)
  }

  /** Where a character last occurs. */
  function LastIndexOf(t: Text, c: nat): (r: Option<nat>)
    ensures r.Some? ==> r.value < |t| && t[r.value] == c && forall j | r.value < j < |t| :: t[j] != c
    ensures r.None? ==> c !in t
  {
    if t == [] then None
    else if t[|t| - 1] == c then Some(|t| - 1)
    else LastIndexOf(t[..|t| - 1], c)
  }

  // ----- what the sniffer computes

  /** `looks_like_http_1x_request_line`: METHOD SP target SP version. */
  predicate RequestLine(line: Text) {
    var parts := Split(line, SPACE);
    && |parts| == 3
    && parts[0] != [] && (forall c | c in parts[0] :: 65 <= c <= 90)
    && parts[1] != []
    && (parts[2] == HTTP_10 || parts[2] == HTTP_11)
  }

  predicate IsDigits(t: Text) {
    forall c | c in t :: 48 <= c <= 57
  }

  /** The value without its port, if it ends in one. */
  function WithoutPort(value: Text): Text {
    match LastIndexOf(value, COLON)
    case None => value
    case Some(i) =>
      if i > 0 && i + 1 < |value| && IsDigits(value[i + 1..]) then value[..i] else value
  }

  /** `parse_http_host_header_value`. */
  function HostValue(raw: Text): Verdict {
    var value := Trim(raw);
    if value == [] then Err(ParseError)
    else if value[0] == BRACKET then Err(InvalidHostname)
    else
      var host := LowerText(Trim(WithoutPort(value)));
      if IsAscii(host) && TlsHello.ValidHostname(AsBytes(host)) then Ok(AsBytes(host)) else Err(InvalidHostname)
  }

  /** The header lines in order, up to the first empty one. */
  function Headers(lines: seq<Text>): Verdict {
    if lines == [] || lines[0] == [] then Err(NoHost)
    else match IndexOf(lines[0], COLON)
      case None => Err(ParseError)
      case Some(i) =>
        if LowerText(lines[0][..i]) == HOST then HostValue(lines[0][i + 1..]) else Headers(lines[1..])
  }

  /** `definitely_not_http_1x_prefix`: the first line is there and is no request line. */
  predicate NotHttp(buf: Bytes) {
    match Find<int>(buf, CRLF)
    case None => false
    case Some(i) => Utf8(buf[..i]).None? || !RequestLine(Utf8(buf[..i]).value)
  }

  function WholeHeader(header: Bytes): Verdict {
    match Utf8(header)
    case None => Err(ProtocolNotMatched)
    case Some(text) =>
      var lines := Lines(text);
      if !RequestLine(lines[0]) then Err(ProtocolNotMatched) else Headers(lines[1..])
  }

  /** `sniff_http_host_from_prefix`. */
  function Sniff(buf: Bytes, maxSize: nat): Verdict {
    if buf == [] then Err(PeekEmpty)
    else if !(65 <= buf[0] <= 90) then Err(ProtocolNotMatched)
    else if NotHttp(buf) then Err(ProtocolNotMatched)
    else match Find<int>(buf, CRLFCRLF)
      case None => Err(if |buf| >= maxSize then TooLargeHeader else InsufficientPrefix)
      case Some(i) => WholeHeader(buf[..i + 4])
  }

  // ----- the code that steps over headers

  method ScanHeaders(lines: seq<Text>) returns (r: Verdict)
    ensures r == Headers(lines)
  {
    hide HostValue;
    for n := 0 to |lines|
      invariant Headers(lines) == Headers(lines[n..])
    {
      var line := lines[n];
      if |line| == 0 {
        return Err(NoHost);
      }
      var colon := IndexOf(line, COLON);
      if colon.None? {
        return Err(ParseError);
      }
      if LowerText(line[..colon.value]) == HOST {
        return HostValue(line[colon.value + 1..]);
      }
      assert lines[n..][1..] == lines[n + 1..];
    }
    return Err(NoHost);
  }

  method SniffPrefix(buf: Bytes, maxSize: nat) returns (r: Verdict)
    ensures r == Sniff(buf, maxSize)
  {
    hide Headers, RequestLine, Utf8, Lines;
    if |buf| == 0 {
      return Err(PeekEmpty);
    }
    if !(65 <= buf[0] <= 90) {
      return Err(ProtocolNotMatched);
    }
    if NotHttp(buf) {
      return Err(ProtocolNotMatched);
    }
    var end := Find<int>(buf, CRLFCRLF);
    if end.None? {
      return Err(if |buf| >= maxSize then TooLargeHeader else InsufficientPrefix);
    }
    var header := Utf8(buf[..end.value + 4]);
    if header.None? {
      return Err(ProtocolNotMatched);
    }
    var lines := Lines(header.value);
    if !RequestLine(lines[0]) {
      return Err(ProtocolNotMatched);
    }
    r := ScanHeaders(lines[1..]);
  }

  // ----- the verdict never changes

  predicate Decisive(v: Verdict) {
    v.Ok? || (v.error != InsufficientPrefix && v.error != PeekEmpty)
  }

  /** A verdict other than "need more" or "empty" survives every extension up to the size limit. */
  lemma SniffNeverChangesMind(buf: Bytes, more: Bytes, maxSize: nat)
    requires Decisive(Sniff(buf, maxSize)) && |buf + more| <= maxSize
    ensures Sniff(buf + more, maxSize) == Sniff(buf, maxSize)
  {
    hide WholeHeader, Find, Utf8, RequestLine;
    var all := buf + more;
    if Find<int>(buf, CRLF).Some? {
      FindIsStable<int>(buf, CRLF, more);
      assert all[..Find<int>(buf, CRLF).value] == buf[..Find<int>(buf, CRLF).value];
    }
    if Find<int>(buf, CRLFCRLF).Some? {
      FindIsStable<int>(buf, CRLFCRLF, more);
      assert all[..Find<int>(buf, CRLFCRLF).value + 4] == buf[..Find<int>(buf, CRLFCRLF).value + 4];
      EndImpliesLine(buf);
    } else if |buf| >= maxSize {
      assert all == buf;
    }
  }

  /** Where a header ends, a line ends too. */
  lemma {:induction false} EndImpliesLine(buf: Bytes)
    requires Find<int>(buf, CRLFCRLF).Some?
    ensures Find<int>(buf, CRLF).Some? && Find<int>(buf, CRLF).value <= Find<int>(buf, CRLFCRLF).value
  {
    if CRLFCRLF <= buf {
      assert CRLF <= buf;
    } else {
      EndImpliesLine(buf[1..]);
    }
  }

  // ----- a request with its headers

  /** No line end inside. */
  predicate NoBreak(s: seq<int>) {
    forall i | 0 <= i < |s| - 1 :: !(s[i] == CR && s[i + 1] == LF)
  }

  /** A line as it can stand in a header: any text, but neither empty nor with a line end inside. */
  predicate PlainLine(line: Bytes) {
    line != [] && NoBreak(line) && Utf8(line).Some?
  }

  predicate PlainLines(lines: seq<Bytes>) {
    forall line | line in lines :: PlainLine(line)
  }

  function EncodeLines(lines: seq<Bytes>): Bytes {
    if lines == [] then [] else lines[0] + CRLF + EncodeLines(lines[1..])
  }

  function Decoded(line: Bytes): Text
    requires Utf8(line).Some?
  {
    Utf8(line).value
  }

  function DecodedLines(lines: seq<Bytes>): (ts: seq<Text>)
    requires PlainLines(lines)
    ensures |ts| == |lines|
  {
    seq(|lines|, i requires 0 <= i < |lines| => assert lines[i] in lines; Decoded(lines[i]))
  }

  // searching for line ends

  lemma FindStep(s: seq<int>, pattern: seq<int>)
    requires s != [] && !(pattern <= s)
    ensures Find<int>(s, pattern) == match Find<int>(s[1..], pattern) case None => None case Some(i) => Some(i + 1)
  {
  }

  lemma FindHere(s: seq<int>, pattern: seq<int>)
    requires pattern <= s
    ensures Find<int>(s, pattern) == Some(0)
  {
  }

  /** Nothing that begins with a line end begins inside a line. */
  lemma {:induction false} FindPastLine(line: seq<int>, rest: seq<int>, pattern: seq<int>)
    requires NoBreak(line) && rest != [] && rest[0] == CR && |pattern| >= 2 && pattern[..2] == CRLF
    ensures Find<int>(line + rest, pattern) ==
            match Find<int>(rest, pattern) case None => None case Some(i) => Some(|line| + i)
    decreases |line|
  {
    hide Find;
    if line == [] {
      assert line + rest == rest;
    } else {
      var all := line + rest;
      assert !(pattern <= all) by {
        assert pattern[0] == CR && pattern[1] == LF;
        assert all[1] == if |line| > 1 then line[1] else rest[0];
      }
      FindStep(all, pattern);
      assert all[1..] == line[1..] + rest;
      FindPastLine(line[1..], rest, pattern);
    }
  }

  lemma FindLineEnd(line: seq<int>, more: seq<int>)
    requires NoBreak(line)
    ensures Find<int>(line + CRLF + more, CRLF) == Some(|line|)
  {
    hide Find;
    assert line + CRLF + more == line + (CRLF + more);
    FindPastLine(line, CRLF + more, CRLF);
    FindHere(CRLF + more, CRLF);
  }

  lemma BreakAhead(s: seq<int>)
    ensures CRLF <= s <==> |s| >= 2 && s[0] == CR && s[1] == LF
  {
    if |s| >= 2 {
      assert s[..2] == [s[0], s[1]];
    }
  }

  lemma EmptyLineAhead(s: seq<int>)
    ensures CRLFCRLF <= s ==> |s| >= 4 && s[2] == CR && s[3] == LF
  {
    if CRLFCRLF <= s {
      assert s[..4] == CRLFCRLF;
      assert s[2] == s[..4][2] && s[3] == s[..4][3];
    }
  }

  lemma FindBehindBreak(rest: seq<int>)
    requires !(CRLF <= rest) && Find<int>(rest, CRLFCRLF).Some?
    ensures Find<int>(CRLF + rest, CRLFCRLF) == Some(2 + Find<int>(rest, CRLFCRLF).value)
  {
    hide Find;
    var tail := CRLF + rest;
    BreakAhead(rest);
    EmptyLineAhead(tail);
    FindStep(tail, CRLFCRLF);
    assert tail[1..] == [LF] + rest;
    FindSkips<int>([LF], rest, CRLFCRLF);
  }

  lemma LineIsNoBreak(line: seq<int>, rest: seq<int>)
    requires line != [] && NoBreak(line) && rest != [] && rest[0] == CR
    ensures !(CRLF <= line + rest)
  {
    var all := line + rest;
    BreakAhead(all);
    assert all[1] == if |line| > 1 then line[1] else rest[0];
  }

  lemma LinesAreNoBreak(lines: seq<Bytes>)
    requires lines != [] && PlainLines(lines)
    ensures !(CRLF <= EncodeLines(lines) + CRLF)
  {
    hide NoBreak, Utf8;
    assert PlainLine(lines[0]) by { assert lines[0] in lines; }
    var behind := CRLF + (EncodeLines(lines[1..]) + CRLF);
    assert EncodeLines(lines) + CRLF == lines[0] + behind;
    LineIsNoBreak(lines[0], behind);
  }

  lemma {:induction false} FindHeaderEnd(lines: seq<Bytes>)
    requires lines != [] && PlainLines(lines)
    ensures Find<int>(EncodeLines(lines) + CRLF, CRLFCRLF) == Some(|EncodeLines(lines)| - 2)
    decreases |lines|
  {
    hide Find, Utf8, NoBreak;
    assert PlainLine(lines[0]) by { assert lines[0] in lines; }
    var rest := EncodeLines(lines[1..]) + CRLF;
    var tail := CRLF + rest;
    assert EncodeLines(lines) + CRLF == lines[0] + tail;
    FindPastLine(lines[0], tail, CRLFCRLF);
    if |lines| == 1 {
      assert tail == CRLFCRLF;
      FindHere(tail, CRLFCRLF);
    } else {
      FindHeaderEnd(lines[1..]);
      LinesAreNoBreak(lines[1..]);
      FindBehindBreak(rest);
    }
  }

  // decoding

  lemma ScalarStays(a: Bytes, b: Bytes)
    requires ScalarLength(a) > 0
    ensures ScalarLength(a + b) == ScalarLength(a) && Scalar(a + b) == Scalar(a)
  {
  }

  lemma Utf8Step(bs: Bytes)
    requires bs != []
    ensures var n := ScalarLength(bs);
            Utf8(bs) == if n == 0 || Utf8(bs[n..]).None? then None else Some([Scalar(bs)] + Utf8(bs[n..]).value)
  {
    hide ScalarLength, Scalar;
  }

  lemma Utf8OfNothing()
    ensures Utf8([]) == Some([])
  {
  }

  lemma Prepend(c: nat, t: Text, u: Text)
    ensures [c] + (t + u) == ([c] + t) + u
  {
  }

  /** Text that decodes, decodes piece by piece. */
  lemma {:induction false} Utf8Append(a: Bytes, b: Bytes)
    requires Utf8(a).Some?
    ensures Utf8(a + b) == match Utf8(b) case None => None case Some(t) => Some(Utf8(a).value + t)
    decreases |a|
  {
    hide ScalarLength, Scalar, Utf8;
    if a == [] {
      Utf8OfNothing();
      assert a + b == b;
      assert Utf8(b).Some? ==> [] + Utf8(b).value == Utf8(b).value;
    } else {
      Utf8Step(a);
      Utf8Step(a + b);
      ScalarStays(a, b);
      var n := ScalarLength(a);
      assert (a + b)[n..] == a[n..] + b;
      Utf8Append(a[n..], b);
      if Utf8(b).Some? {
        Prepend(Scalar(a), Utf8(a[n..]).value, Utf8(b).value);
      }
    }
  }

  lemma {:induction false} Utf8OfAscii(bs: Bytes)
    requires forall b | b in bs :: b < 128
    ensures Utf8(bs) == Some(bs)
  {
    if bs == [] {
    } else {
      assert bs[0] in bs && forall b | b in bs[1..] :: b in bs;
      Utf8OfAscii(bs[1..]);
      assert bs == [bs[0]] + bs[1..];
    }
  }

  /** An ASCII character is a single byte. */
  lemma AsciiIsOneByte(bs: Bytes)
    requires ScalarLength(bs) > 0
    ensures Scalar(bs) < 128 ==> ScalarLength(bs) == 1 && Scalar(bs) == bs[0]
  {
  }

  /** Decoding makes no line ends. */
  lemma {:induction false} DecodedHasNoBreak(bs: Bytes)
    requires Utf8(bs).Some? && NoBreak(bs)
    ensures NoBreak(Utf8(bs).value)
    ensures bs != [] ==> Utf8(bs).value != []
    ensures Utf8(bs).value != [] && Utf8(bs).value[0] < 128 ==> bs[0] == Utf8(bs).value[0]
    decreases |bs|
  {
    hide ScalarLength, Scalar;
    if bs == [] {
    } else {
      var n := ScalarLength(bs);
      var rest := Utf8(bs[n..]).value;
      DecodedHasNoBreak(bs[n..]);
      AsciiIsOneByte(bs);
      assert NoBreak(bs[n..]);
      assert Scalar(bs) == CR ==> bs[0] == CR && n == 1;
      assert n == 1 && rest != [] && rest[0] == LF ==> bs[1] == LF;
    }
  }

  lemma CrlfDecodes()
    ensures Utf8(CRLF) == Some(CRLF)
  {
    Utf8OfAscii(CRLF);
  }

  function EncodeTexts(ts: seq<Text>): Text {
    if ts == [] then [] else ts[0] + CRLF + EncodeTexts(ts[1..])
  }

  lemma {:induction false} Utf8OfLines(lines: seq<Bytes>)
    requires PlainLines(lines)
    ensures Utf8(EncodeLines(lines) + CRLF) == Some(EncodeTexts(DecodedLines(lines)) + CRLF)
    decreases |lines|
  {
    hide Utf8, NoBreak;
    CrlfDecodes();
    if lines == [] {
      assert EncodeLines(lines) + CRLF == CRLF;
      assert EncodeTexts(DecodedLines(lines)) + CRLF == CRLF;
    } else {
      assert PlainLine(lines[0]) by { assert lines[0] in lines; }
      var rest := EncodeLines(lines[1..]) + CRLF;
      var text := EncodeTexts(DecodedLines(lines[1..])) + CRLF;
      Utf8OfLines(lines[1..]);
      Utf8Append(CRLF, rest);
      Utf8Append(lines[0], CRLF + rest);
      assert EncodeLines(lines) + CRLF == lines[0] + (CRLF + rest);
      assert DecodedLines(lines)[1..] == DecodedLines(lines[1..]);
      assert Decoded(lines[0]) + (CRLF + text) == EncodeTexts(DecodedLines(lines)) + CRLF;
    }
  }

  lemma LinesOfNothing()
    ensures Lines(CRLF) == [[], []]
  {
    assert CRLF[2..] == [] && CRLF[..0] == [];
    assert Find<int>([], CRLF).None?;
  }

  lemma LinesStep(line: Text, rest: Text)
    requires NoBreak(line)
    ensures Lines(line + CRLF + rest) == [line] + Lines(rest)
  {
    hide Find;
    FindLineEnd(line, rest);
    var text := line + CRLF + rest;
    assert text[..|line|] == line && text[|line| + 2..] == rest;
  }

  lemma {:induction false} LinesOfTexts(ts: seq<Text>)
    requires forall t | t in ts :: NoBreak(t)
    ensures Lines(EncodeTexts(ts) + CRLF) == ts + [[], []]
    decreases |ts|
  {
    hide Lines, NoBreak;
    if ts == [] {
      assert EncodeTexts(ts) + CRLF == CRLF;
      LinesOfNothing();
    } else {
      var rest := EncodeTexts(ts[1..]) + CRLF;
      assert EncodeTexts(ts) + CRLF == ts[0] + CRLF + rest;
      assert ts[0] in ts;
      LinesStep(ts[0], rest);
      LinesOfTexts(ts[1..]);
      assert ts == [ts[0]] + ts[1..];
    }
  }

  lemma RequestLineStartsUpper(line: Text)
    requires RequestLine(line)
    ensures line != [] && 65 <= line[0] <= 90
  {
    var parts := Split(line, SPACE);
    assert parts[0][0] in parts[0];
    JoinSplit(line, SPACE);
    assert Join(parts, SPACE)[0] == parts[0][0];
  }

  lemma FirstLineIsRequest(lines: seq<Bytes>, more: Bytes)
    requires lines != [] && PlainLines(lines) && RequestLine(DecodedLines(lines)[0])
    ensures var buf := EncodeLines(lines) + CRLF + more; buf != [] && 65 <= buf[0] <= 90 && !NotHttp(buf)
  {
    hide Find, RequestLine, Utf8, NoBreak;
    assert PlainLine(lines[0]) by { assert lines[0] in lines; }
    var buf := EncodeLines(lines) + CRLF + more;
    var rest := EncodeLines(lines[1..]) + CRLF + more;
    assert buf == lines[0] + CRLF + rest;
    FindLineEnd(lines[0], rest);
    assert buf[..|lines[0]|] == lines[0];
    RequestLineStartsUpper(Decoded(lines[0]));
    DecodedHasNoBreak(lines[0]);
    assert buf[0] == lines[0][0];
  }

  /** A complete request is judged by its header lines, whatever follows it. */
  lemma HeaderLinesDecide(lines: seq<Bytes>, more: Bytes, maxSize: nat)
    requires lines != [] && PlainLines(lines) && RequestLine(DecodedLines(lines)[0])
    ensures Sniff(EncodeLines(lines) + CRLF + more, maxSize) == Headers(DecodedLines(lines)[1..] + [[], []])
  {
    hide Find, Headers, RequestLine, Utf8, Lines, EncodeLines, EncodeTexts, NotHttp, DecodedLines, PlainLine;
    var header := EncodeLines(lines) + CRLF;
    var ts := DecodedLines(lines);
    FirstLineIsRequest(lines, more);
    FindHeaderEnd(lines);
    FindIsStable<int>(header, CRLFCRLF, more);
    assert (header + more)[..|header|] == header;
    Utf8OfLines(lines);
    DecodedAreNoBreak(lines);
    LinesOfTexts(ts);
    assert (ts + [[], []])[1..] == ts[1..] + [[], []];
  }

  lemma DecodedAreNoBreak(lines: seq<Bytes>)
    requires PlainLines(lines)
    ensures forall t | t in DecodedLines(lines) :: NoBreak(t)
  {
    hide Utf8, NoBreak;
    forall i | 0 <= i < |lines|
      ensures NoBreak(DecodedLines(lines)[i])
    {
      assert PlainLine(lines[i]) by { assert lines[i] in lines; }
      DecodedHasNoBreak(lines[i]);
    }
  }

  /** A header line that is not a Host line. */
  predicate OtherHeader(line: Text) {
    && line != [] && IndexOf(line, COLON).Some?
    && LowerText(line[..IndexOf(line, COLON).value]) != HOST
  }

  lemma {:induction false} HeadersSkip(before: seq<Text>, lines: seq<Text>)
    requires forall line | line in before :: OtherHeader(line)
    ensures Headers(before + lines) == Headers(lines)
    decreases |before|
  {
    hide HostValue;
    if before == [] {
      assert before + lines == lines;
    } else {
      assert OtherHeader(before[0]) by { assert before[0] in before; }
      assert (before + lines)[1..] == before[1..] + lines;
      HeadersSkip(before[1..], lines);
    }
  }

  lemma HostLineInHeaders(before: seq<Text>, name: Text, value: Text, after: seq<Text>)
    requires LowerText(name) == HOST && COLON !in name && forall line | line in before :: OtherHeader(line)
    ensures Headers(before + ([name + [COLON] + value] + after)) == HostValue(value)
  {
    hide HostValue, OtherHeader;
    var host := name + [COLON] + value;
    HeadersSkip(before, [host] + after);
    var i := IndexOf(host, COLON).value;
    assert i == |name| by {
      assert forall j | 0 <= j < |name| :: host[j] == name[j] && name[j] in name;
      assert host[|name|] == COLON;
    }
    assert host[..i] == name && host[i + 1..] == value;
  }

  /** A Host line decodes to its name, the colon and its decoded value. */
  lemma HostLineDecodes(name: Bytes, value: Bytes)
    requires LowerText(name) == HOST && Utf8(name + [COLON] + value).Some?
    ensures Utf8(value).Some? && Utf8(name + [COLON] + value).value == name + [COLON] + Decoded(value)
  {
    hide Utf8;
    var front: Bytes := name + [COLON];
    assert forall i | 0 <= i < |name| :: LowerText(name)[i] == LowerScalar(name[i]) == HOST[i];
    assert forall b | b in front :: b < 128;
    Utf8OfAscii(front);
    Utf8Append(front, value);
  }

  /** Wherever the first Host line stands among the headers, its value decides. */
  lemma HostLineDecides(
    request: Bytes, before: seq<Bytes>, name: Bytes, value: Bytes, after: seq<Bytes>, more: Bytes, maxSize: nat)
    requires LowerText(name) == HOST && COLON !in name
    requires PlainLine(request) && PlainLines(before) && PlainLine(name + [COLON] + value) && PlainLines(after)
    requires RequestLine(Decoded(request)) && forall line | line in before :: OtherHeader(Decoded(line))
    ensures Utf8(value).Some?
    ensures var lines := [request] + before + [name + [COLON] + value] + after;
            Sniff(EncodeLines(lines) + CRLF + more, maxSize) == HostValue(Decoded(value))
  {
    hide RequestLine, HostValue, OtherHeader, Sniff, EncodeLines, Utf8, Headers, PlainLine, LowerText;
    var host: Bytes := name + [COLON] + value;
    var lines := [request] + before + [host] + after;
    assert Utf8(host).Some? by { PlainDecodes(host); }
    HostLineDecodes(name, value);
    assert PlainLines(lines);
    HeaderLinesDecide(lines, more, maxSize);
    var b := DecodedLines(before);
    var a: seq<Text> := DecodedLines(after) + [[], []];
    assert DecodedLines(lines)[1..] + [[], []] == b + ([Decoded(host)] + a);
    assert forall t | t in b :: OtherHeader(t);
    HostLineInHeaders(b, name, Decoded(value), a);
  }

  lemma PlainDecodes(line: Bytes)
    requires PlainLine(line)
    ensures Utf8(line).Some?
  {
  }

  // ----- the value of a Host header

  predicate AllWhitespace(t: Text) {
    forall c | c in t :: IsWhitespace(c)
  }

  /** No white space at either end. */
  predicate Tight(t: Text) {
    t != [] && !IsWhitespace(t[0]) && !IsWhitespace(t[|t| - 1])
  }

  lemma {:induction false} TrimStartOfPadded(pad: Text, t: Text)
    requires AllWhitespace(pad) && t != [] && !IsWhitespace(t[0])
    ensures TrimStart(pad + t) == t
  {
    if pad == [] {
      assert pad + t == t;
    } else {
      assert pad[0] in pad && (pad + t)[1..] == pad[1..] + t;
      TrimStartOfPadded(pad[1..], t);
    }
  }

  lemma {:induction false} TrimEndOfPadded(t: Text, pad: Text)
    requires AllWhitespace(pad) && t != [] && !IsWhitespace(t[|t| - 1])
    ensures TrimEnd(t + pad) == t
  {
    if pad == [] {
      assert t + pad == t;
    } else {
      var n := |pad| - 1;
      assert pad[n] in pad && (t + pad)[..|t + pad| - 1] == t + pad[..n];
      TrimEndOfPadded(t, pad[..n]);
    }
  }

  lemma TrimOfPadded(pad: Text, t: Text, pad': Text)
    requires AllWhitespace(pad) && AllWhitespace(pad') && Tight(t)
    ensures Trim(pad + t + pad') == t
  {
    assert pad + t + pad' == pad + (t + pad');
    TrimStartOfPadded(pad, t + pad');
    TrimEndOfPadded(t, pad');
  }

  /** The bytes of a valid host name are letters, digits, dots and dashes. */
  lemma HostnameBytes(host: Bytes, b: Byte)
    requires TlsHello.ValidHostname(host) && b in host
    ensures TlsHello.IsHostByte(b) || b == TlsHello.DOT
  {
    if b != TlsHello.DOT {
      TlsHello.SplitKeepsBytes(host, TlsHello.DOT, b);
      var part :| part in Split(host, TlsHello.DOT) && b in part;
      assert TlsHello.ValidLabel(part);
    }
  }

  /** Spaces around it and a port behind it do not hide a host name; letters come out in lower case. */
  lemma HostValueOfHost(pad: Text, host: Bytes, port: Text, pad': Text)
    requires AllWhitespace(pad) && AllWhitespace(pad')
    requires TlsHello.ValidHostname(TlsHello.LowerAll(host))
    requires port == [] || (port[0] == COLON && |port| > 1 && IsDigits(port[1..]))
    ensures HostValue(pad + (host + port) + pad') == Ok(TlsHello.LowerAll(host))
  {
    hide Trim, TlsHello.ValidHostname, IsWhitespace;
    var lower := TlsHello.LowerAll(host);
    var value: Text := host + port;
    HostIsTight(host, port);
    TrimOfPadded(pad, value, pad');
    assert [] + host + [] == host;
    HostIsTight(host, []);
    TrimOfPadded([], host, []);
    PortIsDropped(host, port);
    assert LowerText(host) == lower;
    forall c | c in lower ensures c < 128 {
      HostnameBytes(lower, c);
    }
  }

  lemma HostIsPlain(host: Bytes, b: Byte)
    requires TlsHello.ValidHostname(TlsHello.LowerAll(host)) && b in host
    ensures !IsWhitespace(b) && b != COLON && b != BRACKET
  {
    hide TlsHello.ValidHostname;
    var i :| 0 <= i < |host| && host[i] == b;
    assert TlsHello.LowerAll(host)[i] == TlsHello.Lower(b);
    HostnameBytes(TlsHello.LowerAll(host), TlsHello.Lower(b));
  }

  lemma HostIsTight(host: Bytes, port: Text)
    requires TlsHello.ValidHostname(TlsHello.LowerAll(host))
    requires port == [] || (port[0] == COLON && |port| > 1 && IsDigits(port[1..]))
    ensures |host| > 0 && Tight(host + port) && (host + port)[0] != BRACKET
  {
    assert |TlsHello.LowerAll(host)| > 0;
    hide TlsHello.ValidHostname;
    HostIsPlain(host, host[0]);
    HostIsPlain(host, host[|host| - 1]);
    if port != [] {
      var last := port[1..][|port| - 2];
      assert last in port[1..] && (host + port)[|host + port| - 1] == last;
    }
  }

  lemma PortIsDropped(host: Bytes, port: Text)
    requires TlsHello.ValidHostname(TlsHello.LowerAll(host)) && |host| > 0
    requires port == [] || (port[0] == COLON && |port| > 1 && IsDigits(port[1..]))
    ensures WithoutPort(host + port) == host
  {
    hide TlsHello.ValidHostname;
    var value: Text := host + port;
    forall j | 0 <= j < |host| ensures value[j] != COLON {
      HostIsPlain(host, host[j]);
    }
    if port != [] {
      assert value[|host|] == COLON;
      forall j | |host| < j < |value| ensures value[j] != COLON {
        assert value[j] == port[1..][j - |host| - 1];
        assert port[1..][j - |host| - 1] in port[1..];
      }
      assert LastIndexOf(value, COLON) == Some(|host|);
      assert value[|host| + 1..] == port[1..];
      assert value[..|host|] == host;
    } else {
      assert value == host;
    }
  }

  // ----- a request spelled out

  predicate Capitals(t: Text) {
    t != [] && forall c | c in t :: 'A' as int <= c <= 'Z' as int
  }

  /** A request line is a method in capitals, a target and one of two versions, with single spaces between. */
  lemma RequestLineMeans(line: Text)
    ensures RequestLine(line) <==>
            exists m: Text, target: Text, v: Text ::
              && line == m + [32] + target + [32] + v && Capitals(m)
              && target != [] && 32 !in target
              && (v == TlsHello.Ascii("HTTP/1.0") || v == TlsHello.Ascii("HTTP/1.1"))
  {
    VersionsAre();
    if RequestLine(line) {
      var parts := Split(line, SPACE);
      JoinSplit(line, SPACE);
      SplitHasNoSeparator(line, SPACE);
      ThreeParts(parts);
      assert parts[1] in parts;
      var i, j := |parts[0]|, |parts[0]| + 1 + |parts[1]|;
      var m: Text, target: Text, v: Text := line[..i], line[i + 1..j], line[j + 1..];
      assert m == parts[0] && target == parts[1] && v == parts[2];
      assert line == m + [32] + target + [32] + v;
    }
    if m: Text, target: Text, v: Text :|
        && line == m + [32] + target + [32] + v && Capitals(m) && target != [] && 32 !in target
        && (v == TlsHello.Ascii("HTTP/1.0") || v == TlsHello.Ascii("HTTP/1.1"))
    {
      GoodRequestLine(m, target, v);
    }
  }

  lemma VersionsAre()
    ensures TlsHello.Ascii("HTTP/1.0") == HTTP_10 && TlsHello.Ascii("HTTP/1.1") == HTTP_11
    ensures TlsHello.Ascii("Host") == [72, 111, 115, 116] && LowerText([72, 111, 115, 116]) == HOST
  {
  }

  lemma ThreeParts(parts: seq<seq<int>>)
    requires |parts| == 3
    ensures Join(parts, SPACE) == parts[0] + [32] + parts[1] + [32] + parts[2]
  {
    var tail := parts[1..];
    assert tail[1..] == [parts[2]];
    assert Join(tail, SPACE) == parts[1] + [32] + parts[2];
    assert parts[0] + [32] + (parts[1] + [32] + parts[2]) == parts[0] + [32] + parts[1] + [32] + parts[2];
  }

  lemma GoodRequestLine(m: Text, target: Text, v: Text)
    requires Capitals(m) && target != [] && 32 !in target && (v == HTTP_10 || v == HTTP_11)
    ensures RequestLine(m + [32] + target + [32] + v)
  {
    var parts := [m, target, v];
    ThreeParts(parts);
    assert forall p | p in parts :: SPACE !in p;
    SplitJoin(parts, SPACE);
  }

  lemma AsciiIsPlain(line: Bytes)
    requires line != [] && forall b | b in line :: b < 128 && b != CR
    ensures PlainLine(line) && Decoded(line) == line
  {
    Utf8OfAscii(line);
    assert forall i | 0 <= i < |line| :: line[i] in line;
  }

  /**
   From a host name to the answer: a request with a Host header yields that host in lower case,
   with or without a port, whatever follows.
   */
  lemma RequestIsSniffed(m: Bytes, target: Bytes, host: Bytes, port: Bytes, more: Bytes, maxSize: nat)
    requires Capitals(m) && target != [] && forall b | b in target :: 33 <= b <= 126
    requires TlsHello.ValidHostname(TlsHello.LowerAll(host))
    requires port == [] || (port[0] == ':' as int && |port| > 1 && IsDigits(port[1..]))
    ensures var request: Bytes := m + [32] + target + [32] + TlsHello.Ascii("HTTP/1.1");
            var header: Bytes := TlsHello.Ascii("Host") + [58] + ([32] + (host + port));
            Sniff(request + [13, 10] + (header + [13, 10]) + [13, 10] + more, maxSize) == Ok(TlsHello.LowerAll(host))
  {
    hide Sniff, HostValue, RequestLine, Utf8, TlsHello.ValidHostname, TlsHello.LowerAll, TlsHello.Ascii, LowerText;
    VersionsAre();
    var name: Bytes := TlsHello.Ascii("Host");
    var request: Bytes := m + [32] + target + [32] + TlsHello.Ascii("HTTP/1.1");
    var value: Bytes := [32] + (host + port);
    var header: Bytes := name + [58] + value;
    GoodRequestLine(m, target, HTTP_11);
    AsciiIsPlain(request);
    HeaderIsAscii(name, host, port);
    AsciiIsPlain(header);
    HostLineDecides(request, [], name, value, [], more, maxSize);
    ValueIsAscii(host, port);
    Utf8OfAscii(value);
    HostValueOfHost([32], host, port, []);
    assert [32] + (host + port) + [] == value;
    TwoLines(request, header, more);
  }

  lemma ValueIsAscii(host: Bytes, port: Bytes)
    requires TlsHello.ValidHostname(TlsHello.LowerAll(host))
    requires port == [] || (port[0] == 58 && |port| > 1 && IsDigits(port[1..]))
    ensures forall b | b in [32] + (host + port) :: b < 128 && b != CR
  {
    hide TlsHello.ValidHostname, TlsHello.LowerAll;
    forall b: Byte | b in host
      ensures b < 128 && b != CR
    {
      HostIsAscii(host, b);
    }
    assert port != [] ==> port == [port[0]] + port[1..];
  }

  lemma HostIsAscii(host: Bytes, b: Byte)
    requires TlsHello.ValidHostname(TlsHello.LowerAll(host)) && b in host
    ensures b < 128 && b != CR
  {
    hide TlsHello.ValidHostname;
    var i :| 0 <= i < |host| && host[i] == b;
    TlsHello.LowerMeans(host, i);
    assert TlsHello.LowerAll(host)[i] in TlsHello.LowerAll(host);
    HostnameBytes(TlsHello.LowerAll(host), TlsHello.LowerAll(host)[i]);
  }

  lemma HeaderIsAscii(name: Bytes, host: Bytes, port: Bytes)
    requires name == [72, 111, 115, 116] && TlsHello.ValidHostname(TlsHello.LowerAll(host))
    requires port == [] || (port[0] == 58 && |port| > 1 && IsDigits(port[1..]))
    ensures forall b | b in name + [58] + ([32] + (host + port)) :: b < 128 && b != CR
  {
    hide TlsHello.ValidHostname, TlsHello.LowerAll;
    ValueIsAscii(host, port);
  }

  lemma TwoLines(a: Bytes, b: Bytes, more: Bytes)
    ensures var lines := [a] + [] + [b] + [];
            EncodeLines(lines) + CRLF + more == a + [13, 10] + (b + [13, 10]) + [13, 10] + more
  {
    var lines := [a, b];
    assert [a] + [] + [b] + [] == lines;
    assert lines[1..] == [b] && [b][1..] == [];
    assert EncodeLines([b]) == b + CRLF + EncodeLines([]);
    assert EncodeLines([]) == [];
    assert b + CRLF + [] == b + CRLF;
  }

  /** What does not begin with a capital letter is not HTTP, nor is a first line that is no request line. */
  lemma ForeignBytesAreRefused(buf: Bytes, line: Bytes, more: Bytes, maxSize: nat)
    requires buf != []
    ensures !('A' as int <= buf[0] <= 'Z' as int) ==> Sniff(buf, maxSize) == Err(ProtocolNotMatched)
    ensures line != [] && NoBreak(line) && Utf8(line).Some? && !RequestLine(Decoded(line)) ==>
              Sniff(line + [13, 10] + more, maxSize) == Err(ProtocolNotMatched)
  {
    hide Find, Utf8, RequestLine, WholeHeader, NoBreak;
    if NoBreak(line) {
      FindLineEnd(line, more);
      assert (line + CRLF + more)[..|line|] == line;
    }
  }

  /** A header that does not end within the limit is too large. */
  lemma EndlessHeaderIsRefused(request: Bytes, more: Bytes, maxSize: nat)
    requires PlainLine(request) && RequestLine(Decoded(request))
    requires var buf := request + [13, 10] + more; Find<int>(buf, [13, 10, 13, 10]).None?
    ensures var buf := request + [13, 10] + more;
            Sniff(buf, maxSize) == Err(if |buf| >= maxSize then TooLargeHeader else InsufficientPrefix)
  {
    hide Find, Utf8, RequestLine, NoBreak;
    FindLineEnd(request, more);
    assert (request + CRLF + more)[..|request|] == request;
    RequestLineStartsUpper(Decoded(request));
    DecodedHasNoBreak(request);
  }

  /** An address literal is no host name, and an empty value is an error. */
  lemma HostValueRefuses(pad: Text, value: Text)
    requires AllWhitespace(pad)
    ensures HostValue(pad) == Err(ParseError)
    ensures value != [] && value[0] == '[' as int && Tight(value) ==> HostValue(pad + value) == Err(InvalidHostname)
  {
    hide WithoutPort, IsWhitespace, TlsHello.ValidHostname;
    OnlyPadding(pad);
    if value != [] && value[0] == '[' as int && Tight(value) {
      TrimOfPadded(pad, value, []);
      assert pad + value + [] == pad + value;
    }
  }

  lemma {:induction false} OnlyPadding(pad: Text)
    requires AllWhitespace(pad)
    ensures TrimStart(pad) == []
  {
    if pad == [] {
    } else {
      OnlyPadding(pad[1..]);
    }
  }

  /** Header lines without a Host among them give no host, and a line without a colon is an error. */
  lemma HeadersWithoutHost(before: seq<Text>, line: Text, after: seq<Text>)
    requires forall l | l in before :: OtherHeader(l)
    ensures Headers(before + [[], []]) == Err(NoHost)
    ensures line != [] && ':' as int !in line ==> Headers(before + ([line] + after)) == Err(ParseError)
  {
    hide OtherHeader, HostValue;
    HeadersSkip(before, [[], []]);
    HeadersSkip(before, [line] + after);
  }
}
