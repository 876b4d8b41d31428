/**
 The body of a TLS ClientHello (section 4.1.2 of RFC 8446) and its server_name extension
 (section 3 of RFC 6066), as src/sniff/tls_common.rs reads them.

 The functions read from the front of what is left; the methods move a cursor like the source.
 */
module TlsHello {
  import opened Common

  datatype TlsError =
    | PeekEmpty | InsufficientPrefix | ProtocolNotMatched
    | NoSni | ParseError | InvalidHostname | TooLargeClientHello

  /** A host name is kept as bytes: an accepted one is pure ASCII. */
  type Host = Bytes

  const DOT: Byte := 46
  const DASH: Byte := 45

  /** The outer name of Cloudflare's encrypted ClientHello. */
  const ECH_OUTER_NAME: Bytes :=
    [99, 108, 111, 117, 100, 102, 108, 97, 114, 101, 45, 101, 99, 104, 46, 99, 111, 109]

  function BeU16(hi: Byte, lo: Byte): nat {
    256 * hi + lo
  }

  function BeU24(a: Byte, b: Byte, c: Byte): nat {
    65536 * a + 256 * b + c
  }

  // ----- host names

  predicate IsAlpha(b: Byte) {
    65 <= b <= 90 || 97 <= b <= 122
  }

  predicate IsHostByte(b: Byte) {
    IsAlpha(b) || 48 <= b <= 57 || b == DASH
  }

  predicate ValidLabel(part: Bytes) {
    && 1 <= |part| <= 63
    && part[0] != DASH && part[|part| - 1] != DASH
    && forall b | b in part :: IsHostByte(b)
  }

  predicate ValidHostname(host: Host) {
    && 1 <= |host| <= 253
    && (forall part | part in Split(host, DOT) :: ValidLabel(part))
    && exists b :: b in host && IsAlpha(b)
  }

  function Lower(b: Byte): Byte {
    if 65 <= b <= 90 then b + 32 else b
  }

  function LowerAll(s: Bytes): (r: Bytes)
    ensures |r| == |s|
  {
    seq(|s|, i requires 0 <= i < |s| => Lower(s[i]))
  }

  predicate InSome(parts: seq<Bytes>, b: Byte) {
    exists p | p in parts :: b in p
  }

  lemma InFirstOrRest(head: Bytes, tail: seq<Bytes>, b: Byte)
    ensures InSome([head] + tail, b) <==> b in head || InSome(tail, b)
  {
    assert forall p :: p in [head] + tail <==> p == head || p in tail;
  }

  lemma {:induction false} SplitKeepsBytes(s: Bytes, sep: Byte, b: Byte)
    requires b != sep
    ensures b in s <==> InSome(Split(s, sep), b)
  {
    hide InSome;
    if s == [] {
      assert Split(s, sep) == [[]] + [];
      InFirstOrRest([], [], b);
      NoneOfNothing(b);
    } else {
      SplitKeepsBytes(s[1..], sep, b);
      var rest := Split(s[1..], sep);
      assert s == [s[0]] + s[1..];
      if s[0] == sep {
        InFirstOrRest([], rest, b);
      } else {
        assert rest == [rest[0]] + rest[1..];
        InFirstOrRest(rest[0], rest[1..], b);
        InFirstOrRest([s[0]] + rest[0], rest[1..], b);
      }
    }
  }

  lemma NoneOfNothing(b: Byte)
    ensures !InSome([], b)
  {
  }

  method IsValidHostname(host: Host) returns (r: bool)
    ensures r <==> ValidHostname(host)
  {
    if |host| == 0 || |host| > 253 {
      return false;
    }
    var parts := Split(host, DOT);
    var hasAlpha := false;
    for i := 0 to |parts|
      invariant forall j | 0 <= j < i :: ValidLabel(parts[j])
      invariant hasAlpha <==> exists j, b | 0 <= j < i :: b in parts[j] && IsAlpha(b)
    {
      var part := parts[i];
      if |part| == 0 || |part| > 63 || part[0] == DASH || part[|part| - 1] == DASH
         || exists b | b in part :: !IsHostByte(b) {
        assert !ValidLabel(part);
        return false;
      }
      if exists b | b in part :: IsAlpha(b) {
        hasAlpha := true;
      }
    }
    assert hasAlpha <==> exists b :: b in host && IsAlpha(b) by {
      forall b: Byte | IsAlpha(b) {
        SplitKeepsBytes(host, DOT, b);
      }
    }
    return hasAlpha;
  }

  // ----- what the parser computes

  /** A field with a one-byte length, and what follows it. */
  function Vec8(bs: Bytes): Option<(Bytes, Bytes)> {
    if |bs| == 0 || 1 + bs[0] > |bs| then None
    else Some((bs[1..1 + bs[0]], bs[1 + bs[0]..]))
  }

  /** A field with a two-byte length, and what follows it. */
  function Vec16(bs: Bytes): Option<(Bytes, Bytes)> {
    if |bs| < 2 || 2 + BeU16(bs[0], bs[1]) > |bs| then None
    else Some((bs[2..2 + BeU16(bs[0], bs[1])], bs[2 + BeU16(bs[0], bs[1])..]))
  }

  /** The entries of a server name list; the last host name wins. */
  function Names(bs: Bytes, found: Option<Host>): Result<Option<Host>, TlsError>
    decreases |bs|
  {
    if |bs| < 3 then (if bs == [] then Ok(found) else Err(ParseError))
    else match Vec16(bs[1..])
      case None => Err(ParseError)
      case Some((name, rest)) =>
        if bs[0] != 0 then Names(rest, found)
        else if !ValidHostname(LowerAll(name)) then Err(InvalidHostname)
        else Names(rest, Some(LowerAll(name)))
  }

  function ServerName(ext: Bytes, found: Option<Host>): Result<Option<Host>, TlsError> {
    if |ext| < 2 || BeU16(ext[0], ext[1]) + 2 != |ext| then Err(ParseError)
    else Names(ext[2..], found)
  }

  function Extensions(bs: Bytes, found: Option<Host>): Result<Option<Host>, TlsError>
    decreases |bs|
  {
    if |bs| < 4 then (if bs == [] then Ok(found) else Err(ParseError))
    else match Vec16(bs[2..])
      case None => Err(ParseError)
      case Some((ext, rest)) =>
        if BeU16(bs[0], bs[1]) != 0 then Extensions(rest, found)
        else match ServerName(ext, found)
          case Err(e) => Err(e)
          case Ok(found') => Extensions(rest, found')
  }

  function Verdict(found: Option<Host>): Result<Host, TlsError> {
    if found.Some? && found.value != ECH_OUTER_NAME then Ok(found.value) else Err(NoSni)
  }

  function AfterCompression(rest: Bytes): Result<Host, TlsError> {
    if rest == [] then Err(NoSni)
    else match Vec16(rest)
      case None => Err(ParseError)
      case Some((exts, _)) =>
        match Extensions(exts, None)
        case Err(e) => Err(e)
        case Ok(found) => Verdict(found)
  }

  function AfterCiphers(rest: Bytes): Result<Host, TlsError> {
    match Vec8(rest)
    case None => Err(ParseError)
    case Some((compression, rest)) =>
      if compression == [] then Err(ParseError) else AfterCompression(rest)
  }

  function AfterSessionId(rest: Bytes): Result<Host, TlsError> {
    match Vec16(rest)
    case None => Err(ParseError)
    case Some((ciphers, rest)) =>
      if ciphers == [] || |ciphers| % 2 != 0 then Err(ParseError) else AfterCiphers(rest)
  }

  /** `parse_sni_from_client_hello_body`. */
  function ParseBody(body: Bytes): Result<Host, TlsError> {
    if |body| < 35 then Err(ParseError)
    else match Vec8(body[34..])
      case None => Err(ParseError)
      case Some((_, rest)) => AfterSessionId(rest)
  }

  // ----- the parser, moving its cursors

  lemma Vec16At(bs: Bytes, off: nat, end: nat)
    requires off + 2 <= end <= |bs| && off + 2 + BeU16(bs[off], bs[off + 1]) <= end
    ensures var body := off + 2; var next := body + BeU16(bs[off], bs[off + 1]);
            Vec16(bs[off..end]) == Some((bs[body..next], bs[next..end]))
  {
    var n := BeU16(bs[off], bs[off + 1]);
    SliceOfSlice(bs, off, end, 2, 2 + n);
    SliceOfSlice(bs, off, end, 2 + n, end - off);
  }

  lemma Vec8At(bs: Bytes, off: nat)
    requires off < |bs| && off + 1 + bs[off] <= |bs|
    ensures var body := off + 1; var next := body + bs[off];
            Vec8(bs[off..]) == Some((bs[body..next], bs[next..]))
  {
    var n: nat := bs[off];
    SliceOfSlice(bs, off, |bs|, 1, 1 + n);
    SliceOfSlice(bs, off, |bs|, 1 + n, |bs| - off);
    assert bs[off..] == bs[off..|bs|];
  }

  lemma Vec16AtTail(bs: Bytes, off: nat)
    requires off + 2 <= |bs|
    ensures var body := off + 2; var next := body + BeU16(bs[off], bs[off + 1]);
            Vec16(bs[off..]) == if next > |bs| then None else Some((bs[body..next], bs[next..]))
  {
    WholeTail(bs, off);
    if off + 2 + BeU16(bs[off], bs[off + 1]) <= |bs| {
      Vec16At(bs, off, |bs|);
    }
  }

  lemma NamesStep(ext: Bytes, p: nat, found: Option<Host>)
    requires p + 3 <= |ext|
    ensures var body := p + 3; var next := body + BeU16(ext[p + 1], ext[p + 2]);
            Names(ext[p..], found) ==
              if next > |ext| then Err(ParseError)
              else if ext[p] != 0 then Names(ext[next..], found)
              else if !ValidHostname(LowerAll(ext[body..next])) then Err(InvalidHostname)
              else Names(ext[next..], Some(LowerAll(ext[body..next])))
  {
    hide ValidHostname, LowerAll, Vec16, BeU16;
    assert ext[p..][1..] == ext[p + 1..];
    Vec16AtTail(ext, p + 1);
  }

  lemma ExtensionsStep(body: Bytes, off: nat, end: nat, found: Option<Host>)
    requires off + 4 <= end <= |body|
    ensures var data := off + 4; var next := data + BeU16(body[off + 2], body[off + 3]);
            Extensions(body[off..end], found) ==
              if next > end then Err(ParseError)
              else if BeU16(body[off], body[off + 1]) != 0 then Extensions(body[next..end], found)
              else match ServerName(body[data..next], found)
                case Err(e) => Err(e)
                case Ok(found') => Extensions(body[next..end], found')
  {
    hide ServerName, BeU16;
    assert body[off..end][2..] == body[off + 2..end];
    if off + 4 + BeU16(body[off + 2], body[off + 3]) <= end {
      Vec16At(body, off + 2, end);
    }
  }

  method ReadNames(ext: Bytes, found: Option<Host>) returns (r: Result<Option<Host>, TlsError>)
    ensures r == ServerName(ext, found)
  {
    hide ValidHostname, LowerAll, Names;
    if |ext| < 2 {
      return Err(ParseError);
    }
    var listLen := BeU16(ext[0], ext[1]);
    if listLen + 2 != |ext| {
      return Err(ParseError);
    }
    var name := found;
    var p := 2;
    hide ServerName;
    while p + 3 <= |ext|
      invariant 2 <= p <= |ext|
      invariant ServerName(ext, found) == Names(ext[p..], name)
    {
      NamesStep(ext, p, name);
      var data := p + 3;
      var next := data + BeU16(ext[p + 1], ext[p + 2]);
      if next > |ext| {
        return Err(ParseError);
      }
      if ext[p] == 0 {
        var host := LowerAll(ext[data..next]);
        var valid := IsValidHostname(host);
        if !valid {
          return Err(InvalidHostname);
        }
        name := Some(host);
      }
      p := next;
    }
    NamesEnd(ext, p, name);
    if p != |ext| {
      return Err(ParseError);
    }
    return Ok(name);
  }

  lemma NamesEnd(ext: Bytes, p: nat, found: Option<Host>)
    requires p <= |ext| < p + 3
    ensures Names(ext[p..], found) == if p == |ext| then Ok(found) else Err(ParseError)
  {
  }

  method ReadExtensions(body: Bytes, start: nat, extEnd: nat) returns (r: Result<Option<Host>, TlsError>)
    requires start <= extEnd <= |body|
    ensures r == Extensions(body[start..extEnd], None)
  {
    hide ServerName;
    var found: Option<Host> := None;
    var off := start;
    while off + 4 <= extEnd
      invariant start <= off <= extEnd
      invariant Extensions(body[start..extEnd], None) == Extensions(body[off..extEnd], found)
    {
      var extType := BeU16(body[off], body[off + 1]);
      var data := off + 4;
      var next := data + BeU16(body[off + 2], body[off + 3]);
      ExtensionsStep(body, off, extEnd, found);
      if next > extEnd {
        return Err(ParseError);
      }
      if extType == 0 {
        var names := ReadNames(body[data..next], found);
        match names {
          case Err(e) => return Err(e);
          case Ok(host) => found := host;
        }
      }
      off := next;
    }
    if off != extEnd {
      return Err(ParseError);
    }
    return Ok(found);
  }

  method ReadAfterCompression(body: Bytes, start: nat) returns (r: Result<Host, TlsError>)
    requires start <= |body|
    ensures r == AfterCompression(body[start..])
  {
    hide Extensions;
    var off := start;
    if off == |body| {
      return Err(NoSni);
    }
    if off + 2 > |body| {
      return Err(ParseError);
    }
    var extensionsLen := BeU16(body[off], body[off + 1]);
    off := off + 2;
    if off + extensionsLen > |body| {
      return Err(ParseError);
    }
    Vec16At(body, start, |body|);
    assert body[start..|body|] == body[start..];
    var found := ReadExtensions(body, off, off + extensionsLen);
    match found
    case Err(e) => return Err(e);
    case Ok(host) =>
      if host.Some? && host.value != ECH_OUTER_NAME {
        return Ok(host.value);
      }
      return Err(NoSni);
  }

  method ReadAfterSessionId(body: Bytes, start: nat) returns (r: Result<Host, TlsError>)
    requires start <= |body|
    ensures r == AfterSessionId(body[start..])
  {
    hide AfterCiphers;
    var off := start;
    if off + 2 > |body| {
      return Err(ParseError);
    }
    var cipherSuitesLen := BeU16(body[off], body[off + 1]);
    off := off + 2;
    if cipherSuitesLen == 0 || cipherSuitesLen % 2 != 0 || off + cipherSuitesLen > |body| {
      return Err(ParseError);
    }
    Vec16At(body, start, |body|);
    assert body[start..|body|] == body[start..];
    off := off + cipherSuitesLen;
    assert body[off..|body|] == body[off..];
    r := ReadAfterCiphers(body, off);
  }

  method ReadAfterCiphers(body: Bytes, start: nat) returns (r: Result<Host, TlsError>)
    requires start <= |body|
    ensures r == AfterCiphers(body[start..])
  {
    hide AfterCompression;
    var off := start;
    if off >= |body| {
      return Err(ParseError);
    }
    var compressionLen: nat := body[off];
    off := off + 1;
    if compressionLen == 0 || off + compressionLen > |body| {
      return Err(ParseError);
    }
    Vec8At(body, off - 1);
    off := off + compressionLen;
    r := ReadAfterCompression(body, off);
  }

  method ParseClientHelloBody(body: Bytes) returns (r: Result<Host, TlsError>)
    ensures r == ParseBody(body)
  {
    hide AfterSessionId;
    if |body| < 2 + 32 + 1 {
      return Err(ParseError);
    }
    var off := 34;
    var sessionIdLen: nat := body[off];
    off := off + 1;
    if off + sessionIdLen > |body| {
      return Err(ParseError);
    }
    Vec8At(body, 34);
    off := off + sessionIdLen;
    r := ReadAfterSessionId(body, off);
  }

  /** The body parser never asks for more input. */
  lemma BodyVerdictIsFinal(body: Bytes)
    ensures ParseBody(body).Err? ==> ParseBody(body).error in {NoSni, ParseError, InvalidHostname}
    ensures ParseBody(body).Ok? ==> ValidHostname(ParseBody(body).value) && ParseBody(body).value != ECH_OUTER_NAME
  {
    hide Extensions, ValidHostname;
    if |body| >= 35 && Vec8(body[34..]).Some? {
      var rest := Vec8(body[34..]).value.1;
      if Vec16(rest).Some? {
        var rest' := Vec16(rest).value.1;
        if Vec8(rest').Some? {
          var rest'' := Vec8(rest').value.1;
          if rest'' != [] && Vec16(rest'').Some? {
            ExtensionsVerdictIsFinal(Vec16(rest'').value.0, None);
          }
        }
      }
    }
  }

  lemma {:induction false} NamesVerdictIsFinal(bs: Bytes, found: Option<Host>)
    requires found.Some? ==> ValidHostname(found.value)
    ensures Names(bs, found).Err? ==> Names(bs, found).error in {ParseError, InvalidHostname}
    ensures Names(bs, found).Ok? && Names(bs, found).value.Some? ==> ValidHostname(Names(bs, found).value.value)
    decreases |bs|
  {
    hide ValidHostname;
    if |bs| >= 3 && Vec16(bs[1..]).Some? {
      var (name, rest) := Vec16(bs[1..]).value;
      if bs[0] != 0 {
        NamesVerdictIsFinal(rest, found);
      } else if ValidHostname(LowerAll(name)) {
        NamesVerdictIsFinal(rest, Some(LowerAll(name)));
      }
    }
  }

  lemma {:induction false} ExtensionsVerdictIsFinal(bs: Bytes, found: Option<Host>)
    requires found.Some? ==> ValidHostname(found.value)
    ensures Extensions(bs, found).Err? ==> Extensions(bs, found).error in {ParseError, InvalidHostname}
    ensures Extensions(bs, found).Ok? && Extensions(bs, found).value.Some? ==>
              ValidHostname(Extensions(bs, found).value.value)
    decreases |bs|
  {
    hide ValidHostname, Names;
    if |bs| >= 4 && Vec16(bs[2..]).Some? {
      var (ext, rest) := Vec16(bs[2..]).value;
      if BeU16(bs[0], bs[1]) != 0 {
        ExtensionsVerdictIsFinal(rest, found);
      } else if |ext| >= 2 {
        NamesVerdictIsFinal(ext[2..], found);
        if ServerName(ext, found).Ok? {
          ExtensionsVerdictIsFinal(rest, ServerName(ext, found).value);
        }
      }
    }
  }

  // ----- names spelled out

  function AsciiByte(c: char): Byte {
    c as int % 128
  }

  /** ASCII text as bytes. */
  function Ascii(s: string): (bs: Bytes)
    ensures |bs| == |s|
  {
    seq(|s|, i requires 0 <= i < |s| => AsciiByte(s[i]))
  }

  /** The name that is filtered out. */
  lemma OuterNameIs()
    ensures ECH_OUTER_NAME == Ascii("cloudflare-ech.com")
  {
  }

  /** Only capital ASCII letters change. */
  lemma LowerMeans(s: Bytes, i: nat)
    requires i < |s|
    ensures LowerAll(s)[i] == if 'A' as int <= s[i] <= 'Z' as int then s[i] + 32 else s[i]
  {
  }

  lemma LabelMeans(part: Bytes)
    ensures ValidLabel(part) <==>
            && 1 <= |part| <= 63 && part[0] != '-' as int && part[|part| - 1] != '-' as int
            && forall b | b in part ::
                 || 'A' as int <= b <= 'Z' as int || 'a' as int <= b <= 'z' as int
                 || '0' as int <= b <= '9' as int || b == '-' as int
  {
  }

  /**
   The rule for host names: 1 to 253 bytes, a letter among them, and between dots 1 to 63
   letters, digits and inner dashes.
   */
  lemma HostnameMeans(host: Host)
    ensures ValidHostname(host) <==>
            && 1 <= |host| <= 253
            && (exists b :: b in host && ('A' as int <= b <= 'Z' as int || 'a' as int <= b <= 'z' as int))
            && forall part | part in Split(host, AsciiByte('.')) :: ValidLabel(part)
  {
    hide ValidLabel, Split;
    assert AsciiByte('.') == DOT;
    assert forall b | b in host :: IsAlpha(b) <==> 'A' as int <= b <= 'Z' as int || 'a' as int <= b <= 'z' as int;
  }
}
