/**
 Writing a ClientHello body as section 4.1.2 of RFC 8446 lays it out, and what the body
 parser makes of every such message.
 */
module TlsEncoding {
  import opened Common
  import opened TlsHello

  datatype Extension = Extension(kind: nat, data: Bytes)

  datatype Hello = Hello(
    version: Bytes, random: Bytes, sessionId: Bytes, ciphers: Bytes, compression: Bytes,
    extensions: seq<Extension>)

  function U16(n: nat): Bytes
    requires n < 65536
  {
    [n / 256, n % 256]
  }

  function Field8(bs: Bytes): Bytes
    requires |bs| < 256
  {
    [|bs|] + bs
  }

  function Field16(bs: Bytes): Bytes
    requires |bs| < 65536
  {
    U16(|bs|) + bs
  }

  predicate WellFormedExtension(e: Extension) {
    e.kind < 65536 && |e.data| < 65536
  }

  function EncodeExtensions(es: seq<Extension>): Bytes
    requires forall e | e in es :: WellFormedExtension(e)
  {
    if es == [] then []
    else
      assert WellFormedExtension(es[0]);
      U16(es[0].kind) + Field16(es[0].data) + EncodeExtensions(es[1..])
  }

  predicate WellFormed(h: Hello) {
    && |h.version| == 2 && |h.random| == 32
    && |h.sessionId| < 256
    && 0 < |h.ciphers| < 65536 && |h.ciphers| % 2 == 0
    && 0 < |h.compression| < 256
    && (forall e | e in h.extensions :: WellFormedExtension(e))
    && |EncodeExtensions(h.extensions)| < 65536
  }

  function EncodeBody(h: Hello): Bytes
    requires WellFormed(h)
  {
    h.version + h.random + (Field8(h.sessionId) + (Field16(h.ciphers) + (Field8(h.compression)
      + Field16(EncodeExtensions(h.extensions)))))
  }

  lemma Vec8OfField(bs: Bytes, rest: Bytes)
    requires |bs| < 256
    ensures Vec8(Field8(bs) + rest) == Some((bs, rest))
  {
    var whole := Field8(bs) + rest;
    assert whole[0] == |bs|;
    assert whole[1..1 + |bs|] == bs;
    assert whole[1 + |bs|..] == rest;
  }

  lemma Vec16OfField(bs: Bytes, rest: Bytes)
    requires |bs| < 65536
    ensures Vec16(Field16(bs) + rest) == Some((bs, rest))
  {
    var whole := Field16(bs) + rest;
    assert BeU16(whole[0], whole[1]) == |bs|;
    assert whole[2..2 + |bs|] == bs;
    assert whole[2 + |bs|..] == rest;
  }

  /** What the extensions say, read one by one. */
  function FoldExtensions(es: seq<Extension>, found: Option<Host>): Result<Option<Host>, TlsError> {
    if es == [] then Ok(found)
    else if es[0].kind != 0 then FoldExtensions(es[1..], found)
    else match ServerName(es[0].data, found)
      case Err(e) => Err(e)
      case Ok(found') => FoldExtensions(es[1..], found')
  }

  lemma {:induction false} ExtensionsOfEncoding(es: seq<Extension>, found: Option<Host>)
    requires forall e | e in es :: WellFormedExtension(e)
    ensures Extensions(EncodeExtensions(es), found) == FoldExtensions(es, found)
    decreases |es|
  {
    hide ServerName;
    if es == [] {
    } else {
      var rest := EncodeExtensions(es[1..]);
      var bs := EncodeExtensions(es);
      assert WellFormedExtension(es[0]);
      assert bs[2..] == Field16(es[0].data) + rest;
      assert BeU16(bs[0], bs[1]) == es[0].kind;
      Vec16OfField(es[0].data, rest);
      if es[0].kind != 0 {
        ExtensionsOfEncoding(es[1..], found);
      } else if ServerName(es[0].data, found).Ok? {
        ExtensionsOfEncoding(es[1..], ServerName(es[0].data, found).value);
      }
    }
  }

  function ExtensionsVerdict(es: seq<Extension>): Result<Host, TlsError> {
    match FoldExtensions(es, None)
    case Err(e) => Err(e)
    case Ok(found) => Verdict(found)
  }

  lemma CompressionOfEncoding(es: seq<Extension>)
    requires forall e | e in es :: WellFormedExtension(e)
    requires |EncodeExtensions(es)| < 65536
    ensures AfterCompression(Field16(EncodeExtensions(es))) == ExtensionsVerdict(es)
  {
    hide FoldExtensions, EncodeExtensions;
    var exts := EncodeExtensions(es);
    Vec16OfField(exts, []);
    assert Field16(exts) + [] == Field16(exts);
    ExtensionsOfEncoding(es, None);
  }

  /** The body parser decodes every well-formed message. */
  lemma ParseOfEncoding(h: Hello)
    requires WellFormed(h)
    ensures ParseBody(EncodeBody(h)) == ExtensionsVerdict(h.extensions)
  {
    var afterCompression := Field16(EncodeExtensions(h.extensions));
    var afterCiphers := Field8(h.compression) + afterCompression;
    var afterSession := Field16(h.ciphers) + afterCiphers;
    assert EncodeBody(h)[34..] == Field8(h.sessionId) + afterSession;
    Vec8OfField(h.sessionId, afterSession);
    assert ParseBody(EncodeBody(h)) == AfterSessionId(afterSession);
    Vec16OfField(h.ciphers, afterCiphers);
    assert AfterSessionId(afterSession) == AfterCiphers(afterCiphers);
    Vec8OfField(h.compression, afterCompression);
    assert AfterCiphers(afterCiphers) == AfterCompression(afterCompression);
    CompressionOfEncoding(h.extensions);
  }

  /** A server_name extension with one host name. */
  function HostExtension(host: Bytes): Extension
    requires |host| < 65531
  {
    Extension(0, Field16([0] + Field16(host)))
  }

  predicate NoServerName(es: seq<Extension>) {
    forall e | e in es :: e.kind != 0
  }

  lemma {:induction false} FoldSkips(es: seq<Extension>, more: seq<Extension>, found: Option<Host>)
    requires NoServerName(es)
    ensures FoldExtensions(es + more, found) == FoldExtensions(more, found)
  {
    hide ServerName;
    if es == [] {
      assert es + more == more;
    } else {
      assert (es + more)[1..] == es[1..] + more;
      FoldSkips(es[1..], more, found);
    }
  }

  lemma NamesOfHost(host: Bytes)
    requires |host| < 65531
    ensures ServerName(HostExtension(host).data, None) ==
            if ValidHostname(LowerAll(host)) then Ok(Some(LowerAll(host))) else Err(InvalidHostname)
  {
    hide ValidHostname, LowerAll;
    var entry := [0] + Field16(host);
    var data := Field16(entry);
    assert BeU16(data[0], data[1]) == |entry|;
    assert data[2..] == entry;
    assert entry[1..] == Field16(host) + [];
    Vec16OfField(host, []);
    assert Names([], Some(LowerAll(host))) == Ok(Some(LowerAll(host)));
    assert entry[0] == 0 && |entry| >= 3;
    assert ServerName(data, None) == Names(entry, None);
  }

  lemma FoldFindsHost(before: seq<Extension>, sni: Extension, after: seq<Extension>)
    requires NoServerName(before) && NoServerName(after) && sni.kind == 0
    ensures FoldExtensions(before + [sni] + after, None) == ServerName(sni.data, None)
  {
    hide ServerName;
    var tail := [sni] + after;
    assert before + [sni] + after == before + tail;
    FoldSkips(before, tail, None);
    assert tail[1..] == after;
    if ServerName(sni.data, None).Ok? {
      FoldSkips(after, [], ServerName(sni.data, None).value);
      assert after + [] == after;
    }
  }

  /** Wherever the one server_name extension stands, its host comes out, in lower case. */
  lemma HostIsFound(h: Hello, before: seq<Extension>, host: Bytes, after: seq<Extension>)
    requires |host| < 65531
    requires h.extensions == before + [HostExtension(host)] + after
    requires NoServerName(before) && NoServerName(after)
    requires WellFormed(h)
    ensures ParseBody(EncodeBody(h)) ==
            if !ValidHostname(LowerAll(host)) then Err(InvalidHostname)
            else if LowerAll(host) == ECH_OUTER_NAME then Err(NoSni)
            else Ok(LowerAll(host))
  {
    hide ValidHostname, LowerAll, ServerName, ParseBody, EncodeBody;
    ParseOfEncoding(h);
    FoldFindsHost(before, HostExtension(host), after);
    NamesOfHost(host);
  }

  /** Without a server_name extension there is no host, encrypted ClientHello or not. */
  lemma NoHostWithoutServerName(h: Hello)
    requires WellFormed(h) && NoServerName(h.extensions)
    ensures ParseBody(EncodeBody(h)) == Err(NoSni)
  {
    ParseOfEncoding(h);
    FoldSkips(h.extensions, [], None);
    assert h.extensions + [] == h.extensions;
  }

  /** The block of extensions may be missing altogether: then there is no host either. */
  lemma NoHostWithoutExtensions(h: Hello)
    requires WellFormed(h)
    ensures var fields := Field8(h.sessionId) + (Field16(h.ciphers) + Field8(h.compression));
            ParseBody(h.version + h.random + fields) == Err(NoSni)
  {
    hide Vec8, Vec16;
    var afterCiphers := Field8(h.compression);
    var afterSession := Field16(h.ciphers) + afterCiphers;
    var body := h.version + h.random + (Field8(h.sessionId) + afterSession);
    assert body[34..] == Field8(h.sessionId) + afterSession;
    Vec8OfField(h.sessionId, afterSession);
    assert ParseBody(body) == AfterSessionId(afterSession);
    Vec16OfField(h.ciphers, afterCiphers);
    assert AfterSessionId(afterSession) == AfterCiphers(afterCiphers);
    Vec8OfField(h.compression, []);
    assert afterCiphers + [] == afterCiphers;
    assert AfterCiphers(afterCiphers) == AfterCompression([]);
  }

  /** A field that reaches beyond its surroundings is an error. */
  lemma OverrunsAreRefused(kind: nat, length: nat, data: Bytes, found: Option<Host>)
    requires kind < 65536 && length < 65536 && |data| < length
    ensures Extensions(U16(kind) + U16(length) + data, found) == Err(ParseError)
    ensures AfterCompression(U16(length) + data) == Err(ParseError)
  {
    var ext := U16(kind) + U16(length) + data;
    assert ext[2..] == U16(length) + data;
  }
}
