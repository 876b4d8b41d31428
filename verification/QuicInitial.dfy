/**
 Sniffing the server name from QUIC Initial packets (section 17.2.2 of RFC 9000), datagram
 by datagram (src/sniff/quic.rs). Key derivation, header protection and AES-GCM are one
 function `unseal`, about which nothing is known.
 */
module QuicInitial {
  import opened Common
  import opened QuicVarint
  import opened QuicReassembly
  import opened QuicFrames
  import TlsHello

  type Host = TlsHello.Host
  type Answer = Result<Host, QuicError>

  /** The plaintext of a packet, from version, destination id, packet bytes and packet number offset. */
  type Unseal = (nat, Bytes, Bytes, nat) -> Result<Bytes, QuicError>

  const INPUT_CAP: nat := 16 * 1024
  const VERSION_1: nat := 0x0000_0001
  const VERSION_2: nat := 0x6b33_43cf
  const DRAFT_29: nat := 0xff00_001d

  // ----- what sniffing computes

  /** The packet is an Initial of a known version. */
  predicate IsInitial(first: Byte, version: nat) {
    || ((version == VERSION_1 || version == DRAFT_29) && first / 16 % 4 == 0)
    || (version == VERSION_2 && first / 16 % 4 == 1)
  }

  predicate LongHeader(first: Byte) {
    first >= 192
  }

  datatype Front = Front(version: nat, dcid: Bytes, rest: Bytes)

  /** Everything up to the destination connection id. */
  function ReadFront(d: Bytes): (r: Result<Front, QuicError>)
    ensures r.Ok? ==> |r.value.rest| + 6 <= |d|
  {
    if d == [] then Err(InsufficientPrefix)
    else if !LongHeader(d[0]) then Err(ProtocolNotMatched)
    else if |d| < 5 then Err(InsufficientPrefix)
    else
      var version := BigEndian(d[1..5]);
      if !IsInitial(d[0], version) then Err(ProtocolNotMatched)
      else if |d| < 6 then Err(InsufficientPrefix)
      else if d[5] > 20 then Err(ProtocolNotMatched)
      else if 6 + d[5] > |d| then Err(InsufficientPrefix)
      else Ok(Front(version, d[6..6 + d[5]], d[6 + d[5]..]))
  }

  /** From the source connection id to the packet number: how much is protected, and the bytes from there on. */
  function ReadBack(bs: Bytes): (r: Result<(nat, Bytes), QuicError>)
    ensures r.Ok? ==> 0 < r.value.0 <= |r.value.1| <= |bs|
  {
    if bs == [] then Err(InsufficientPrefix)
    else if bs[0] > 20 then Err(ProtocolNotMatched)
    else if 1 + bs[0] > |bs| then Err(InsufficientPrefix)
    else match Varint(bs[1 + bs[0]..])
      case None => Err(InsufficientPrefix)
      case Some((token, bs)) =>
        if token > |bs| then Err(InsufficientPrefix)
        else match Varint(bs[token..])
          case None => Err(InsufficientPrefix)
          case Some((length, bs)) =>
            if length == 0 then Err(ProtocolNotMatched)
            else if length > |bs| then Err(InsufficientPrefix)
            else Ok((length, bs))
  }

  /** `quic_parse_one_initial_packet`: the buffer afterwards, and the length of the packet. */
  function ParseOne(unseal: Unseal, d: Bytes, c: Crypto): (r: (Crypto, Result<nat, QuicError>))
    requires |c.buf| == |c.present|
    ensures r.1.Ok? ==> 0 < r.1.value <= |d|
  {
    match ReadFront(d)
    case Err(e) => (c, Err(e))
    case Ok(front) =>
      var adopted := Adopted(c, front.dcid);
      match ReadBack(front.rest)
      case Err(e) => (adopted, Err(e))
      case Ok((length, bs)) =>
        var pnOffset := |d| - |bs|;
        var end := pnOffset + length;
        match unseal(front.version, front.dcid, d[..end], pnOffset)
        case Err(e) => (adopted, Err(e))
        case Ok(frames) =>
          var (after, outcome) := Parse(frames, adopted);
          (after, match outcome case Ok(_) => Ok(end) case Err(e) => Err(e))
  }

  lemma {:induction false} ParseKeepsShape(bs: Bytes, c: Crypto)
    requires |c.buf| == |c.present|
    ensures |Parse(bs, c).0.buf| == |Parse(bs, c).0.present| && Parse(bs, c).0.dcid == c.dcid
    decreases |bs|
  {
    hide Varint, SkipAck, SkipClose, TakeCrypto, Put;
    if bs != [] && Varint(bs).Some? {
      var (kind, rest) := Varint(bs).value;
      if kind == 0 || kind == 1 {
        VarintAdvances(bs);
        ParseKeepsShape(rest, c);
      } else if kind == 2 || kind == 3 {
        VarintAdvances(bs);
        if SkipAck(kind == 3, rest).Some? { ParseKeepsShape(SkipAck(kind == 3, rest).value, c); }
      } else if kind == 0x1c {
        VarintAdvances(bs);
        if SkipClose(rest).Some? { ParseKeepsShape(SkipClose(rest).value, c); }
      } else if kind == 6 && TakeCrypto(rest).Some? {
        VarintAdvances(bs);
        var (w, rest) := TakeCrypto(rest).value;
        if Fits(w) { ParseKeepsShape(rest, Put(c, w)); }
      }
    }
  }

  lemma ParseOneKeepsShape(unseal: Unseal, d: Bytes, c: Crypto)
    requires |c.buf| == |c.present|
    ensures |ParseOne(unseal, d, c).0.buf| == |ParseOne(unseal, d, c).0.present|
  {
    hide Parse, ReadFront, ReadBack;
    match ReadFront(d)
    case Err(_) =>
    case Ok(front) =>
      match ReadBack(front.rest)
      case Err(_) =>
      case Ok((length, bs)) =>
        var pnOffset := |d| - |bs|;
        var plain := unseal(front.version, front.dcid, d[..pnOffset + length], pnOffset);
        if plain.Ok? {
          ParseKeepsShape(plain.value, Adopted(c, front.dcid));
        }
  }

  function FromTls(e: TlsHello.TlsError): QuicError {
    match e
    case PeekEmpty => InsufficientPrefix
    case InsufficientPrefix => InsufficientPrefix
    case ProtocolNotMatched => ProtocolNotMatched
    case NoSni => NoTarget
    case ParseError => ParseError
    case InvalidHostname => InvalidHostname
    case TooLargeClientHello => TooLarge
  }

  /** What the body parser says, in the words of a UDP sniffer. */
  function BodyAnswer(body: Bytes): (r: Answer)
    ensures TlsHello.ParseBody(body).Ok? ==> r == Ok(TlsHello.ParseBody(body).value)
    ensures TlsHello.ParseBody(body) == Err(TlsHello.NoSni) ==> r == Err(NoTarget)
    ensures TlsHello.ParseBody(body) == Err(TlsHello.ParseError) ==> r == Err(ParseError)
    ensures TlsHello.ParseBody(body) == Err(TlsHello.InvalidHostname) ==> r == Err(InvalidHostname)
  {
    match TlsHello.ParseBody(body)
    case Ok(host) => Ok(host)
    case Err(e) => Err(FromTls(e))
  }

  /** `quic_parse_tls_client_hello_from_crypto`. */
  function HelloAnswer(crypto: Bytes): Answer {
    if |crypto| < 4 then Err(InsufficientPrefix)
    else if crypto[0] != 1 then Err(ProtocolNotMatched)
    else
      var total := 4 + TlsHello.BeU24(crypto[1], crypto[2], crypto[3]);
      if total > REASSEMBLY_CAP then Err(TooLarge)
      else if |crypto| < total then Err(InsufficientPrefix)
      else BodyAnswer(crypto[4..total])
  }

  /** The packets of a datagram, one after the other; `saw`: one of them was a good Initial. */
  function Walk(unseal: Unseal, d: Bytes, c: Crypto, saw: bool): (r: (Crypto, Answer))
    requires |c.buf| == |c.present|
    decreases |d|
  {
    if d == [] then (c, Err(if saw then InsufficientPrefix else ProtocolNotMatched))
    else
      var (after, outcome) := ParseOne(unseal, d, c);
      ParseOneKeepsShape(unseal, d, c);
      match outcome
      case Err(e) => (after, Err(if saw && e == ProtocolNotMatched then InsufficientPrefix else e))
      case Ok(n) =>
        var answer := HelloAnswer(Contiguous(after));
        if answer == Err(InsufficientPrefix) then Walk(unseal, d[n..], after, true) else (after, answer)
  }

  /** `sniff_quic_sni_from_datagram_with_reassembly`. */
  function Feed(unseal: Unseal, d: Bytes, c: Crypto): (r: (Crypto, Answer))
    requires |c.buf| == |c.present|
  {
    if d == [] then (c, Err(InsufficientPrefix))
    else if !LongHeader(d[0]) then (c, Err(ProtocolNotMatched))
    else Walk(unseal, d[..Min(|d|, INPUT_CAP)], c, false)
  }

  lemma {:induction false} FeedKeepsShape(unseal: Unseal, d: Bytes, c: Crypto)
    requires |c.buf| == |c.present|
    ensures |Feed(unseal, d, c).0.buf| == |Feed(unseal, d, c).0.present|
  {
    hide Walk;
    WalkKeepsShape(unseal, d[..Min(|d|, INPUT_CAP)], c, false);
  }

  lemma {:induction false} WalkKeepsShape(unseal: Unseal, d: Bytes, c: Crypto, saw: bool)
    requires |c.buf| == |c.present|
    ensures |Walk(unseal, d, c, saw).0.buf| == |Walk(unseal, d, c, saw).0.present|
    decreases |d|
  {
    hide ParseOne, HelloAnswer;
    if d == [] {
    } else {
      ParseOneKeepsShape(unseal, d, c);
      var (after, outcome) := ParseOne(unseal, d, c);
      if outcome.Ok? {
        WalkKeepsShape(unseal, d[outcome.value..], after, true);
      }
    }
  }

  // ----- the code, moving its cursor

  method ReadHeaderFront(datagram: Bytes, start: nat) returns (r: Result<Front, QuicError>, off: nat)
    requires start <= |datagram|
    ensures r == ReadFront(datagram[start..])
    ensures r.Ok? ==> start < off <= |datagram| && datagram[off..] == r.value.rest
  {
    off := start;
    if start >= |datagram| {
      return Err(InsufficientPrefix), off;
    }
    var first := datagram[start];
    if first < 128 || first % 128 < 64 {
      return Err(ProtocolNotMatched), off;
    }
    off := off + 1;
    if off + 4 > |datagram| {
      return Err(InsufficientPrefix), off;
    }
    var version := BigEndian(datagram[off..off + 4]);
    SliceOfSlice(datagram, start, |datagram|, 1, 5);
    WholeTail(datagram, start);
    off := off + 4;
    if !IsInitial(first, version) {
      return Err(ProtocolNotMatched), off;
    }
    if off >= |datagram| {
      return Err(InsufficientPrefix), off;
    }
    var dcidLen: nat := datagram[off];
    off := off + 1;
    if dcidLen > 20 {
      return Err(ProtocolNotMatched), off;
    }
    if off + dcidLen > |datagram| {
      return Err(InsufficientPrefix), off;
    }
    SliceOfSlice(datagram, start, |datagram|, 6, 6 + dcidLen);
    SliceOfSlice(datagram, start, |datagram|, 6 + dcidLen, |datagram| - start);
    var dcid := datagram[off..off + dcidLen];
    off := off + dcidLen;
    r := Ok(Front(version, dcid, datagram[off..]));
  }

  method ReadHeaderBack(datagram: Bytes, start: nat) returns (r: Result<nat, QuicError>, off: nat)
    requires start <= |datagram|
    ensures start <= off <= |datagram|
    ensures match ReadBack(datagram[start..])
            case Err(e) => r == Err(e)
            case Ok((length, bs)) => r == Ok(length) && bs == datagram[off..]
  {
    hide Varint;
    off := start;
    if off >= |datagram| {
      return Err(InsufficientPrefix), off;
    }
    var scidLen: nat := datagram[off];
    off := off + 1;
    if scidLen > 20 {
      return Err(ProtocolNotMatched), off;
    }
    if off + scidLen > |datagram| {
      return Err(InsufficientPrefix), off;
    }
    off := off + scidLen;
    var token, length;
    assert datagram[start..][1 + scidLen..] == datagram[off..];
    token, off := ReadVarint(datagram, off);
    if token.None? || off + token.value > |datagram| {
      return Err(InsufficientPrefix), off;
    }
    assert datagram[off..][token.value..] == datagram[off + token.value..];
    off := off + token.value;
    length, off := ReadVarint(datagram, off);
    if length.None? {
      return Err(InsufficientPrefix), off;
    }
    if length.value == 0 {
      return Err(ProtocolNotMatched), off;
    }
    if off + length.value > |datagram| {
      return Err(InsufficientPrefix), off;
    }
    r := Ok(length.value);
  }

  method ParseOneInitialPacket(unseal: Unseal, datagram: Bytes, start: nat, crypto: QuicCryptoReassembly)
    returns (r: Result<nat, QuicError>)
    requires start <= |datagram| && crypto.Valid()
    modifies crypto
    ensures crypto.Valid()
    ensures crypto.View() == ParseOne(unseal, datagram[start..], old(crypto.View())).0
    ensures match ParseOne(unseal, datagram[start..], old(crypto.View())).1
            case Err(e) => r == Err(e)
            case Ok(n) => r == Ok(start + n) && start < start + n <= |datagram|
  {
    hide ReadFront, ReadBack, Parse;
    var front, off := ReadHeaderFront(datagram, start);
    if front.Err? {
      return Err(front.error);
    }
    crypto.Adopt(front.value.dcid);
    var length, pnOffset := ReadHeaderBack(datagram, off);
    if length.Err? {
      return Err(length.error);
    }
    var packetEnd := pnOffset + length.value;
    SliceOfSlice(datagram, start, |datagram|, 0, packetEnd - start);
    assert datagram[start..] == datagram[start..|datagram|];
    var plaintext := unseal(front.value.version, front.value.dcid, datagram[start..packetEnd], pnOffset - start);
    if plaintext.Err? {
      return Err(plaintext.error);
    }
    var outcome := ParseInitialFrames(plaintext.value, crypto);
    if outcome.Err? {
      return Err(outcome.error);
    }
    r := Ok(packetEnd);
  }

  method SniffDatagram(unseal: Unseal, datagram: Bytes, crypto: QuicCryptoReassembly) returns (r: Answer)
    requires crypto.Valid()
    modifies crypto
    ensures crypto.Valid()
    ensures (crypto.View(), r) == Feed(unseal, datagram, old(crypto.View()))
  {
    hide ParseOne, HelloAnswer;
    if |datagram| == 0 {
      return Err(InsufficientPrefix);
    }
    var first := datagram[0];
    if first < 128 || first % 128 < 64 {
      return Err(ProtocolNotMatched);
    }
    var d := datagram[..Min(|datagram|, INPUT_CAP)];
    var off := 0;
    var saw := false;
    assert d[0..] == d;
    while off < |d|
      invariant 0 <= off <= |d|
      invariant crypto.Valid()
      invariant Walk(unseal, d, old(crypto.View()), false) == Walk(unseal, d[off..], crypto.View(), saw)
    {
      ghost var left, was := d[off..], crypto.View();
      var next := ParseOneInitialPacket(unseal, d, off, crypto);
      match next {
        case Ok(nextOff) =>
          assert left[nextOff - off..] == d[nextOff..];
          saw := true;
          off := nextOff;
          var bytes := crypto.Received();
          var answer := HelloAnswer(bytes);
          if answer != Err(InsufficientPrefix) {
            return answer;
          }
        case Err(e) =>
          if saw && e == ProtocolNotMatched {
            return Err(InsufficientPrefix);
          }
          return Err(e);
      }
    }
    return if saw then Err(InsufficientPrefix) else Err(ProtocolNotMatched);
  }
}
