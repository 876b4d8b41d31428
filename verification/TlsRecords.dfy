/**
 Finding the server name in the first bytes of a TLS connection (src/sniff/tls.rs), where
 the ClientHello may be fragmented over records (section 5.1 of RFC 8446).
 */
module TlsRecords {
  import opened Common
  import opened TlsHello
  import TlsEncoding

  type Verdict = Result<Host, TlsError>

  const HANDSHAKE: Byte := 22
  const MAJOR: Byte := 3
  const MAX_RECORD_PAYLOAD: nat := 18 * 1024

  /** The length of a handshake message, known from its first four bytes. */
  function MessageLength(handshake: Bytes): nat
    requires |handshake| >= 4
  {
    4 + BeU24(handshake[1], handshake[2], handshake[3])
  }

  /** What can be said once the handshake bytes of all complete records are in `handshake`. */
  function Assess(handshake: Bytes, maxSize: nat): Option<Verdict> {
    if |handshake| < 4 then None
    else if handshake[0] != 1 then Some(Err(ProtocolNotMatched))
    else if MessageLength(handshake) > maxSize then Some(Err(TooLargeClientHello))
    else if |handshake| < MessageLength(handshake) then None
    else Some(ParseBody(handshake[4..MessageLength(handshake)]))
  }

  /** A record header cut short, at the start of the buffer or after a complete record. */
  function ShortHeader(rest: Bytes, atStart: bool): Verdict
    requires 0 < |rest| < 5
  {
    if !atStart then Err(InsufficientPrefix)
    else if rest[0] != HANDSHAKE then Err(ProtocolNotMatched)
    else if |rest| >= 2 && rest[1] != MAJOR then Err(ProtocolNotMatched)
    else Err(InsufficientPrefix)
  }

  predicate GoodHeader(rest: Bytes)
    requires |rest| >= 5
  {
    && rest[0] == HANDSHAKE && rest[1] == MAJOR
    && 0 < BeU16(rest[3], rest[4]) <= MAX_RECORD_PAYLOAD
  }

  /** The records in `rest`, after complete records carrying `handshake`. */
  function Records(rest: Bytes, handshake: Bytes, atStart: bool, maxSize: nat): Verdict
    decreases |rest|
  {
    if rest == [] then Err(InsufficientPrefix)
    else if |rest| < 5 then ShortHeader(rest, atStart)
    else if !GoodHeader(rest) then Err(ProtocolNotMatched)
    else
      var end := 5 + BeU16(rest[3], rest[4]);
      if end > |rest| then Err(InsufficientPrefix)
      else match Assess(handshake + rest[5..end], maxSize)
        case Some(verdict) => verdict
        case None => Records(rest[end..], handshake + rest[5..end], false, maxSize)
  }

  /** `sniff_tls_sni_from_prefix`. */
  function Sniff(buf: Bytes, maxSize: nat): Verdict {
    if buf == [] then Err(PeekEmpty) else Records(buf, [], true, maxSize)
  }

  lemma RecordsStep(buf: Bytes, off: nat, handshake: Bytes, atStart: bool, maxSize: nat)
    requires off + 5 <= |buf| && GoodHeader(buf[off..])
    ensures var data := off + 5; var end := data + BeU16(buf[off + 3], buf[off + 4]);
            Records(buf[off..], handshake, atStart, maxSize) ==
              if end > |buf| then Err(InsufficientPrefix)
              else match Assess(handshake + buf[data..end], maxSize)
                case Some(verdict) => verdict
                case None => Records(buf[end..], handshake + buf[data..end], false, maxSize)
  {
    hide Assess, BeU16;
    var n := BeU16(buf[off + 3], buf[off + 4]);
    WholeTail(buf, off);
    if off + 5 + n <= |buf| {
      SliceOfSlice(buf, off, |buf|, 5, 5 + n);
      SliceOfSlice(buf, off, |buf|, 5 + n, |buf| - off);
    }
  }

  /** What is left at the end of the buffer, or does not look like a record. */
  lemma RecordsEdge(buf: Bytes, off: nat, handshake: Bytes, atStart: bool, maxSize: nat)
    requires off <= |buf|
    ensures off == |buf| ==> Records(buf[off..], handshake, atStart, maxSize) == Err(InsufficientPrefix)
    ensures off < |buf| < off + 5 ==>
              Records(buf[off..], handshake, atStart, maxSize) == ShortHeader(buf[off..], atStart)
    ensures off + 5 <= |buf| && !GoodHeader(buf[off..]) ==>
              Records(buf[off..], handshake, atStart, maxSize) == Err(ProtocolNotMatched)
  {
    hide GoodHeader, ShortHeader, Assess;
  }

  /** The length of the message as far as it is known. */
  function KnownLength(handshake: Bytes): Option<nat> {
    if |handshake| >= 4 then Some(MessageLength(handshake)) else None
  }

  /** The part of the loop behind a complete record. */
  method AssessMore(handshake: Bytes, neededTotal: Option<nat>, maxSize: nat, ghost was: Bytes)
    returns (verdict: Option<Verdict>, needed: Option<nat>)
    requires was <= handshake && neededTotal == KnownLength(was) && Assess(was, maxSize).None?
    ensures verdict == Assess(handshake, maxSize)
    ensures verdict.None? ==> needed == KnownLength(handshake)
  {
    hide ParseBody;
    needed := neededTotal;
    if needed.None? && |handshake| >= 4 {
      if handshake[0] != 1 {
        return Some(Err(ProtocolNotMatched)), needed;
      }
      var total := MessageLength(handshake);
      if total > maxSize {
        return Some(Err(TooLargeClientHello)), needed;
      }
      needed := Some(total);
    }
    if needed.Some? && |handshake| >= needed.value {
      var r := ParseClientHelloBody(handshake[4..needed.value]);
      return Some(r), needed;
    }
    return None, needed;
  }

  method SniffPrefix(buf: Bytes, maxSize: nat) returns (r: Verdict)
    ensures r == Sniff(buf, maxSize)
  {
    hide Records, Assess, BeU16, KnownLength;
    if |buf| == 0 {
      return Err(PeekEmpty);
    }
    var off := 0;
    var handshake: Bytes := [];
    var neededTotal: Option<nat> := None;
    var sawRecord := false;
    assert buf[0..] == buf;
    NothingAssessed(maxSize);
    while off < |buf|
      invariant 0 <= off <= |buf|
      invariant sawRecord <==> off > 0
      invariant Sniff(buf, maxSize) == Records(buf[off..], handshake, off == 0, maxSize)
      invariant Assess(handshake, maxSize).None? && neededTotal == KnownLength(handshake)
    {
      RecordsEdge(buf, off, handshake, off == 0, maxSize);
      if |buf| - off < 5 {
        if off == 0 {
          if buf[0] != HANDSHAKE {
            return Err(ProtocolNotMatched);
          }
          if |buf| >= 2 && buf[1] != MAJOR {
            return Err(ProtocolNotMatched);
          }
          return Err(InsufficientPrefix);
        }
        return if sawRecord then Err(InsufficientPrefix) else Err(ProtocolNotMatched);
      }
      if buf[off] != HANDSHAKE {
        return Err(ProtocolNotMatched);
      }
      if buf[off + 1] != MAJOR {
        return Err(ProtocolNotMatched);
      }
      var recordLen := BeU16(buf[off + 3], buf[off + 4]);
      if recordLen == 0 || recordLen > MAX_RECORD_PAYLOAD {
        return Err(ProtocolNotMatched);
      }
      RecordsStep(buf, off, handshake, off == 0, maxSize);
      var recordEnd := off + 5 + recordLen;
      if recordEnd > |buf| {
        return Err(InsufficientPrefix);
      }
      sawRecord := true;
      ghost var was := handshake;
      handshake := handshake + buf[off + 5..recordEnd];
      var verdict;
      verdict, neededTotal := AssessMore(handshake, neededTotal, maxSize, was);
      if verdict.Some? {
        return verdict.value;
      }
      off := recordEnd;
    }
    RecordsEdge(buf, off, handshake, off == 0, maxSize);
    return if sawRecord then Err(InsufficientPrefix) else Err(ProtocolNotMatched);
  }

  lemma NothingAssessed(maxSize: nat)
    ensures Assess([], maxSize).None? && KnownLength([]).None?
  {
  }

  // ----- the verdict never changes

  predicate Decisive(v: Verdict) {
    v.Ok? || (v.error != InsufficientPrefix && v.error != PeekEmpty)
  }

  lemma {:induction false} RecordsNeverChangeMind(
    rest: Bytes, more: Bytes, handshake: Bytes, atStart: bool, maxSize: nat)
    requires Decisive(Records(rest, handshake, atStart, maxSize))
    ensures Records(rest + more, handshake, atStart, maxSize) == Records(rest, handshake, atStart, maxSize)
    decreases |rest|
  {
    hide Assess;
    var all := rest + more;
    if |rest| >= 5 && GoodHeader(rest) {
      var end := 5 + BeU16(rest[3], rest[4]);
      assert all[5..end] == rest[5..end];
      assert all[end..] == rest[end..] + more;
      if Assess(handshake + rest[5..end], maxSize).None? {
        RecordsNeverChangeMind(rest[end..], more, handshake + rest[5..end], false, maxSize);
      }
    }
  }

  /** A verdict other than "need more" or "empty" survives every extension of the buffer. */
  lemma SniffNeverChangesMind(buf: Bytes, more: Bytes, maxSize: nat)
    requires Decisive(Sniff(buf, maxSize))
    ensures Sniff(buf + more, maxSize) == Sniff(buf, maxSize)
  {
    RecordsNeverChangeMind(buf, more, [], true, maxSize);
  }

  // ----- fragmentation does not matter

  datatype Record = Record(minor: Byte, payload: Bytes)

  predicate WellFormedRecord(r: Record) {
    0 < |r.payload| <= 18 * 1024
  }

  function EncodeRecord(r: Record): Bytes
    requires WellFormedRecord(r)
  {
    [22, 3, r.minor, |r.payload| / 256, |r.payload| % 256] + r.payload
  }

  predicate WellFormedRecords(rs: seq<Record>) {
    forall r | r in rs :: WellFormedRecord(r)
  }

  function EncodeRecords(rs: seq<Record>): Bytes
    requires WellFormedRecords(rs)
  {
    if rs == [] then []
    else assert WellFormedRecord(rs[0]); EncodeRecord(rs[0]) + EncodeRecords(rs[1..])
  }

  function Payloads(rs: seq<Record>): Bytes {
    if rs == [] then [] else rs[0].payload + Payloads(rs[1..])
  }

  /** A ClientHello message whose body is `body`. */
  function Message(body: Bytes): Bytes
    requires |body| < 0x100_0000
  {
    [1, |body| / 65536, |body| / 256 % 256, |body| % 256] + body
  }

  lemma RecordOfEncoding(r: Record, more: Bytes, handshake: Bytes, atStart: bool, maxSize: nat)
    requires WellFormedRecord(r)
    ensures Records(EncodeRecord(r) + more, handshake, atStart, maxSize) ==
            match Assess(handshake + r.payload, maxSize)
            case Some(verdict) => verdict
            case None => Records(more, handshake + r.payload, false, maxSize)
  {
    hide Assess;
    var all := EncodeRecord(r) + more;
    var end := 5 + |r.payload|;
    assert BeU16(all[3], all[4]) == |r.payload|;
    assert all[5..end] == r.payload;
    assert all[end..] == more;
  }

  /** Before the message is complete nothing is decided; once it is, the body decides. */
  lemma AssessMessage(handshake: Bytes, body: Bytes, maxSize: nat)
    requires 4 + |body| <= maxSize && |body| < 0x100_0000
    ensures handshake <= Message(body) && handshake != Message(body) ==> Assess(handshake, maxSize).None?
    ensures Message(body) <= handshake ==> Assess(handshake, maxSize) == Some(ParseBody(body))
  {
    hide ParseBody;
    var m := Message(body);
    assert BeU24(m[1], m[2], m[3]) == |body|;
    if Message(body) <= handshake {
      assert handshake[4..4 + |body|] == body;
    }
  }

  /** A prefix of a fragmented message: what is already in `handshake` and in `rs` is still incomplete. */
  lemma {:induction false} IncompleteNeedsMore(
    rs: seq<Record>, cut: nat, handshake: Bytes, atStart: bool, body: Bytes, maxSize: nat)
    requires WellFormedRecords(rs) && cut < |EncodeRecords(rs)|
    requires 4 + |body| <= maxSize && |body| < 0x100_0000
    requires handshake + Payloads(rs) == Message(body)
    ensures Records(EncodeRecords(rs)[..cut], handshake, atStart, maxSize) == Err(InsufficientPrefix)
    decreases |rs|
  {
    hide Assess, Message;
    assert WellFormedRecord(rs[0]);
    var first := EncodeRecord(rs[0]);
    var all := EncodeRecords(rs);
    if cut < |first| {
      assert all[..cut] == first[..cut];
      if cut >= 5 {
        assert BeU16(first[3], first[4]) == |rs[0].payload|;
      }
    } else {
      var rest := EncodeRecords(rs[1..]);
      assert all[..cut] == first + rest[..cut - |first|];
      RecordOfEncoding(rs[0], rest[..cut - |first|], handshake, atStart, maxSize);
      var handshake' := handshake + rs[0].payload;
      assert handshake' + Payloads(rs[1..]) == Message(body);
      assert rs[1..] != [];
      assert WellFormedRecord(rs[1..][0]);
      assert handshake' != Message(body) by {
        assert |Payloads(rs[1..])| >= |rs[1..][0].payload| > 0;
      }
      AssessMessage(handshake', body, maxSize);
      IncompleteNeedsMore(rs[1..], cut - |first|, handshake', false, body, maxSize);
    }
  }

  lemma {:induction false} CompleteIsParsed(
    rs: seq<Record>, more: Bytes, handshake: Bytes, atStart: bool, body: Bytes, maxSize: nat)
    requires WellFormedRecords(rs)
    requires 4 + |body| <= maxSize && |body| < 0x100_0000
    requires handshake < Message(body) <= handshake + Payloads(rs)
    ensures Records(EncodeRecords(rs) + more, handshake, atStart, maxSize) == ParseBody(body)
    decreases |rs|
  {
    hide Assess, Message, EncodeRecord;
    assert rs != [] by {
      assert handshake + [] == handshake;
    }
    assert WellFormedRecord(rs[0]);
    var rest := EncodeRecords(rs[1..]);
    assert EncodeRecords(rs) + more == EncodeRecord(rs[0]) + (rest + more);
    RecordOfEncoding(rs[0], rest + more, handshake, atStart, maxSize);
    var handshake' := handshake + rs[0].payload;
    var m := Message(body);
    var whole := handshake + Payloads(rs);
    assert whole == handshake' + Payloads(rs[1..]);
    AssessMessage(handshake', body, maxSize);
    if |handshake'| < |m| {
      assert handshake' == whole[..|handshake'|] == m[..|handshake'|];
      CompleteIsParsed(rs[1..], more, handshake', false, body, maxSize);
    } else {
      assert m == whole[..|m|] == handshake'[..|m|];
    }
  }

  /**
   However a ClientHello is cut into records, and whatever follows it, the sniffer answers
   what the body parser answers.
   */
  lemma FragmentationDoesNotMatter(rs: seq<Record>, more: Bytes, body: Bytes, maxSize: nat)
    requires WellFormedRecords(rs)
    requires |body| < 0x100_0000 && |Message(body)| <= maxSize
    requires Message(body) <= Payloads(rs)
    ensures Sniff(EncodeRecords(rs) + more, maxSize) == ParseBody(body)
  {
    hide ParseBody;
    assert [] + Payloads(rs) == Payloads(rs);
    CompleteIsParsed(rs, more, [], true, body, maxSize);
    assert rs != [] && WellFormedRecord(rs[0]);
  }

  /** From a host name to the answer: one server_name extension in a ClientHello cut into records in any way. */
  lemma HostInRecords(
    rs: seq<Record>, more: Bytes, h: TlsEncoding.Hello,
    before: seq<TlsEncoding.Extension>, host: Bytes, after: seq<TlsEncoding.Extension>, maxSize: nat)
    requires |host| < 65531 && TlsEncoding.WellFormed(h)
    requires h.extensions == before + [TlsEncoding.HostExtension(host)] + after
    requires TlsEncoding.NoServerName(before) && TlsEncoding.NoServerName(after)
    requires ValidHostname(LowerAll(host)) && LowerAll(host) != ECH_OUTER_NAME
    requires |TlsEncoding.EncodeBody(h)| < 0x100_0000 && 4 + |TlsEncoding.EncodeBody(h)| <= maxSize
    requires WellFormedRecords(rs) && Message(TlsEncoding.EncodeBody(h)) <= Payloads(rs)
    ensures Sniff(EncodeRecords(rs) + more, maxSize) == Ok(LowerAll(host))
  {
    hide Sniff, ParseBody, ValidHostname, LowerAll, TlsEncoding.EncodeBody, TlsEncoding.WellFormed, EncodeRecords;
    TlsEncoding.HostIsFound(h, before, host, after);
    FragmentationDoesNotMatter(rs, more, TlsEncoding.EncodeBody(h), maxSize);
  }

  /** Every proper non-empty prefix of the fragmented message asks for more. */
  lemma ProperPrefixNeedsMore(rs: seq<Record>, cut: nat, body: Bytes, maxSize: nat)
    requires WellFormedRecords(rs)
    requires |body| < 0x100_0000 && |Message(body)| <= maxSize
    requires Payloads(rs) == Message(body)
    requires 0 < cut < |EncodeRecords(rs)|
    ensures Sniff(EncodeRecords(rs)[..cut], maxSize) == Err(InsufficientPrefix)
  {
    assert [] + Payloads(rs) == Payloads(rs);
    IncompleteNeedsMore(rs, cut, [], true, body, maxSize);
  }

  lemma AssessOversize(handshake: Bytes, whole: Bytes, maxSize: nat)
    requires |whole| >= 4 && whole[0] == 1 && MessageLength(whole) > maxSize && handshake <= whole
    ensures Assess(handshake, maxSize) == if |handshake| < 4 then None else Some(Err(TooLargeClientHello))
  {
    hide ParseBody;
  }

  lemma {:induction false} OversizeInRecords(
    rs: seq<Record>, more: Bytes, handshake: Bytes, atStart: bool, maxSize: nat)
    requires WellFormedRecords(rs) && |handshake| < 4
    requires var whole := handshake + Payloads(rs); |whole| >= 4 && whole[0] == 1 && MessageLength(whole) > maxSize
    ensures Records(EncodeRecords(rs) + more, handshake, atStart, maxSize) == Err(TooLargeClientHello)
    decreases |rs|
  {
    hide Assess, EncodeRecord, MessageLength;
    assert rs != [] by {
      assert handshake + [] == handshake;
    }
    assert WellFormedRecord(rs[0]);
    var rest := EncodeRecords(rs[1..]);
    assert EncodeRecords(rs) + more == EncodeRecord(rs[0]) + (rest + more);
    RecordOfEncoding(rs[0], rest + more, handshake, atStart, maxSize);
    var handshake' := handshake + rs[0].payload;
    assert handshake + Payloads(rs) == handshake' + Payloads(rs[1..]);
    AssessOversize(handshake', handshake' + Payloads(rs[1..]), maxSize);
    if |handshake'| < 4 {
      OversizeInRecords(rs[1..], more, handshake', false, maxSize);
    }
  }

  /**
   A message above the size limit is refused as soon as its four header bytes are there, however
   they are spread over records.
   */
  lemma OversizeIsRefused(rs: seq<Record>, more: Bytes, maxSize: nat)
    requires WellFormedRecords(rs)
    requires |Payloads(rs)| >= 4 && Payloads(rs)[0] == 1 && MessageLength(Payloads(rs)) > maxSize
    ensures Sniff(EncodeRecords(rs) + more, maxSize) == Err(TooLargeClientHello)
  {
    hide MessageLength;
    assert [] + Payloads(rs) == Payloads(rs);
    OversizeInRecords(rs, more, [], true, maxSize);
    assert rs != [] && WellFormedRecord(rs[0]);
  }

  /** What does not begin like a handshake record of TLS is not TLS. */
  lemma ForeignBytesAreRefused(buf: Bytes, maxSize: nat)
    requires buf != [] && (buf[0] != 0x16 || (|buf| >= 2 && buf[1] != 0x03))
    ensures Sniff(buf, maxSize) == Err(ProtocolNotMatched)
  {
    hide Assess;
  }

  /** Nor is a handshake that begins with another message. */
  lemma OtherMessagesAreRefused(r: Record, more: Bytes, maxSize: nat)
    requires WellFormedRecord(r) && |r.payload| >= 4 && r.payload[0] != 0x01
    ensures Sniff(EncodeRecord(r) + more, maxSize) == Err(ProtocolNotMatched)
  {
    hide ParseBody;
    RecordOfEncoding(r, more, [], true, maxSize);
    assert [] + r.payload == r.payload;
  }
}
