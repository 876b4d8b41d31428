/**
 A ClientHello spread over CRYPTO frames, packets and datagrams in any way: what the
 sniffing session of src/sniff/quic.rs answers after each datagram.
 */
module QuicStream {
  import opened Common
  import opened QuicVarint
  import opened QuicReassembly
  import opened QuicFrames
  import opened QuicInitial
  import TlsHello
  import TlsEncoding
  import TlsRecords

  // ----- packets

  datatype Header = Header(
    first: Byte, version: nat, dcid: Bytes, scid: Bytes, tokenLength: Int, token: Bytes, length: Int)

  /** A packet as it travels, and the frames that are sealed in it. */
  datatype Packet = Packet(header: Header, payload: Bytes, frames: seq<Framed>)

  /** A long header with the fixed bit, an Initial of version 1, draft 29 or version 2. */
  predicate LegalHeader(h: Header) {
    && h.first >= 0xC0
    && (|| ((h.version == 1 || h.version == 0xFF00_001D) && h.first / 16 % 4 == 0)
        || (h.version == 0x6B33_43CF && h.first / 16 % 4 == 1))
    && |h.dcid| <= 20 && |h.scid| <= 20
    && Legal(h.tokenLength) && h.tokenLength.value == |h.token|
    && Legal(h.length)
  }

  predicate LegalPacket(p: Packet) {
    LegalHeader(p.header) && 0 < p.header.length.value == |p.payload| && LegalFrames(p.frames)
  }

  function EncodeFront(h: Header): Bytes
    requires LegalHeader(h)
  {
    [h.first] + Bytewise(h.version, 4) + [|h.dcid|] + h.dcid
  }

  function EncodeBack(h: Header): Bytes
    requires LegalHeader(h)
  {
    [|h.scid|] + h.scid + (EncodeVarint(h.tokenLength) + (h.token + EncodeVarint(h.length)))
  }

  function EncodePacket(p: Packet): (bs: Bytes)
    requires LegalPacket(p)
    ensures |bs| > 0
  {
    EncodeFront(p.header) + (EncodeBack(p.header) + p.payload)
  }

  function PnOffset(h: Header): nat
    requires LegalHeader(h)
  {
    |EncodeFront(h)| + |EncodeBack(h)|
  }

  /** The packet opens to its frames. */
  predicate Opens(unseal: Unseal, p: Packet)
    requires LegalPacket(p)
  {
    unseal(p.header.version, p.header.dcid, EncodePacket(p), PnOffset(p.header)) == Ok(EncodeFrames(p.frames))
  }

  lemma FrontOfEncoding(h: Header, more: Bytes)
    requires LegalHeader(h)
    ensures ReadFront(EncodeFront(h) + more) == Ok(Front(h.version, h.dcid, more))
  {
    hide BigEndian, Bytewise;
    var d := EncodeFront(h) + more;
    assert d[1..5] == Bytewise(h.version, 4);
    assert Pow256(4) == 0x1_0000_0000 by { assert Pow256(2) == 0x1_0000; }
    BigEndianOfBytewise(h.version, 4);
    assert d[6..6 + |h.dcid|] == h.dcid;
    assert d[6 + |h.dcid|..] == more;
  }

  lemma BackOfEncoding(h: Header, payload: Bytes, more: Bytes)
    requires LegalHeader(h) && 0 < h.length.value == |payload|
    ensures ReadBack(EncodeBack(h) + (payload + more)) == Ok((|payload|, payload + more))
  {
    hide Varint, EncodeVarint, Legal;
    var rest := payload + more;
    var afterToken := EncodeVarint(h.length) + rest;
    var afterScid := EncodeVarint(h.tokenLength) + (h.token + afterToken);
    var bs := EncodeBack(h) + rest;
    assert bs == [|h.scid|] + h.scid + afterScid;
    assert bs[1 + |h.scid|..] == afterScid;
    VarintOfEncoding(h.tokenLength, h.token + afterToken);
    assert (h.token + afterToken)[|h.token|..] == afterToken;
    VarintOfEncoding(h.length, rest);
  }

  /** A good packet is consumed exactly, and its CRYPTO frames are written. */
  lemma PacketIsRead(unseal: Unseal, p: Packet, more: Bytes, c: Crypto)
    requires LegalPacket(p) && Opens(unseal, p) && |c.buf| == |c.present|
    ensures var (after, outcome) := PutAll(Adopted(c, p.header.dcid), Writes(p.frames));
            ParseOne(unseal, EncodePacket(p) + more, c)
              == (after, if outcome.Ok? then Ok(|EncodePacket(p)|) else Err(outcome.error))
  {
    hide ReadFront, ReadBack, Parse, PutAll, EncodeFront, EncodeBack, EncodeFrames, Writes;
    var h := p.header;
    var d := EncodePacket(p) + more;
    var back := EncodeBack(h) + (p.payload + more);
    assert d == EncodeFront(h) + back;
    FrontOfEncoding(h, back);
    BackOfEncoding(h, p.payload, more);
    assert |d| - |p.payload + more| == PnOffset(h);
    assert d[..|EncodePacket(p)|] == EncodePacket(p);
    ParseOfEncoding(p.frames, Adopted(c, h.dcid));
  }

  // ----- the ClientHello in the stream

  /** The stream of CRYPTO data starts with a ClientHello of `total` bytes, header included. */
  predicate StartsWithHello(stream: Bytes, total: nat) {
    && 4 <= total <= |stream| <= 32768
    && stream[0] == 1
    && total == 4 + TlsHello.BeU24(stream[1], stream[2], stream[3])
  }

  lemma AnswerOfPrefix(stream: Bytes, total: nat, got: Bytes)
    requires StartsWithHello(stream, total) && got <= stream
    ensures HelloAnswer(got) == if |got| < total then Err(InsufficientPrefix) else BodyAnswer(stream[4..total])
  {
    hide BodyAnswer, TlsHello.BeU24;
    if |got| >= total {
      assert got[4..total] == stream[4..total];
    }
  }

  lemma BodyAnswersForGood(body: Bytes)
    ensures BodyAnswer(body) != Err(InsufficientPrefix)
  {
    hide TlsHello.ParseBody;
    TlsHello.BodyVerdictIsFinal(body);
  }

  /** What the buffer answers is decided by coverage alone. */
  lemma AnswerOfAssembled(stream: Bytes, total: nat, ws: seq<Write>, dcid: Option<Bytes>)
    requires StartsWithHello(stream, total) && AllAgree(ws, stream)
    ensures HelloAnswer(Contiguous(Assembled(stream, ws, dcid)))
         == if CoversAll(ws, total) then BodyAnswer(stream[4..total]) else Err(InsufficientPrefix)
  {
    hide Assembled, HelloAnswer, BodyAnswer, Contiguous, CoversAll;
    ContiguousIsMaximalPrefix(stream, ws, dcid);
    ContiguousReaches(stream, ws, dcid, total);
    AnswerOfPrefix(stream, total, Contiguous(Assembled(stream, ws, dcid)));
  }

  // ----- one datagram

  /** Good packets of one connection, carrying pieces of the stream. */
  predicate Carries(unseal: Unseal, ps: seq<Packet>, dcid: Bytes, stream: Bytes) {
    forall p | p in ps ::
      LegalPacket(p) && Opens(unseal, p) && p.header.dcid == dcid && AllAgree(Writes(p.frames), stream)
  }

  function EncodePackets(ps: seq<Packet>): Bytes
    requires forall p | p in ps :: LegalPacket(p)
  {
    if ps == [] then [] else EncodePacket(ps[0]) + EncodePackets(ps[1..])
  }

  function AllWrites(ps: seq<Packet>): seq<Write> {
    if ps == [] then [] else Writes(ps[0].frames) + AllWrites(ps[1..])
  }

  /** What may follow the Initial packets: nothing, or a packet that is visibly not an Initial. */
  predicate HarmlessTail(tail: Bytes) {
    tail == [] || ReadFront(tail) == Err(ProtocolNotMatched)
  }

  lemma {:induction false} AllWritesAgree(unseal: Unseal, ps: seq<Packet>, dcid: Bytes, stream: Bytes)
    requires Carries(unseal, ps, dcid, stream)
    ensures AllAgree(AllWrites(ps), stream)
  {
    hide LegalPacket, Opens, Agrees, Writes;
    if ps == [] {
    } else {
      assert ps[0] in ps;
      AllWritesAgree(unseal, ps[1..], dcid, stream);
    }
  }

  lemma CoversAllGrows(ws: seq<Write>, vs: seq<Write>, n: nat)
    requires CoversAll(ws, n)
    ensures CoversAll(ws + vs, n)
  {
    forall i | 0 <= i < n ensures Covers(ws + vs, i) {
      assert Covers(ws, i);
      var w :| w in ws && w.offset <= i < w.offset + |w.data|;
      assert w in ws + vs;
    }
  }

  lemma AdoptAssembled(stream: Bytes, ws: seq<Write>, was: Option<Bytes>, dcid: Bytes)
    requires AllAgree(ws, stream) && (was == None || was == Some(dcid))
    ensures Adopted(Assembled(stream, ws, was), dcid) == Assembled(stream, ws, Some(dcid))
  {
  }

  /** One good packet: the buffer takes its writes, and the cursor moves to the next packet. */
  lemma OnePacket(
    unseal: Unseal, p: Packet, more: Bytes, dcid: Bytes, was: Option<Bytes>, stream: Bytes, done: seq<Write>)
    requires Carries(unseal, [p], dcid, stream) && |stream| <= REASSEMBLY_CAP
    requires AllAgree(done, stream) && (was == None || was == Some(dcid))
    ensures LegalPacket(p)
    ensures AllAgree(done + Writes(p.frames), stream)
    ensures ParseOne(unseal, EncodePacket(p) + more, Assembled(stream, done, was))
         == (Assembled(stream, done + Writes(p.frames), Some(dcid)), Ok(|EncodePacket(p)|))
    ensures (EncodePacket(p) + more)[|EncodePacket(p)|..] == more
  {
    hide Assembled, ParseOne, PutAll, Writes, EncodePacket, Adopted, LegalPacket;
    assert p in [p];
    PacketIsRead(unseal, p, more, Assembled(stream, done, was));
    AdoptAssembled(stream, done, was, dcid);
    PutAllAssembles(stream, done, Writes(p.frames), Some(dcid));
  }

  lemma WalkOnePacket(
    unseal: Unseal, p: Packet, more: Bytes, dcid: Bytes, was: Option<Bytes>,
    stream: Bytes, total: nat, done: seq<Write>, saw: bool)
    requires Carries(unseal, [p], dcid, stream) && StartsWithHello(stream, total)
    requires AllAgree(done, stream) && (was == None || was == Some(dcid))
    ensures LegalPacket(p)
    ensures AllAgree(done + Writes(p.frames), stream)
    ensures var after := Assembled(stream, done + Writes(p.frames), Some(dcid));
            Walk(unseal, EncodePacket(p) + more, Assembled(stream, done, was), saw) ==
              if CoversAll(done + Writes(p.frames), total) then (after, BodyAnswer(stream[4..total]))
              else Walk(unseal, more, after, true)
  {
    hide Assembled, ParseOne, HelloAnswer, BodyAnswer, CoversAll;
    hide Writes, EncodePacket, LegalPacket, Carries, AllAgree, Contiguous;
    OnePacket(unseal, p, more, dcid, was, stream, done);
    AnswerOfAssembled(stream, total, done + Writes(p.frames), Some(dcid));
    BodyAnswersForGood(stream[4..total]);
  }

  lemma FirstCarries(unseal: Unseal, ps: seq<Packet>, dcid: Bytes, stream: Bytes)
    requires ps != [] && Carries(unseal, ps, dcid, stream)
    ensures Carries(unseal, [ps[0]], dcid, stream) && Carries(unseal, ps[1..], dcid, stream)
    ensures forall p | p in ps :: LegalPacket(p)
  {
    hide LegalPacket, Opens, Agrees, Writes;
    assert ps[0] in ps;
  }

  lemma PacketsFirst(ps: seq<Packet>, tail: Bytes)
    requires ps != [] && forall p | p in ps :: LegalPacket(p)
    ensures EncodePackets(ps) + tail == EncodePacket(ps[0]) + (EncodePackets(ps[1..]) + tail)
  {
    hide LegalPacket, EncodePacket;
  }

  lemma WritesFirst(done: seq<Write>, ps: seq<Packet>)
    requires ps != []
    ensures done + Writes(ps[0].frames) + AllWrites(ps[1..]) == done + AllWrites(ps)
  {
    hide Writes;
  }

  lemma {:induction false} WalkAnswers(
    unseal: Unseal, ps: seq<Packet>, tail: Bytes, dcid: Bytes, was: Option<Bytes>,
    stream: Bytes, total: nat, done: seq<Write>, saw: bool)
    requires Carries(unseal, ps, dcid, stream) && HarmlessTail(tail)
    requires StartsWithHello(stream, total) && AllAgree(done, stream)
    requires was == None || was == Some(dcid)
    requires ps != [] || (saw && !CoversAll(done, total))
    ensures AllAgree(done + AllWrites(ps), stream)
    ensures var r := Walk(unseal, EncodePackets(ps) + tail, Assembled(stream, done, was), saw);
            if CoversAll(done + AllWrites(ps), total) then r.1 == BodyAnswer(stream[4..total])
            else
              var now := if ps == [] then was else Some(dcid);
              r == (Assembled(stream, done + AllWrites(ps), now), Err(InsufficientPrefix))
    decreases |ps|
  {
    hide Assembled, Walk, BodyAnswer, CoversAll, Writes, EncodePacket, LegalPacket, Opens, Agrees, HarmlessTail;
    if ps == [] {
      assert done + AllWrites(ps) == done;
      assert EncodePackets(ps) + tail == tail;
      TailIsIgnored(unseal, tail, Assembled(stream, done, was));
    } else {
      AllWritesAgree(unseal, ps, dcid, stream);
      FirstCarries(unseal, ps, dcid, stream);
      var rest := EncodePackets(ps[1..]) + tail;
      var done' := done + Writes(ps[0].frames);
      PacketsFirst(ps, tail);
      WritesFirst(done, ps);
      hide EncodePackets, AllWrites, Carries;
      WalkOnePacket(unseal, ps[0], rest, dcid, was, stream, total, done, saw);
      if CoversAll(done', total) {
        CoversAllGrows(done', AllWrites(ps[1..]), total);
      } else {
        WalkAnswers(unseal, ps[1..], tail, dcid, Some(dcid), stream, total, done', true);
      }
    }
  }

  lemma TailIsIgnored(unseal: Unseal, tail: Bytes, c: Crypto)
    requires HarmlessTail(tail) && |c.buf| == |c.present|
    ensures Walk(unseal, tail, c, true) == (c, Err(InsufficientPrefix))
  {
    hide ReadFront;
  }

  // ----- a session of datagrams

  datatype Datagram = Datagram(packets: seq<Packet>, tail: Bytes)

  predicate LegalDatagram(d: Datagram) {
    d.packets != [] && (forall p | p in d.packets :: LegalPacket(p)) && HarmlessTail(d.tail)
  }

  function Wire(d: Datagram): Bytes
    requires LegalDatagram(d)
  {
    EncodePackets(d.packets) + d.tail
  }

  predicate GoodDatagram(unseal: Unseal, d: Datagram, dcid: Bytes, stream: Bytes) {
    LegalDatagram(d) && |Wire(d)| <= 16384 && Carries(unseal, d.packets, dcid, stream)
  }

  predicate GoodSession(unseal: Unseal, ds: seq<Datagram>, dcid: Bytes, stream: Bytes) {
    forall d | d in ds :: GoodDatagram(unseal, d, dcid, stream)
  }

  /** The buffer of a fresh session after these datagrams. */
  function StateAfter(unseal: Unseal, ds: seq<Datagram>): (c: Crypto)
    requires forall d | d in ds :: LegalDatagram(d)
    ensures |c.buf| == |c.present|
  {
    if ds == [] then EMPTY
    else
      var before := StateAfter(unseal, ds[..|ds| - 1]);
      FeedKeepsShape(unseal, Wire(ds[|ds| - 1]), before);
      Feed(unseal, Wire(ds[|ds| - 1]), before).0
  }

  function SessionWrites(ds: seq<Datagram>): seq<Write> {
    if ds == [] then [] else SessionWrites(ds[..|ds| - 1]) + AllWrites(ds[|ds| - 1].packets)
  }

  lemma FeedAnswers(
    unseal: Unseal, d: Datagram, dcid: Bytes, was: Option<Bytes>, stream: Bytes, total: nat, done: seq<Write>)
    requires GoodDatagram(unseal, d, dcid, stream) && StartsWithHello(stream, total)
    requires AllAgree(done, stream) && (was == None || was == Some(dcid))
    ensures AllAgree(done + AllWrites(d.packets), stream)
    ensures var r := Feed(unseal, Wire(d), Assembled(stream, done, was));
            if CoversAll(done + AllWrites(d.packets), total) then r.1 == BodyAnswer(stream[4..total])
            else r == (Assembled(stream, done + AllWrites(d.packets), Some(dcid)), Err(InsufficientPrefix))
  {
    hide Walk, Assembled, CoversAll, BodyAnswer, Opens, AllWrites, StartsWithHello;
    var bytes := Wire(d);
    var first := d.packets[0];
    assert first in d.packets;
    assert bytes[0] == first.header.first by {
      assert EncodePacket(first)[0] == EncodeFront(first.header)[0];
    }
    assert bytes[..|bytes|] == bytes;
    WalkAnswers(unseal, d.packets, d.tail, dcid, was, stream, total, done, false);
  }

  /** Until the ClientHello is covered, the buffer is what the covered bytes make it. */
  lemma {:induction false} StateOfSession(unseal: Unseal, ds: seq<Datagram>, dcid: Bytes, stream: Bytes, total: nat)
    requires GoodSession(unseal, ds, dcid, stream) && StartsWithHello(stream, total)
    requires !CoversAll(SessionWrites(ds), total)
    ensures AllAgree(SessionWrites(ds), stream)
    ensures StateAfter(unseal, ds) == Assembled(stream, SessionWrites(ds), if ds == [] then None else Some(dcid))
    decreases |ds|
  {
    hide Feed, CoversAll, Wire, LegalDatagram, StartsWithHello, AllWrites;
    if ds != [] {
      hide Assembled;
      var n := |ds| - 1;
      assert ds[n] in ds;
      if CoversAll(SessionWrites(ds[..n]), total) {
        CoversAllGrows(SessionWrites(ds[..n]), AllWrites(ds[n].packets), total);
      }
      StateOfSession(unseal, ds[..n], dcid, stream, total);
      FeedAnswers(unseal, ds[n], dcid, if n == 0 then None else Some(dcid), stream, total, SessionWrites(ds[..n]));
    } else {
      NothingAssembled(stream);
    }
  }

  lemma NothingAssembled(stream: Bytes)
    ensures AllAgree([], stream) && Assembled(stream, [], None) == EMPTY
  {
  }

  /**
   Cut into frames, packets and datagrams in any order, with overlaps and repetitions: every
   datagram before full coverage asks for more, and the one that completes it answers exactly
   what the body parser says about the whole message.
   */
  lemma SessionAnswers(unseal: Unseal, before: seq<Datagram>, d: Datagram, dcid: Bytes, stream: Bytes, total: nat)
    requires GoodSession(unseal, before, dcid, stream) && GoodDatagram(unseal, d, dcid, stream)
    requires StartsWithHello(stream, total)
    requires !CoversAll(SessionWrites(before), total)
    ensures var answer := Feed(unseal, Wire(d), StateAfter(unseal, before)).1;
            if !CoversAll(SessionWrites(before + [d]), total) then answer == Err(InsufficientPrefix)
            else match TlsHello.ParseBody(stream[4..total])
              case Ok(host) => answer == Ok(host)
              case Err(NoSni) => answer == Err(NoTarget)
              case Err(ParseError) => answer == Err(ParseError)
              case Err(e) => e == TlsHello.InvalidHostname && answer == Err(InvalidHostname)
  {
    hide Feed, CoversAll, Wire, LegalDatagram, AllWrites, Assembled, BodyAnswer, TlsHello.ParseBody;
    TlsHello.BodyVerdictIsFinal(stream[4..total]);
    StateOfSession(unseal, before, dcid, stream, total);
    FeedAnswers(unseal, d, dcid, if before == [] then None else Some(dcid), stream, total, SessionWrites(before));
    assert (before + [d])[..|before|] == before;
  }

  /** The first bytes of a ClientHello message give its length. */
  lemma MessageStarts(stream: Bytes, body: Bytes)
    requires |body| < 0x100_0000 && TlsRecords.Message(body) <= stream && |stream| <= 32768
    ensures StartsWithHello(stream, 4 + |body|) && stream[4..4 + |body|] == body
  {
    var m := TlsRecords.Message(body);
    assert m == stream[..|m|];
    assert TlsHello.BeU24(m[1], m[2], m[3]) == |body|;
    assert stream[4..4 + |body|] == m[4..];
  }

  /**
   From a host name to the answer: a well-formed ClientHello with one server_name extension, sent
   over QUIC in any pieces, yields that host in lower case with the datagram that completes it.
   */
  lemma HostOfSession(
    unseal: Unseal, before: seq<Datagram>, d: Datagram, dcid: Bytes, stream: Bytes,
    h: TlsEncoding.Hello, front: seq<TlsEncoding.Extension>, host: Bytes, back: seq<TlsEncoding.Extension>)
    requires |host| < 65531 && TlsEncoding.WellFormed(h)
    requires h.extensions == front + [TlsEncoding.HostExtension(host)] + back
    requires TlsEncoding.NoServerName(front) && TlsEncoding.NoServerName(back)
    requires |TlsEncoding.EncodeBody(h)| < 0x100_0000 && |stream| <= 32768
    requires TlsRecords.Message(TlsEncoding.EncodeBody(h)) <= stream
    requires GoodSession(unseal, before, dcid, stream) && GoodDatagram(unseal, d, dcid, stream)
    requires !CoversAll(SessionWrites(before), 4 + |TlsEncoding.EncodeBody(h)|)
    requires CoversAll(SessionWrites(before + [d]), 4 + |TlsEncoding.EncodeBody(h)|)
    requires TlsHello.ValidHostname(TlsHello.LowerAll(host)) && TlsHello.LowerAll(host) != TlsHello.ECH_OUTER_NAME
    ensures Feed(unseal, Wire(d), StateAfter(unseal, before)).1 == Ok(TlsHello.LowerAll(host))
  {
    hide Feed, CoversAll, Wire, LegalDatagram, StartsWithHello, GoodSession, GoodDatagram, StateAfter, SessionWrites;
    hide TlsHello.ParseBody, TlsHello.ValidHostname, TlsHello.LowerAll, TlsEncoding.EncodeBody, TlsEncoding.WellFormed;
    hide TlsRecords.Message;
    var body := TlsEncoding.EncodeBody(h);
    MessageStarts(stream, body);
    TlsEncoding.HostIsFound(h, front, host, back);
    assert forall x | x in before :: LegalDatagram(x) by { SessionIsLegal(unseal, before, dcid, stream); }
    assert LegalDatagram(d) by { DatagramIsLegal(unseal, d, dcid, stream); }
    SessionAnswers(unseal, before, d, dcid, stream, 4 + |body|);
  }

  lemma DatagramIsLegal(unseal: Unseal, d: Datagram, dcid: Bytes, stream: Bytes)
    requires GoodDatagram(unseal, d, dcid, stream)
    ensures LegalDatagram(d)
  {
  }

  lemma SessionIsLegal(unseal: Unseal, ds: seq<Datagram>, dcid: Bytes, stream: Bytes)
    requires GoodSession(unseal, ds, dcid, stream)
    ensures forall d | d in ds :: LegalDatagram(d)
  {
  }

  /** What may follow the Initial packets: a short header, padding, or a long header of another version. */
  lemma OtherPacketsAreHarmless(tail: Bytes)
    requires tail != []
    requires || tail[0] < 0xC0
             || (|tail| >= 5 && BigEndian(tail[1..5]) !in {1, 0xFF00_001D, 0x6B33_43CF})
    ensures HarmlessTail(tail)
  {
  }

  /**
   A datagram without a long header is not QUIC, and a message above 32 KiB is too large as soon
   as its length is known.
   */
  lemma QuicRefuses(unseal: Unseal, d: Bytes, c: Crypto, got: Bytes)
    requires |c.buf| == |c.present| && d != [] && d[0] < 0xC0
    requires |got| >= 4 && got[0] == 1 && 4 + TlsHello.BeU24(got[1], got[2], got[3]) > 32768
    ensures Feed(unseal, d, c) == (c, Err(ProtocolNotMatched))
    ensures HelloAnswer(got) == Err(TooLarge)
  {
  }

  /** A packet whose payload is not all there asks for more. */
  lemma ShortPayloadNeedsMore(h: Header, payload: Bytes)
    requires LegalHeader(h) && |payload| < h.length.value
    ensures ReadBack(EncodeBack(h) + payload) == Err(InsufficientPrefix)
  {
    hide Varint, EncodeVarint;
    var afterToken := EncodeVarint(h.length) + payload;
    var afterScid := EncodeVarint(h.tokenLength) + (h.token + afterToken);
    assert EncodeBack(h) + payload == [|h.scid|] + h.scid + afterScid;
    assert ([|h.scid|] + h.scid + afterScid)[1 + |h.scid|..] == afterScid;
    VarintOfEncoding(h.tokenLength, h.token + afterToken);
    assert (h.token + afterToken)[|h.token|..] == afterToken;
    VarintOfEncoding(h.length, payload);
  }
}
