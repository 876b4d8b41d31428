/**
 The frames of a QUIC Initial packet (sections 19.1 to 19.3, 19.6 and 19.19 of RFC 9000), as
 src/sniff/quic.rs walks over them.
 */
module QuicFrames {
  import opened Common
  import opened QuicVarint
  import opened QuicReassembly

  type Outcome = Result<(), QuicError>

  // ----- what the walk computes

  /** What is left after `n` integers. */
  function SkipVarints(bs: Bytes, n: nat): (r: Option<Bytes>)
    ensures r.Some? ==> |r.value| + n <= |bs|
    decreases n
  {
    if n == 0 then Some(bs)
    else match Varint(bs)
      case None => None
      case Some((_, rest)) => SkipVarints(rest, n - 1)
  }

  function SkipAck(ecn: bool, bs: Bytes): (r: Option<Bytes>)
    ensures r.Some? ==> |r.value| <= |bs|
  {
    match SkipVarints(bs, 2)
    case None => None
    case Some(bs) =>
      match Varint(bs)
      case None => None
      case Some((count, bs)) =>
        match SkipVarints(bs, 1 + 2 * count)
        case None => None
        case Some(bs) => if ecn then SkipVarints(bs, 3) else Some(bs)
  }

  function SkipClose(bs: Bytes): (r: Option<Bytes>)
    ensures r.Some? ==> |r.value| <= |bs|
  {
    match SkipVarints(bs, 2)
    case None => None
    case Some(bs) =>
      match Varint(bs)
      case None => None
      case Some((length, bs)) => if length > |bs| then None else Some(bs[length..])
  }

  /** The write of a CRYPTO frame, and what follows the frame. */
  function TakeCrypto(bs: Bytes): (r: Option<(Write, Bytes)>)
    ensures r.Some? ==> |r.value.1| <= |bs|
  {
    match Varint(bs)
    case None => None
    case Some((offset, bs)) =>
      match Varint(bs)
      case None => None
      case Some((length, bs)) =>
        if length > |bs| then None else Some((Write(offset, bs[..length]), bs[length..]))
  }

  function AfterSkip(rest: Option<Bytes>, c: Crypto, limit: nat): (Crypto, Outcome)
    requires |c.buf| == |c.present|
    requires rest.Some? ==> |rest.value| < limit
    decreases limit, 0
  {
    match rest
    case None => (c, Err(InsufficientPrefix))
    case Some(bs) => Parse(bs, c)
  }

  /** `quic_parse_initial_frames`: the buffer afterwards, and whether every frame was understood. */
  function Parse(bs: Bytes, c: Crypto): (r: (Crypto, Outcome))
    requires |c.buf| == |c.present|
    decreases |bs|, 1
  {
    if bs == [] then (c, Ok(()))
    else match Varint(bs)
      case None => (c, Err(InsufficientPrefix))
      case Some((kind, rest)) =>
        if kind == 0 || kind == 1 then AfterSkip(Some(rest), c, |bs|)
        else if kind == 2 || kind == 3 then AfterSkip(SkipAck(kind == 3, rest), c, |bs|)
        else if kind == 0x1c then AfterSkip(SkipClose(rest), c, |bs|)
        else if kind != 6 then (c, Err(ProtocolNotMatched))
        else match TakeCrypto(rest)
          case None => (c, Err(InsufficientPrefix))
          case Some((w, rest)) => if Fits(w) then AfterSkip(Some(rest), Put(c, w), |bs|) else (c, Err(TooLarge))
  }

  // ----- the walk itself

  /** Read `n` integers and drop them. */
  method DropVarints(frames: Bytes, start: nat, n: nat) returns (ok: bool, off: nat)
    requires start <= |frames|
    ensures start <= off <= |frames|
    ensures match SkipVarints(frames[start..], n)
            case None => !ok
            case Some(rest) => ok && frames[off..] == rest
  {
    off := start;
    for i := 0 to n
      invariant start <= off <= |frames|
      invariant SkipVarints(frames[start..], n) == SkipVarints(frames[off..], n - i)
    {
      var v;
      v, off := ReadVarint(frames, off);
      if v.None? {
        return false, off;
      }
    }
    ok := true;
  }

  /**
   `rounds` counts the completed turns of the range loop: each eats two bytes or more, whatever
   the declared count.
   */
  method SkipAckFrame(frameType: nat, frames: Bytes, start: nat) returns (ok: bool, off: nat, rounds: nat)
    requires start <= |frames|
    ensures start <= off <= |frames|
    ensures 2 * rounds <= off - start
    ensures match SkipAck(frameType == 3, frames[start..])
            case None => !ok
            case Some(rest) => ok && frames[off..] == rest
  {
    hide SkipVarints, Varint;
    rounds := 0;
    ok, off := DropVarints(frames, start, 2);
    if !ok { return; }
    var count;
    count, off := ReadVarint(frames, off);
    if count.None? {
      return false, off, 0;
    }
    ghost var ranges := off;
    ok, off := DropVarints(frames, off, 1);
    SkipMore(frames[ranges..], 1, 2 * count.value);
    if !ok { return; }
    while rounds < count.value
      invariant rounds <= count.value
      invariant ranges <= off <= |frames| && 2 * rounds <= off - start
      invariant SkipVarints(frames[ranges..], 1 + 2 * count.value) ==
                SkipVarints(frames[off..], 2 * (count.value - rounds))
    {
      SkipMore(frames[off..], 2, 2 * (count.value - rounds - 1));
      ghost var was := off;
      ok, off := DropVarints(frames, off, 2);
      if !ok { return; }
      assert |frames[off..]| + 2 <= |frames[was..]|;
      rounds := rounds + 1;
    }
    SkipNone(frames[off..]);
    if frameType == 3 {
      ok, off := DropVarints(frames, off, 3);
    }
  }

  lemma SkipNone(bs: Bytes)
    ensures SkipVarints(bs, 0) == Some(bs)
  {
  }

  lemma {:induction false} SkipMore(bs: Bytes, m: nat, n: nat)
    ensures SkipVarints(bs, m + n) ==
            match SkipVarints(bs, m) case None => None case Some(rest) => SkipVarints(rest, n)
    decreases m
  {
    hide Varint;
    if m > 0 && Varint(bs).Some? {
      SkipMore(Varint(bs).value.1, m - 1, n);
    }
  }

  method SkipCloseFrame(frames: Bytes, start: nat) returns (ok: bool, off: nat)
    requires start <= |frames|
    ensures start <= off <= |frames|
    ensures match SkipClose(frames[start..])
            case None => !ok
            case Some(rest) => ok && frames[off..] == rest
  {
    hide SkipVarints, Varint;
    ok, off := DropVarints(frames, start, 2);
    if !ok { return; }
    var length;
    length, off := ReadVarint(frames, off);
    if length.None? || off + length.value > |frames| {
      return false, off;
    }
    off := off + length.value;
  }

  method ReadCryptoFrame(frames: Bytes, start: nat) returns (w: Option<Write>, off: nat)
    requires start <= |frames|
    ensures start <= off <= |frames|
    ensures match TakeCrypto(frames[start..])
            case None => w == None
            case Some((write, rest)) => w == Some(write) && frames[off..] == rest
  {
    hide Varint;
    var offset, length;
    offset, off := ReadVarint(frames, start);
    if offset.None? {
      return None, off;
    }
    length, off := ReadVarint(frames, off);
    if length.None? || off + length.value > |frames| {
      return None, off;
    }
    SliceOfSlice(frames, off, |frames|, 0, length.value);
    SliceOfSlice(frames, off, |frames|, length.value, |frames| - off);
    assert frames[off..] == frames[off..|frames|];
    w := Some(Write(offset.value, frames[off..off + length.value]));
    off := off + length.value;
  }

  method ParseInitialFrames(frames: Bytes, crypto: QuicCryptoReassembly) returns (r: Outcome)
    requires crypto.Valid()
    modifies crypto
    ensures crypto.Valid()
    ensures (crypto.View(), r) == Parse(frames, old(crypto.View()))
  {
    hide SkipAck, SkipClose, TakeCrypto, Put;
    var off := 0;
    assert frames[0..] == frames;
    while off < |frames|
      invariant 0 <= off <= |frames|
      invariant crypto.Valid()
      invariant Parse(frames, old(crypto.View())) == Parse(frames[off..], crypto.View())
    {
      ghost var was := off;
      var kind;
      kind, off := ReadVarint(frames, off);
      if kind.None? {
        return Err(InsufficientPrefix);
      }
      match kind.value {
        case 0 =>
        case 1 =>
        case 2 =>
          var ok, rounds;
          ok, off, rounds := SkipAckFrame(2, frames, off);
          if !ok { return Err(InsufficientPrefix); }
        case 3 =>
          var ok, rounds;
          ok, off, rounds := SkipAckFrame(3, frames, off);
          if !ok { return Err(InsufficientPrefix); }
        case 6 =>
          var w;
          w, off := ReadCryptoFrame(frames, off);
          if w.None? { return Err(InsufficientPrefix); }
          var written := crypto.WriteAt(w.value.offset, w.value.data);
          if written.Err? { return Err(TooLarge); }
        case 0x1c =>
          var ok;
          ok, off := SkipCloseFrame(frames, off);
          if !ok { return Err(InsufficientPrefix); }
        case _ =>
          return Err(ProtocolNotMatched);
      }
    }
    r := Ok(());
  }

  // ----- writing frames

  datatype Frame =
    | Padding
    | Ping
    | Ack(largest: Int, delay: Int, count: Int, first: Int, ranges: seq<Int>, ecn: seq<Int>)
    | CryptoData(offset: Int, length: Int, data: Bytes)
    | ConnectionClose(code: Int, frameType: Int, length: Int, reason: Bytes)

  /** A frame and the width its type is written with. */
  datatype Framed = Framed(tagWidth: nat, frame: Frame)

  predicate AllLegal(vs: seq<Int>) {
    forall v | v in vs :: Legal(v)
  }

  function Tag(f: Frame): nat {
    match f
    case Padding => 0
    case Ping => 1
    case Ack(_, _, _, _, _, ecn) => if ecn == [] then 2 else 3
    case CryptoData(_, _, _) => 6
    case ConnectionClose(_, _, _, _) => 0x1c
  }

  /** A gap and a length per range; three counters or none; lengths as long as what they announce. */
  predicate LegalFrame(f: Frame) {
    match f
    case Padding => true
    case Ping => true
    case Ack(largest, delay, count, first, ranges, ecn) =>
      && AllLegal([largest, delay]) && Legal(count) && AllLegal([first] + ranges) && AllLegal(ecn)
      && |ranges| == 2 * count.value && (|ecn| == 0 || |ecn| == 3)
    case CryptoData(offset, length, data) => Legal(offset) && Legal(length) && length.value == |data|
    case ConnectionClose(code, frameType, length, reason) =>
      AllLegal([code, frameType]) && Legal(length) && length.value == |reason|
  }

  predicate LegalFramed(f: Framed) {
    Legal(Int(Tag(f.frame), f.tagWidth)) && LegalFrame(f.frame)
  }

  function EncodeInts(vs: seq<Int>): Bytes
    requires AllLegal(vs)
  {
    if vs == [] then [] else assert Legal(vs[0]); EncodeVarint(vs[0]) + EncodeInts(vs[1..])
  }

  function EncodeBody(f: Frame): Bytes
    requires LegalFrame(f)
  {
    match f
    case Padding => []
    case Ping => []
    case Ack(largest, delay, count, first, ranges, ecn) =>
      EncodeInts([largest, delay]) + (EncodeVarint(count) + (EncodeInts([first] + ranges) + EncodeInts(ecn)))
    case CryptoData(offset, length, data) => EncodeVarint(offset) + (EncodeVarint(length) + data)
    case ConnectionClose(code, frameType, length, reason) =>
      EncodeInts([code, frameType]) + (EncodeVarint(length) + reason)
  }

  predicate LegalFrames(fs: seq<Framed>) {
    forall f | f in fs :: LegalFramed(f)
  }

  function EncodeFrames(fs: seq<Framed>): Bytes
    requires LegalFrames(fs)
  {
    if fs == [] then []
    else
      assert LegalFramed(fs[0]);
      EncodeVarint(Int(Tag(fs[0].frame), fs[0].tagWidth)) + (EncodeBody(fs[0].frame) + EncodeFrames(fs[1..]))
  }

  /** The writes of the CRYPTO frames, in order. */
  function Writes(fs: seq<Framed>): seq<Write> {
    if fs == [] then []
    else if fs[0].frame.CryptoData? then [Write(fs[0].frame.offset.value, fs[0].frame.data)] + Writes(fs[1..])
    else Writes(fs[1..])
  }

  // ----- reading them back

  lemma {:induction false} SkipOfInts(vs: seq<Int>, rest: Bytes)
    requires AllLegal(vs)
    ensures SkipVarints(EncodeInts(vs) + rest, |vs|) == Some(rest)
    decreases |vs|
  {
    hide Varint, EncodeVarint, Legal;
    if vs == [] {
      assert EncodeInts(vs) + rest == rest;
    } else {
      assert vs[0] in vs;
      assert EncodeInts(vs) + rest == EncodeVarint(vs[0]) + (EncodeInts(vs[1..]) + rest);
      VarintOfEncoding(vs[0], EncodeInts(vs[1..]) + rest);
      SkipOfInts(vs[1..], rest);
    }
  }

  lemma AckOfEncoding(f: Frame, rest: Bytes)
    requires f.Ack? && LegalFrame(f)
    ensures SkipAck(f.ecn != [], EncodeBody(f) + rest) == Some(rest)
  {
    hide Varint, EncodeVarint, EncodeInts, SkipVarints, Legal;
    var tail := EncodeInts(f.ecn) + rest;
    var ranges := EncodeInts([f.first] + f.ranges) + tail;
    assert EncodeBody(f) + rest == EncodeInts([f.largest, f.delay]) + (EncodeVarint(f.count) + ranges);
    SkipOfInts([f.largest, f.delay], EncodeVarint(f.count) + ranges);
    VarintOfEncoding(f.count, ranges);
    SkipOfInts([f.first] + f.ranges, tail);
    SkipOfInts(f.ecn, rest);
    if f.ecn == [] {
      SkipNone(tail);
    }
  }

  lemma CloseOfEncoding(f: Frame, rest: Bytes)
    requires f.ConnectionClose? && LegalFrame(f)
    ensures SkipClose(EncodeBody(f) + rest) == Some(rest)
  {
    hide Varint, EncodeVarint, EncodeInts, SkipVarints, Legal;
    var tail := f.reason + rest;
    assert EncodeBody(f) + rest == EncodeInts([f.code, f.frameType]) + (EncodeVarint(f.length) + tail);
    SkipOfInts([f.code, f.frameType], EncodeVarint(f.length) + tail);
    VarintOfEncoding(f.length, tail);
    assert tail[|f.reason|..] == rest;
  }

  lemma CryptoOfEncoding(f: Frame, rest: Bytes)
    requires f.CryptoData? && LegalFrame(f)
    ensures TakeCrypto(EncodeBody(f) + rest) == Some((Write(f.offset.value, f.data), rest))
  {
    hide Varint, EncodeVarint, Legal;
    var tail := f.data + rest;
    assert EncodeBody(f) + rest == EncodeVarint(f.offset) + (EncodeVarint(f.length) + tail);
    VarintOfEncoding(f.offset, EncodeVarint(f.length) + tail);
    VarintOfEncoding(f.length, tail);
    assert tail[..|f.data|] == f.data && tail[|f.data|..] == rest;
  }

  /** On every legal list of frames the walk does exactly the CRYPTO writes, in order, until one does not fit. */
  lemma {:induction false} ParseOfEncoding(fs: seq<Framed>, c: Crypto)
    requires LegalFrames(fs) && |c.buf| == |c.present|
    ensures Parse(EncodeFrames(fs), c) == PutAll(c, Writes(fs))
    decreases |fs|
  {
    hide Varint, EncodeVarint, EncodeBody, SkipAck, SkipClose, TakeCrypto, Put, LegalFrame;
    if fs == [] {
    } else {
      assert LegalFramed(fs[0]);
      var f := fs[0].frame;
      var rest := EncodeFrames(fs[1..]);
      var body := EncodeBody(f) + rest;
      VarintOfEncoding(Int(Tag(f), fs[0].tagWidth), body);
      assert LegalFrames(fs[1..]);
      match f {
        case Ack(_, _, _, _, _, _) => AckOfEncoding(f, rest);
        case ConnectionClose(_, _, _, _) => CloseOfEncoding(f, rest);
        case CryptoData(_, _, data) => CryptoOfEncoding(f, rest);
        case _ => BodyIsEmpty(f, rest);
      }
      if f.CryptoData? {
        var w := Write(f.offset.value, f.data);
        assert Writes(fs)[1..] == Writes(fs[1..]);
        if Fits(w) {
          ParseOfEncoding(fs[1..], Put(c, w));
        }
      } else {
        ParseOfEncoding(fs[1..], c);
      }
    }
  }

  lemma BodyIsEmpty(f: Frame, rest: Bytes)
    requires f.Padding? || f.Ping?
    ensures EncodeBody(f) + rest == rest
  {
  }

  /** A frame of any other type makes the packet foreign. */
  lemma OtherFramesAreRefused(tag: Int, rest: Bytes, c: Crypto)
    requires Legal(tag) && tag.value !in {0, 1, 2, 3, 6, 0x1C} && |c.buf| == |c.present|
    ensures Parse(EncodeVarint(tag) + rest, c) == (c, Err(ProtocolNotMatched))
  {
    hide Varint, EncodeVarint, SkipAck, SkipClose, TakeCrypto;
    VarintOfEncoding(tag, rest);
    VarintAdvances(EncodeVarint(tag) + rest);
  }
}
