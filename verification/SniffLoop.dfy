/**
 The retry loop around the TCP sniffers (src/sniff/mod.rs): peek, classify, double the
 length and peek again while the answer is "need more".
 */
module SniffLoop {
  import opened Common
  import TlsHello
  import TlsRecords
  import HttpSniff

  type Host = TlsHello.Host

  datatype Engine = Tls | Http

  datatype SniffError = PeekEmpty | ProtocolNotMatched | NoTarget | ParseError | InvalidHostname | TooLarge

  datatype Attempt = Matched(host: Host) | NeedMore | Abort(error: SniffError)

  function ClassifyTls(v: TlsRecords.Verdict): Attempt {
    match v
    case Ok(host) => Matched(host)
    case Err(InsufficientPrefix) => NeedMore
    case Err(PeekEmpty) => Abort(PeekEmpty)
    case Err(ProtocolNotMatched) => Abort(ProtocolNotMatched)
    case Err(NoSni) => Abort(NoTarget)
    case Err(ParseError) => Abort(ParseError)
    case Err(InvalidHostname) => Abort(InvalidHostname)
    case Err(TooLargeClientHello) => Abort(TooLarge)
  }

  function ClassifyHttp(v: HttpSniff.Verdict): Attempt {
    match v
    case Ok(host) => Matched(host)
    case Err(InsufficientPrefix) => NeedMore
    case Err(PeekEmpty) => Abort(PeekEmpty)
    case Err(ProtocolNotMatched) => Abort(ProtocolNotMatched)
    case Err(NoHost) => Abort(NoTarget)
    case Err(ParseError) => Abort(ParseError)
    case Err(InvalidHostname) => Abort(InvalidHostname)
    case Err(TooLargeHeader) => Abort(TooLarge)
  }

  function Classify(engine: Engine, buf: Bytes, maxLen: nat): Attempt {
    match engine
    case Tls => ClassifyTls(TlsRecords.Sniff(buf, maxLen))
    case Http => ClassifyHttp(HttpSniff.Sniff(buf, maxLen))
  }

  /** A match is a host of the sniffer, and "need more" is its "insufficient prefix". */
  lemma ClassifyIsSniff(engine: Engine, buf: Bytes, maxLen: nat)
    ensures engine.Tls? ==>
              && (forall h :: Classify(engine, buf, maxLen) == Matched(h) <==> TlsRecords.Sniff(buf, maxLen) == Ok(h))
              && (Classify(engine, buf, maxLen) == NeedMore <==>
                  TlsRecords.Sniff(buf, maxLen) == Err(TlsHello.InsufficientPrefix))
    ensures engine.Http? ==>
              && (forall h :: Classify(engine, buf, maxLen) == Matched(h) <==> HttpSniff.Sniff(buf, maxLen) == Ok(h))
              && (Classify(engine, buf, maxLen) == NeedMore <==>
                  HttpSniff.Sniff(buf, maxLen) == Err(HttpSniff.InsufficientPrefix))
  {
    hide TlsRecords.Sniff, HttpSniff.Sniff;
  }

  predicate Final(a: Attempt) {
    a != NeedMore && a != Abort(PeekEmpty)
  }

  /** Neither sniffer takes a final answer back when more bytes are there. */
  lemma ClassifyNeverChangesMind(engine: Engine, buf: Bytes, all: Bytes, maxLen: nat)
    requires Final(Classify(engine, buf, maxLen)) && buf <= all && |all| <= maxLen
    ensures Classify(engine, all, maxLen) == Classify(engine, buf, maxLen)
  {
    hide TlsRecords.Sniff, HttpSniff.Sniff;
    var more := all[|buf|..];
    assert all == buf + more;
    match engine
    case Tls => TlsRecords.SniffNeverChangesMind(buf, more, maxLen);
    case Http => HttpSniff.SniffNeverChangesMind(buf, more, maxLen);
  }

  // ----- the loop

  datatype Limits = Limits(hardCap: nat, maxPeek: nat, initialPeek: nat, maxRetries: nat)

  function MaxLen(l: Limits): (n: nat)
    ensures n >= 1
  {
    Min(Max(l.maxPeek, 1), Max(l.hardCap, 1))
  }

  function FirstLen(l: Limits): (n: nat)
    ensures 1 <= n <= MaxLen(l)
  {
    Min(Max(l.initialPeek, 1), MaxLen(l))
  }

  /** What the socket does at one await point: so many bytes have arrived, or the call fails. */
  datatype Peek = Arrived(n: nat) | PeekFails

  function Peeked(data: Bytes, arrived: nat, len: nat): (buf: Bytes)
    ensures buf <= data && |buf| <= len
  {
    data[..Min(Min(arrived, len), |data|)]
  }

  /** The answer in one look at everything the loop may ever see. */
  function OneShot(engine: Engine, limits: Limits, data: Bytes): Attempt {
    Classify(engine, data[..Min(|data|, MaxLen(limits))], MaxLen(limits))
  }

  function Pow2(n: nat): (r: nat)
    ensures r > 0
  {
    if n == 0 then 1 else 2 * Pow2(n - 1)
  }

  /** The client sent everything before the loop began, and no peek fails. */
  predicate AllThere(data: Bytes, limits: Limits, peeks: seq<Peek>, waits: seq<Peek>) {
    && |peeks| > limits.maxRetries && |waits| > limits.maxRetries
    && (forall p | p in peeks + waits :: p.Arrived? && p.n >= |data|)
  }

  /** Doubling the first length `maxRetries` times reaches the longest length. */
  predicate EnoughRetries(limits: Limits) {
    var longest := Min(Max(limits.maxPeek, 1), Max(limits.hardCap, 1));
    Min(Max(limits.initialPeek, 1), longest) * Pow2(limits.maxRetries) >= longest
  }

  /** The most the loop may ever see, and the limit it goes by. */
  function LongestLook(limits: Limits, data: Bytes): (r: (Bytes, nat))
    ensures r.1 == Min(Max(limits.maxPeek, 1), Max(limits.hardCap, 1))
    ensures r.0 <= data && |r.0| == Min(|data|, r.1)
  {
    (data[..Min(|data|, MaxLen(limits))], MaxLen(limits))
  }

  predicate ShouldRetry(attempt: nat, maxRetries: nat, curLen: nat, lastLen: nat) {
    attempt < maxRetries && curLen != 0 && curLen > lastLen
  }

  lemma DoublingReaches(first: nat, k: nat, n: nat)
    requires k <= n
    ensures first * Pow2(k + 1) == 2 * (first * Pow2(k))
    ensures first * Pow2(k) <= first * Pow2(n)
    decreases n - k
  {
    if k < n {
      DoublingReaches(first, k + 1, n);
    }
  }

  /** A final answer at one length is the one-shot answer. */
  lemma PrefixDecides(engine: Engine, limits: Limits, data: Bytes, buf: Bytes)
    requires buf <= data && |buf| <= MaxLen(limits)
    requires Final(Classify(engine, buf, MaxLen(limits)))
    ensures OneShot(engine, limits, data) == Classify(engine, buf, MaxLen(limits))
  {
    hide Classify;
    var all := data[..Min(|data|, MaxLen(limits))];
    assert buf == all[..|buf|];
    ClassifyNeverChangesMind(engine, buf, all, MaxLen(limits));
  }

  /** `sniff_with_engine`: `peeks` and `waits` are consumed one per round, and running out of them is the timeout. */
  method SniffWithEngine(engine: Engine, limits: Limits, data: Bytes, peeks: seq<Peek>, waits: seq<Peek>)
    returns (host: Option<Host>, looks: seq<Bytes>)
    ensures |looks| <= limits.maxRetries + 1
    ensures forall buf | buf in looks :: buf <= LongestLook(limits, data).0
    // a host is what the sniffer says of the longest look
    ensures host.Some? && engine.Tls? ==>
              var (all, maxLen) := LongestLook(limits, data); TlsRecords.Sniff(all, maxLen) == Ok(host.value)
    ensures host.Some? && engine.Http? ==>
              var (all, maxLen) := LongestLook(limits, data); HttpSniff.Sniff(all, maxLen) == Ok(host.value)
    // and if all data is there and the retries suffice, what the sniffer says is not missed
    ensures AllThere(data, limits, peeks, waits) && EnoughRetries(limits) && engine.Tls? ==>
              var (all, maxLen) := LongestLook(limits, data);
              TlsRecords.Sniff(all, maxLen).Ok? ==> host == Some(TlsRecords.Sniff(all, maxLen).value)
    ensures AllThere(data, limits, peeks, waits) && EnoughRetries(limits) && engine.Http? ==>
              var (all, maxLen) := LongestLook(limits, data);
              HttpSniff.Sniff(all, maxLen).Ok? ==> host == Some(HttpSniff.Sniff(all, maxLen).value)
  {
    hide TlsRecords.Sniff, HttpSniff.Sniff, Classify, OneShot;
    OneShotIsSniff(engine, limits, data);
    host, looks := PeekLoop(engine, limits, data, peeks, waits);
  }

  lemma OneShotIsSniff(engine: Engine, limits: Limits, data: Bytes)
    ensures var (all, maxLen) := LongestLook(limits, data);
            var answer := OneShot(engine, limits, data);
            match engine
            case Tls => forall h :: answer == Matched(h) <==> TlsRecords.Sniff(all, maxLen) == Ok(h)
            case Http => forall h :: answer == Matched(h) <==> HttpSniff.Sniff(all, maxLen) == Ok(h)
  {
    hide TlsRecords.Sniff, HttpSniff.Sniff, Classify;
    var (all, maxLen) := LongestLook(limits, data);
    ClassifyIsSniff(engine, all, maxLen);
  }

  /** The loop itself. */
  method PeekLoop(engine: Engine, limits: Limits, data: Bytes, peeks: seq<Peek>, waits: seq<Peek>)
    returns (host: Option<Host>, looks: seq<Bytes>)
    ensures |looks| <= limits.maxRetries + 1
    ensures forall buf | buf in looks :: buf <= LongestLook(limits, data).0
    ensures host.Some? ==> OneShot(engine, limits, data) == Matched(host.value)
    ensures host.None? && AllThere(data, limits, peeks, waits) && EnoughRetries(limits)
            ==> !OneShot(engine, limits, data).Matched?
  {
    hide Classify;
    var maxLen := MaxLen(limits);
    var peekLen: nat := FirstLen(limits);
    var attempt: nat := 0;
    var lastLen: nat := 0;
    looks := [];
    while true
      invariant attempt <= limits.maxRetries && |looks| == attempt
      invariant 1 <= peekLen <= maxLen
      invariant peekLen == Min(FirstLen(limits) * Pow2(attempt), maxLen)
      invariant forall buf | buf in looks :: buf <= LongestLook(limits, data).0
      invariant AllThere(data, limits, peeks, waits) ==> lastLen < Min(peekLen, |data|) || (lastLen == 0 && |data| == 0)
      decreases limits.maxRetries - attempt
    {
      assert AllThere(data, limits, peeks, waits) ==>
                peeks[attempt] in peeks + waits && waits[attempt] in peeks + waits;
      if attempt >= |peeks| || peeks[attempt].PeekFails? {
        return None, looks;
      }
      var buf := Peeked(data, peeks[attempt].n, peekLen);
      var curLen := |buf|;
      var answer := Classify(engine, buf, maxLen);
      LooksAreShort(limits, data, buf);
      looks := looks + [buf];
      if Final(answer) {
        PrefixDecides(engine, limits, data, buf);
      }
      match answer {
        case Matched(h) => return Some(h), looks;
        case Abort(e) =>
          EmptyOnly(engine, buf, maxLen);
          return None, looks;
        case NeedMore =>
          DoublingReaches(FirstLen(limits), attempt, limits.maxRetries);
          if !ShouldRetry(attempt, limits.maxRetries, curLen, lastLen) {
            EmptyAborts(engine, maxLen);
            return None, looks;
          }
          lastLen := curLen;
          var nextLen: nat := Min(2 * peekLen, maxLen);
          if nextLen <= peekLen {
            return None, looks;
          }
          if attempt >= |waits| || waits[attempt].PeekFails? || |Peeked(data, waits[attempt].n, nextLen)| <= lastLen {
            return None, looks;
          }
          peekLen := nextLen;
          attempt := attempt + 1;
      }
    }
  }

  lemma LooksAreShort(limits: Limits, data: Bytes, buf: Bytes)
    requires buf <= data && |buf| <= MaxLen(limits)
    ensures buf <= LongestLook(limits, data).0
  {
    assert buf == data[..|buf|] == LongestLook(limits, data).0[..|buf|];
  }

  /** "Empty" is said of the empty buffer and of nothing else. */
  lemma EmptyOnly(engine: Engine, buf: Bytes, maxLen: nat)
    ensures Classify(engine, buf, maxLen) == Abort(PeekEmpty) ==> buf == []
  {
    hide TlsRecords.Records, HttpSniff.WholeHeader;
    if engine.Tls? {
      RecordsNeverEmpty(buf, [], true, maxLen);
    } else if Find<int>(buf, HttpSniff.CRLFCRLF).Some? {
      HeaderNeverEmpty(buf[..Find<int>(buf, HttpSniff.CRLFCRLF).value + 4]);
    }
  }

  lemma HeaderNeverEmpty(header: Bytes)
    ensures HttpSniff.WholeHeader(header) != Err(HttpSniff.PeekEmpty)
  {
    hide HttpSniff.RequestLine, HttpSniff.Headers, HttpSniff.Lines, HttpSniff.Utf8;
    if HttpSniff.Utf8(header).Some? {
      HeadersNeverEmpty(HttpSniff.Lines(HttpSniff.Utf8(header).value)[1..]);
    }
  }

  lemma {:induction false} HeadersNeverEmpty(lines: seq<HttpSniff.Text>)
    ensures HttpSniff.Headers(lines) != Err(HttpSniff.PeekEmpty)
    decreases |lines|
  {
    if lines == [] {
    } else {
      HeadersNeverEmpty(lines[1..]);
    }
  }

  lemma {:induction false} RecordsNeverEmpty(rest: Bytes, handshake: Bytes, atStart: bool, maxSize: nat)
    ensures TlsRecords.Records(rest, handshake, atStart, maxSize) != Err(TlsHello.PeekEmpty)
    decreases |rest|
  {
    hide TlsHello.ParseBody;
    if |rest| >= 5 && TlsRecords.GoodHeader(rest) {
      var end := 5 + TlsHello.BeU16(rest[3], rest[4]);
      if end <= |rest| {
        var next := handshake + rest[5..end];
        if TlsRecords.Assess(next, maxSize).None? {
          RecordsNeverEmpty(rest[end..], next, false, maxSize);
        } else if |next| >= 4 && TlsRecords.MessageLength(next) <= |next| {
          TlsHello.BodyVerdictIsFinal(next[4..TlsRecords.MessageLength(next)]);
        }
      }
    }
  }

  lemma EmptyAborts(engine: Engine, maxLen: nat)
    ensures Classify(engine, [], maxLen) == Abort(PeekEmpty)
  {
  }
}
