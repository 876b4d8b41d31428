/**
 The sparse buffer that puts CRYPTO data back in order (src/sniff/quic.rs).
 */
module QuicReassembly {
  import opened Common
  import opened QuicVarint

  const REASSEMBLY_CAP: nat := 32 * 1024

  datatype Write = Write(offset: nat, data: Bytes)

  /** The value of a buffer: bytes, which of them were received, and the connection it belongs to. */
  datatype Crypto = Crypto(buf: Bytes, present: seq<bool>, dcid: Option<Bytes>)

  const EMPTY := Crypto([], [], None)

  /** How many bytes were received without a gap from the start. */
  function PrefixLength(present: seq<bool>): (n: nat)
    ensures n <= |present|
    ensures forall i | 0 <= i < n :: present[i]
    ensures n < |present| ==> !present[n]
  {
    if present == [] || !present[0] then 0 else 1 + PrefixLength(present[1..])
  }

  lemma {:induction false} PrefixLengthUnique(present: seq<bool>, n: nat)
    requires n <= |present| && (forall i | 0 <= i < n :: present[i]) && (n < |present| ==> !present[n])
    ensures n == PrefixLength(present)
  {
  }

  function Contiguous(c: Crypto): Bytes
    requires |c.buf| == |c.present|
  {
    c.buf[..PrefixLength(c.present)]
  }

  predicate Fits(w: Write) {
    w.offset + |w.data| <= REASSEMBLY_CAP
  }

  /** The buffer after one write: new bytes where the write lies, zeros in a new gap. */
  function Put(c: Crypto, w: Write): (r: Crypto)
    requires |c.buf| == |c.present|
    ensures |r.buf| == |r.present| == Max(|c.buf|, w.offset + |w.data|)
    ensures r.dcid == c.dcid
  {
    var end := w.offset + |w.data|;
    var size := Max(|c.buf|, end);
    Crypto(
      seq(size, i requires 0 <= i < size =>
        if w.offset <= i < end then w.data[i - w.offset] else if i < |c.buf| then c.buf[i] else 0),
      seq(size, i requires 0 <= i < size => w.offset <= i < end || (i < |c.present| && c.present[i])),
      c.dcid)
  }

  /** Writes in order, up to the first that does not fit. */
  function PutAll(c: Crypto, ws: seq<Write>): (r: (Crypto, Result<(), QuicError>))
    requires |c.buf| == |c.present|
    ensures |r.0.buf| == |r.0.present| && r.0.dcid == c.dcid
    decreases |ws|
  {
    if ws == [] then (c, Ok(()))
    else if !Fits(ws[0]) then (c, Err(TooLarge))
    else PutAll(Put(c, ws[0]), ws[1..])
  }

  /** Growing the vectors with zeros and copying the data in is `Put`. */
  lemma SpliceIsPut(c: Crypto, w: Write, buf: Bytes, present: seq<bool>)
    requires |c.buf| == |c.present|
    requires |buf| == |present| == Max(|c.buf|, w.offset + |w.data|)
    requires c.buf <= buf && c.present <= present
    requires forall i | |c.buf| <= i < |buf| :: buf[i] == 0 && !present[i]
    ensures var end := w.offset + |w.data|;
            && buf[..w.offset] + w.data + buf[end..] == Put(c, w).buf
            && present[..w.offset] + seq(|w.data|, _ => true) + present[end..] == Put(c, w).present
  {
  }

  lemma PutKeepsPrefix(c: Crypto, w: Write, n: nat)
    requires |c.buf| == |c.present| && n == PrefixLength(c.present)
    ensures n <= |Put(c, w).present| && forall i | 0 <= i < n :: Put(c, w).present[i]
  {
  }

  class QuicCryptoReassembly {
    var buf: Bytes
    var present: seq<bool>
    var contiguousLen: nat
    var lastDcid: Option<Bytes>

    ghost predicate Valid()
      reads this
    {
      && |buf| == |present| <= REASSEMBLY_CAP
      && contiguousLen == PrefixLength(present)
    }

    ghost function View(): Crypto
      reads this
    {
      Crypto(buf, present, lastDcid)
    }

    constructor ()
      ensures Valid() && View() == EMPTY
    {
      buf, present, contiguousLen, lastDcid := [], [], 0, None;
    }

    method WriteAt(offset: nat, data: Bytes) returns (r: Result<(), QuicError>)
      requires Valid()
      modifies this
      ensures Valid()
      ensures r == if Fits(Write(offset, data)) then Ok(()) else Err(TooLarge)
      ensures View() == if r.Ok? then Put(old(View()), Write(offset, data)) else old(View())
    {
      hide Put, PrefixLength;
      var end := offset + |data|;
      if end > REASSEMBLY_CAP {
        return Err(TooLarge);
      }
      ghost var was := View();
      ghost var counted := contiguousLen;
      Resize(end);
      Splice(offset, data, was);
      PutKeepsPrefix(was, Write(offset, data), counted);
      CountOn();
      return Ok(());
    }

    /** The data over the resized vectors. */
    method Splice(offset: nat, data: Bytes, ghost was: Crypto)
      requires |was.buf| == |was.present| && lastDcid == was.dcid
      requires |buf| == |present| == Max(|was.buf|, offset + |data|) && was.buf <= buf && was.present <= present
      requires forall i | |was.buf| <= i < |buf| :: buf[i] == 0 && !present[i]
      modifies this`buf, this`present
      ensures View() == Put(was, Write(offset, data))
    {
      hide Put;
      var end := offset + |data|;
      SpliceIsPut(was, Write(offset, data), buf, present);
      buf := buf[..offset] + data + buf[end..];
      present := present[..offset] + seq(|data|, _ => true) + present[end..];
    }

    /** Longer vectors, filled with zeros. */
    method Resize(end: nat)
      requires |buf| == |present|
      modifies this`buf, this`present
      ensures |buf| == |present| == Max(|old(buf)|, end)
      ensures old(buf) <= buf && old(present) <= present
      ensures forall i | |old(buf)| <= i < |buf| :: buf[i] == 0 && !present[i]
    {
      if |buf| < end {
        buf := buf + seq(end - |buf|, _ => 0);
        present := present + seq(end - |present|, _ => false);
      }
    }

    /** The counter goes on to the end of the received prefix. */
    method CountOn()
      requires contiguousLen <= |present| && forall i | 0 <= i < contiguousLen :: present[i]
      modifies this`contiguousLen
      ensures contiguousLen == PrefixLength(present)
    {
      while contiguousLen < |present| && present[contiguousLen]
        invariant contiguousLen <= |present|
        invariant forall i | 0 <= i < contiguousLen :: present[i]
      {
        contiguousLen := contiguousLen + 1;
      }
      PrefixLengthUnique(present, contiguousLen);
    }

    /** A packet of connection `dcid` arrives: data of another connection is dropped. */
    method Adopt(dcid: Bytes)
      requires Valid()
      modifies this
      ensures Valid() && View() == Adopted(old(View()), dcid)
    {
      if lastDcid.Some? && lastDcid.value != dcid {
        buf, present, contiguousLen := [], [], 0;
      }
      lastDcid := Some(dcid);
    }

    method Received() returns (bs: Bytes)
      requires Valid()
      ensures bs == Contiguous(View())
    {
      bs := buf[..contiguousLen];
    }
  }

  function Adopted(c: Crypto, dcid: Bytes): Crypto {
    if c.dcid.Some? && c.dcid.value != dcid then Crypto([], [], Some(dcid)) else c.(dcid := Some(dcid))
  }

  // ----- reassembling one stream

  /** The write carries bytes of `stream`. */
  predicate Agrees(w: Write, stream: Bytes) {
    w.offset + |w.data| <= |stream| && stream[w.offset..w.offset + |w.data|] == w.data
  }

  predicate AllAgree(ws: seq<Write>, stream: Bytes) {
    forall w | w in ws :: Agrees(w, stream)
  }

  predicate Covers(ws: seq<Write>, i: nat) {
    exists w | w in ws :: w.offset <= i < w.offset + |w.data|
  }

  predicate CoversAll(ws: seq<Write>, n: nat) {
    forall i | 0 <= i < n :: Covers(ws, i)
  }

  function End(ws: seq<Write>): (n: nat)
    ensures forall w | w in ws :: w.offset + |w.data| <= n
    ensures n == 0 || exists w | w in ws :: w.offset + |w.data| == n
  {
    if ws == [] then 0
    else
      var last := ws[|ws| - 1];
      assert ws == ws[..|ws| - 1] + [last];
      Max(End(ws[..|ws| - 1]), last.offset + |last.data|)
  }

  /** What the buffer must hold after the writes `ws` of `stream`, whatever their order. */
  function Assembled(stream: Bytes, ws: seq<Write>, dcid: Option<Bytes>): (c: Crypto)
    requires AllAgree(ws, stream)
    ensures |c.buf| == |c.present| == End(ws)
  {
    assert End(ws) <= |stream|;
    Crypto(
      seq(End(ws), i requires 0 <= i < End(ws) => if Covers(ws, i) then stream[i] else 0),
      seq(End(ws), i requires 0 <= i < End(ws) => Covers(ws, i)),
      dcid)
  }

  lemma CoversOneMore(ws: seq<Write>, w: Write, i: nat)
    ensures Covers(ws + [w], i) <==> Covers(ws, i) || w.offset <= i < w.offset + |w.data|
  {
    var next := ws + [w];
    assert w in next;
    assert forall v | v in ws :: v in next;
  }

  lemma EndOneMore(ws: seq<Write>, w: Write)
    ensures End(ws + [w]) == Max(End(ws), w.offset + |w.data|)
  {
    assert (ws + [w])[..|ws|] == ws;
  }

  lemma PutAssemblesAt(stream: Bytes, ws: seq<Write>, w: Write, dcid: Option<Bytes>, i: nat)
    requires AllAgree(ws, stream) && Agrees(w, stream) && AllAgree(ws + [w], stream) && i < End(ws + [w])
    ensures |Put(Assembled(stream, ws, dcid), w).buf| == End(ws + [w])
    ensures Put(Assembled(stream, ws, dcid), w).buf[i] == Assembled(stream, ws + [w], dcid).buf[i]
    ensures Put(Assembled(stream, ws, dcid), w).present[i] == Assembled(stream, ws + [w], dcid).present[i]
  {
    hide Covers, End;
    EndOneMore(ws, w);
    CoversOneMore(ws, w, i);
    if w.offset <= i < w.offset + |w.data| {
      assert w.data[i - w.offset] == stream[w.offset..w.offset + |w.data|][i - w.offset] == stream[i];
    } else if i >= End(ws) {
      NothingBeyondEnd(ws, i);
    }
  }

  lemma AgreeOneMore(ws: seq<Write>, w: Write, stream: Bytes)
    requires AllAgree(ws, stream) && Agrees(w, stream)
    ensures AllAgree(ws + [w], stream)
  {
    hide Agrees;
  }

  lemma PutAssembles(stream: Bytes, ws: seq<Write>, w: Write, dcid: Option<Bytes>)
    requires AllAgree(ws, stream) && Agrees(w, stream)
    ensures AllAgree(ws + [w], stream)
    ensures Put(Assembled(stream, ws, dcid), w) == Assembled(stream, ws + [w], dcid)
  {
    hide *;
    AgreeOneMore(ws, w, stream);
    EndOneMore(ws, w);
    AssembledKeepsDcid(stream, ws, dcid);
    AssembledKeepsDcid(stream, ws + [w], dcid);
    var left := Put(Assembled(stream, ws, dcid), w);
    var right := Assembled(stream, ws + [w], dcid);
    forall i | 0 <= i < End(ws + [w])
      ensures left.buf[i] == right.buf[i] && left.present[i] == right.present[i]
    {
      PutAssemblesAt(stream, ws, w, dcid, i);
    }
    assert left.buf == right.buf && left.present == right.present;
  }

  lemma AssembledKeepsDcid(stream: Bytes, ws: seq<Write>, dcid: Option<Bytes>)
    requires AllAgree(ws, stream)
    ensures Assembled(stream, ws, dcid).dcid == dcid
  {
  }

  lemma NothingBeyondEnd(ws: seq<Write>, i: nat)
    requires i >= End(ws)
    ensures !Covers(ws, i)
  {
  }

  /** However the stream is cut into writes, the buffer is the same function of what was covered. */
  lemma {:induction false} PutAllAssembles(stream: Bytes, done: seq<Write>, ws: seq<Write>, dcid: Option<Bytes>)
    requires |stream| <= REASSEMBLY_CAP
    requires AllAgree(done, stream) && AllAgree(ws, stream)
    ensures AllAgree(done + ws, stream)
    ensures PutAll(Assembled(stream, done, dcid), ws) == (Assembled(stream, done + ws, dcid), Ok(()))
    decreases |ws|
  {
    hide Assembled, Put, Covers, End;
    if ws == [] {
      assert done + ws == done;
    } else {
      assert Agrees(ws[0], stream) by { assert ws[0] in ws; }
      PutAssembles(stream, done, ws[0], dcid);
      PutAllAssembles(stream, done + [ws[0]], ws[1..], dcid);
      assert done + [ws[0]] + ws[1..] == done + ws;
    }
  }

  lemma AssembledIgnoresOrder(stream: Bytes, ws: seq<Write>, vs: seq<Write>, dcid: Option<Bytes>)
    requires AllAgree(ws, stream) && AllAgree(vs, stream)
    requires forall w :: w in ws <==> w in vs
    ensures Assembled(stream, ws, dcid) == Assembled(stream, vs, dcid)
  {
    assert End(ws) == End(vs);
    assert forall i: nat :: Covers(ws, i) <==> Covers(vs, i);
    var left, right := Assembled(stream, ws, dcid), Assembled(stream, vs, dcid);
    assert left.buf == right.buf && left.present == right.present;
  }

  /** Order and repetition of the writes leave no trace. */
  lemma OrderDoesNotMatter(stream: Bytes, ws: seq<Write>, vs: seq<Write>)
    requires |stream| <= REASSEMBLY_CAP && AllAgree(ws, stream)
    requires forall w :: w in ws <==> w in vs
    ensures PutAll(EMPTY, ws) == PutAll(EMPTY, vs)
  {
    hide PutAll, Covers;
    assert Assembled(stream, [], None) == EMPTY;
    PutAllAssembles(stream, [], ws, None);
    PutAllAssembles(stream, [], vs, None);
    assert [] + ws == ws && [] + vs == vs;
    AssembledIgnoresOrder(stream, ws, vs, None);
  }

  /** What is contiguous is the longest covered prefix of the stream. */
  lemma ContiguousIsMaximalPrefix(stream: Bytes, ws: seq<Write>, dcid: Option<Bytes>)
    requires AllAgree(ws, stream)
    ensures var got := Contiguous(Assembled(stream, ws, dcid));
            && got <= stream
            && CoversAll(ws, |got|)
            && !Covers(ws, |got|)
  {
    var c := Assembled(stream, ws, dcid);
    var n := PrefixLength(c.present);
    assert forall i | 0 <= i < n :: c.present[i] && Covers(ws, i);
    assert c.buf[..n] == stream[..n];
    if n >= End(ws) {
      NothingBeyondEnd(ws, n);
    }
  }

  lemma ContiguousReaches(stream: Bytes, ws: seq<Write>, dcid: Option<Bytes>, n: nat)
    requires AllAgree(ws, stream) && n <= |stream|
    ensures |Contiguous(Assembled(stream, ws, dcid))| >= n <==> CoversAll(ws, n)
  {
    ContiguousIsMaximalPrefix(stream, ws, dcid);
  }

  /**
   When another connection begins, nothing of the earlier ones is left: its stream is assembled
   as in a new buffer.
   */
  lemma OtherConnectionLeavesNoTrace(c: Crypto, dcid: Bytes, stream: Bytes, ws: seq<Write>)
    requires |c.buf| == |c.present| && c.dcid.Some? && c.dcid.value != dcid
    requires |stream| <= REASSEMBLY_CAP && AllAgree(ws, stream)
    ensures PutAll(Adopted(c, dcid), ws) == (Assembled(stream, ws, Some(dcid)), Ok(()))
  {
    hide PutAll;
    assert Adopted(c, dcid) == Assembled(stream, [], Some(dcid));
    PutAllAssembles(stream, [], ws, Some(dcid));
    assert [] + ws == ws;
  }

  /** Another packet of the same connection goes on with what was assembled before. */
  lemma SameConnectionGoesOn(dcid: Bytes, stream: Bytes, done: seq<Write>, ws: seq<Write>)
    requires |stream| <= REASSEMBLY_CAP && AllAgree(done, stream) && AllAgree(ws, stream)
    ensures AllAgree(done + ws, stream)
    ensures PutAll(Adopted(Assembled(stream, done, Some(dcid)), dcid), ws) ==
              (Assembled(stream, done + ws, Some(dcid)), Ok(()))
  {
    hide PutAll;
    assert Adopted(Assembled(stream, done, Some(dcid)), dcid) == Assembled(stream, done, Some(dcid));
    PutAllAssembles(stream, done, ws, Some(dcid));
  }
}
