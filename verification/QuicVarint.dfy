/**
 Variable-length integers (section 16 of RFC 9000) as src/sniff/quic.rs reads them.
 */
module QuicVarint {
  import opened Common

  datatype QuicError =
    | ProtocolNotMatched | InsufficientPrefix | NoTarget | ParseError | InvalidHostname | TooLarge

  function Pow256(n: nat): (r: nat)
    ensures r > 0
  {
    if n == 0 then 1 else 256 * Pow256(n - 1)
  }

  /** The number written by these bytes, most significant first. */
  function BigEndian(bs: Bytes): nat {
    if bs == [] then 0 else BigEndian(bs[..|bs| - 1]) * 256 + bs[|bs| - 1]
  }

  /** The two top bits of the first byte give the length of the field. */
  function VarintLength(first: Byte): (n: nat)
    ensures n in {1, 2, 4, 8}
  {
    if first < 64 then 1 else if first < 128 then 2 else if first < 192 then 4 else 8
  }

  /** The integer at the front of `bs`, and what follows it. */
  function Varint(bs: Bytes): Option<(nat, Bytes)> {
    if bs == [] || VarintLength(bs[0]) > |bs| then None
    else Some((BigEndian([bs[0] % 64] + bs[1..VarintLength(bs[0])]), bs[VarintLength(bs[0])..]))
  }

  /** `quic_read_varint`: the cursor moves only on success. */
  method ReadVarint(buf: Bytes, start: nat) returns (r: Option<nat>, off: nat)
    requires start <= |buf|
    ensures start <= off <= |buf|
    ensures match Varint(buf[start..])
            case None => r == None && off == start
            case Some((value, rest)) => r == Some(value) && start < off && buf[off..] == rest
  {
    hide BigEndian;
    off := start;
    if off >= |buf| {
      return None, off;
    }
    var first := buf[off];
    var len := VarintLength(first);
    if off + len > |buf| {
      return None, off;
    }
    var value: nat := first % 64;
    ghost var field := [first % 64] + buf[off + 1..off + len];
    assert field[..1] == [first % 64];
    BigEndianGrows(field, 0);
    for i := 1 to len
      invariant value == BigEndian(field[..i])
    {
      BigEndianGrows(field, i);
      value := value * 256 + buf[off + i];
    }
    assert field[..len] == field;
    VarintAt(buf, start);
    off := off + len;
    r := Some(value);
  }

  lemma BigEndianGrows(bs: Bytes, i: nat)
    requires i < |bs|
    ensures BigEndian(bs[..0]) == 0 && BigEndian(bs[..i + 1]) == BigEndian(bs[..i]) * 256 + bs[i]
  {
    assert bs[..i + 1][..i] == bs[..i];
  }

  /** The integer at a cursor, with its field taken from the whole buffer. */
  lemma VarintAt(buf: Bytes, start: nat)
    requires start < |buf| && start + VarintLength(buf[start]) <= |buf|
    ensures var len := VarintLength(buf[start]);
            var field := [buf[start] % 64] + buf[start + 1..start + len];
            Varint(buf[start..]) == Some((BigEndian(field), buf[start + len..]))
  {
    hide BigEndian;
    var len := VarintLength(buf[start]);
    assert buf[start..][1..len] == buf[start + 1..start + len];
    assert buf[start..][len..] == buf[start + len..];
  }

  // ----- writing

  datatype Int = Int(value: nat, width: nat)

  /** The value fits a field of this width, in six bits less than the bytes hold. */
  predicate Legal(v: Int) {
    v.width in {1, 2, 4, 8} && v.value < 64 * Pow256(v.width - 1)
  }

  function Bytewise(value: nat, width: nat): (bs: Bytes)
    ensures |bs| == width
  {
    if width == 0 then [] else Bytewise(value / 256, width - 1) + [value % 256]
  }

  function WidthCode(width: nat): (c: nat)
    ensures c < 4
  {
    if width == 1 then 0 else if width == 2 then 1 else if width == 4 then 2 else 3
  }

  lemma QuotientBound(value: nat, p: nat)
    requires p > 0 && value < 64 * p
    ensures value / p < 64 && value % p < p
    ensures value == value / p * p + value % p
  {
  }

  lemma WidthOfFirst(width: nat, head: nat)
    requires width in {1, 2, 4, 8} && head < 64
    ensures var first := 64 * WidthCode(width) + head; first < 256 && VarintLength(first) == width && first % 64 == head
  {
  }

  /** Reading a head of six bits and a tail of `n` bytes under a width code. */
  lemma VarintOfParts(width: nat, head: nat, tail: Bytes, rest: Bytes)
    requires width in {1, 2, 4, 8} && head < 64 && |tail| == width - 1
    ensures Varint([64 * WidthCode(width) + head] + tail + rest) ==
              Some((head * Pow256(|tail|) + BigEndian(tail), rest))
  {
    hide Pow256, BigEndian, WidthCode, VarintLength;
    var first := 64 * WidthCode(width) + head;
    var bs := [first] + tail + rest;
    assert VarintLength(first) == width && first % 64 == head by { WidthOfFirst(width, head); }
    assert bs[1..width] == tail;
    assert bs[width..] == rest;
    BigEndianSplits(head, tail);
  }

  function EncodeVarint(v: Int): (bs: Bytes)
    requires Legal(v)
    ensures |bs| == v.width
  {
    var p := Pow256(v.width - 1);
    QuotientBound(v.value, p);
    [64 * WidthCode(v.width) + v.value / p] + Bytewise(v.value % p, v.width - 1)
  }

  lemma {:induction false} BigEndianSplits(b: Byte, bs: Bytes)
    ensures BigEndian([b] + bs) == b * Pow256(|bs|) + BigEndian(bs)
  {
    if bs != [] {
      var n := |bs| - 1;
      assert ([b] + bs)[..n + 1] == [b] + bs[..n];
      BigEndianSplits(b, bs[..n]);
      assert b * Pow256(n + 1) == b * Pow256(n) * 256;
    } else {
      assert ([b] + bs)[..0] == [];
    }
  }

  lemma {:induction false} BigEndianOfBytewise(value: nat, width: nat)
    requires value < Pow256(width)
    ensures BigEndian(Bytewise(value, width)) == value
  {
    if width == 0 {
    } else {
      BigEndianOfBytewise(value / 256, width - 1);
      assert Bytewise(value, width)[..width - 1] == Bytewise(value / 256, width - 1);
    }
  }

  /** Every legal width of every value reads back. */
  lemma VarintOfEncoding(v: Int, rest: Bytes)
    requires Legal(v)
    ensures Varint(EncodeVarint(v) + rest) == Some((v.value, rest))
  {
    hide Pow256, BigEndian, Varint, Bytewise;
    var p := Pow256(v.width - 1);
    QuotientBound(v.value, p);
    VarintOfParts(v.width, v.value / p, Bytewise(v.value % p, v.width - 1), rest);
    BigEndianOfBytewise(v.value % p, v.width - 1);
  }

  /** Reading always makes progress. */
  lemma VarintAdvances(bs: Bytes)
    ensures Varint(bs).Some? ==> |Varint(bs).value.1| < |bs|
  {
  }

  /** A field carries at most 62 bits, so no sum of a cursor and a length wraps around. */
  lemma VarintIs62Bits(bs: Bytes)
    requires Varint(bs).Some?
    ensures Varint(bs).value.0 < 0x4000_0000_0000_0000
  {
    var n := VarintLength(bs[0]) - 1;
    var tail := bs[1..VarintLength(bs[0])];
    BigEndianSplits(bs[0] % 64, tail);
    BigEndianBound(tail);
    assert Pow256(0) == 1 && Pow256(1) == 256;
    assert Pow256(3) == 0x100_0000 by { assert Pow256(2) == 0x1_0000; }
    assert Pow256(7) == 0x100_0000_0000_0000 by {
      assert Pow256(2) == 0x1_0000; assert Pow256(4) == 0x1_0000_0000; assert Pow256(6) == 0x1_0000_0000_0000;
    }
    assert bs[0] % 64 * Pow256(n) <= 63 * Pow256(n);
  }

  lemma {:induction false} BigEndianBound(bs: Bytes)
    ensures BigEndian(bs) < Pow256(|bs|)
  {
    if bs == [] {
    } else {
      BigEndianBound(bs[..|bs| - 1]);
    }
  }
}
