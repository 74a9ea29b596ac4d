/** The encoding of tag-length-value messages and what a stream of them determines. */
module Wire {
  type Byte = n: nat | n < 0x100

  const TAG_BYTES: nat := 4      // sizeof(uint32_t)
  const LENGTH_BYTES: nat := 8   // sizeof(size_t)
  const HEADER: nat := 12

  /** `Comms::GetMaxMsgSize`. */
  const MAX_MSG_SIZE: nat := 0x7fff_ffff

  type Tag = n: nat | n < 0x1_0000_0000

  datatype Msg = Msg(tag: Tag, value: seq<Byte>)

  /** Messages that `SendTLV` accepts. */
  predicate Sendable(m: Msg) { |m.value| <= MAX_MSG_SIZE }

  // ----- integers in memory -----

  function Capacity(w: nat): nat { if w == 0 then 1 else 0x100 * Capacity(w - 1) }

  /** The bytes of an integer of `w` bytes, least significant first. */
  function ToBytes(n: nat, w: nat): (r: seq<Byte>)
    ensures |r| == w
  {
    if w == 0 then [] else [n % 0x100] + ToBytes(n / 0x100, w - 1)
  }

  function FromBytes(bs: seq<Byte>): nat {
    if bs == [] then 0 else bs[0] + 0x100 * FromBytes(bs[1..])
  }

  lemma {:induction false} BytesRoundTrip(n: nat, w: nat)
    requires n < Capacity(w)
    ensures FromBytes(ToBytes(n, w)) == n
    decreases w
  {
    if w > 0 {
      BytesRoundTrip(n / 0x100, w - 1);
      assert ToBytes(n, w)[1..] == ToBytes(n / 0x100, w - 1);
    }
  }

  /** What a byte adds, read from the front. */
  lemma FirstByte(b: Byte, n: nat)
    ensures (b + 0x100 * n) % 0x100 == b && (b + 0x100 * n) / 0x100 == n
  {
  }

  lemma {:induction false} FromToBytes(bs: seq<Byte>)
    ensures FromBytes(bs) < Capacity(|bs|) && ToBytes(FromBytes(bs), |bs|) == bs
  {
    if bs != [] {
      FromToBytes(bs[1..]);
      FirstByte(bs[0], FromBytes(bs[1..]));
      assert [bs[0]] + bs[1..] == bs;
    }
  }

  /** A number below 256 is its first byte, and zeros. */
  lemma {:induction false} SmallBytes(n: nat, w: nat)
    requires n < 0x100 && w > 0
    ensures ToBytes(n, w)[0] == n && forall i :: 1 <= i < w ==> ToBytes(n, w)[i] == 0
    decreases w
  {
    if w > 1 {
      SmallBytes(0, w - 1);
    }
  }

  lemma {:induction false} ZeroBytes(bs: seq<Byte>)
    requires forall i :: 0 <= i < |bs| ==> bs[i] == 0
    ensures FromBytes(bs) == 0
  {
    if bs != [] {
      ZeroBytes(bs[1..]);
    }
  }

  lemma {:induction false} LargeBytes(bs: seq<Byte>, q: nat)
    requires q < |bs| && bs[q] > 0
    ensures FromBytes(bs) >= Capacity(q)
  {
    if q > 0 {
      LargeBytes(bs[1..], q - 1);
    }
  }

  lemma {:induction false} CapacityGrows(v: nat, w: nat)
    requires v <= w
    ensures Capacity(v) <= Capacity(w)
    decreases w
  {
    if v < w {
      CapacityGrows(v, w - 1);
    }
  }

  lemma CapacityOf4()
    ensures Capacity(4) == 0x1_0000_0000
  {
    assert Capacity(2) == 0x1_0000;
  }

  lemma CapacityOf8()
    ensures Capacity(8) > MAX_MSG_SIZE
  {
    CapacityOf4();
    assert Capacity(6) == 0x100 * (0x100 * Capacity(4));
    assert Capacity(8) == 0x100 * (0x100 * Capacity(6));
  }

  // ----- messages -----

  function Header(m: Msg): (r: seq<Byte>)
    ensures |r| == HEADER
  {
    ToBytes(m.tag, TAG_BYTES) + ToBytes(|m.value|, LENGTH_BYTES)
  }

  function Encode(m: Msg): (r: seq<Byte>)
    ensures |r| == HEADER + |m.value|
  {
    Header(m) + m.value
  }

  /** All bytes of a sequence of messages. */
  function Stream(ms: seq<Msg>): seq<Byte> {
    if ms == [] then [] else Encode(ms[0]) + Stream(ms[1..])
  }

  lemma {:induction false} StreamAppend(a: seq<Msg>, m: Msg)
    ensures Stream(a + [m]) == Stream(a) + Encode(m)
  {
    if a == [] {
      assert a + [m] == [m];
      assert Stream([m]) == Encode(m) + Stream([]);
    } else {
      assert (a + [m])[1..] == a[1..] + [m];
      StreamAppend(a[1..], m);
    }
  }

  /** The length field of what a receiver has of a message, once it has the header. */
  function LengthOf(partial: seq<Byte>): nat
    requires |partial| >= HEADER
  {
    FromBytes(partial[TAG_BYTES..HEADER])
  }

  /** How many more bytes the current `Recv` of a receiver wants: first the tag, then the length,
      then the value. */
  function Wanted(partial: seq<Byte>): int {
    if |partial| < TAG_BYTES then TAG_BYTES - |partial|
    else if |partial| < HEADER then HEADER - |partial|
    else HEADER + LengthOf(partial) - |partial|
  }

  /** The message that complete bytes stand for. */
  function MessageOf(bytes: seq<Byte>): (r: (nat, seq<Byte>))
    requires |bytes| >= HEADER
  {
    (FromBytes(bytes[..TAG_BYTES]), bytes[HEADER..])
  }

  /** The header of an encoded message gives its tag and length. */
  lemma HeaderReads(m: Msg, bytes: seq<Byte>)
    requires Sendable(m) && |bytes| >= HEADER && bytes[..HEADER] == Header(m)
    ensures FromBytes(bytes[..TAG_BYTES]) == m.tag && LengthOf(bytes) == |m.value|
  {
    CapacityOf4();
    CapacityOf8();
    BytesRoundTrip(m.tag, TAG_BYTES);
    BytesRoundTrip(|m.value|, LENGTH_BYTES);
    assert bytes[..TAG_BYTES] == bytes[..HEADER][..TAG_BYTES] == ToBytes(m.tag, TAG_BYTES);
    assert bytes[TAG_BYTES..HEADER] == bytes[..HEADER][TAG_BYTES..] == ToBytes(|m.value|, LENGTH_BYTES);
  }

  /** Decoding undoes encoding. */
  lemma DecodeEncode(m: Msg)
    requires Sendable(m)
    ensures Wanted(Encode(m)) == 0 && MessageOf(Encode(m)) == (m.tag, m.value)
  {
    assert Encode(m)[..HEADER] == Header(m);
    HeaderReads(m, Encode(m));
  }

  /** Bytes that begin a stream of messages and hold no more than their header says are either a
      proper beginning of the first message, and something is wanted, or exactly that message. */
  lemma BeginningOfStream(partial: seq<Byte>, ms: seq<Msg>)
    requires ms != [] && Sendable(ms[0]) && partial <= Stream(ms) && Wanted(partial) >= 0
    ensures |partial| >= HEADER ==> LengthOf(partial) == |ms[0].value|
    ensures Wanted(partial) == 0 <==> partial == Encode(ms[0])
    ensures |partial| <= |Encode(ms[0])|
  {
    var e := Encode(ms[0]);
    assert Stream(ms)[..|e|] == e;
    if |partial| >= HEADER {
      assert partial[..HEADER] == Stream(ms)[..HEADER] == e[..HEADER] == Header(ms[0]);
      HeaderReads(ms[0], partial);
      assert partial == Stream(ms)[..|partial|] == e[..|partial|];
    }
  }

  /** Four bytes as a number, the least significant first. */
  function Number(a: nat, b: nat, c: nat, d: nat): nat { a + 0x100 * b + 0x1_0000 * c + 0x100_0000 * d }

  lemma FourBytes(bs: seq<Byte>)
    requires |bs| == 4
    ensures FromBytes(bs) == Number(bs[0], bs[1], bs[2], bs[3])
  {
    var b1, b2, b3 := bs[1..], bs[2..], bs[3..];
    assert b1[1..] == b2 && b2[1..] == b3 && b3[1..] == [];
    assert FromBytes(b3) == bs[3];
    assert FromBytes(b2) == Number(bs[2], bs[3], 0, 0);
  }

  lemma {:induction false} TwoParts(a: seq<Byte>, b: seq<Byte>)
    ensures FromBytes(a + b) == FromBytes(a) + Capacity(|a|) * FromBytes(b)
  {
    if a == [] {
      assert a + b == b;
    } else {
      assert (a + b)[1..] == a[1..] + b;
      TwoParts(a[1..], b);
      assert 0x100 * (Capacity(|a| - 1) * FromBytes(b)) == Capacity(|a|) * FromBytes(b);
    }
  }

  /** A length within the limit needs four of its eight bytes. */
  lemma ShortLength(bs: seq<Byte>)
    requires |bs| == 8 && FromBytes(bs) <= MAX_MSG_SIZE
    ensures FromBytes(bs) == Number(bs[0], bs[1], bs[2], bs[3]) && bs[4] == bs[5] == bs[6] == bs[7] == 0
  {
    var low, high := bs[..4], bs[4..];
    assert bs == low + high;
    TwoParts(low, high);
    CapacityOf4();
    FourBytes(low);
    FourBytes(high);
    assert FromBytes(high) == 0;
  }

  /** The layout of a message: four bytes of tag and eight of length, both with the least significant
      byte first, and the value. */
  lemma Layout(m: Msg)
    requires Sendable(m)
    ensures var e := Encode(m);
            && m.tag == Number(e[0], e[1], e[2], e[3]) && |m.value| == Number(e[4], e[5], e[6], e[7])
            && e[8] == e[9] == e[10] == e[11] == 0
            && e[12..] == m.value
  {
    var e := Encode(m);
    assert e[..HEADER] == Header(m);
    HeaderReads(m, e);
    FourBytes(e[..4]);
    ShortLength(e[4..12]);
  }
}
