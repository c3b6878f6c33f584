/** The datagram format of clash-lib/src/proxy/hysteria2/codec.rs: big-endian header fields,
    a variable-length integer (section 16 of RFC 9000) for the address length, the address
    and the data.  The address is kept as bytes. */
module UdpWire {
  import opened Basics

  type u8 = byte
  type u16 = x: nat | x < 0x1_0000
  type u32 = x: nat | x < 0x1_0000_0000

  // ---------------------------------------------------------------- integers

  function Radix(n: nat): (r: nat)
    ensures r > 0
  {
    if n == 0 then 1 else 256 * Radix(n - 1)
  }

  // The n low bytes, most significant first.
  function BigEndian(x: nat, n: nat): (s: seq<byte>)
    ensures |s| == n
  {
    if n == 0 then [] else BigEndian(x / 256, n - 1) + [x % 256]
  }

  function FromBigEndian(s: seq<byte>): nat {
    if s == [] then 0 else FromBigEndian(s[..|s| - 1]) * 256 + s[|s| - 1]
  }

  lemma {:induction false} BigEndianRoundTrip(x: nat, n: nat)
    requires x < Radix(n)
    ensures FromBigEndian(BigEndian(x, n)) == x
  {
    if n > 0 {
      BigEndianRoundTrip(x / 256, n - 1);
      var s := BigEndian(x, n);
      assert s[..n - 1] == BigEndian(x / 256, n - 1);
    }
  }

  // A value moved up by k bytes.
  function Raised(v: nat, k: nat): nat {
    if k == 0 then v else 256 * Raised(v, k - 1)
  }

  // The first byte lies where the whole value lies.
  lemma {:induction false} FirstByteBetween(x: nat, k: nat, lo: nat, hi: nat)
    requires Raised(lo, k) <= x < Raised(hi, k) && hi <= 256
    ensures lo <= BigEndian(x, k + 1)[0] < hi
  {
    if k == 0 {
      assert BigEndian(x, 1) == BigEndian(x / 256, 0) + [x % 256];
    } else {
      FirstByteBetween(x / 256, k - 1, lo, hi);
      assert BigEndian(x, k + 1)[0] == BigEndian(x / 256, k)[0];
    }
  }

  const MaxVarint: nat := 0x4000_0000_0000_0000

  /** `var_size`: how many bytes a value takes. */
  function VarSize(x: nat): (n: nat)
    requires x < MaxVarint
    ensures n == 1 || n == 2 || n == 4 || n == 8
  {
    if x < 0x40 then 1 else if x < 0x4000 then 2 else if x < 0x4000_0000 then 4 else 8
  }

  // The two leading bits that announce a size, and the room below them.
  function Tag(n: nat): nat {
    if n == 1 then 0 else if n == 2 then 1 else if n == 4 then 2 else 3
  }

  function Room(n: nat): nat {
    if n == 1 then 0x40 else if n == 2 then 0x4000 else if n == 4 then 0x4000_0000 else MaxVarint
  }

  function SizeOfTag(tag: nat): nat {
    if tag == 0 then 1 else if tag == 1 then 2 else if tag == 2 then 4 else 8
  }

  function EncodeVarint(x: nat): (s: seq<byte>)
    requires x < MaxVarint
    ensures |s| == VarSize(x)
  {
    var n := VarSize(x);
    BigEndian(Tag(n) * Room(n) + x, n)
  }

  /** The value and the number of bytes it took, if the input is long enough. */
  function DecodeVarint(s: seq<byte>): Option<(nat, nat)> {
    if s == [] then None
    else
      var n := SizeOfTag(s[0] / 64);
      if |s| < n then None else Some((FromBigEndian(s[..n]) % Room(n), n))
  }

  lemma VarintTag(x: nat)
    requires x < MaxVarint
    ensures EncodeVarint(x)[0] / 64 == Tag(VarSize(x))
  {
    var n := VarSize(x);
    var y := Tag(n) * Room(n) + x;
    var lo := 64 * Tag(n);
    RaisedAt(lo);
    RaisedAt(lo + 64);
    FirstByteBetween(y, n - 1, lo, lo + 64);
  }

  lemma RaisedAt(v: nat)
    ensures Raised(v, 0) == v && Raised(v, 1) == 256 * v
    ensures Raised(v, 3) == 0x100_0000 * v
    ensures Raised(v, 7) == 0x100_0000_0000_0000 * v
  {
    assert Raised(v, 1) == 256 * Raised(v, 0);
    assert Raised(v, 2) == 0x1_0000 * v;
    assert Raised(v, 4) == 0x1_0000_0000 * v;
    assert Raised(v, 5) == 0x100_0000_0000 * v;
    assert Raised(v, 6) == 0x1_0000_0000_0000 * v;
  }

  lemma RadixAt()
    ensures Radix(1) == 0x100 && Radix(2) == 0x1_0000 && Radix(4) == 0x1_0000_0000 &&
      Radix(8) == 0x1_0000_0000_0000_0000
  {
    assert Radix(3) == 0x100_0000;
    assert Radix(5) == 0x100_0000_0000;
    assert Radix(6) == 0x1_0000_0000_0000;
    assert Radix(7) == 0x100_0000_0000_0000;
  }

  /** Decoding an encoded value gives it back, whatever follows. */
  lemma VarintRoundTrip(x: nat, rest: seq<byte>)
    requires x < MaxVarint
    ensures DecodeVarint(EncodeVarint(x) + rest) == Some((x, VarSize(x)))
  {
    var n := VarSize(x);
    var y := Tag(n) * Room(n) + x;
    RadixAt();
    BigEndianRoundTrip(y, n);
    VarintTag(x);
    var s := EncodeVarint(x) + rest;
    assert s[..n] == EncodeVarint(x);
    assert y % Room(n) == x;
  }

  // ---------------------------------------------------------------- packets

  datatype Packet = Packet(sessionId: u32, pktId: u16, fragId: u8, fragCount: u8, addr: seq<byte>, data: seq<byte>)

  /** What one datagram looks like; `Fragments::next` writes it. */
  function Encode(p: Packet): seq<byte>
    requires |p.addr| < 0x1_0000_0000
  {
    BigEndian(p.sessionId, 4) + BigEndian(p.pktId, 2) + [p.fragId] + [p.fragCount]
    + EncodeVarint(|p.addr|) + p.addr + p.data
  }

  datatype Decoded = Ok(packet: Packet) | TooShort | BadLength | Panics | BadAddress

  /** `HysUdpPacket::decode`, given which address texts parse.  `split_to` panics when the
      address would be longer than what is there. */
  function Decode(buf: seq<byte>, parses: seq<byte> -> bool): Decoded {
    if |buf| < 8 then TooShort
    else
      match DecodeVarint(buf[8..])
      case None => BadLength
      case Some((addrLen, n)) =>
        var rest := buf[8 + n..];
        if addrLen > |rest| then Panics
        else if !parses(rest[..addrLen]) then BadAddress
        else Ok(Fields(buf, rest, addrLen))
  }

  // The packet of a datagram whose address and data are here.
  function Fields(buf: seq<byte>, rest: seq<byte>, addrLen: nat): Packet
    requires |buf| >= 8 && addrLen <= |rest|
  {
    RadixAt();
    FromBigEndianBound(buf[..4]);
    FromBigEndianBound(buf[4..6]);
    Packet(FromBigEndian(buf[..4]), FromBigEndian(buf[4..6]), buf[6], buf[7], rest[..addrLen], rest[addrLen..])
  }

  lemma {:induction false} FromBigEndianBound(s: seq<byte>)
    ensures FromBigEndian(s) < Radix(|s|)
  {
    if s != [] { FromBigEndianBound(s[..|s| - 1]); }
  }

  /** A datagram decodes to the fields it was made from, if its address parses. */
  lemma PacketRoundTrip(p: Packet, parses: seq<byte> -> bool)
    requires |p.addr| < 0x1_0000_0000
    ensures Decode(Encode(p), parses) == if parses(p.addr) then Ok(p) else BadAddress
  {
    RadixAt();
    BigEndianRoundTrip(p.sessionId, 4);
    BigEndianRoundTrip(p.pktId, 2);
    VarintRoundTrip(|p.addr|, p.addr + p.data);
    PartsOf(BigEndian(p.sessionId, 4), BigEndian(p.pktId, 2), p.fragId, p.fragCount, EncodeVarint(|p.addr|),
            p.addr, p.data);
  }

  lemma EncodeLength(p: Packet)
    requires |p.addr| < 0x1_0000_0000
    ensures |Encode(p)| == 8 + VarSize(|p.addr|) + |p.addr| + |p.data|
  {
    BigEndianRoundTrip(p.sessionId, 4);
    BigEndianRoundTrip(p.pktId, 2);
    VarintRoundTrip(|p.addr|, []);
  }

  // A datagram, cut where its fields end.
  lemma PartsOf(a: seq<byte>, b: seq<byte>, c: byte, d: byte, v: seq<byte>, addr: seq<byte>, data: seq<byte>)
    requires |a| == 4 && |b| == 2
    ensures var e := a + b + [c] + [d] + v + addr + data;
      && |e| == 8 + |v| + |addr| + |data|
      && e[..4] == a && e[4..6] == b && e[6] == c && e[7] == d && e[8..] == v + (addr + data)
      && e[8 + |v|..] == addr + data
    ensures (addr + data)[..|addr|] == addr && (addr + data)[|addr|..] == data
  {
  }

  // ---------------------------------------------------------------- the layout, byte by byte

  function Two(e: seq<byte>, i: nat): nat
    requires i + 2 <= |e|
  {
    0x100 * (e[i] as int) + e[i + 1]
  }

  function Four(e: seq<byte>, i: nat): nat
    requires i + 4 <= |e|
  {
    0x100_0000 * (e[i] as int) + 0x1_0000 * (e[i + 1] as int) + 0x100 * (e[i + 2] as int) + e[i + 3]
  }

  // How many bytes the address length takes, by the two top bits of its first byte.
  function LengthSize(first: byte): nat {
    if first < 0x40 then 1 else if first < 0x80 then 2 else if first < 0xc0 then 4 else 8
  }

  // The address length, without those bits.
  function LengthAt(e: seq<byte>, i: nat): int
    requires i < |e| && i + LengthSize(e[i]) <= |e|
  {
    if e[i] < 0x40 then e[i]
    else if e[i] < 0x80 then Two(e, i) - 0x4000
    else if e[i] < 0xc0 then Four(e, i) - 0x8000_0000
    else 0x1_0000_0000 * (Four(e, i) - 0xc000_0000) + Four(e, i + 4)
  }

  // The fewest bytes that hold a length beside the two top bits: 6, 14, 30 or 62 bits.
  function ShortestSize(n: nat): nat {
    if n <= 63 then 1 else if n <= 16383 then 2 else if n <= 1073741823 then 4 else 8
  }

  /** Where each field of a packet stands in a datagram: four bytes of session id, two of
      packet id, the fragment's number and count, the length of the address, the address,
      the data. */
  predicate Layout(e: seq<byte>, p: Packet) {
    && |e| > 8 && p.sessionId == Four(e, 0) && p.pktId == Two(e, 4) && p.fragId == e[6] && p.fragCount == e[7]
    && var at := 8 + LengthSize(e[8]);
    && |e| == at + |p.addr| + |p.data| && |p.addr| == LengthAt(e, 8)
    && p.addr == e[at..at + |p.addr|] && p.data == e[at + |p.addr|..]
  }

  lemma FromTwo(s: seq<byte>)
    requires |s| == 2
    ensures FromBigEndian(s) == Two(s, 0)
  {
    assert s[..1][..0] == [] && s[..1][0] == s[0];
    assert FromBigEndian(s[..1]) == s[0];
  }

  lemma FromFour(s: seq<byte>)
    requires |s| == 4
    ensures FromBigEndian(s) == Four(s, 0)
  {
    FromTwo(s[..2]);
    assert s[..3][..2] == s[..2];
    assert FromBigEndian(s[..3]) == 0x100 * Two(s, 0) + s[2];
  }

  lemma FromEight(s: seq<byte>)
    requires |s| == 8
    ensures FromBigEndian(s) == 0x1_0000_0000 * Four(s, 0) + Four(s, 4)
  {
    FromFour(s[..4]);
    assert s[..5][..4] == s[..4] && s[..6][..5] == s[..5] && s[..7][..6] == s[..6];
    assert FromBigEndian(s[..5]) == 0x100 * Four(s, 0) + s[4];
    assert FromBigEndian(s[..6]) == 0x1_0000 * Four(s, 0) + Two(s, 4);
    assert FromBigEndian(s[..7]) == 0x100_0000 * Four(s, 0) + 0x100 * Two(s, 4) + s[6];
  }

  // The value below the two top bits, for each size.
  lemma ValueOfOne(s: seq<byte>)
    requires |s| >= 1 && s[0] < 0x40
    ensures DecodeVarint(s) == Some((LengthAt(s, 0), 1))
  {
    assert s[..1][..0] == [] && s[..1][0] == s[0];
    assert FromBigEndian(s[..1]) == s[0];
  }

  lemma ValueOfTwo(s: seq<byte>)
    requires |s| >= 2 && 0x40 <= s[0] < 0x80
    ensures 0 <= LengthAt(s, 0) && DecodeVarint(s) == Some((LengthAt(s, 0), 2))
  {
    FromTwo(s[..2]);
    assert FromBigEndian(s[..2]) % 0x4000 == Two(s, 0) - 0x4000;
  }

  lemma ValueOfFour(s: seq<byte>)
    requires |s| >= 4 && 0x80 <= s[0] < 0xc0
    ensures 0 <= LengthAt(s, 0) && DecodeVarint(s) == Some((LengthAt(s, 0), 4))
  {
    FromFour(s[..4]);
    assert FromBigEndian(s[..4]) % 0x4000_0000 == Four(s, 0) - 0x8000_0000;
  }

  lemma ValueOfEight(s: seq<byte>)
    requires |s| >= 8 && 0xc0 <= s[0]
    ensures 0 <= LengthAt(s, 0) && DecodeVarint(s) == Some((LengthAt(s, 0), 8))
  {
    FromEight(s[..8]);
    assert FromBigEndian(s[..8]) % MaxVarint == 0x1_0000_0000 * (Four(s, 0) - 0xc000_0000) + Four(s, 4);
  }

  lemma VarintAt(s: seq<byte>)
    requires s != []
    ensures |s| < LengthSize(s[0]) ==> DecodeVarint(s) == None
    ensures |s| >= LengthSize(s[0]) ==>
      0 <= LengthAt(s, 0) && DecodeVarint(s) == Some((LengthAt(s, 0), LengthSize(s[0])))
  {
    var n := LengthSize(s[0]);
    assert n == SizeOfTag(s[0] / 64);
    if |s| >= n {
      if n == 1 {
        ValueOfOne(s);
      } else if n == 2 {
        ValueOfTwo(s);
      } else if n == 4 {
        ValueOfFour(s);
      } else {
        ValueOfEight(s);
      }
    }
  }

  /** A datagram decodes to a packet exactly if its bytes lie so and the address parses. */
  lemma DecodeIff(e: seq<byte>, p: Packet, parses: seq<byte> -> bool)
    ensures Decode(e, parses) == Ok(p) <==> Layout(e, p) && parses(p.addr)
  {
    if |e| > 8 {
      var rest := e[8..];
      VarintAt(rest);
      LengthFrom(e);
      FromFour(e[..4]);
      FromTwo(e[4..6]);
      if |rest| >= LengthSize(e[8]) && LengthAt(e, 8) <= |rest| - LengthSize(e[8]) {
        CutAt(e, 8 + LengthSize(e[8]), LengthAt(e, 8));
      }
    }
  }

  lemma LengthFrom(e: seq<byte>)
    requires |e| > 8
    ensures e[8..][0] == e[8]
    ensures |e| >= 8 + LengthSize(e[8]) ==> LengthAt(e[8..], 0) == LengthAt(e, 8)
  {
  }

  lemma CutAt(e: seq<byte>, at: nat, n: nat)
    requires at + n <= |e|
    ensures e[at..][..n] == e[at..at + n] && e[at..][n..] == e[at + n..]
  {
  }

  /** How a datagram fails to decode: fewer than eight bytes, a length that is cut off, an
      address that is, or one that does not parse. */
  lemma DecodeFails(e: seq<byte>, parses: seq<byte> -> bool)
    ensures Decode(e, parses) == TooShort <==> |e| < 8
    ensures Decode(e, parses) == BadLength <==> |e| == 8 || (|e| > 8 && |e| < 8 + LengthSize(e[8]))
    ensures Decode(e, parses) == Panics <==>
      |e| > 8 && |e| >= 8 + LengthSize(e[8]) && |e| < 8 + LengthSize(e[8]) + LengthAt(e, 8)
  {
    if |e| > 8 {
      VarintAt(e[8..]);
      LengthFrom(e);
    }
  }

  /** Every packet is written so, with its length in as few bytes as can hold it. */
  lemma EncodeLayout(p: Packet)
    requires |p.addr| < 0x1_0000_0000
    ensures Layout(Encode(p), p)
    ensures LengthSize(Encode(p)[8]) == ShortestSize(|p.addr|)
  {
    PacketRoundTrip(p, _ => true);
    DecodeIff(Encode(p), p, _ => true);
    EncodeLength(p);
  }
}
