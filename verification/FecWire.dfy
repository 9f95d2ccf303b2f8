/** The 14-byte header in front of every datagram of the erasure codec. */
module FecWire {
  import opened GF256
  import opened LinearAlgebra

  type Bytes = seq<Byte>
  type U16 = n: nat | n < 0x1_0000
  type U32 = n: nat | n < 0x1_0000_0000

  const HEADER_SIZE := 14

  datatype Header = Header(groupId: U32, index: Byte, numData: Byte, numRoots: Byte, dataLen: U16)

  function High(n: U16): Byte { n / 256 }
  function Low(n: U16): Byte { n % 256 }

  /** Appends a byte in big-endian order. */
  function Join(n: nat, b: Byte): nat { n * 256 + b }

  function MakeHeader(h: Header): (bytes: Bytes)
    ensures |bytes| == HEADER_SIZE
  {
    var g := h.groupId;
    ['M' as int, 'F' as int, 'E' as int, 'C' as int, 1,
     g / 0x100_0000, g / 0x1_0000 % 256, g / 0x100 % 256, g % 256,
     h.index, h.numData, h.numRoots, High(h.dataLen), Low(h.dataLen)]
  }

  predicate IsFecFrame(d: Bytes)
  {
    |d| >= HEADER_SIZE && d[0] == 'M' as int && d[1] == 'F' as int && d[2] == 'E' as int && d[3] == 'C' as int
      && d[4] == 1
  }

  function FrameConfig(d: Bytes): Option<(Byte, Byte)>
  {
    if IsFecFrame(d) then Some((d[10], d[11])) else None
  }

  function ParseHeader(d: Bytes): Option<Header>
  {
    if !IsFecFrame(d) then None
    else
      Some(Header(Join(Join(Join(d[5], d[6]), d[7]), d[8]), d[9], d[10], d[11], Join(d[12], d[13])))
  }

  /** The number that a sequence of bytes denotes, most significant byte first. */
  function BigEndian(s: Bytes): nat
  {
    if s == [] then 0 else BigEndian(s[..|s| - 1]) * 256 + s[|s| - 1]
  }

  lemma BigEndianTwo(s: Bytes)
    requires |s| == 2
    ensures BigEndian(s) == Join(s[0], s[1])
  {
    assert s[..1][..0] == [] && s[..1][0] == s[0];
    assert BigEndian(s[..1]) == s[0];
  }

  lemma BigEndianFour(s: Bytes)
    requires |s| == 4
    ensures BigEndian(s) == Join(Join(Join(s[0], s[1]), s[2]), s[3])
  {
    assert s[..3][..2] == s[..2];
    BigEndianTwo(s[..2]);
    assert BigEndian(s[..3]) == Join(Join(s[0], s[1]), s[2]);
  }

  /** The wire format: magic and version, group id, index, k, m and length, each at its place. */
  lemma WireFormat(h: Header)
    ensures var b := MakeHeader(h);
            && b[..4] == ['M' as int, 'F' as int, 'E' as int, 'C' as int] && b[4] == 1
            && BigEndian(b[5..9]) == h.groupId && b[9] == h.index && b[10] == h.numData && b[11] == h.numRoots
            && BigEndian(b[12..14]) == h.dataLen
  {
    var b := MakeHeader(h);
    BigEndianFour(b[5..9]);
    U32Digits(h.groupId);
    BigEndianTwo(b[12..14]);
  }

  lemma U32Digits(g: U32)
    ensures Join(Join(Join(g / 0x100_0000, g / 0x1_0000 % 256), g / 0x100 % 256), g % 256) == g
  {
    assert g / 0x100 / 256 == g / 0x1_0000 && g / 0x1_0000 / 256 == g / 0x100_0000;
  }

  /** A framed payload parses back to the header it was framed with. */
  lemma ParseOfMake(h: Header, payload: Bytes)
    ensures ParseHeader(MakeHeader(h) + payload) == Some(h)
    ensures FrameConfig(MakeHeader(h) + payload) == Some((h.numData, h.numRoots))
  {
    U32Digits(h.groupId);
  }

  /** Conversely, a datagram that parses starts with exactly the header it parses to. */
  lemma MakeOfParse(d: Bytes)
    requires ParseHeader(d).Some?
    ensures d == MakeHeader(ParseHeader(d).value) + d[HEADER_SIZE..]
    ensures FrameConfig(d) == Some((ParseHeader(d).value.numData, ParseHeader(d).value.numRoots))
  {
    var h, b := ParseHeader(d).value, MakeHeader(ParseHeader(d).value);
    DigitsU32(d[5], d[6], d[7], d[8]);
    assert forall i :: 0 <= i < HEADER_SIZE ==> b[i] == d[i];
  }

  lemma SplitJoin(n: nat, b: Byte)
    ensures Join(n, b) / 256 == n && Join(n, b) % 256 == b
  {}

  lemma DivideTwice(g: nat, q: nat)
    requires q == 0x100 || q == 0x1_0000
    ensures g / (q * 256) == g / q / 256
  {}

  lemma DigitsU32(a: Byte, b: Byte, c: Byte, d: Byte)
    ensures var g := Join(Join(Join(a, b), c), d);
            g / 0x100_0000 == a && g / 0x1_0000 % 256 == b && g / 0x100 % 256 == c && g % 256 == d
  {
    var g := Join(Join(Join(a, b), c), d);
    assert g / 0x100 == Join(Join(a, b), c) && g % 256 == d by { SplitJoin(Join(Join(a, b), c), d); }
    assert g / 0x1_0000 == Join(a, b) && g / 0x100 % 256 == c by {
      DivideTwice(g, 0x100);
      SplitJoin(Join(a, b), c);
    }
    assert g / 0x100_0000 == a && g / 0x1_0000 % 256 == b by {
      DivideTwice(g, 0x1_0000);
      SplitJoin(a, b);
    }
  }
}
