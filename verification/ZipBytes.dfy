/**
  The records of the ZIP writer of src/api/audit-embed.ts byte by byte, and check values of
  its CRC-32.
*/
module ZipBytes {
  import opened Bitwise
  import opened MachineXor
  import opened Crc
  import opened Zip

  function LE16(n: nat): seq<nat> {
    [n % 256, n / 256]
  }

  function LE32(n: nat): seq<nat> {
    [n % 256, n / 256 % 256, n / 256 / 256 % 256, n / 256 / 256 / 256]
  }

  lemma Bytes16(z: seq<Byte>, p: nat)
    requires p + 2 <= |z|
    ensures z[p..p + 2] == LE16(ReadU16(z, p))
  {
  }

  lemma Split(a: Byte, n: nat)
    ensures (a as nat + 256 * n) % 256 == a && (a as nat + 256 * n) / 256 == n
  {
  }

  lemma Bytes32(z: seq<Byte>, p: nat)
    requires p + 4 <= |z|
    ensures z[p..p + 4] == LE32(ReadU32(z, p))
  {
    var a, b, c, d := z[p], z[p + 1], z[p + 2], z[p + 3];
    var t := c as nat + 256 * d as nat;
    var s := b as nat + 256 * t;
    assert ReadU32(z, p) == a as nat + 256 * s;
    Split(a, s);
    Split(b, t);
    Split(c, d);
    assert z[p..p + 4] == [a, b, c, d];
  }

  lemma Signatures()
    ensures LE32(LOCAL_SIGNATURE) == [0x50, 0x4b, 3, 4] && LE32(CENTRAL_SIGNATURE) == [0x50, 0x4b, 1, 2]
    ensures LE32(END_SIGNATURE) == [0x50, 0x4b, 5, 6] && LE32(0) == [0, 0, 0, 0]
    ensures LE16(0) == [0, 0] && LE16(20) == [20, 0] && LE16(0x5346) == [0x46, 0x53]
  {
  }

  lemma HeldBytes(z: seq<Byte>, p: nat, s: seq<Byte>)
    requires p + |s| <= |z| && Holds(z, p, s)
    ensures z[p..p + |s|] == s
  {
  }

  /** The common version part: version 2.0, stored, the fixed date. */
  lemma VersionBytes(z: seq<Byte>, p: nat)
    requires VersionAt(z, p)
    ensures z[p..p + 10] == [20, 0, 0, 0, 0, 0, 0, 0, 0x46, 0x53]
  {
    Bytes16(z, p);
    Bytes16(z, p + 2);
    Bytes16(z, p + 4);
    Bytes16(z, p + 6);
    Bytes16(z, p + 8);
    Signatures();
    hide LE16, ReadU16;
    assert z[p..p + 10] == z[p..p + 2] + z[p + 2..p + 4] + z[p + 4..p + 6] + z[p + 6..p + 8] + z[p + 8..p + 10];
  }

  lemma SizesBytes(z: seq<Byte>, p: nat, f: File)
    requires SizesAt(z, p, f)
    ensures z[p..p + 16] ==
            LE32(Checksum(f.data)) + LE32(|f.data|) + LE32(|f.data|) + LE16(|f.path|) + [0, 0]
  {
    hide ReadU16, ReadU32, LE16, LE32, Checksum;
    Bytes32(z, p);
    Bytes32(z, p + 4);
    Bytes32(z, p + 8);
    Bytes16(z, p + 12);
    Bytes16(z, p + 14);
    Signatures();
    assert z[p..p + 16] == z[p..p + 4] + z[p + 4..p + 8] + z[p + 8..p + 12] + z[p + 12..p + 14] + z[p + 14..p + 16];
  }

  /** The local header: its signature, version, checksum, both sizes, the length of the name, and
      the name. */
  lemma LocalBytes(z: seq<Byte>, p: nat, f: File)
    requires LocalAt(z, p, f)
    ensures z[p..p + 30 + |f.path|] ==
            [0x50, 0x4b, 3, 4] + [20, 0, 0, 0, 0, 0, 0, 0, 0x46, 0x53]
            + (LE32(Checksum(f.data)) + LE32(|f.data|) + LE32(|f.data|) + LE16(|f.path|) + [0, 0]) + f.path
  {
    hide VersionAt, SizesAt, LE32, LE16, Holds, ReadU16, Checksum;
    LocalSignature(z, p);
    VersionBytes(z, p + 4);
    SizesBytes(z, p + 14, f);
    HeldBytes(z, p + 30, f.path);
    Cut(z, p, p + 4, p + 14, p + 30, p + 30 + |f.path|);
  }

  lemma LocalSignature(z: seq<Byte>, p: nat)
    requires p + 4 <= |z| && ReadU32(z, p) == LOCAL_SIGNATURE
    ensures z[p..p + 4] == [0x50, 0x4b, 3, 4]
  {
    hide LE32, ReadU32;
    Bytes32(z, p);
    Signatures();
  }

  lemma CutOnce(z: seq<Byte>, a: nat, b: nat, c: nat)
    requires a <= b <= c <= |z|
    ensures z[a..c] == z[a..b] + z[b..c]
  {
  }

  lemma Cut(z: seq<Byte>, a: nat, b: nat, c: nat, d: nat, e: nat)
    requires a <= b <= c <= d <= e <= |z|
    ensures z[a..e] == z[a..b] + z[b..c] + z[c..d] + z[d..e]
  {
    CutOnce(z, a, b, c);
    CutOnce(z, a, c, d);
    CutOnce(z, a, d, e);
  }

  /** The directory entry: its signature, the version made by, and after the common parts no
      comment, disk, attributes, the offset of the local header, and the name. */
  lemma CentralBytes(z: seq<Byte>, p: nat, f: File, offset: nat)
    requires CentralAt(z, p, f, offset)
    ensures z[p..p + 46 + |f.path|] ==
            [0x50, 0x4b, 1, 2, 20, 0] + [20, 0, 0, 0, 0, 0, 0, 0, 0x46, 0x53]
            + (LE32(Checksum(f.data)) + LE32(|f.data|) + LE32(|f.data|) + LE16(|f.path|) + [0, 0])
            + ([0, 0, 0, 0, 0, 0, 0, 0, 0, 0] + LE32(offset) + f.path)
  {
    hide VersionAt, SizesAt, LocationAt, LE32, LE16, Holds, Checksum;
    CentralSignature(z, p);
    VersionBytes(z, p + 6);
    SizesBytes(z, p + 16, f);
    LocationBytes(z, p + 32, offset);
    HeldBytes(z, p + 46, f.path);
    assert z[p + 32..p + 46 + |f.path|] == z[p + 32..p + 46] + z[p + 46..p + 46 + |f.path|];
    Cut(z, p, p + 6, p + 16, p + 32, p + 46 + |f.path|);
  }

  lemma CentralSignature(z: seq<Byte>, p: nat)
    requires p + 6 <= |z| && ReadU32(z, p) == CENTRAL_SIGNATURE && ReadU16(z, p + 4) == 20
    ensures z[p..p + 6] == [0x50, 0x4b, 1, 2, 20, 0]
  {
    hide LE32, LE16, ReadU32, ReadU16;
    Bytes32(z, p);
    Bytes16(z, p + 4);
    Signatures();
    assert z[p..p + 6] == z[p..p + 4] + z[p + 4..p + 6];
  }

  lemma LocationBytes(z: seq<Byte>, p: nat, offset: nat)
    requires LocationAt(z, p, offset)
    ensures z[p..p + 14] == [0, 0, 0, 0, 0, 0, 0, 0, 0, 0] + LE32(offset)
  {
    hide LE32, LE16, ReadU32, ReadU16;
    Bytes16(z, p);
    Bytes16(z, p + 2);
    Bytes16(z, p + 4);
    Bytes32(z, p + 6);
    Bytes32(z, p + 10);
    Signatures();
    assert z[p..p + 14] == z[p..p + 2] + z[p + 2..p + 4] + z[p + 4..p + 6] + z[p + 6..p + 10] + z[p + 10..p + 14];
  }

  /** The end record: its signature, disk 0 twice, the number of entries twice, the size and the
      position of the directory, and no comment. */
  lemma EndBytes(z: seq<Byte>, p: nat, count: nat, size: nat, start: nat)
    requires EndAt(z, p, count, size, start)
    ensures z[p..p + 22] ==
            [0x50, 0x4b, 5, 6, 0, 0, 0, 0] + (LE16(count) + LE16(count)) + (LE32(size) + LE32(start)) + [0, 0]
  {
    hide LE16, LE32, ReadU32, ReadU16;
    EndSignature(z, p);
    Bytes16(z, p + 8);
    Bytes16(z, p + 10);
    Bytes32(z, p + 12);
    Bytes32(z, p + 16);
    Bytes16(z, p + 20);
    Signatures();
    assert z[p + 8..p + 12] == z[p + 8..p + 10] + z[p + 10..p + 12];
    assert z[p + 12..p + 20] == z[p + 12..p + 16] + z[p + 16..p + 20];
    Cut(z, p, p + 8, p + 12, p + 20, p + 22);
  }

  lemma EndSignature(z: seq<Byte>, p: nat)
    requires p + 8 <= |z| && ReadU32(z, p) == END_SIGNATURE && ReadU16(z, p + 4) == 0 && ReadU16(z, p + 6) == 0
    ensures z[p..p + 8] == [0x50, 0x4b, 5, 6, 0, 0, 0, 0]
  {
    hide LE32, LE16, ReadU32, ReadU16;
    Bytes32(z, p);
    Bytes16(z, p + 4);
    Bytes16(z, p + 6);
    Signatures();
    assert z[p..p + 8] == z[p..p + 4] + z[p + 4..p + 6] + z[p + 6..p + 8];
  }

  // ---- check values -----------------------------------------------------------------------

  lemma SameParity(x: nat, y: nat, a: nat, c: nat)
    requires x % 2 == a % 2 && y % 2 == c % 2
    ensures (x + y) % 2 == (a + c) % 2
  {
  }

  lemma Doubled(n: nat, b: nat)
    requires n > 0
    ensures Pow2(n) * b == 2 * (Pow2(n - 1) * b)
  {
  }

  lemma XorHalves(x: nat, y: nat, a: nat, c: nat, t: nat)
    requires x % 2 == a % 2 && y % 2 == c % 2 && Xor(x / 2, y / 2) == Xor(a / 2, c / 2) + t
    ensures Xor(x, y) == Xor(a, c) + 2 * t
  {
    hide Xor;
    XorUnfold(x, y);
    XorUnfold(a, c);
    SameParity(x, y, a, c);
  }

  lemma HalfBelow(a: nat, n: nat)
    requires n > 0 && a < Pow2(n)
    ensures a / 2 < Pow2(n - 1)
  {
  }

  lemma {:induction false} XorLow(a: nat, b: nat, c: nat, d: nat, n: nat)
    requires a < Pow2(n) && c < Pow2(n)
    ensures Xor(a + Pow2(n) * b, c + Pow2(n) * d) == Xor(a, c) + Pow2(n) * Xor(b, d)
    decreases n
  {
    hide Xor;
    if n == 0 {
      XorZero(0);
    } else {
      HalfBelow(a, n);
      HalfBelow(c, n);
      hide Pow2;
      EvenPart(a, b, n);
      EvenPart(c, d, n);
      XorLow(a / 2, b, c / 2, d, n - 1);
      XorHalves(a + Pow2(n) * b, c + Pow2(n) * d, a, c, Pow2(n - 1) * Xor(b, d));
      Doubled(n, Xor(b, d));
    }
  }

  lemma EvenPart(a: nat, b: nat, n: nat)
    requires n > 0
    ensures (a + Pow2(n) * b) / 2 == a / 2 + Pow2(n - 1) * b && (a + Pow2(n) * b) % 2 == a % 2
  {
    Doubled(n, b);
  }

  /** Exclusive or of two words, byte by byte. */
  lemma XorBytes(a: Byte, b: Byte, c: Byte, d: Byte, e: Byte, f: Byte, g: Byte, h: Byte)
    ensures Xor(a as nat + 256 * (b as nat + 256 * (c as nat + 256 * d as nat)),
                e as nat + 256 * (f as nat + 256 * (g as nat + 256 * h as nat))) ==
            Xor(a, e) + 256 * (Xor(b, f) + 256 * (Xor(c, g) + 256 * Xor(d, h)))
  {
    hide Xor;
    assert Pow2(8) == 256;
    XorLow(a, b as nat + 256 * (c as nat + 256 * d as nat), e, f as nat + 256 * (g as nat + 256 * h as nat), 8);
    XorLow(b, c as nat + 256 * d as nat, f, g as nat + 256 * h as nat, 8);
    XorLow(c, d, g, h, 8);
  }

  /** A shift step of an odd register 2 * c + 1, c given by its bytes. */
  lemma OddStep(a: Byte, b: Byte, c: Byte, d: Byte)
    ensures ShiftStep(2 * (a as nat + 256 * (b as nat + 256 * (c as nat + 256 * d as nat))) + 1) ==
            Xor(0x20, a) + 256 * (Xor(0x83, b) + 256 * (Xor(0xb8, c) + 256 * Xor(0xed, d)))
  {
    hide Xor;
    XorBytes(0x20, 0x83, 0xb8, 0xed, a, b, c, d);
    assert POLYNOMIAL == 0x20 + 256 * (0x83 + 256 * (0xb8 + 256 * 0xed));
  }

  lemma FirstBytes()
    ensures Xor(0x20, 0xff) == 0xdf && Xor(0x83, 0xff) == 0x7c && Xor(0xb8, 0xff) == 0x47 && Xor(0xed, 0x7f) == 0x92
    ensures Xor(0x20, 0x6f) == 0x4f && Xor(0x83, 0xbe) == 0x3d && Xor(0xb8, 0x23) == 0x9b && Xor(0xed, 0x49) == 0xa4
  {
    hide Xor;
    XorIsBitwise(0x20, 0xff);
    XorIsBitwise(0x83, 0xff);
    XorIsBitwise(0xb8, 0xff);
    XorIsBitwise(0xed, 0x7f);
    XorIsBitwise(0x20, 0x6f);
    XorIsBitwise(0x83, 0xbe);
    XorIsBitwise(0xb8, 0x23);
    XorIsBitwise(0xed, 0x49);
  }

  lemma MoreBytes()
    ensures Xor(0x20, 0xa7) == 0x87 && Xor(0x83, 0x9e) == 0x1d && Xor(0xb8, 0x4d) == 0xf5 && Xor(0xed, 0x52) == 0xbf
    ensures Xor(0x20, 0xc3) == 0xe3 && Xor(0x83, 0x8e) == 0x0d && Xor(0xb8, 0xfa) == 0x42 && Xor(0xed, 0x5f) == 0xb2
  {
    hide Xor;
    XorIsBitwise(0x20, 0xa7);
    XorIsBitwise(0x83, 0x9e);
    XorIsBitwise(0xb8, 0x4d);
    XorIsBitwise(0xed, 0x52);
    XorIsBitwise(0x20, 0xc3);
    XorIsBitwise(0x83, 0x8e);
    XorIsBitwise(0xb8, 0xfa);
    XorIsBitwise(0xed, 0x5f);
  }

  lemma LastBytes()
    ensures Xor(0x20, 0xf1) == 0xd1 && Xor(0x83, 0x06) == 0x85 && Xor(0xb8, 0x21) == 0x99 && Xor(0xed, 0x59) == 0xb4
    ensures Xor(0x20, 0xe8) == 0xc8 && Xor(0x83, 0xc2) == 0x41 && Xor(0xb8, 0x4c) == 0xf4 && Xor(0xed, 0x5a) == 0xb7
  {
    hide Xor;
    XorIsBitwise(0x20, 0xf1);
    XorIsBitwise(0x83, 0x06);
    XorIsBitwise(0xb8, 0x21);
    XorIsBitwise(0xed, 0x59);
    XorIsBitwise(0x20, 0xe8);
    XorIsBitwise(0x83, 0xc2);
    XorIsBitwise(0xb8, 0x4c);
    XorIsBitwise(0xed, 0x5a);
  }

  lemma FirstSteps()
    ensures ShiftStep(0xffffffff) == 0x92477cdf && ShiftStep(0x92477cdf) == 0xa49b3d4f
  {
    hide Xor, ShiftStep;
    FirstBytes();
    OddStep(0xff, 0xff, 0xff, 0x7f);
    OddStep(0x6f, 0xbe, 0x23, 0x49);
  }

  lemma MoreSteps()
    ensures ShiftStep(0xa49b3d4f) == 0xbff51d87 && ShiftStep(0xbff51d87) == 0xb2420de3
  {
    hide Xor, ShiftStep;
    MoreBytes();
    OddStep(0xa7, 0x9e, 0x4d, 0x52);
    OddStep(0xc3, 0x8e, 0xfa, 0x5f);
  }

  lemma LastSteps()
    ensures ShiftStep(0xb2420de3) == 0xb49985d1 && ShiftStep(0xb49985d1) == 0xb7f441c8
    ensures ShiftStep(0xb7f441c8) == 0x5bfa20e4 && ShiftStep(0x5bfa20e4) == 0x2dfd1072
  {
    hide Xor, ShiftStep;
    LastBytes();
    OddStep(0xf1, 0x06, 0x21, 0x59);
    OddStep(0xe8, 0xc2, 0x4c, 0x5a);
    EvenStep(0x5bfa20e4);
    EvenStep(0x2dfd1072);
  }

  lemma EvenStep(c: nat)
    ensures ShiftStep(2 * c) == c
  {
  }

  lemma EightOnes()
    ensures Steps(0xffffffff, 8) == 0x2dfd1072
  {
    hide ShiftStep, Xor;
    FirstSteps();
    MoreSteps();
    LastSteps();
    assert Steps(0xffffffff, 0) == 0xffffffff;
    assert Steps(0xffffffff, 2) == 0xa49b3d4f;
    assert Steps(0xffffffff, 4) == 0xb2420de3;
    assert Steps(0xffffffff, 6) == 0xb7f441c8;
  }

  lemma InvertedBytes()
    ensures Xor(0x72, 0xff) == 0x8d && Xor(0x10, 0xff) == 0xef && Xor(0xfd, 0xff) == 0x02 && Xor(0x2d, 0xff) == 0xd2
  {
    hide Xor;
    XorIsBitwise(0x72, 0xff);
    XorIsBitwise(0x10, 0xff);
    XorIsBitwise(0xfd, 0xff);
    XorIsBitwise(0x2d, 0xff);
  }

  lemma Inverted()
    ensures Xor(0x2dfd1072, 0xffffffff) == 0xd202ef8d
  {
    hide Xor;
    InvertedBytes();
    XorBytes(0x72, 0x10, 0xfd, 0x2d, 0xff, 0xff, 0xff, 0xff);
  }

  /** The checksum of nothing is 0, and that of a single zero byte 0xd202ef8d. */
  lemma CheckValues()
    ensures Checksum([]) == 0 && Checksum([0]) == 0xd202ef8d
  {
    hide Xor, Steps;
    XorSelf(0xffffffff);
    XorZero(0xffffffff);
    EightOnes();
    Inverted();
    assert [0][..0] == [];
    assert Register(0xffffffff, [0]) == Steps(Xor(0xffffffff, 0), 8);
  }
}
