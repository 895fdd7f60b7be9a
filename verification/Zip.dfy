/**
  `buildZip` of src/api/audit-embed.ts: a stored (uncompressed) ZIP archive,
  laid out as in sections 4.3.7, 4.3.12 and 4.3.16 of PKWARE's APPNOTE.TXT.
*/
module Zip {
  import opened Crc

  /** A file whose path and contents are already UTF-8 encoded. */
  datatype File = File(path: seq<Byte>, data: seq<Byte>)

  datatype Result<+T> = Ok(value: T) | RangeError

  // ---- reading numbers -------------------------------------------------------

  function ReadU16(z: seq<Byte>, p: nat): nat
    requires p + 2 <= |z|
  {
    z[p] as nat + 256 * z[p + 1] as nat
  }

  function ReadU32(z: seq<Byte>, p: nat): nat
    requires p + 4 <= |z|
  {
    ReadU16(z, p) + 0x1_0000 * ReadU16(z, p + 2)
  }

  /** The bytes of s stand in z at position p. */
  ghost predicate Holds(z: seq<Byte>, p: nat, s: seq<Byte>) {
    p + |s| <= |z| && forall j :: 0 <= j < |s| ==> z[p + j] == s[j]
  }

  // ---- the layout ------------------------------------------------------------

  const LOCAL_SIGNATURE: nat := 0x04034b50
  const CENTRAL_SIGNATURE: nat := 0x02014b50
  const END_SIGNATURE: nat := 0x06054b50

  /** Version needed, flags, compression method (stored), and the fixed time and date. */
  ghost predicate VersionAt(z: seq<Byte>, p: nat) {
    && p + 10 <= |z|
    && ReadU16(z, p) == 20 && ReadU16(z, p + 2) == 0 && ReadU16(z, p + 4) == 0
    && ReadU16(z, p + 6) == 0 && ReadU16(z, p + 8) == 0x5346
  }

  /** Checksum, compressed and plain size, name length, and no extra field. */
  ghost predicate SizesAt(z: seq<Byte>, p: nat, f: File) {
    && p + 16 <= |z|
    && ReadU32(z, p) == Checksum(f.data)
    && ReadU32(z, p + 4) == |f.data| && ReadU32(z, p + 8) == |f.data|
    && ReadU16(z, p + 12) == |f.path| && ReadU16(z, p + 14) == 0
  }

  /** No comment, disk 0, no attributes, and the offset of the local header. */
  ghost predicate LocationAt(z: seq<Byte>, p: nat, offset: nat) {
    && p + 14 <= |z|
    && ReadU16(z, p) == 0 && ReadU16(z, p + 2) == 0 && ReadU16(z, p + 4) == 0
    && ReadU32(z, p + 6) == 0 && ReadU32(z, p + 10) == offset
  }

  /** The local header of f occupies z from p on. Every byte is fixed by a field. */
  ghost predicate LocalAt(z: seq<Byte>, p: nat, f: File) {
    && p + 30 + |f.path| <= |z|
    && ReadU32(z, p) == LOCAL_SIGNATURE
    && VersionAt(z, p + 4)
    && SizesAt(z, p + 14, f)
    && Holds(z, p + 30, f.path)
  }

  /** The central directory entry of f, whose local header is at `offset`. */
  ghost predicate CentralAt(z: seq<Byte>, p: nat, f: File, offset: nat) {
    && p + 46 + |f.path| <= |z|
    && ReadU32(z, p) == CENTRAL_SIGNATURE && ReadU16(z, p + 4) == 20
    && VersionAt(z, p + 6)
    && SizesAt(z, p + 16, f)
    && LocationAt(z, p + 32, offset)
    && Holds(z, p + 46, f.path)
  }

  ghost predicate EndAt(z: seq<Byte>, p: nat, count: nat, size: nat, start: nat) {
    && p + 22 <= |z|
    && ReadU32(z, p) == END_SIGNATURE
    && ReadU16(z, p + 4) == 0 && ReadU16(z, p + 6) == 0
    && ReadU16(z, p + 8) == count && ReadU16(z, p + 10) == count
    && ReadU32(z, p + 12) == size && ReadU32(z, p + 16) == start
    && ReadU16(z, p + 20) == 0
  }

  // ---- writing in place --------------------------------------------------------

  /** The buffers differ at most in bytes from..to. */
  ghost predicate SameOutside(a: seq<Byte>, b: seq<Byte>, from: nat, to: nat) {
    |a| == |b| && forall j :: 0 <= j < |a| && (j < from || to <= j) ==> a[j] == b[j]
  }

  /** `buf.writeUInt16LE(value, offset)`, which throws when the value does not fit. */
  method WriteUInt16LE(buf: array<Byte>, value: nat, offset: nat) returns (ok: bool)
    requires offset + 2 <= buf.Length
    modifies buf
    ensures ok <==> value <= 0xffff
    ensures ok ==> ReadU16(buf[..], offset) == value
    ensures SameOutside(old(buf[..]), buf[..], offset, offset + 2)
  {
    if value > 0xffff {
      return false;
    }
    buf[offset] := value % 256;
    buf[offset + 1] := value / 256;
    return true;
  }

  method WriteUInt32LE(buf: array<Byte>, value: nat, offset: nat) returns (ok: bool)
    requires offset + 4 <= buf.Length
    modifies buf
    ensures ok <==> value <= 0xffffffff
    ensures ok ==> ReadU32(buf[..], offset) == value
    ensures SameOutside(old(buf[..]), buf[..], offset, offset + 4)
  {
    if value > 0xffffffff {
      return false;
    }
    var v := value;
    buf[offset] := v % 256;
    v := v / 256;
    buf[offset + 1] := v % 256;
    v := v / 256;
    buf[offset + 2] := v % 256;
    v := v / 256;
    buf[offset + 3] := v;
    return true;
  }

  /** `fileName.copy(header, offset)` */
  method CopyBytes(buf: array<Byte>, source: seq<Byte>, offset: nat)
    requires offset + |source| <= buf.Length
    modifies buf
    ensures Holds(buf[..], offset, source)
    ensures SameOutside(old(buf[..]), buf[..], offset, offset + |source|)
  {
    for k := 0 to |source|
      invariant forall j :: 0 <= j < k ==> buf[offset + j] == source[j]
      invariant forall j :: 0 <= j < buf.Length && (j < offset || j >= offset + |source|) ==> buf[j] == old(buf[j])
    {
      buf[offset + k] := source[k];
    }
  }

  method WriteVersion(buf: array<Byte>, p: nat)
    requires p + 10 <= buf.Length
    modifies buf
    ensures VersionAt(buf[..], p) && SameOutside(old(buf[..]), buf[..], p, p + 10)
  {
    var _ := WriteUInt16LE(buf, 20, p);
    var _ := WriteUInt16LE(buf, 0, p + 2);
    var _ := WriteUInt16LE(buf, 0, p + 4);
    var _ := WriteUInt16LE(buf, 0x0000, p + 6);
    var _ := WriteUInt16LE(buf, 0x5346, p + 8);
  }

  method WriteSizes(buf: array<Byte>, p: nat, f: File, crc: nat) returns (ok: bool)
    requires crc == Checksum(f.data) <= 0xffffffff && p + 16 <= buf.Length
    modifies buf
    ensures ok <==> |f.data| <= 0xffffffff && |f.path| <= 0xffff
    ensures ok ==> SizesAt(buf[..], p, f)
    ensures SameOutside(old(buf[..]), buf[..], p, p + 16)
  {
    hide Checksum;
    ok := WriteUInt32LE(buf, crc, p);
    ok := WriteUInt32LE(buf, |f.data|, p + 4);
    if !ok { return; }
    ok := WriteUInt32LE(buf, |f.data|, p + 8);
    ok := WriteUInt16LE(buf, |f.path|, p + 12);
    if !ok { return; }
    ok := WriteUInt16LE(buf, 0, p + 14);
  }

  method WriteLocation(buf: array<Byte>, p: nat, offset: nat) returns (ok: bool)
    requires p + 14 <= buf.Length
    modifies buf
    ensures ok <==> offset <= 0xffffffff
    ensures ok ==> LocationAt(buf[..], p, offset)
    ensures SameOutside(old(buf[..]), buf[..], p, p + 14)
  {
    ok := WriteUInt16LE(buf, 0, p);
    ok := WriteUInt16LE(buf, 0, p + 2);
    ok := WriteUInt16LE(buf, 0, p + 4);
    ok := WriteUInt32LE(buf, 0, p + 6);
    ok := WriteUInt32LE(buf, offset, p + 10);
  }

  method LocalHeader(f: File, crc: nat) returns (r: Result<seq<Byte>>)
    requires crc == Checksum(f.data) <= 0xffffffff
    ensures r.Ok? <==> |f.data| <= 0xffffffff && |f.path| <= 0xffff
    ensures r.Ok? ==> |r.value| == 30 + |f.path| && LocalAt(r.value, 0, f)
  {
    hide Checksum;
    var buf := new Byte[30 + |f.path|](_ => 0);
    var ok := WriteUInt32LE(buf, 0x04034b50, 0);
    WriteVersion(buf, 4);
    ok := WriteSizes(buf, 14, f, crc);
    if !ok { return RangeError; }
    CopyBytes(buf, f.path, 30);
    return Ok(buf[..]);
  }

  method CentralEntry(f: File, crc: nat, offset: nat) returns (r: Result<seq<Byte>>)
    requires crc == Checksum(f.data) <= 0xffffffff
    ensures r.Ok? <==> |f.data| <= 0xffffffff && |f.path| <= 0xffff && offset <= 0xffffffff
    ensures r.Ok? ==> |r.value| == 46 + |f.path| && CentralAt(r.value, 0, f, offset)
  {
    hide Checksum;
    var buf := new Byte[46 + |f.path|](_ => 0);
    var ok := WriteUInt32LE(buf, 0x02014b50, 0);
    ok := WriteUInt16LE(buf, 20, 4);
    WriteVersion(buf, 6);
    ok := WriteSizes(buf, 16, f, crc);
    if !ok { return RangeError; }
    ok := WriteLocation(buf, 32, offset);
    if !ok { return RangeError; }
    CopyBytes(buf, f.path, 46);
    return Ok(buf[..]);
  }

  method EndRecord(count: nat, size: nat, start: nat) returns (r: Result<seq<Byte>>)
    ensures r.Ok? <==> count <= 0xffff && size <= 0xffffffff && start <= 0xffffffff
    ensures r.Ok? ==> |r.value| == 22 && EndAt(r.value, 0, count, size, start)
  {
    var buf := new Byte[22](_ => 0);
    var ok := WriteUInt32LE(buf, 0x06054b50, 0);
    ok := WriteUInt16LE(buf, 0, 4);
    ok := WriteUInt16LE(buf, 0, 6);
    ok := WriteUInt16LE(buf, count, 8);
    if !ok { return RangeError; }
    ok := WriteUInt16LE(buf, count, 10);
    ok := WriteUInt32LE(buf, size, 12);
    if !ok { return RangeError; }
    ok := WriteUInt32LE(buf, start, 16);
    if !ok { return RangeError; }
    ok := WriteUInt16LE(buf, 0, 20);
    return Ok(buf[..]);
  }

  // ---- the archive -------------------------------------------------------------

  /** Where the local header of file k starts: the sizes of all sections before it. */
  function Offset(files: seq<File>, k: nat): nat
    requires k <= |files|
  {
    if k == 0 then 0 else Offset(files, k - 1) + 30 + |files[k - 1].path| + |files[k - 1].data|
  }

  /** Where the directory entry of file k starts, relative to the directory. */
  function DirectorySize(files: seq<File>, k: nat): nat
    requires k <= |files|
  {
    if k == 0 then 0 else DirectorySize(files, k - 1) + 46 + |files[k - 1].path|
  }

  lemma NextOffset(files: seq<File>, i: nat)
    requires i < |files|
    ensures Offset(files, i + 1) == Offset(files, i) + 30 + |files[i].path| + |files[i].data|
    ensures DirectorySize(files, i + 1) == DirectorySize(files, i) + 46 + |files[i].path|
  {
  }

  lemma {:induction false} OffsetMonotone(files: seq<File>, k: nat, i: nat)
    requires k < i <= |files|
    ensures Offset(files, k) + 30 + |files[k].path| + |files[k].data| <= Offset(files, i)
    ensures DirectorySize(files, k) + 46 + |files[k].path| <= DirectorySize(files, i)
    decreases i
  {
    if k < i - 1 {
      OffsetMonotone(files, k, i - 1);
    }
  }

  /** Every number the archive records fits its field. */
  ghost predicate Fits(files: seq<File>) {
    && |files| <= 0xffff
    && Offset(files, |files|) <= 0xffffffff && DirectorySize(files, |files|) <= 0xffffffff
    && forall k :: 0 <= k < |files| ==> FileFits(files, k)
  }

  ghost predicate FileFits(files: seq<File>, k: nat)
    requires k < |files|
  {
    |files[k].data| <= 0xffffffff && |files[k].path| <= 0xffff && Offset(files, k) <= 0xffffffff
  }

  /** File k's local header and contents stand at its offset. */
  ghost predicate SectionAt(z: seq<Byte>, p: nat, f: File) {
    LocalAt(z, p, f) && Holds(z, p + 30 + |f.path|, f.data)
  }

  ghost predicate BodyOf(z: seq<Byte>, files: seq<File>, n: nat)
    requires n <= |files|
  {
    |z| == Offset(files, n) && forall k :: 0 <= k < n ==> SectionAt(z, Offset(files, k), files[k])
  }

  ghost predicate DirectoryOf(z: seq<Byte>, files: seq<File>, n: nat)
    requires n <= |files|
  {
    && |z| == DirectorySize(files, n)
    && forall k :: 0 <= k < n ==> CentralAt(z, DirectorySize(files, k), files[k], Offset(files, k))
  }

  /** The exact contents of the archive: sections, directory, end record, nothing else. */
  ghost predicate IsArchive(z: seq<Byte>, files: seq<File>) {
    var n, start := |files|, Offset(files, |files|);
    && |z| == start + DirectorySize(files, n) + 22
    && (forall k :: 0 <= k < n ==> SectionAt(z, Offset(files, k), files[k]))
    && (forall k :: 0 <= k < n ==>
        CentralAt(z, start + DirectorySize(files, k), files[k], Offset(files, k)))
    && EndAt(z, |z| - 22, n, DirectorySize(files, n), start)
  }

  /** n bytes of z from p on stand in y from q on. */
  ghost predicate SameBytes(z: seq<Byte>, p: nat, y: seq<Byte>, q: nat, n: nat) {
    p + n <= |z| && q + n <= |y| && z[p..p + n] == y[q..q + n]
  }

  lemma MoveByte(z: seq<Byte>, p: nat, y: seq<Byte>, q: nat, n: nat, k: nat)
    requires SameBytes(z, p, y, q, n) && k < n
    ensures p + k < |z| && q + k < |y| && y[q + k] == z[p + k]
  {
    assert z[p..p + n][k] == z[p + k] && y[q..q + n][k] == y[q + k];
  }

  lemma Within(z: seq<Byte>, p: nat, y: seq<Byte>, q: nat, n: nat, k: nat, m: nat)
    requires SameBytes(z, p, y, q, n) && k + m <= n
    ensures SameBytes(z, p + k, y, q + k, m)
  {
    SliceOfSlice(z, p, n, k, m);
    SliceOfSlice(y, q, n, k, m);
  }

  lemma SliceOfSlice(s: seq<Byte>, p: nat, n: nat, k: nat, m: nat)
    requires p + n <= |s| && k + m <= n
    ensures s[p..p + n][k..k + m] == s[p + k..p + k + m]
  {
    var a, b := s[p..p + n][k..k + m], s[p + k..p + k + m];
    assert |a| == |b|;
    forall i | 0 <= i < m
      ensures a[i] == b[i]
    {
    }
  }

  lemma PrefixSame(a: seq<Byte>, b: seq<Byte>)
    ensures SameBytes(a, 0, a + b, 0, |a|)
  {
  }

  lemma SuffixSame(a: seq<Byte>, b: seq<Byte>)
    ensures SameBytes(b, 0, a + b, |a|, |b|)
  {
  }

  lemma SameThen(x: seq<Byte>, y: seq<Byte>, q: nat, z: seq<Byte>, p: nat)
    requires SameBytes(x, 0, y, q, |x|) && SameBytes(y, 0, z, p, |y|)
    ensures SameBytes(x, 0, z, p + q, |x|)
  {
    Within(y, 0, z, p, |y|, q, |x|);
  }

  lemma MoveRead16(z: seq<Byte>, p: nat, y: seq<Byte>, q: nat, n: nat, k: nat)
    requires SameBytes(z, p, y, q, n) && k + 2 <= n
    ensures ReadU16(y, q + k) == ReadU16(z, p + k)
  {
    MoveByte(z, p, y, q, n, k);
    MoveByte(z, p, y, q, n, k + 1);
  }

  lemma MoveRead32(z: seq<Byte>, p: nat, y: seq<Byte>, q: nat, n: nat, k: nat)
    requires SameBytes(z, p, y, q, n) && k + 4 <= n
    ensures ReadU32(y, q + k) == ReadU32(z, p + k)
  {
    MoveRead16(z, p, y, q, n, k);
    MoveRead16(z, p, y, q, n, k + 2);
  }

  lemma MoveHolds(z: seq<Byte>, p: nat, y: seq<Byte>, q: nat, n: nat, k: nat, s: seq<Byte>)
    requires SameBytes(z, p, y, q, n) && k + |s| <= n && Holds(z, p + k, s)
    ensures Holds(y, q + k, s)
  {
    hide SameBytes;
    if |s| > 0 {
      MoveByte(z, p, y, q, n, k + |s| - 1);
    } else {
      SameBytesFit(z, p, y, q, n);
    }
    forall j | 0 <= j < |s|
      ensures y[q + k + j] == s[j]
    {
      MoveByte(z, p, y, q, n, k + j);
    }
  }

  lemma MoveVersion(z: seq<Byte>, p: nat, y: seq<Byte>, q: nat, n: nat, k: nat)
    requires SameBytes(z, p, y, q, n) && k + 10 <= n && VersionAt(z, p + k)
    ensures VersionAt(y, q + k)
  {
    hide ReadU16;
    MoveRead16(z, p, y, q, n, k);
    MoveRead16(z, p, y, q, n, k + 2);
    MoveRead16(z, p, y, q, n, k + 4);
    MoveRead16(z, p, y, q, n, k + 6);
    MoveRead16(z, p, y, q, n, k + 8);
  }

  lemma MoveSizes(z: seq<Byte>, p: nat, y: seq<Byte>, q: nat, n: nat, k: nat, f: File)
    requires SameBytes(z, p, y, q, n) && k + 16 <= n && SizesAt(z, p + k, f)
    ensures SizesAt(y, q + k, f)
  {
    hide ReadU16, ReadU32, Checksum;
    MoveRead32(z, p, y, q, n, k);
    MoveRead32(z, p, y, q, n, k + 4);
    MoveRead32(z, p, y, q, n, k + 8);
    MoveRead16(z, p, y, q, n, k + 12);
    MoveRead16(z, p, y, q, n, k + 14);
  }

  lemma MoveLocation(z: seq<Byte>, p: nat, y: seq<Byte>, q: nat, n: nat, k: nat, offset: nat)
    requires SameBytes(z, p, y, q, n) && k + 14 <= n && LocationAt(z, p + k, offset)
    ensures LocationAt(y, q + k, offset)
  {
    hide ReadU16, ReadU32;
    MoveRead16(z, p, y, q, n, k);
    MoveRead16(z, p, y, q, n, k + 2);
    MoveRead16(z, p, y, q, n, k + 4);
    MoveRead32(z, p, y, q, n, k + 6);
    MoveRead32(z, p, y, q, n, k + 10);
  }

  lemma MoveSection(z: seq<Byte>, p: nat, y: seq<Byte>, q: nat, f: File)
    requires SectionAt(z, p, f) && SameBytes(z, p, y, q, 30 + |f.path| + |f.data|)
    ensures SectionAt(y, q, f)
  {
    hide ReadU32, VersionAt, SizesAt, Holds, SameBytes;
    var n := 30 + |f.path| + |f.data|;
    SameBytesFit(z, p, y, q, n);
    MoveRead32(z, p, y, q, n, 0);
    MoveVersion(z, p, y, q, n, 4);
    MoveSizes(z, p, y, q, n, 14, f);
    MoveHolds(z, p, y, q, n, 30, f.path);
    MoveHolds(z, p, y, q, n, 30 + |f.path|, f.data);
  }

  lemma SameBytesFit(z: seq<Byte>, p: nat, y: seq<Byte>, q: nat, n: nat)
    requires SameBytes(z, p, y, q, n)
    ensures p + n <= |z| && q + n <= |y|
  {
  }

  lemma MoveCentral(z: seq<Byte>, p: nat, y: seq<Byte>, q: nat, f: File, offset: nat)
    requires CentralAt(z, p, f, offset) && SameBytes(z, p, y, q, 46 + |f.path|)
    ensures CentralAt(y, q, f, offset)
  {
    hide ReadU16, ReadU32, VersionAt, SizesAt, LocationAt, Holds, SameBytes;
    var n := 46 + |f.path|;
    SameBytesFit(z, p, y, q, n);
    MoveRead32(z, p, y, q, n, 0);
    MoveRead16(z, p, y, q, n, 4);
    MoveVersion(z, p, y, q, n, 6);
    MoveSizes(z, p, y, q, n, 16, f);
    MoveLocation(z, p, y, q, n, 32, offset);
    MoveHolds(z, p, y, q, n, 46, f.path);
  }

  lemma MoveEnd(z: seq<Byte>, p: nat, y: seq<Byte>, q: nat, count: nat, size: nat, start: nat)
    requires EndAt(z, p, count, size, start) && SameBytes(z, p, y, q, 22)
    ensures EndAt(y, q, count, size, start)
  {
    hide ReadU16, ReadU32;
    MoveRead32(z, p, y, q, 22, 0);
    MoveRead16(z, p, y, q, 22, 4);
    MoveRead16(z, p, y, q, 22, 6);
    MoveRead16(z, p, y, q, 22, 8);
    MoveRead16(z, p, y, q, 22, 10);
    MoveRead32(z, p, y, q, 22, 12);
    MoveRead32(z, p, y, q, 22, 16);
    MoveRead16(z, p, y, q, 22, 20);
  }

  /** `Buffer.concat` */
  function Concat(parts: seq<seq<Byte>>): seq<Byte> {
    if parts == [] then [] else Concat(parts[..|parts| - 1]) + parts[|parts| - 1]
  }

  lemma ConcatSnoc(parts: seq<seq<Byte>>, a: seq<Byte>)
    ensures Concat(parts + [a]) == Concat(parts) + a
  {
    assert (parts + [a])[..|parts|] == parts;
  }

  lemma KeepSection(body: seq<Byte>, z: seq<Byte>, files: seq<File>, i: nat, k: nat)
    requires k < i <= |files| && BodyOf(body, files, i) && SameBytes(body, 0, z, 0, |body|)
    ensures SectionAt(z, Offset(files, k), files[k])
  {
    hide SectionAt, SameBytes, Offset, DirectorySize;
    OffsetMonotone(files, k, i);
    var p, f := Offset(files, k), files[k];
    Within(body, 0, z, 0, |body|, p, 30 + |f.path| + |f.data|);
    MoveSection(body, p, z, p, f);
  }

  lemma NewSection(header: seq<Byte>, z: seq<Byte>, at: nat, f: File)
    requires |header| == 30 + |f.path| && LocalAt(header, 0, f)
    requires SameBytes(header, 0, z, at, |header|) && Holds(z, at + |header|, f.data)
    ensures SectionAt(z, at, f)
  {
    hide ReadU32, VersionAt, SizesAt, Holds, SameBytes;
    var n := |header|;
    SameBytesFit(header, 0, z, at, n);
    MoveRead32(header, 0, z, at, n, 0);
    MoveVersion(header, 0, z, at, n, 4);
    MoveSizes(header, 0, z, at, n, 14, f);
    MoveHolds(header, 0, z, at, n, 30, f.path);
  }

  lemma SectionPlaced(body: seq<Byte>, header: seq<Byte>, data: seq<Byte>)
    ensures SameBytes(header, 0, body + (header + data), |body|, |header|)
    ensures Holds(body + (header + data), |body| + |header|, data)
  {
    var z := body + (header + data);
    assert z[|body|..] == header + data;
    assert z[|body|..|body| + |header|] == header;
    assert z[|body| + |header|..] == data;
  }

  lemma BodyStep(body: seq<Byte>, files: seq<File>, i: nat, header: seq<Byte>)
    requires i < |files| && BodyOf(body, files, i)
    requires |header| == 30 + |files[i].path| && LocalAt(header, 0, files[i])
    ensures BodyOf(body + (header + files[i].data), files, i + 1)
  {
    hide LocalAt, SectionAt, SameBytes, Holds, Offset, DirectorySize;
    NextOffset(files, i);
    var z := body + (header + files[i].data);
    PrefixSame(body, header + files[i].data);
    SectionPlaced(body, header, files[i].data);
    NewSection(header, z, |body|, files[i]);
    forall k | 0 <= k < i + 1
      ensures SectionAt(z, Offset(files, k), files[k])
    {
      if k < i {
        KeepSection(body, z, files, i, k);
      }
    }
  }

  lemma KeepEntry(dir: seq<Byte>, z: seq<Byte>, at: nat, files: seq<File>, i: nat, k: nat)
    requires k < i <= |files| && DirectoryOf(dir, files, i) && SameBytes(dir, 0, z, at, |dir|)
    ensures CentralAt(z, at + DirectorySize(files, k), files[k], Offset(files, k))
  {
    hide CentralAt, SameBytes, Offset, DirectorySize;
    OffsetMonotone(files, k, i);
    var p, f := DirectorySize(files, k), files[k];
    Within(dir, 0, z, at, |dir|, p, 46 + |f.path|);
    MoveCentral(dir, p, z, at + p, f, Offset(files, k));
  }

  lemma DirectoryStep(dir: seq<Byte>, files: seq<File>, i: nat, entry: seq<Byte>)
    requires i < |files| && DirectoryOf(dir, files, i)
    requires |entry| == 46 + |files[i].path| && CentralAt(entry, 0, files[i], Offset(files, i))
    ensures DirectoryOf(dir + entry, files, i + 1)
  {
    hide CentralAt, SameBytes, Offset, DirectorySize;
    NextOffset(files, i);
    var z := dir + entry;
    PrefixSame(dir, entry);
    SuffixSame(dir, entry);
    MoveCentral(entry, 0, z, |dir|, files[i], Offset(files, i));
    forall k | 0 <= k < i + 1
      ensures CentralAt(z, DirectorySize(files, k), files[k], Offset(files, k))
    {
      if k < i {
        KeepEntry(dir, z, 0, files, i, k);
      }
    }
  }

  lemma Assemble(body: seq<Byte>, dir: seq<Byte>, end: seq<Byte>, files: seq<File>)
    requires BodyOf(body, files, |files|) && DirectoryOf(dir, files, |files|)
    requires |end| == 22 && EndAt(end, 0, |files|, |dir|, |body|)
    ensures IsArchive(body + dir + end, files)
  {
    hide SectionAt, CentralAt, EndAt, SameBytes, Offset, DirectorySize;
    var y := body + dir;
    PrefixSame(body, dir);
    SuffixSame(body, dir);
    PrefixSame(y, end);
    SuffixSame(y, end);
    var z, n := y + end, |files|;
    SameThen(body, y, 0, z, 0);
    SameThen(dir, y, |body|, z, 0);
    MoveEnd(end, 0, z, |y|, n, |dir|, |body|);
    forall k | 0 <= k < n
      ensures SectionAt(z, Offset(files, k), files[k])
    {
      KeepSection(body, z, files, n, k);
    }
    forall k | 0 <= k < n
      ensures CentralAt(z, |body| + DirectorySize(files, k), files[k], Offset(files, k))
    {
      KeepEntry(dir, z, |body|, files, n, k);
    }
  }

  /** One file: its local header and contents, and its directory entry. */
  method AddFile(file: File, offset: nat) returns (r: Result<(seq<Byte>, seq<Byte>)>)
    ensures r.Ok? <==> |file.data| <= 0xffffffff && |file.path| <= 0xffff && offset <= 0xffffffff
    ensures r.Ok? ==> |r.value.0| == 30 + |file.path| && LocalAt(r.value.0, 0, file)
    ensures r.Ok? ==> |r.value.1| == 46 + |file.path| && CentralAt(r.value.1, 0, file, offset)
  {
    hide Checksum, LocalAt, CentralAt;
    var crc := Crc32(file.data);
    var localHeader := LocalHeader(file, crc);
    if localHeader.RangeError? {
      return RangeError;
    }
    var cdEntry := CentralEntry(file, crc, offset);
    if cdEntry.RangeError? {
      return RangeError;
    }
    return Ok((localHeader.value, cdEntry.value));
  }

  /** The archive is built iff every field fits, and then has exactly the documented layout. */
  method BuildZip(files: seq<File>) returns (r: Result<seq<Byte>>)
    ensures r.Ok? <==> Fits(files)
    ensures r.Ok? ==> IsArchive(r.value, files)
  {
    hide LocalAt, CentralAt, EndAt, Concat, BodyOf, DirectoryOf, IsArchive;
    var parts: seq<seq<Byte>> := [];
    var centralDir: seq<seq<Byte>> := [];
    var offset := 0;
    Start(files);
    for i := 0 to |files|
      invariant offset == Offset(files, i)
      invariant BodyOf(Concat(parts), files, i) && DirectoryOf(Concat(centralDir), files, i)
      invariant forall k :: 0 <= k < i ==> FileFits(files, k)
    {
      var file := files[i];
      var added := AddFile(file, offset);
      if added.RangeError? {
        assert !FileFits(files, i);
        return RangeError;
      }
      var (localHeader, cdEntry) := added.value;
      ConcatPair(parts, localHeader, file.data);
      BodyStep(Concat(parts), files, i, localHeader);
      ConcatSnoc(centralDir, cdEntry);
      DirectoryStep(Concat(centralDir), files, i, cdEntry);
      parts := parts + [localHeader, file.data];
      centralDir := centralDir + [cdEntry];
      offset := offset + |localHeader| + |file.data|;
    }
    var cdStart := offset;
    var cdBuf := Concat(centralDir);
    Sizes(Concat(parts), cdBuf, files);
    var eocd := EndRecord(|files|, |cdBuf|, cdStart);
    if eocd.RangeError? {
      return RangeError;
    }
    ConcatSnoc(parts, cdBuf);
    ConcatSnoc(parts + [cdBuf], eocd.value);
    Assemble(Concat(parts), cdBuf, eocd.value, files);
    return Ok(Concat(parts + [cdBuf] + [eocd.value]));
  }

  lemma Start(files: seq<File>)
    ensures BodyOf(Concat([]), files, 0) && DirectoryOf(Concat([]), files, 0)
  {
  }

  lemma Sizes(body: seq<Byte>, dir: seq<Byte>, files: seq<File>)
    requires BodyOf(body, files, |files|) && DirectoryOf(dir, files, |files|)
    ensures |body| == Offset(files, |files|) && |dir| == DirectorySize(files, |files|)
  {
  }

  lemma ConcatPair(parts: seq<seq<Byte>>, a: seq<Byte>, b: seq<Byte>)
    ensures Concat(parts + [a, b]) == Concat(parts) + (a + b)
  {
    hide Concat;
    ConcatSnoc(parts, a);
    ConcatSnoc(parts + [a], b);
    assert parts + [a] + [b] == parts + [a, b];
  }
}
