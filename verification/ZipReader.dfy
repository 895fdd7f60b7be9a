/**
  A reader for stored archives, as section 4.3 of PKWARE's APPNOTE.TXT tells one
  to read them: from the end record, through the directory, to the local headers.
*/
module ZipReader {
  import opened Wrappers
  import opened Crc
  import opened Zip

  /** The contents behind a local header, if the header is there, bears the
      expected name, and the contents match the recorded checksum. */
  function ReadSection(z: seq<Byte>, p: nat, path: seq<Byte>, size: nat, crc: nat): Option<seq<Byte>> {
    if p + 30 > |z| || ReadU32(z, p) != LOCAL_SIGNATURE then None
    else
      var nameEnd := p + 30 + ReadU16(z, p + 26);
      var start := nameEnd + ReadU16(z, p + 28);
      if start + size > |z| || z[p + 30..nameEnd] != path then None
      else if Checksum(z[start..start + size]) != crc then None
      else Some(z[start..start + size])
  }

  /** One directory entry at p, and the position after it. */
  function ReadEntry(z: seq<Byte>, p: nat): (r: Option<(File, nat)>)
    ensures r.Some? ==> r.value.1 > p
  {
    if p + 46 > |z| || ReadU32(z, p) != CENTRAL_SIGNATURE then None
    else
      var nameEnd := p + 46 + ReadU16(z, p + 28);
      if nameEnd > |z| then None
      else
        var path := z[p + 46..nameEnd];
        match ReadSection(z, ReadU32(z, p + 42), path, ReadU32(z, p + 20), ReadU32(z, p + 16))
        case None => None
        case Some(data) => Some((File(path, data), nameEnd + ReadU16(z, p + 30) + ReadU16(z, p + 32)))
  }

  function ReadEntries(z: seq<Byte>, p: nat, count: nat): Option<seq<File>>
    decreases count
  {
    if count == 0 then Some([])
    else
      match ReadEntry(z, p)
      case None => None
      case Some((file, next)) =>
        match ReadEntries(z, next, count - 1)
        case None => None
        case Some(rest) => Some([file] + rest)
  }

  function ReadZip(z: seq<Byte>): Option<seq<File>> {
    if |z| < 22 || ReadU32(z, |z| - 22) != END_SIGNATURE then None
    else ReadEntries(z, ReadU32(z, |z| - 6), ReadU16(z, |z| - 12))
  }

  lemma HoldsSlice(z: seq<Byte>, p: nat, s: seq<Byte>)
    requires Holds(z, p, s)
    ensures p + |s| <= |z| && z[p..p + |s|] == s
  {
  }

  lemma SectionReads(z: seq<Byte>, p: nat, f: File)
    requires SectionAt(z, p, f)
    ensures ReadSection(z, p, f.path, |f.data|, Checksum(f.data)) == Some(f.data)
  {
    hide ReadU16, ReadU32, Checksum, Holds;
    HoldsSlice(z, p + 30, f.path);
    HoldsSlice(z, p + 30 + |f.path|, f.data);
  }

  lemma EntryReads(z: seq<Byte>, p: nat, f: File, offset: nat)
    requires CentralAt(z, p, f, offset) && SectionAt(z, offset, f)
    ensures ReadEntry(z, p) == Some((f, p + 46 + |f.path|))
  {
    hide ReadU16, ReadU32, Checksum, Holds, SectionAt, ReadSection;
    HoldsSlice(z, p + 46, f.path);
    SectionReads(z, offset, f);
  }

  lemma {:induction false} EntriesRead(z: seq<Byte>, files: seq<File>, start: nat, k: nat)
    requires k <= |files|
    requires forall i :: k <= i < |files| ==>
      SectionAt(z, Offset(files, i), files[i])
      && CentralAt(z, start + DirectorySize(files, i), files[i], Offset(files, i))
    ensures ReadEntries(z, start + DirectorySize(files, k), |files| - k) == Some(files[k..])
    decreases |files| - k
  {
    hide SectionAt, CentralAt, ReadEntry, Offset, DirectorySize;
    if k < |files| {
      EntryReads(z, start + DirectorySize(files, k), files[k], Offset(files, k));
      NextOffset(files, k);
      EntriesRead(z, files, start, k + 1);
      assert files[k..] == [files[k]] + files[k + 1..];
    }
  }

  lemma DirectoryStarts(files: seq<File>)
    ensures DirectorySize(files, 0) == 0
  {
  }

  /** Reading back an archive recovers the names, the contents and their order,
      with every checksum matching. */
  lemma ArchiveReadsBack(z: seq<Byte>, files: seq<File>)
    requires IsArchive(z, files)
    ensures ReadZip(z) == Some(files)
  {
    DirectoryStarts(files);
    hide ReadU16, ReadU32, SectionAt, CentralAt, ReadEntries, Offset, DirectorySize;
    EntriesRead(z, files, Offset(files, |files|), 0);
    assert files[0..] == files;
  }

  /** What `buildZip` returns is read back as what it was given. */
  method BuildThenRead(files: seq<File>) returns (r: Option<seq<File>>)
    ensures r == if Fits(files) then Some(files) else None
  {
    var built := BuildZip(files);
    match built
    case RangeError => r := None;
    case Ok(z) =>
      ArchiveReadsBack(z, files);
      r := ReadZip(z);
  }
}
