// Exactly which files opening accepts, and as what: every field at its offset, every digest the
// hash of the bytes in front of it, everything within the file. All other files are refused.

module PresGenuine {
  import opened Bytes
  import opened Words
  import opened BlockModes
  import opened Keystream
  import opened PresFormat
  import opened PresDisk
  import opened PresBooks
  import opened PresImage
  import opened PresFields

  /** A structure carries the digest of the bytes in front of its digest field. */
  predicate Carries(k: Kit, s: Bytes)
    requires KitOk(k) && |s| >= MAX_DIGEST
  {
    k.digest(s[..|s| - MAX_DIGEST]) == s[|s| - MAX_DIGEST..][..k.digestBytes]
  }

  /** Entry i of a decoded table. */
  function EntryBytes(t: Bytes, i: nat): (s: Bytes)
    requires SZ_RTBL + (i + 1) * SZ_ENTRY <= |t|
    ensures |s| == SZ_ENTRY
  {
    t[SZ_RTBL + i * SZ_ENTRY..SZ_RTBL + (i + 1) * SZ_ENTRY]
  }

  /** An entry that is not deleted carries its digest and lies within the file; where its data
      begin is computed in 64 bits. */
  ghost predicate EntryGenuine(k: Kit, s: Bytes, e: Entry, poolStart: nat, fileSize: nat)
    requires KitOk(k) && |s| == SZ_ENTRY
  {
    && EntryOnDisk(s, e)
    && (e.id != 0 ==> Carries(k, s) && (e.dataOffset + poolStart) % TWO64 + e.dataSize <= fileSize)
  }

  ghost predicate HeaderGenuine(k: Kit, file: Bytes, h: Hdr)
    requires KitOk(k)
  {
    && SZ_HEADER + SZ_DHDR <= |file| == h.fileSize
    && HdrOnDisk(file[..SZ_HEADER], h) && Carries(k, file[..SZ_HEADER]) && Recognised(k, h)
    && h.dhdrStart + h.dhdrSize <= |file|
  }

  ghost predicate DetachedGenuine(k: Kit, raw: Bytes, d: Dhdr, fileSize: nat)
    requires KitOk(k) && |raw| == SZ_DHDR
  {
    && DhdrOnDisk(raw, d) && Carries(k, raw)
    && d.rtblStart + d.rtblSize <= fileSize && d.poolStart + d.poolSize <= fileSize
  }

  ghost predicate TableGenuine(k: Kit, t: Bytes, r: Rtbl, table: seq<Entry>, poolStart: nat, fileSize: nat)
    requires KitOk(k) && |t| == SZ_RTBL + |table| * SZ_ENTRY
  {
    && RtblOnDisk(t[..SZ_RTBL], r) && Carries(k, t[..SZ_RTBL]) && r.entries == |table|
    && forall i :: 0 <= i < |table| ==> EntryGenuine(k, EntryBytes(t, i), table[i], poolStart, fileSize)
  }

  /** The file holds this head and this table where the detached header says. */
  ghost predicate TableFound(k: Kit, file: Bytes, d: Dhdr, r: Rtbl, table: seq<Entry>)
    requires KitOk(k) && |d.rtblIv| == MAX_IV
  {
    var end := d.rtblStart + SZ_RTBL + |table| * SZ_ENTRY;
    && end <= |file|
    && TableGenuine(k, Coded(k.enc, d.rtblIv, 0, file[d.rtblStart..end]), r, table, d.poolStart, |file|)
  }

  /** The file is a genuine container with these headers and this table. */
  ghost predicate Genuine(k: Kit, file: Bytes, o: Opened)
    requires KitOk(k)
  {
    && HeaderGenuine(k, file, o.hdr)
    && DetachedGenuine(k, Coded(k.enc, o.hdr.dhdrIv, 0, file[SZ_HEADER..SZ_HEADER + SZ_DHDR]), o.dhdr, |file|)
    && TableFound(k, file, o.dhdr, o.rtbl, o.table)
  }

  // ---------------------------------------------------------------- the single checks

  /** _addu64 and the comparison after it: the sum as a number, without wrapping. */
  lemma EndsWithinExact(start: nat, size: nat, limit: nat)
    requires start < TWO64 && size < TWO64 && limit < TWO64
    ensures EndsWithin(start, size, limit) <==> start + size <= limit
  {
    if start + size >= TWO64 {
      assert (start + size) % TWO64 == start + size - TWO64;
    }
  }

  lemma CarriesIs(k: Kit, s: Bytes, digest: Bytes)
    requires KitOk(k) && |s| >= MAX_DIGEST && digest == s[|s| - MAX_DIGEST..|s|]
    ensures Carries(k, s) <==> k.digest(s[..|s| - MAX_DIGEST]) == digest[..k.digestBytes]
  {
    hide EncOk;
    assert s[|s| - MAX_DIGEST..] == digest;
  }

  lemma NumberBound(s: Bytes)
    requires |s| == 8
    ensures LeValue(s) < TWO64
  {
    hide LeValue;
    LeValueBound(s);
    Pow256Of8();
  }

  lemma HdrOnly(s: Bytes, h: Hdr)
    requires |s| == SZ_HEADER
    ensures HdrOnDisk(s, h) <==> ReadHdr(s) == h
  {
    hide ReadHdr, LeValue, HdrFits, PackHdr;
    HdrRead(s);
  }

  lemma DhdrOnly(s: Bytes, d: Dhdr)
    requires |s| == SZ_DHDR
    ensures DhdrOnDisk(s, d) <==> ReadDhdr(s) == d
  {
    hide ReadDhdr, LeValue, DhdrFits, PackDhdr;
    DhdrRead(s);
  }

  lemma EntryOnly(s: Bytes, e: Entry)
    requires |s| == SZ_ENTRY
    ensures EntryOnDisk(s, e) <==> ReadEntry(s) == e
  {
    hide ReadEntry, LeValue, EntryFits, PackEntry;
    EntryRead(s);
  }

  lemma RtblOnly(s: Bytes, r: Rtbl)
    requires |s| == SZ_RTBL
    ensures RtblOnDisk(s, r) <==> ReadRtbl(s) == r
  {
    hide ReadRtbl, LeValue, RtblFits, PackRtbl;
    RtblRead(s);
  }

  lemma CheckHdrExact(k: Kit, file: Bytes, h: Hdr)
    requires KitOk(k) && SZ_HEADER + SZ_DHDR <= |file|
    ensures HeaderGenuine(k, file, h) <==> ReadHdr(file[..SZ_HEADER]) == h && CheckHdr(k, file[..SZ_HEADER], |file|)
  {
    hide ReadHdr, LeValue, EndsWithin, Recognised, EncOk, Carries;
    var s := file[..SZ_HEADER];
    HdrOnly(s, h);
    if HdrOnDisk(s, h) {
      CarriesIs(k, s, h.digest);
      NumberBound(s[36..44]);
      NumberBound(s[300..308]);
      NumberBound(s[308..316]);
      EndsWithinExact(h.dhdrStart, h.dhdrSize, h.fileSize);
      HdrIv(s);
    }
  }

  lemma CheckDhdrExact(k: Kit, raw: Bytes, d: Dhdr, fileSize: nat)
    requires KitOk(k) && |raw| == SZ_DHDR && fileSize < TWO64
    ensures DetachedGenuine(k, raw, d, fileSize) <==> ReadDhdr(raw) == d && CheckDhdr(k, raw, fileSize)
  {
    hide ReadDhdr, LeValue, EndsWithin, EncOk, Carries;
    DhdrOnly(raw, d);
    if DhdrOnDisk(raw, d) {
      CarriesIs(k, raw, d.digest);
      NumberBound(raw[0..8]);
      NumberBound(raw[8..16]);
      NumberBound(raw[16..24]);
      NumberBound(raw[24..32]);
      EndsWithinExact(d.rtblStart, d.rtblSize, fileSize);
      EndsWithinExact(d.poolStart, d.poolSize, fileSize);
      DhdrIv(raw);
    }
  }

  lemma CheckRtblExact(k: Kit, raw: Bytes, r: Rtbl)
    requires KitOk(k) && |raw| == SZ_RTBL
    ensures RtblOnDisk(raw, r) && Carries(k, raw) <==> ReadRtbl(raw) == r && CheckRtbl(k, raw)
  {
    hide ReadRtbl, LeValue, EncOk, Carries;
    RtblOnly(raw, r);
    if RtblOnDisk(raw, r) {
      CarriesIs(k, raw, r.digest);
      RtblField(raw);
    }
  }

  lemma CheckEntryExact(k: Kit, raw: Bytes, e: Entry, poolStart: nat, fileSize: nat)
    requires KitOk(k) && |raw| == SZ_ENTRY && fileSize < TWO64
    ensures EntryGenuine(k, raw, e, poolStart, fileSize) <==>
            ReadEntry(raw) == e && CheckEntry(k, raw, poolStart, fileSize)
  {
    hide ReadEntry, LeValue, EndsWithin, EncOk, Carries;
    EntryOnly(raw, e);
    if EntryOnDisk(raw, e) {
      CarriesIs(k, raw, e.digest);
      NumberBound(raw[24..32]);
      EndsWithinExact((e.dataOffset + poolStart) % TWO64, e.dataSize, fileSize);
      EntryField(raw);
    }
  }

  // ---------------------------------------------------------------- the table

  function Piece(s: Bytes, i: nat): (r: Bytes)
    requires (i + 1) * SZ_ENTRY <= |s|
    ensures |r| == SZ_ENTRY
  {
    s[i * SZ_ENTRY..(i + 1) * SZ_ENTRY]
  }

  lemma PieceFirst(s: Bytes)
    requires |s| >= SZ_ENTRY
    ensures Piece(s, 0) == s[..SZ_ENTRY]
  {
  }

  lemma PieceNext(s: Bytes, i: nat)
    requires (i + 2) * SZ_ENTRY <= |s|
    ensures Piece(s, i + 1) == Piece(s[SZ_ENTRY..], i)
  {
    SliceOfTail(s, SZ_ENTRY, i * SZ_ENTRY, (i + 1) * SZ_ENTRY);
  }

  /** The loop over the entries passes exactly when every entry does. */
  lemma {:induction false} CheckTableExact(k: Kit, s: Bytes, n: nat, poolStart: nat, fileSize: nat)
    requires KitOk(k) && |s| == n * SZ_ENTRY
    ensures CheckTable(k, s, n, poolStart, fileSize) <==>
            forall i :: 0 <= i < n ==> CheckEntry(k, Piece(s, i), poolStart, fileSize)
  {
    hide CheckEntry, KitOk, Piece;
    if n > 0 {
      var rest := s[SZ_ENTRY..];
      CheckTableExact(k, rest, n - 1, poolStart, fileSize);
      PieceFirst(s);
      forall i | 0 <= i < n - 1 ensures Piece(rest, i) == Piece(s, i + 1) {
        PieceNext(s, i);
      }
      assert forall i :: 0 < i < n ==> Piece(s, i) == Piece(rest, i - 1);
    }
  }

  lemma {:induction false} TableReadAt(s: Bytes, n: nat, i: nat)
    requires |s| == n * SZ_ENTRY && i < n
    ensures ReadTable(s, n)[i] == ReadEntry(Piece(s, i))
  {
    hide ReadEntry, Piece;
    if i == 0 {
      PieceFirst(s);
    } else {
      TableReadAt(s[SZ_ENTRY..], n - 1, i - 1);
      PieceNext(s, i - 1);
    }
  }

  lemma EntryPiece(t: Bytes, i: nat)
    requires SZ_RTBL + (i + 1) * SZ_ENTRY <= |t|
    ensures EntryBytes(t, i) == Piece(t[SZ_RTBL..], i)
  {
    SliceOfTail(t, SZ_RTBL, i * SZ_ENTRY, (i + 1) * SZ_ENTRY);
  }

  /** The table as its bytes say it. */
  lemma ReadTableExact(k: Kit, t: Bytes, table: seq<Entry>, poolStart: nat, fileSize: nat)
    requires KitOk(k) && |t| == SZ_RTBL + |table| * SZ_ENTRY && fileSize < TWO64
    ensures var rest := t[SZ_RTBL..];
      (forall i :: 0 <= i < |table| ==> EntryGenuine(k, EntryBytes(t, i), table[i], poolStart, fileSize)) <==>
      ReadTable(rest, |table|) == table && CheckTable(k, rest, |table|, poolStart, fileSize)
  {
    hide KitOk, EntryGenuine, EntryBytes, Piece, ReadEntry, ReadTable, CheckEntry, CheckTable;
    var rest, n := t[SZ_RTBL..], |table|;
    CheckTableExact(k, rest, n, poolStart, fileSize);
    var r := ReadTable(rest, n);
    forall i | 0 <= i < n
      ensures r[i] == ReadEntry(Piece(rest, i)) && EntryBytes(t, i) == Piece(rest, i)
      ensures EntryGenuine(k, Piece(rest, i), table[i], poolStart, fileSize) <==>
              ReadEntry(Piece(rest, i)) == table[i] && CheckEntry(k, Piece(rest, i), poolStart, fileSize)
    {
      TableReadAt(rest, n, i);
      EntryPiece(t, i);
      CheckEntryExact(k, Piece(rest, i), table[i], poolStart, fileSize);
    }
  }

  // ---------------------------------------------------------------- the whole file

  /** One coding of the whole table is the head and the entries as the two calls decode them. */
  lemma TableDecoded(e: Option<Enc>, iv: Bytes, data: Bytes)
    requires EncOk(e) && |iv| == MAX_IV && |data| >= SZ_RTBL
    ensures var t := Coded(e, iv, 0, data);
      t[..SZ_RTBL] == Coded(e, iv, 0, data[..SZ_RTBL]) && t[SZ_RTBL..] == Coded(e, iv, SZ_RTBL, data[SZ_RTBL..])
  {
    hide EncOk, Coded;
    CodedFront(e, iv, 0, data, SZ_RTBL);
    CodedSlice(e, iv, 0, data, SZ_RTBL, |data|);
    assert data[SZ_RTBL..|data|] == data[SZ_RTBL..];
    var t := Coded(e, iv, 0, data);
    assert t[SZ_RTBL..|data|] == t[SZ_RTBL..];
  }

  lemma ParseTableExact(k: Kit, file: Bytes, h: Hdr, d: Dhdr, r: Rtbl, table: seq<Entry>)
    requires KitOk(k) && |d.rtblIv| == MAX_IV && h.fileSize == |file| < TWO64
    ensures ParseTable(k, file, h, d) == Some((r, table)) <==> TableFound(k, file, d, r, table)
  {
    hide EncOk, Coded, CheckRtbl, CheckTable, ReadTable, ReadRtbl, RtblOnDisk, EntryGenuine, Carries;
    var at := d.rtblStart;
    var end := at + SZ_RTBL + |table| * SZ_ENTRY;
    if end <= |file| {
      var data := file[at..end];
      var t := Coded(k.enc, d.rtblIv, 0, data);
      TableDecoded(k.enc, d.rtblIv, data);
      assert data[..SZ_RTBL] == file[at..at + SZ_RTBL] && data[SZ_RTBL..] == file[at + SZ_RTBL..end];
      CheckRtblExact(k, t[..SZ_RTBL], r);
      ReadTableExact(k, t, table, d.poolStart, |file|);
      RtblEntries(t[..SZ_RTBL], r);
    }
  }

  /** There is no table where the detached header says. */
  ghost predicate NoTable(k: Kit, file: Bytes, d: Dhdr)
    requires KitOk(k) && |d.rtblIv| == MAX_IV
  {
    forall r, t :: !TableFound(k, file, d, r, t)
  }

  lemma TablesFound(k: Kit, file: Bytes, h: Hdr, d: Dhdr)
    requires KitOk(k) && |d.rtblIv| == MAX_IV && h.fileSize == |file| < TWO64
    ensures var p := ParseTable(k, file, h, d);
      if p.Some? then TableFound(k, file, d, p.value.0, p.value.1) else NoTable(k, file, d)
  {
    hide KitOk, ParseTable, TableFound;
    forall r, t ensures ParseTable(k, file, h, d) == Some((r, t)) <==> TableFound(k, file, d, r, t) {
      ParseTableExact(k, file, h, d, r, t);
    }
    var p := ParseTable(k, file, h, d);
    if p.Some? {
      assert p == Some((p.value.0, p.value.1));
    }
  }

  lemma RtblEntries(s: Bytes, r: Rtbl)
    requires |s| == SZ_RTBL
    ensures RtblOnDisk(s, r) ==> r.entries == ReadRtbl(s).entries
  {
    hide ReadRtbl, LeValue;
    RtblOnly(s, r);
  }

  /** Opening accepts a file, as these headers and this table, exactly when it is a genuine
      container with them; every other file is refused. */
  lemma ParseExact(k: Kit, file: Bytes, o: Opened)
    requires KitOk(k)
    ensures Parse(k, file) == Some(o) <==> Genuine(k, file, o)
  {
    hide EncOk, Coded, CheckHdr, CheckDhdr, ReadHdr, ReadDhdr, ParseTable, HeaderGenuine, DetachedGenuine, TableFound;
    if HeaderGenuine(k, file, o.hdr) {
      TooShort(k, file, o.hdr);
    }
    if SZ_HEADER + SZ_DHDR <= |file| {
      CheckHdrExact(k, file, o.hdr);
      HdrIv(file[..SZ_HEADER]);
      if HeaderGenuine(k, file, o.hdr) {
        HeaderLength(k, file, o.hdr);
        var raw := Coded(k.enc, o.hdr.dhdrIv, 0, file[SZ_HEADER..SZ_HEADER + SZ_DHDR]);
        CheckDhdrExact(k, raw, o.dhdr, |file|);
        DhdrIv(raw);
        if DetachedGenuine(k, raw, o.dhdr, |file|) {
          ParseTableExact(k, file, o.hdr, o.dhdr, o.rtbl, o.table);
        }
      }
    }
  }

  lemma TooShort(k: Kit, file: Bytes, h: Hdr)
    requires KitOk(k) && HeaderGenuine(k, file, h)
    ensures SZ_HEADER + SZ_DHDR <= |file|
  {
  }

  lemma HeaderLength(k: Kit, file: Bytes, h: Hdr)
    requires KitOk(k) && HeaderGenuine(k, file, h)
    ensures h.fileSize == |file| < TWO64
  {
    hide EncOk, LeValue, Recognised, Carries;
    NumberBound(file[..SZ_HEADER][36..44]);
  }

  // ---------------------------------------------------------------- what follows

  /** An accepted file carries every digest, whatever the rest of it says: the header in the clear,
      the detached header, the head of the table and each entry that is not deleted as decoded. */
  ghost predicate DigestsHold(k: Kit, file: Bytes)
    requires KitOk(k)
  {
    && SZ_HEADER + SZ_DHDR <= |file| && Carries(k, file[..SZ_HEADER])
    && var raw := Coded(k.enc, file[316..444], 0, file[SZ_HEADER..SZ_HEADER + SZ_DHDR]);
      && Carries(k, raw)
      && var at := LeValue(raw[24..32]);
        && at + SZ_RTBL <= |file|
        && var head := Coded(k.enc, raw[32..160], 0, file[at..at + SZ_RTBL]);
          && Carries(k, head)
          && var n := LeValue(head[0..8]);
            && at + SZ_RTBL + n * SZ_ENTRY <= |file|
            && forall i :: 0 <= i < n ==> EntryHolds(k, file, raw[32..160], at, i)
  }

  ghost predicate EntryHolds(k: Kit, file: Bytes, iv: Bytes, at: nat, i: nat)
    requires KitOk(k) && |iv| == MAX_IV && at + SZ_RTBL + (i + 1) * SZ_ENTRY <= |file|
  {
    var start := SZ_RTBL + i * SZ_ENTRY;
    var e := Coded(k.enc, iv, start, file[at + start..at + start + SZ_ENTRY]);
    LeValue(e[0..8]) != 0 ==> Carries(k, e)
  }

  lemma EntryDecoded(e: Option<Enc>, iv: Bytes, data: Bytes, i: nat)
    requires EncOk(e) && |iv| == MAX_IV && SZ_RTBL + (i + 1) * SZ_ENTRY <= |data|
    ensures var start := SZ_RTBL + i * SZ_ENTRY;
      Coded(e, iv, start, data[start..start + SZ_ENTRY]) == EntryBytes(Coded(e, iv, 0, data), i)
  {
    hide EncOk, Coded;
    var start := SZ_RTBL + i * SZ_ENTRY;
    CodedSlice(e, iv, 0, data, start, start + SZ_ENTRY);
  }

  lemma SliceOfSlice(s: Bytes, lo: nat, hi: nat, from: nat, to: nat)
    requires from <= to && lo + to <= hi <= |s|
    ensures s[lo..hi][from..to] == s[lo + from..lo + to]
  {
    assert |s[lo..hi][from..to]| == |s[lo + from..lo + to]|;
    forall j | 0 <= j < to - from ensures s[lo..hi][from..to][j] == s[lo + from..lo + to][j] {
    }
  }

  lemma TableDigests(k: Kit, file: Bytes, d: Dhdr, r: Rtbl, table: seq<Entry>)
    requires KitOk(k) && |d.rtblIv| == MAX_IV && d.rtblStart + SZ_RTBL + |table| * SZ_ENTRY <= |file|
    requires var data := file[d.rtblStart..d.rtblStart + SZ_RTBL + |table| * SZ_ENTRY];
      TableGenuine(k, Coded(k.enc, d.rtblIv, 0, data), r, table, d.poolStart, |file|)
    ensures var head := Coded(k.enc, d.rtblIv, 0, file[d.rtblStart..d.rtblStart + SZ_RTBL]);
      Carries(k, head) && LeValue(head[0..8]) == |table|
    ensures forall i :: 0 <= i < |table| ==> EntryHolds(k, file, d.rtblIv, d.rtblStart, i)
  {
    hide EncOk, Coded, Carries, LeValue, EntryBytes;
    var at, iv := d.rtblStart, d.rtblIv;
    var data := file[at..at + SZ_RTBL + |table| * SZ_ENTRY];
    TableDecoded(k.enc, iv, data);
    assert data[..SZ_RTBL] == file[at..at + SZ_RTBL];
    forall i | 0 <= i < |table| ensures EntryHolds(k, file, iv, at, i) {
      var start := SZ_RTBL + i * SZ_ENTRY;
      EntryDecoded(k.enc, iv, data, i);
      SliceOfSlice(file, at, at + SZ_RTBL + |table| * SZ_ENTRY, start, start + SZ_ENTRY);
      assert data[start..start + SZ_ENTRY] == file[at + start..at + start + SZ_ENTRY];
      assert EntryGenuine(k, EntryBytes(Coded(k.enc, iv, 0, data), i), table[i], d.poolStart, |file|);
    }
  }

  lemma AcceptedDigests(k: Kit, file: Bytes)
    requires KitOk(k) && Parse(k, file).Some?
    ensures DigestsHold(k, file)
  {
    hide EncOk, Coded, Carries, LeValue, Parse, Recognised, TableGenuine, EntryHolds;
    var o := Parse(k, file).value;
    ParseExact(k, file, o);
    assert file[..SZ_HEADER][316..444] == file[316..444];
    TableDigests(k, file, o.dhdr, o.rtbl, o.table);
  }

  /** What the numbers of the header mean on disk: the magic number and the version come first, and
      the mode of the cipher is the number 4 or 5, or 0 when there is no cipher. */
  lemma AcceptedNumbers(k: Kit, file: Bytes)
    requires KitOk(k) && Parse(k, file).Some?
    ensures |file| >= SZ_HEADER + SZ_DHDR
    ensures LeValue(file[0..8]) == 0x0701198123421337 && LeValue(file[8..12]) == 4
    ensures 1 <= LeValue(file[12..16]) <= 4 && (LeValue(file[16..20]) + 7) / 8 == k.digestBytes
    ensures k.enc.None? ==> LeValue(file[20..24]) == 0 && LeValue(file[24..28]) == 0
    ensures k.enc.Some? ==> 1 <= LeValue(file[20..24]) <= 4 && LeValue(file[28..32]) > 0
    ensures k.enc.Some? ==> LeValue(file[24..28]) == if k.enc.value.m == OFB then 4 else 5
    ensures LeValue(file[36..44]) == |file|
  {
    hide Coded, Carries, LeValue, Parse, TableGenuine, DetachedGenuine, Cipher.Valid;
    var h := Parse(k, file).value.hdr;
    ParseExact(k, file, Parse(k, file).value);
    HeaderSlices(file);
    assert HdrOnDisk(file[..SZ_HEADER], h) && Recognised(k, h);
  }

  lemma HeaderSlices(file: Bytes)
    requires |file| >= SZ_HEADER
    ensures var s := file[..SZ_HEADER];
      && s[0..8] == file[0..8] && s[8..12] == file[8..12] && s[12..16] == file[12..16] && s[16..20] == file[16..20]
      && s[20..24] == file[20..24] && s[24..28] == file[24..28] && s[28..32] == file[28..32]
      && s[36..44] == file[36..44]
  {
  }

  /** What is coded on disk, under a field that begins with the IV: byte r of block k of the stream
      is xored with byte r of a keystream block, which in CTR is the encryption of the IV with k added
      to its last eight bytes, in OFB the IV encrypted k + 1 times. */
  lemma CodedIs(e: Enc, iv: Bytes, p: nat, data: Bytes, j: nat, k: nat, r: nat, t: Bytes)
    requires EncOk(Some(e)) && |iv| == MAX_IV && j < |data|
    requires r < e.c.size && p + j == k * e.c.size + r
    ensures e.m == OFB || (e.m == CTR && NextCounter(iv, e.c.size, k, t)) ==>
      Coded(Some(e), iv, p, data)[j] ==
      Xor8(if e.m == OFB then Repeated(e.c, iv[..e.c.size], k + 1)[r] else e.c.enc(t)[r], data[j])
  {
    hide LeValue, Xor8, Repeated, Crypt;
    var size := e.c.size;
    if e.m == OFB {
      CryptOfb(e.c, iv[..size], p, data, j, k, r);
    } else if NextCounter(iv, size, k, t) {
      assert iv[..size][..size - 8] == iv[..size - 8] && iv[..size][size - 8..] == iv[size - 8..size];
      CryptCtr(e.c, iv[..size], p, data, j, k, r, t);
    }
  }

  /** t is the counter block k places behind the one that iv begins with. */
  ghost predicate NextCounter(iv: Bytes, size: nat, k: nat, t: Bytes)
    requires 8 <= size <= |iv|
  {
    && |t| == size && t[..size - 8] == iv[..size - 8]
    && LeValue(t[size - 8..]) == (LeValue(iv[size - 8..size]) + k) % TWO64
  }

  // ---------------------------------------------------------------- the converse of the round trip

  lemma {:induction false} PackReadTable(s: Bytes, n: nat)
    requires |s| == n * SZ_ENTRY
    ensures EntriesFit(ReadTable(s, n)) && PackTable(ReadTable(s, n)) == s
  {
    hide EntryFits, ReadEntry, PackEntry, EntryOnDisk;
    TableReadFits(s, n);
    if n > 0 {
      EntryRead(s[..SZ_ENTRY]);
      PackReadTable(s[SZ_ENTRY..], n - 1);
      assert ReadTable(s, n)[1..] == ReadTable(s[SZ_ENTRY..], n - 1);
      assert s == s[..SZ_ENTRY] + s[SZ_ENTRY..];
    }
  }

  lemma WriteSame(image: Bytes, at: nat, data: Bytes)
    requires at + |data| <= |image| && image[at..at + |data|] == data
    ensures WriteAt(image, at, data) == image
  {
    var r := WriteAt(image, at, data);
    forall p | 0 <= p < |image| ensures r[p] == image[p] {
      if at <= p < at + |data| {
        assert r[at..at + |data|][p - at] == image[at..at + |data|][p - at];
      } else {
        WriteAtByte(image, at, data, p);
      }
    }
  }

  lemma TableBack(k: Kit, t: Bytes, r: Rtbl, table: seq<Entry>, poolStart: nat, fileSize: nat)
    requires KitOk(k) && |t| == SZ_RTBL + |table| * SZ_ENTRY && fileSize < TWO64
    requires TableGenuine(k, t, r, table, poolStart, fileSize)
    ensures RtblFits(r) && EntriesFit(table) && PackRtbl(r) + PackTable(table) == t
  {
    hide KitOk, RtblOnDisk, EntryGenuine, ReadRtbl, ReadTable, PackRtbl, PackTable, RtblFits, EntryFits, CheckTable;
    RtblOnly(t[..SZ_RTBL], r);
    RtblRead(t[..SZ_RTBL]);
    ReadTableExact(k, t, table, poolStart, fileSize);
    PackReadTable(t[SZ_RTBL..], |table|);
  }

  /** Closing an opened container without changing it writes the bytes that are there already. */
  lemma OpenThenClose(k: Kit, file: Bytes, o: Opened)
    requires KitOk(k) && Parse(k, file) == Some(o)
    ensures OpenedFits(o) && ClosedImage(k, o, file) == file
  {
    hide EncOk, Coded, Carries, LeValue, Parse, Recognised, TableGenuine, HdrOnDisk, DhdrOnDisk, HdrFits, DhdrFits,
         RtblFits, EntryFits, PackHdr, PackDhdr, PackRtbl, PackTable, ReadHdr, ReadDhdr, WriteAt;
    ParseExact(k, file, o);
    ParsedFits(k, file);
    HdrOnly(file[..SZ_HEADER], o.hdr);
    HdrRead(file[..SZ_HEADER]);
    var coded := file[SZ_HEADER..SZ_HEADER + SZ_DHDR];
    var raw := Coded(k.enc, o.hdr.dhdrIv, 0, coded);
    DhdrOnly(raw, o.dhdr);
    DhdrRead(raw);
    CodedTwice(k.enc, o.hdr.dhdrIv, 0, coded);
    var at := o.dhdr.rtblStart;
    var data := file[at..at + SZ_RTBL + |o.table| * SZ_ENTRY];
    HeaderLength(k, file, o.hdr);
    TableBack(k, Coded(k.enc, o.dhdr.rtblIv, 0, data), o.rtbl, o.table, o.dhdr.poolStart, |file|);
    CodedTwice(k.enc, o.dhdr.rtblIv, 0, data);
    assert file[0..0 + SZ_HEADER] == file[..SZ_HEADER];
    WriteSame(file, 0, HeaderBytes(o));
    WriteSame(file, SZ_HEADER, DetachedBytes(k, o));
    WriteSame(file, at, TableBytes(k, o));
  }
}
