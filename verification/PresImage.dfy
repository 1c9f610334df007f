// The container file as a byte string: what closing writes, what opening reads and checks, and
// the round trip between them.

module PresImage {
  import opened Bytes
  import opened Words
  import opened BlockModes
  import opened PresFormat
  import opened PresDisk
  import opened PresBooks

  const HASHSUM_MAX: nat := 5
  const CIPHER_MODE_MAX: nat := 6
  const BLK_CIPHER_MAX: nat := 5
  const STREAM_CIPHER_MAX: nat := 2

  /** The stream cipher and the hash function that the header names. */
  datatype Kit = Kit(enc: Option<Enc>, digest: Bytes -> Bytes, digestBytes: nat)

  ghost predicate KitOk(k: Kit) {
    EncOk(k.enc) && k.digestBytes <= MAX_DIGEST && forall x :: |k.digest(x)| == k.digestBytes
  }

  /** A container read into memory. */
  datatype Opened = Opened(hdr: Hdr, dhdr: Dhdr, rtbl: Rtbl, table: seq<Entry>)

  // ---------------------------------------------------------------- reading back any record

  lemma {:induction false} UnpackFits(ks: seq<Kind>, s: Bytes)
    requires |s| == Size(ks)
    ensures FitsAll(ks, Unpack(ks, s))
  {
    hide Pow256, LeValue;
    if ks != [] {
      var w := Width(ks[0]);
      UnpackFits(ks[1..], s[w..]);
      LeValueBound(s[..w]);
      var vs := Unpack(ks, s);
      forall i | 0 <= i < |ks| ensures FitsField(ks[i], vs[i]) {
        if i > 0 {
          assert ks[i] == ks[1..][i - 1] && vs[i] == Unpack(ks[1..], s[w..])[i - 1];
        }
      }
    }
  }

  lemma HdrIv(s: Bytes)
    requires |s| == SZ_HEADER
    ensures |ReadHdr(s).dhdrIv| == MAX_IV && |ReadHdr(s).digest| == MAX_DIGEST
  {
    hide Unpack, Pow256, FitsAll;
    HdrSize();
    UnpackFits(HDR_LAYOUT, s);
    var v := Unpack(HDR_LAYOUT, s);
    FieldFits(HDR_LAYOUT, v, 12);
    FieldFits(HDR_LAYOUT, v, 14);
  }

  lemma FieldFits(ks: seq<Kind>, vs: seq<Value>, i: nat)
    requires FitsAll(ks, vs) && i < |ks|
    ensures FitsField(ks[i], vs[i])
  {
  }

  lemma DhdrIv(s: Bytes)
    requires |s| == SZ_DHDR
    ensures |ReadDhdr(s).rtblIv| == MAX_IV && |ReadDhdr(s).digest| == MAX_DIGEST
  {
    hide Unpack, Pow256, FitsAll;
    OtherSizes();
    UnpackFits(DHDR_LAYOUT, s);
    var v := Unpack(DHDR_LAYOUT, s);
    FieldFits(DHDR_LAYOUT, v, 4);
    FieldFits(DHDR_LAYOUT, v, 5);
  }

  lemma RtblField(s: Bytes)
    requires |s| == SZ_RTBL
    ensures |ReadRtbl(s).digest| == MAX_DIGEST
  {
    hide Unpack, Pow256, FitsAll;
    OtherSizes();
    UnpackFits(RTBL_LAYOUT, s);
    FieldFits(RTBL_LAYOUT, Unpack(RTBL_LAYOUT, s), 1);
  }

  lemma EntryField(s: Bytes)
    requires |s| == SZ_ENTRY
    ensures |ReadEntry(s).digest| == MAX_DIGEST && |ReadEntry(s).dataIv| == MAX_IV
  {
    hide Unpack, Pow256, FitsAll;
    EntrySize();
    UnpackFits(ENTRY_LAYOUT, s);
    FieldFits(ENTRY_LAYOUT, Unpack(ENTRY_LAYOUT, s), 5);
    FieldFits(ENTRY_LAYOUT, Unpack(ENTRY_LAYOUT, s), 8);
  }

  lemma HdrReadFits(s: Bytes)
    requires |s| == SZ_HEADER
    ensures HdrFits(ReadHdr(s))
  {
    hide Unpack, Pow256, FitsAll;
    HdrSize();
    UnpackFits(HDR_LAYOUT, s);
    var v, w := Unpack(HDR_LAYOUT, s), HdrValues(ReadHdr(s));
    hide *;
    forall i | 0 <= i < 15 ensures w[i] == Shaped(HDR_LAYOUT[i], v[i]) {
      HdrFieldRead(s, i);
    }
    SameFields(HDR_LAYOUT, v, w);
  }

  lemma HdrFieldRead(s: Bytes, i: nat)
    requires |s| == SZ_HEADER == Size(HDR_LAYOUT) && i < 15
    ensures HdrValues(ReadHdr(s))[i] == Shaped(HDR_LAYOUT[i], Unpack(HDR_LAYOUT, s)[i])
  {
    hide Unpack, Size, NumOf, RawOf;
    if i < 4 {
    } else if i < 8 {
    } else if i < 12 {
    } else {
    }
  }

  lemma DhdrReadFits(s: Bytes)
    requires |s| == SZ_DHDR
    ensures DhdrFits(ReadDhdr(s))
  {
    hide Unpack, Pow256, FitsAll;
    OtherSizes();
    UnpackFits(DHDR_LAYOUT, s);
    SameFields(DHDR_LAYOUT, Unpack(DHDR_LAYOUT, s), DhdrValues(ReadDhdr(s)));
  }

  lemma RtblReadFits(s: Bytes)
    requires |s| == SZ_RTBL
    ensures RtblFits(ReadRtbl(s))
  {
    hide Unpack, Pow256, FitsAll;
    OtherSizes();
    UnpackFits(RTBL_LAYOUT, s);
    SameFields(RTBL_LAYOUT, Unpack(RTBL_LAYOUT, s), RtblValues(ReadRtbl(s)));
  }

  lemma EntryReadFits(s: Bytes)
    requires |s| == SZ_ENTRY
    ensures EntryFits(ReadEntry(s))
  {
    hide Unpack, Pow256, FitsAll;
    EntrySize();
    UnpackFits(ENTRY_LAYOUT, s);
    var v, w := Unpack(ENTRY_LAYOUT, s), EntryValues(ReadEntry(s));
    hide *;
    forall i | 0 <= i < 9 ensures w[i] == Shaped(ENTRY_LAYOUT[i], v[i]) {
      EntryFieldRead(s, i);
    }
    SameFields(ENTRY_LAYOUT, v, w);
  }

  lemma EntryFieldRead(s: Bytes, i: nat)
    requires |s| == SZ_ENTRY == Size(ENTRY_LAYOUT) && i < 9
    ensures EntryValues(ReadEntry(s))[i] == Shaped(ENTRY_LAYOUT[i], Unpack(ENTRY_LAYOUT, s)[i])
  {
    hide Unpack, Size, NumOf, RawOf;
    if i < 3 {
    } else if i < 6 {
    } else {
    }
  }

  function Shaped(k: Kind, v: Value): Value {
    if k.U? then Num(NumOf(v)) else Raw(RawOf(v))
  }

  /** Values that say what these say in the form that the layout asks for. */
  lemma SameFields(ks: seq<Kind>, vs: seq<Value>, ws: seq<Value>)
    requires FitsAll(ks, vs) && |ws| == |ks|
    requires forall i :: 0 <= i < |ks| ==> ws[i] == Shaped(ks[i], vs[i])
    ensures FitsAll(ks, ws)
  {
    hide Pow256;
    forall i | 0 <= i < |ks| ensures FitsField(ks[i], ws[i]) {
      assert FitsField(ks[i], vs[i]);
    }
  }

  // ---------------------------------------------------------------- the checks of opening

  /** _addu64: the sum, unless it wraps around. */
  function Addu64(a: nat, b: nat): Option<nat> {
    var c := (a + b) % 0x1_0000_0000_0000_0000;
    if b == 0 || c > a then Some(c) else None
  }

  predicate EndsWithin(start: nat, size: nat, limit: nat) {
    var end := Addu64(start, size);
    end.Some? && end.value <= limit
  }

  lemma EndsWithinIs(start: nat, size: nat, limit: nat)
    requires start + size < 0x1_0000_0000_0000_0000
    ensures EndsWithin(start, size, limit) <==> start + size <= limit
  {
  }

  /** The fields of the file header that never change after k_pres_create. */
  predicate Recognised(k: Kit, h: Hdr) {
    && h.magic == MAGIC && h.version == VERSION
    && 0 < h.hashFunction < HASHSUM_MAX && 0 < (h.hashSize + 7) / 8 <= MAX_DIGEST
    && (h.hashSize + 7) / 8 == k.digestBytes
    && h.cipherMode < CIPHER_MODE_MAX
    && (if h.cipherMode != 0 then 0 < h.cipher < BLK_CIPHER_MAX else h.cipher == 0 || h.cipher < STREAM_CIPHER_MAX)
    && (h.cipher != 0 ==> h.keySize != 0)
    && Names(k.enc, h.cipher, h.cipherMode)
  }

  /** The number of a mode in enum bcmode_e. */
  function ModeNumber(m: Mode): nat {
    match m
    case NOOP => 0
    case ECB => 1
    case CBC => 2
    case CFB => 3
    case OFB => 4
    case CTR => 5
  }

  /** _init_streamcipher makes this cipher for these header fields; it makes none for a mode
      without a keystream. */
  predicate Names(e: Option<Enc>, cipher: nat, cipherMode: nat) {
    match e
    case None => cipher == 0 && cipherMode == 0
    case Some(s) => cipher != 0 && cipherMode == ModeNumber(s.m)
  }

  /** _verify_file_header */
  predicate CheckHdr(k: Kit, raw: Bytes, fileLength: nat)
    requires KitOk(k) && |raw| == SZ_HEADER
  {
    var h := ReadHdr(raw);
    HdrIv(raw);
    && Recognised(k, h) && h.fileSize == fileLength
    && k.digest(raw[..SZ_HEADER - MAX_DIGEST]) == h.digest[..k.digestBytes]
    && EndsWithin(h.dhdrStart, h.dhdrSize, h.fileSize)
  }

  /** _verify_detached_header */
  predicate CheckDhdr(k: Kit, raw: Bytes, fileSize: nat)
    requires KitOk(k) && |raw| == SZ_DHDR
  {
    var d := ReadDhdr(raw);
    DhdrIv(raw);
    && k.digest(raw[..SZ_DHDR - MAX_DIGEST]) == d.digest[..k.digestBytes]
    && EndsWithin(d.rtblStart, d.rtblSize, fileSize) && EndsWithin(d.poolStart, d.poolSize, fileSize)
  }

  /** _verify_rtbl */
  predicate CheckRtbl(k: Kit, raw: Bytes)
    requires KitOk(k) && |raw| == SZ_RTBL
  {
    RtblField(raw);
    k.digest(raw[..SZ_RTBL - MAX_DIGEST]) == ReadRtbl(raw).digest[..k.digestBytes]
  }

  /** The body of the loop in _verify_rtbl_entries: deleted entries are not looked at. */
  predicate CheckEntry(k: Kit, raw: Bytes, poolStart: nat, fileSize: nat)
    requires KitOk(k) && |raw| == SZ_ENTRY
  {
    var e := ReadEntry(raw);
    EntryField(raw);
    e.id == 0 ||
    (k.digest(raw[..SZ_ENTRY - MAX_DIGEST]) == e.digest[..k.digestBytes]
     && EndsWithin((e.dataOffset + poolStart) % 0x1_0000_0000_0000_0000, e.dataSize, fileSize))
  }

  // ---------------------------------------------------------------- tables of entries

  ghost predicate EntriesFit(t: seq<Entry>) {
    forall i :: 0 <= i < |t| ==> EntryFits(t[i])
  }

  function PackTable(t: seq<Entry>): (s: Bytes)
    requires EntriesFit(t)
    ensures |s| == |t| * SZ_ENTRY
  {
    if t == [] then [] else PackEntry(t[0]) + PackTable(t[1..])
  }

  function ReadTable(s: Bytes, n: nat): (t: seq<Entry>)
    requires |s| == n * SZ_ENTRY
    ensures |t| == n
  {
    if n == 0 then [] else [ReadEntry(s[..SZ_ENTRY])] + ReadTable(s[SZ_ENTRY..], n - 1)
  }

  predicate CheckTable(k: Kit, s: Bytes, n: nat, poolStart: nat, fileSize: nat)
    requires KitOk(k) && |s| == n * SZ_ENTRY
    decreases n
  {
    n == 0 || (CheckEntry(k, s[..SZ_ENTRY], poolStart, fileSize)
        && CheckTable(k, s[SZ_ENTRY..], n - 1, poolStart, fileSize))
  }

  lemma {:induction false} TableRoundTrip(t: seq<Entry>)
    requires EntriesFit(t)
    ensures ReadTable(PackTable(t), |t|) == t
  {
    hide EntryFits, PackEntry, ReadEntry;
    if t != [] {
      var s := PackTable(t);
      EntryRoundTrip(t[0]);
      TableRoundTrip(t[1..]);
      assert s[..SZ_ENTRY] == PackEntry(t[0]);
      assert s[SZ_ENTRY..] == PackTable(t[1..]);
    }
  }

  // ---------------------------------------------------------------- opening

  /** _pres_open_key: the headers and the table, each decoded and checked. */
  function Parse(k: Kit, file: Bytes): (r: Option<Opened>)
    requires KitOk(k)
  {
    if |file| < SZ_HEADER + SZ_DHDR || !CheckHdr(k, file[..SZ_HEADER], |file|) then None
    else
      HdrIv(file[..SZ_HEADER]);
      var h := ReadHdr(file[..SZ_HEADER]);
      var raw := Coded(k.enc, h.dhdrIv, 0, file[SZ_HEADER..SZ_HEADER + SZ_DHDR]);
      if !CheckDhdr(k, raw, h.fileSize) then None
      else
        DhdrIv(raw);
        var t := ParseTable(k, file, h, ReadDhdr(raw));
        if t.None? then None else Some(Opened(h, ReadDhdr(raw), t.value.0, t.value.1))
  }

  /** _get_rtbl: one run of the stream cipher, read in two calls. */
  function ParseTable(k: Kit, file: Bytes, h: Hdr, d: Dhdr): (r: Option<(Rtbl, seq<Entry>)>)
    requires KitOk(k) && |d.rtblIv| == MAX_IV
  {
    var at := d.rtblStart;
    if at + SZ_RTBL > |file| then None
    else
      var raw := Coded(k.enc, d.rtblIv, 0, file[at..at + SZ_RTBL]);
      var n := ReadRtbl(raw).entries;
      var end := at + SZ_RTBL + n * SZ_ENTRY;
      if !CheckRtbl(k, raw) || end > |file| then None
      else
        var entries := Coded(k.enc, d.rtblIv, SZ_RTBL, file[at + SZ_RTBL..end]);
        if !CheckTable(k, entries, n, d.poolStart, h.fileSize) then None
        else Some((ReadRtbl(raw), ReadTable(entries, n)))
  }

  // ---------------------------------------------------------------- closing

  ghost predicate OpenedFits(o: Opened) {
    && HdrFits(o.hdr) && DhdrFits(o.dhdr) && RtblFits(o.rtbl) && EntriesFit(o.table)
    && |o.hdr.dhdrIv| == |o.dhdr.rtblIv| == MAX_IV
  }

  function HeaderBytes(o: Opened): (s: Bytes)
    requires OpenedFits(o)
    ensures |s| == SZ_HEADER
  {
    PackHdr(o.hdr)
  }

  function DetachedBytes(k: Kit, o: Opened): (s: Bytes)
    requires KitOk(k) && OpenedFits(o)
    ensures |s| == SZ_DHDR
  {
    Coded(k.enc, o.hdr.dhdrIv, 0, PackDhdr(o.dhdr))
  }

  /** The head and all entries of the table, coded in one call. */
  function TableBytes(k: Kit, o: Opened): (s: Bytes)
    requires KitOk(k) && OpenedFits(o)
    ensures |s| == SZ_RTBL + |o.table| * SZ_ENTRY
  {
    Coded(k.enc, o.dhdr.rtblIv, 0, PackRtbl(o.rtbl) + PackTable(o.table))
  }

  /** The file after the three writes of _commit_and_close. */
  function ClosedImage(k: Kit, o: Opened, image: Bytes): Bytes
    requires KitOk(k) && OpenedFits(o)
  {
    WriteAt(WriteAt(WriteAt(image, 0, HeaderBytes(o)), SZ_HEADER, DetachedBytes(k, o)), o.dhdr.rtblStart,
        TableBytes(k, o))
  }

  // ---------------------------------------------------------------- the round trip

  lemma {:induction false} TableReadFits(s: Bytes, n: nat)
    requires |s| == n * SZ_ENTRY
    ensures EntriesFit(ReadTable(s, n))
  {
    hide EntryFits, ReadEntry;
    if n > 0 {
      EntryReadFits(s[..SZ_ENTRY]);
      TableReadFits(s[SZ_ENTRY..], n - 1);
    }
  }

  /** Whatever is read fits its fields. */
  lemma ParsedFits(k: Kit, file: Bytes)
    requires KitOk(k) && Parse(k, file).Some?
    ensures var o := Parse(k, file).value; OpenedFits(o) && o.rtbl.entries == |o.table|
  {
    hide HdrFits, DhdrFits, RtblFits, EntryFits, ReadHdr, ReadDhdr, ReadRtbl, CheckHdr, CheckDhdr, CheckRtbl,
         CheckTable, EncOk, Coded, ReadTable;
    var h := ReadHdr(file[..SZ_HEADER]);
    HdrIv(file[..SZ_HEADER]);
    HdrReadFits(file[..SZ_HEADER]);
    var raw := Coded(k.enc, h.dhdrIv, 0, file[SZ_HEADER..SZ_HEADER + SZ_DHDR]);
    DhdrIv(raw);
    DhdrReadFits(raw);
    ParsedTableFits(k, file, h, ReadDhdr(raw));
  }

  lemma ParsedTableFits(k: Kit, file: Bytes, h: Hdr, d: Dhdr)
    requires KitOk(k) && |d.rtblIv| == MAX_IV && ParseTable(k, file, h, d).Some?
    ensures var t := ParseTable(k, file, h, d).value; RtblFits(t.0) && EntriesFit(t.1) && t.0.entries == |t.1|
  {
    hide RtblFits, EntryFits, ReadRtbl, CheckRtbl, CheckTable, EncOk, Coded, ReadTable;
    var at := d.rtblStart;
    var raw := Coded(k.enc, d.rtblIv, 0, file[at..at + SZ_RTBL]);
    RtblReadFits(raw);
    var n := ReadRtbl(raw).entries;
    TableReadFits(Coded(k.enc, d.rtblIv, SZ_RTBL, file[at + SZ_RTBL..at + SZ_RTBL + n * SZ_ENTRY]), n);
  }

  lemma AcceptedMagic(k: Kit, file: Bytes)
    requires KitOk(k) && Parse(k, file).Some?
    ensures |file| >= SZ_HEADER && ReadHdr(file[..SZ_HEADER]).magic == MAGIC
  {
    hide ReadHdr, ReadDhdr, EncOk, Coded, CheckDhdr, ParseTable, EndsWithin, Names;
  }

  /** All accepted files begin with the magic number. */
  lemma MagicStart(k: Kit, file: Bytes)
    requires KitOk(k) && Parse(k, file).Some?
    ensures |file| >= 8 && file[..8] == LeBytes(MAGIC, 8)
  {
    hide KitOk, Parse, ReadHdr, LeValue, LeBytes, Size;
    AcceptedMagic(k, file);
    var raw := file[..SZ_HEADER];
    HdrSize();
    MagicField(raw);
    LeBytesOfValue(raw[..8]);
    assert raw[..8] == file[..8];
  }

  lemma MagicField(raw: Bytes)
    requires |raw| == SZ_HEADER == Size(HDR_LAYOUT)
    ensures ReadHdr(raw).magic == LeValue(raw[..8])
  {
    hide LeValue, Size;
    assert HDR_LAYOUT[0] == U(8);
  }

  /** All digests are what the hash function says. */
  ghost predicate Sealed(k: Kit, o: Opened)
    requires KitOk(k) && OpenedFits(o)
  {
    && |o.hdr.digest| == |o.dhdr.digest| == |o.rtbl.digest| == MAX_DIGEST
    && k.digest(PackHdr(o.hdr)[..SZ_HEADER - MAX_DIGEST]) == o.hdr.digest[..k.digestBytes]
    && k.digest(PackDhdr(o.dhdr)[..SZ_DHDR - MAX_DIGEST]) == o.dhdr.digest[..k.digestBytes]
    && k.digest(PackRtbl(o.rtbl)[..SZ_RTBL - MAX_DIGEST]) == o.rtbl.digest[..k.digestBytes]
    && forall i :: 0 <= i < |o.table| ==> EntrySealed(k, o.table[i])
  }

  ghost predicate EntrySealed(k: Kit, e: Entry)
    requires KitOk(k) && EntryFits(e)
  {
    && |e.digest| == MAX_DIGEST
    && k.digest(PackEntry(e)[..SZ_ENTRY - MAX_DIGEST]) == e.digest[..k.digestBytes]
  }

  /** Headers and table say where everything lies: the pool, then the table, then the end. */
  ghost predicate Laid(o: Opened) {
    && o.rtbl.entries == |o.table| && o.hdr.dhdrStart == SZ_HEADER && o.hdr.dhdrSize == SZ_DHDR
    && o.dhdr.rtblSize == SZ_RTBL && o.dhdr.poolStart >= SZ_HEADER + SZ_DHDR
    && o.dhdr.poolStart + o.dhdr.poolSize == o.dhdr.rtblStart <= MAX_FILE
    && o.hdr.fileSize == o.dhdr.rtblStart + SZ_RTBL + |o.table| * SZ_ENTRY
    && SZ_RTBL + |o.table| * SZ_ENTRY <= MAX_TABLE
    && TableOk(o.table, o.dhdr.poolSize)
  }

  /** The three writes side by side, and the length of the file: leftover bytes behind the
      table stay. */
  lemma ClosedParts(k: Kit, o: Opened, image: Bytes)
    requires KitOk(k) && OpenedFits(o) && Laid(o)
    ensures var file := ClosedImage(k, o, image);
      && |file| == (if |image| > o.hdr.fileSize then |image| else o.hdr.fileSize)
      && FoundAt(file, 0, HeaderBytes(o)) && FoundAt(file, SZ_HEADER, DetachedBytes(k, o))
      && FoundAt(file, o.dhdr.rtblStart, TableBytes(k, o))
  {
    hide KitOk, OpenedFits, FoundAt, TableOk, WriteAt, HeaderBytes, DetachedBytes, TableBytes;
    var h, d, t, at := HeaderBytes(o), DetachedBytes(k, o), TableBytes(k, o), o.dhdr.rtblStart;
    var one := WriteAt(image, 0, h);
    var two := WriteAt(one, SZ_HEADER, d);
    WriteFound(image, 0, h);
    WriteFound(one, SZ_HEADER, d);
    WriteFound(two, at, t);
    WriteSpares(one, SZ_HEADER, d, 0, h);
    WriteSpares(two, at, t, 0, h);
    WriteSpares(two, at, t, SZ_HEADER, d);
  }

  /** Bytes of the pool survive closing. */
  lemma ClosedKeepsPool(k: Kit, o: Opened, image: Bytes, pool: Bytes)
    requires KitOk(k) && OpenedFits(o) && Laid(o)
    requires |pool| == o.dhdr.poolSize && FoundAt(image, o.dhdr.poolStart, pool)
    ensures FoundAt(ClosedImage(k, o, image), o.dhdr.poolStart, pool)
  {
    hide KitOk, OpenedFits, FoundAt, TableOk, WriteAt, HeaderBytes, DetachedBytes, TableBytes;
    var h, d, t, at := HeaderBytes(o), DetachedBytes(k, o), TableBytes(k, o), o.dhdr.rtblStart;
    WriteSpares(image, 0, h, o.dhdr.poolStart, pool);
    WriteSpares(WriteAt(image, 0, h), SZ_HEADER, d, o.dhdr.poolStart, pool);
    WriteSpares(WriteAt(WriteAt(image, 0, h), SZ_HEADER, d), at, t, o.dhdr.poolStart, pool);
  }

  lemma CheckHdrIs(k: Kit, o: Opened, length: nat)
    requires KitOk(k) && OpenedFits(o) && Sealed(k, o) && Laid(o)
    ensures CheckHdr(k, PackHdr(o.hdr), length) <==> Recognised(k, o.hdr) && o.hdr.fileSize == length
  {
    hide HdrFits, DhdrFits, RtblFits, EntriesFit, TableOk, PackHdr, Recognised;
    HdrRoundTrip(o.hdr);
    EndsWithinIs(o.hdr.dhdrStart, o.hdr.dhdrSize, o.hdr.fileSize);
  }

  lemma CheckDhdrPasses(k: Kit, o: Opened)
    requires KitOk(k) && OpenedFits(o) && Sealed(k, o) && Laid(o)
    ensures CheckDhdr(k, PackDhdr(o.dhdr), o.hdr.fileSize)
  {
    hide HdrFits, DhdrFits, RtblFits, EntriesFit, TableOk, PackDhdr;
    DhdrRoundTrip(o.dhdr);
    EndsWithinIs(o.dhdr.rtblStart, o.dhdr.rtblSize, o.hdr.fileSize);
    EndsWithinIs(o.dhdr.poolStart, o.dhdr.poolSize, o.hdr.fileSize);
  }

  lemma CheckRtblPasses(k: Kit, o: Opened)
    requires KitOk(k) && OpenedFits(o) && Sealed(k, o)
    ensures CheckRtbl(k, PackRtbl(o.rtbl)) && ReadRtbl(PackRtbl(o.rtbl)) == o.rtbl
  {
    hide HdrFits, DhdrFits, RtblFits, EntriesFit, PackRtbl;
    RtblRoundTrip(o.rtbl);
  }

  lemma CheckEntryPasses(k: Kit, e: Entry, poolStart: nat, fileSize: nat)
    requires KitOk(k) && EntryFits(e) && EntrySealed(k, e) && fileSize < TWO64
    requires Live(e) ==> poolStart + e.dataOffset + e.dataSize <= fileSize
    ensures CheckEntry(k, PackEntry(e), poolStart, fileSize)
  {
    hide EntryFits, PackEntry;
    EntryRoundTrip(e);
    if Live(e) {
      EndsWithinIs(poolStart + e.dataOffset, e.dataSize, fileSize);
    }
  }

  lemma {:induction false} CheckTablePasses(k: Kit, t: seq<Entry>, poolStart: nat, fileSize: nat)
    requires KitOk(k) && EntriesFit(t) && fileSize < TWO64
    requires forall i :: 0 <= i < |t| ==> EntrySealed(k, t[i])
    requires forall i :: 0 <= i < |t| && Live(t[i]) ==> poolStart + t[i].dataOffset + t[i].dataSize <= fileSize
    ensures CheckTable(k, PackTable(t), |t|, poolStart, fileSize)
  {
    hide KitOk, EntryFits, PackEntry, EntrySealed, CheckEntry;
    if t != [] {
      CheckEntryPasses(k, t[0], poolStart, fileSize);
      CheckTablePasses(k, t[1..], poolStart, fileSize);
      var s := PackTable(t);
      assert s[..SZ_ENTRY] == PackEntry(t[0]);
      assert s[SZ_ENTRY..] == PackTable(t[1..]);
    }
  }

  /** One coding call over the whole table comes apart into the two calls that read it. */
  lemma TwoCalls(e: Option<Enc>, iv: Bytes, head: Bytes, rest: Bytes)
    requires EncOk(e) && |iv| == MAX_IV
    ensures var t := Coded(e, iv, 0, head + rest);
      && Coded(e, iv, 0, t[..|head|]) == head
      && Coded(e, iv, |head|, t[|head|..]) == rest
  {
    hide EncOk, Coded;
    CodedSplit(e, iv, 0, head, rest);
    CodedTwice(e, iv, 0, head);
    CodedTwice(e, iv, |head|, rest);
  }

  lemma TableRead(k: Kit, o: Opened, file: Bytes)
    requires KitOk(k) && OpenedFits(o) && Laid(o)
    requires FoundAt(file, o.dhdr.rtblStart, TableBytes(k, o)) && |file| == o.hdr.fileSize
    ensures var at := o.dhdr.rtblStart;
      && Coded(k.enc, o.dhdr.rtblIv, 0, file[at..at + SZ_RTBL]) == PackRtbl(o.rtbl)
      && Coded(k.enc, o.dhdr.rtblIv, SZ_RTBL, file[at + SZ_RTBL..o.hdr.fileSize]) == PackTable(o.table)
  {
    hide HdrFits, DhdrFits, RtblFits, EntriesFit, TableOk, FoundAt, EncOk, Coded, PackRtbl, PackTable;
    var at, t := o.dhdr.rtblStart, TableBytes(k, o);
    FoundReads(file, at, t);
    TwoCalls(k.enc, o.dhdr.rtblIv, PackRtbl(o.rtbl), PackTable(o.table));
    assert file[at..at + SZ_RTBL] == t[..SZ_RTBL];
    assert file[at + SZ_RTBL..o.hdr.fileSize] == t[SZ_RTBL..];
  }

  lemma TableChecks(k: Kit, o: Opened)
    requires KitOk(k) && OpenedFits(o) && Sealed(k, o) && Laid(o)
    ensures CheckTable(k, PackTable(o.table), |o.table|, o.dhdr.poolStart, o.hdr.fileSize)
  {
    hide HdrFits, DhdrFits, RtblFits, KitOk, PackTable, CheckTable, EntrySealed, EntryFits;
    CheckTablePasses(k, o.table, o.dhdr.poolStart, o.hdr.fileSize);
  }

  lemma ParseTablePasses(k: Kit, o: Opened, file: Bytes)
    requires KitOk(k) && OpenedFits(o) && Sealed(k, o) && Laid(o)
    requires FoundAt(file, o.dhdr.rtblStart, TableBytes(k, o)) && |file| == o.hdr.fileSize
    ensures ParseTable(k, file, o.hdr, o.dhdr) == Some((o.rtbl, o.table))
  {
    hide HdrFits, DhdrFits, RtblFits, EntriesFit, TableOk, KitOk, Sealed, FoundAt, Coded, PackRtbl, PackTable,
         ReadTable, CheckTable, CheckRtbl, TableBytes;
    TableRead(k, o, file);
    CheckRtblPasses(k, o);
    TableChecks(k, o);
    TableRoundTrip(o.table);
  }

  /** Opening what closing wrote gives everything back, exactly when the header fields are
      recognised and no leftover bytes make the file longer than it says. */
  lemma CloseThenOpen(k: Kit, o: Opened, image: Bytes)
    requires KitOk(k) && OpenedFits(o) && Sealed(k, o) && Laid(o)
    ensures var r := Parse(k, ClosedImage(k, o, image));
      if Recognised(k, o.hdr) && |image| <= o.hdr.fileSize then r == Some(o) else r == None
  {
    hide KitOk, OpenedFits, Sealed, TableOk, FoundAt, HeaderBytes, DetachedBytes, TableBytes, ClosedImage, CheckHdr,
         CheckDhdr, ParseTable, Recognised;
    var file := ClosedImage(k, o, image);
    ClosedParts(k, o, image);
    HeadersRead(k, o, file);
    CheckHdrIs(k, o, |file|);
    if Recognised(k, o.hdr) && |image| <= o.hdr.fileSize {
      CheckDhdrPasses(k, o);
      ParseTablePasses(k, o, file);
    }
  }

  lemma HeadersRead(k: Kit, o: Opened, file: Bytes)
    requires KitOk(k) && OpenedFits(o) && |file| >= SZ_HEADER + SZ_DHDR
    requires FoundAt(file, 0, HeaderBytes(o)) && FoundAt(file, SZ_HEADER, DetachedBytes(k, o))
    ensures file[..SZ_HEADER] == PackHdr(o.hdr) && ReadHdr(PackHdr(o.hdr)) == o.hdr && |o.hdr.dhdrIv| == MAX_IV
    ensures Coded(k.enc, o.hdr.dhdrIv, 0, file[SZ_HEADER..SZ_HEADER + SZ_DHDR]) == PackDhdr(o.dhdr)
    ensures ReadDhdr(PackDhdr(o.dhdr)) == o.dhdr
  {
    hide HdrFits, DhdrFits, RtblFits, EntriesFit, FoundAt, Coded, EncOk, PackHdr, PackDhdr;
    FoundReads(file, 0, HeaderBytes(o));
    FoundReads(file, SZ_HEADER, DetachedBytes(k, o));
    HdrRoundTrip(o.hdr);
    DhdrRoundTrip(o.dhdr);
    CodedTwice(k.enc, o.hdr.dhdrIv, 0, PackDhdr(o.dhdr));
  }

  // ---------------------------------------------------------------- sealing

  /** A new nonce in an IV field. */
  function NewIv(e: Option<Enc>, iv: Bytes, nonce: Bytes): (r: Bytes)
    requires |iv| == MAX_IV && (e.Some? ==> |nonce| <= MAX_IV)
    ensures |r| == MAX_IV
  {
    if e.Some? then Patch(iv, 0, nonce) else iv
  }

  function SealHdr(k: Kit, h: Hdr): Hdr
    requires KitOk(k) && HdrFits(h) && |h.digest| == MAX_DIGEST
  {
    h.(digest := PutDigest(h.digest, k.digest(PackHdr(h)[..SZ_HEADER - MAX_DIGEST])))
  }

  function SealDhdr(k: Kit, d: Dhdr): Dhdr
    requires KitOk(k) && DhdrFits(d) && |d.digest| == MAX_DIGEST
  {
    d.(digest := PutDigest(d.digest, k.digest(PackDhdr(d)[..SZ_DHDR - MAX_DIGEST])))
  }

  function SealRtbl(k: Kit, r: Rtbl): Rtbl
    requires KitOk(k) && RtblFits(r) && |r.digest| == MAX_DIGEST
  {
    r.(digest := PutDigest(r.digest, k.digest(PackRtbl(r)[..SZ_RTBL - MAX_DIGEST])))
  }

  function SealEntry(k: Kit, e: Entry): Entry
    requires KitOk(k) && EntryFits(e)
  {
    EntryParts(e);
    e.(digest := PutDigest(e.digest, k.digest(PackEntry(e)[..SZ_ENTRY - MAX_DIGEST])))
  }

  lemma EntryParts(e: Entry)
    requires EntryFits(e)
    ensures |e.digest| == |e.dataDigest| == MAX_DIGEST && |e.dataIv| == MAX_IV
  {
    hide FitsAll;
    FieldFits(ENTRY_LAYOUT, EntryValues(e), 5);
    FieldFits(ENTRY_LAYOUT, EntryValues(e), 6);
    FieldFits(ENTRY_LAYOUT, EntryValues(e), 8);
  }

  lemma HdrParts(h: Hdr)
    requires HdrFits(h)
    ensures |h.digest| == MAX_DIGEST && |h.dhdrIv| == MAX_IV
  {
    hide FitsAll;
    FieldFits(HDR_LAYOUT, HdrValues(h), 12);
    FieldFits(HDR_LAYOUT, HdrValues(h), 14);
  }

  lemma DhdrParts(d: Dhdr)
    requires DhdrFits(d)
    ensures |d.digest| == MAX_DIGEST && |d.rtblIv| == MAX_IV
  {
    hide FitsAll;
    FieldFits(DHDR_LAYOUT, DhdrValues(d), 4);
    FieldFits(DHDR_LAYOUT, DhdrValues(d), 5);
  }

  lemma HdrIvFits(h: Hdr, iv: Bytes)
    requires HdrFits(h) && |iv| == MAX_IV
    ensures HdrFits(h.(dhdrIv := iv))
  {
    hide Pow256;
    var v, w := HdrValues(h), HdrValues(h.(dhdrIv := iv));
    forall i | 0 <= i < |w| ensures FitsField(HDR_LAYOUT[i], w[i]) {
      assert FitsField(HDR_LAYOUT[i], v[i]);
      assert i != 12 ==> v[i] == w[i];
    }
  }

  lemma DhdrIvFits(d: Dhdr, iv: Bytes)
    requires DhdrFits(d) && |iv| == MAX_IV
    ensures DhdrFits(d.(rtblIv := iv))
  {
    hide Pow256;
    var v, w := DhdrValues(d), DhdrValues(d.(rtblIv := iv));
    forall i | 0 <= i < |w| ensures FitsField(DHDR_LAYOUT[i], w[i]) {
      assert FitsField(DHDR_LAYOUT[i], v[i]);
    }
  }

  ghost function SealTable(k: Kit, t: seq<Entry>): (r: seq<Entry>)
    requires KitOk(k) && EntriesFit(t)
    ensures |r| == |t|
  {
    seq(|t|, i requires 0 <= i < |t| => SealEntry(k, t[i]))
  }

  lemma SealedEntry(k: Kit, e: Entry)
    requires KitOk(k) && EntryFits(e)
    ensures EntryFits(SealEntry(k, e)) && EntrySealed(k, SealEntry(k, e))
    ensures SealEntry(k, e) == e.(digest := SealEntry(k, e).digest)
  {
    hide EntryFits, PackEntry;
    EntryParts(e);
    DigestCoverEntry(e, SealEntry(k, e).digest);
  }

  lemma SealedHdr(k: Kit, h: Hdr)
    requires KitOk(k) && HdrFits(h) && |h.digest| == MAX_DIGEST
    ensures var s := SealHdr(k, h);
      && HdrFits(s) && |s.digest| == MAX_DIGEST && s == h.(digest := s.digest)
      && k.digest(PackHdr(s)[..SZ_HEADER - MAX_DIGEST]) == s.digest[..k.digestBytes]
  {
    hide HdrFits, PackHdr;
    DigestCoverHdr(h, SealHdr(k, h).digest);
  }

  lemma SealedDhdr(k: Kit, d: Dhdr)
    requires KitOk(k) && DhdrFits(d) && |d.digest| == MAX_DIGEST
    ensures var s := SealDhdr(k, d);
      && DhdrFits(s) && |s.digest| == MAX_DIGEST && s == d.(digest := s.digest)
      && k.digest(PackDhdr(s)[..SZ_DHDR - MAX_DIGEST]) == s.digest[..k.digestBytes]
  {
    hide DhdrFits, PackDhdr;
    DigestCoverDhdr(d, SealDhdr(k, d).digest);
  }

  lemma SealedRtbl(k: Kit, r: Rtbl)
    requires KitOk(k) && RtblFits(r) && |r.digest| == MAX_DIGEST
    ensures var s := SealRtbl(k, r);
      && RtblFits(s) && |s.digest| == MAX_DIGEST && s.entries == r.entries
      && k.digest(PackRtbl(s)[..SZ_RTBL - MAX_DIGEST]) == s.digest[..k.digestBytes]
  {
    hide RtblFits, PackRtbl;
    DigestCoverRtbl(r, SealRtbl(k, r).digest);
  }

  /** Sealing the entries changes nothing but their digests. */
  lemma SealedTable(k: Kit, t: seq<Entry>, poolSize: nat)
    requires KitOk(k) && EntriesFit(t) && TableOk(t, poolSize)
    ensures var s := SealTable(k, t);
      && EntriesFit(s) && TableOk(s, poolSize) && (forall i :: 0 <= i < |s| ==> EntrySealed(k, s[i]))
      && (forall i :: 0 <= i < |s| ==> s[i] == t[i].(digest := s[i].digest))
  {
    hide KitOk, EntryFits, EntrySealed, SealEntry;
    var s := SealTable(k, t);
    forall i | 0 <= i < |s|
      ensures EntryFits(s[i]) && EntrySealed(k, s[i]) && s[i] == t[i].(digest := s[i].digest)
    {
      SealedEntry(k, t[i]);
    }
  }

  lemma RtblHeadFits(n: nat, digest: Bytes)
    requires n < TWO64 && |digest| == MAX_DIGEST
    ensures RtblFits(Rtbl(n, digest))
  {
    hide Pow256;
    NumberFits(n);
    var v := RtblValues(Rtbl(n, digest));
    forall i | 0 <= i < |v| ensures FitsField(RTBL_LAYOUT[i], v[i]) {
    }
  }

  // ---------------------------------------------------------------- what closing writes

  ghost predicate Closable(k: Kit, b: Books, rtblDigest: Bytes, n1: Bytes, n2: Bytes) {
    && KitOk(k) && Consistent(b) && |rtblDigest| == MAX_DIGEST
    && (k.enc.Some? ==> |n1| == |n2| == k.enc.value.c.size)
  }

  ghost function FinalHdr(k: Kit, b: Books, n1: Bytes): Hdr
    requires KitOk(k) && HdrFits(b.hdr) && (k.enc.Some? ==> |n1| == k.enc.value.c.size)
  {
    HdrParts(b.hdr);
    HdrIvFits(b.hdr, NewIv(k.enc, b.hdr.dhdrIv, n1));
    SealHdr(k, b.hdr.(dhdrIv := NewIv(k.enc, b.hdr.dhdrIv, n1)))
  }

  ghost function FinalDhdr(k: Kit, b: Books, n2: Bytes): Dhdr
    requires KitOk(k) && DhdrFits(b.dhdr) && (k.enc.Some? ==> |n2| == k.enc.value.c.size)
  {
    DhdrParts(b.dhdr);
    DhdrIvFits(b.dhdr, NewIv(k.enc, b.dhdr.rtblIv, n2));
    SealDhdr(k, b.dhdr.(rtblIv := NewIv(k.enc, b.dhdr.rtblIv, n2)))
  }

  lemma BooksFit(b: Books)
    requires Consistent(b)
    ensures HdrFits(b.hdr) && DhdrFits(b.dhdr) && EntriesFit(b.table) && b.entries <= |b.table|
    ensures EntriesFit(b.table[..b.entries]) && b.entries < TWO64 && TableOk(b.table[..b.entries], b.poolSize)
  {
    hide HdrFits, DhdrFits, EntryFits, TableOk;
  }

  /** The headers and the table as _commit_and_close writes them. */
  ghost function Final(k: Kit, b: Books, rtblDigest: Bytes, n1: Bytes, n2: Bytes): Opened
    requires Closable(k, b, rtblDigest, n1, n2)
  {
    BooksFit(b);
    RtblHeadFits(b.entries, rtblDigest);
    Opened(FinalHdr(k, b, n1), FinalDhdr(k, b, n2), SealRtbl(k, Rtbl(b.entries, rtblDigest)),
           SealTable(k, b.table[..b.entries]))
  }

  /** They are consistent, and say the same as the books. */
  lemma FinalOk(k: Kit, b: Books, rtblDigest: Bytes, n1: Bytes, n2: Bytes)
    requires Closable(k, b, rtblDigest, n1, n2)
    ensures var o := Final(k, b, rtblDigest, n1, n2);
      && OpenedFits(o) && Sealed(k, o) && Laid(o)
      && o.hdr == b.hdr.(dhdrIv := o.hdr.dhdrIv, digest := o.hdr.digest)
      && o.dhdr == b.dhdr.(rtblIv := o.dhdr.rtblIv, digest := o.dhdr.digest)
      && (forall i :: 0 <= i < b.entries ==> o.table[i] == b.table[i].(digest := o.table[i].digest))
  {
    hide HdrFits, DhdrFits, RtblFits, EntriesFit, EntrySealed, SealHdr, SealDhdr, SealRtbl, SealTable, TableOk,
         PackHdr, PackDhdr, PackRtbl, PackEntry, NewIv;
    FinalHeaders(k, b, n1, n2);
    BooksFit(b);
    RtblHeadFits(b.entries, rtblDigest);
    SealedRtbl(k, Rtbl(b.entries, rtblDigest));
    SealedTable(k, b.table[..b.entries], b.poolSize);
  }

  lemma FinalHeaders(k: Kit, b: Books, n1: Bytes, n2: Bytes)
    requires KitOk(k) && HdrFits(b.hdr) && DhdrFits(b.dhdr) && (k.enc.Some? ==> |n1| == |n2| == k.enc.value.c.size)
    ensures var h := FinalHdr(k, b, n1);
      && HdrFits(h) && |h.digest| == MAX_DIGEST && |h.dhdrIv| == MAX_IV
      && h == b.hdr.(dhdrIv := h.dhdrIv, digest := h.digest)
      && k.digest(PackHdr(h)[..SZ_HEADER - MAX_DIGEST]) == h.digest[..k.digestBytes]
    ensures var d := FinalDhdr(k, b, n2);
      && DhdrFits(d) && |d.digest| == MAX_DIGEST && |d.rtblIv| == MAX_IV
      && d == b.dhdr.(rtblIv := d.rtblIv, digest := d.digest)
      && k.digest(PackDhdr(d)[..SZ_DHDR - MAX_DIGEST]) == d.digest[..k.digestBytes]
  {
    hide HdrFits, DhdrFits, SealHdr, SealDhdr, PackHdr, PackDhdr, NewIv;
    HdrParts(b.hdr);
    DhdrParts(b.dhdr);
    HdrIvFits(b.hdr, NewIv(k.enc, b.hdr.dhdrIv, n1));
    DhdrIvFits(b.dhdr, NewIv(k.enc, b.dhdr.rtblIv, n2));
    SealedHdr(k, b.hdr.(dhdrIv := NewIv(k.enc, b.hdr.dhdrIv, n1)));
    SealedDhdr(k, b.dhdr.(rtblIv := NewIv(k.enc, b.dhdr.rtblIv, n2)));
  }

  // ---------------------------------------------------------------- the books after opening

  /** The fields that opening fills in. */
  function BooksOf(o: Opened): Books {
    Books(o.hdr.fileSize, o.dhdr.rtblStart, o.rtbl.entries, o.dhdr.poolStart, o.dhdr.poolSize, o.hdr, o.dhdr,
        o.rtbl.entries, o.table)
  }

  lemma OpenedConsistent(o: Opened)
    requires OpenedFits(o) && Laid(o)
    ensures Consistent(BooksOf(o)) && Post(BooksOf(o)) == BooksOf(o)
  {
    hide HdrFits, DhdrFits, EntryFits, RtblFits, TableOk;
    assert o.table[..o.rtbl.entries] == o.table;
  }

  /** Closing and opening again gives every live resource back: the same id, uuid, name, place
      and size, and the same data. */
  lemma ResourceSurvives(k: Kit, b: Books, rtblDigest: Bytes, n1: Bytes, n2: Bytes, image: Bytes, pool: Bytes, i: nat)
    requires Closable(k, b, rtblDigest, n1, n2) && i < b.entries && i < |b.table| && Live(b.table[i])
    requires |pool| == b.poolSize && FoundAt(image, b.poolStart, pool) && |b.table[i].dataIv| == MAX_IV
    requires b.table[i].dataOffset + b.table[i].dataSize <= |pool|
    ensures var o := Final(k, b, rtblDigest, n1, n2);
      && OpenedFits(o) && Laid(o) && i < |o.table|
      && FoundAt(ClosedImage(k, o, image), o.dhdr.poolStart, pool)
      && (Parse(k, ClosedImage(k, o, image)) == Some(o) <==> Recognised(k, b.hdr) && |image| <= b.fileSize)
      && var e := o.table[i];
        && e == b.table[i].(digest := e.digest)
        && DataOf(k.enc, pool, e) == DataOf(k.enc, pool, b.table[i])
  {
    hide Consistent, OpenedFits, Sealed, FoundAt, ClosedImage, Parse, Coded, EncOk, TableOk, Final;
    var o := Final(k, b, rtblDigest, n1, n2);
    FinalOk(k, b, rtblDigest, n1, n2);
    ConsistentFacts(b);
    ClosedKeepsPool(k, o, image, pool);
    CloseThenOpen(k, o, image);
    SameRecognised(k, b.hdr, o.hdr);
  }

  /** The resources that an opened file gives access to. */
  ghost function Contents(k: Kit, file: Bytes): (r: Option<seq<Source>>)
    requires KitOk(k)
  {
    var p := Parse(k, file);
    if p.None? then None else Readout(k, file, p.value)
  }

  ghost function Readout(k: Kit, file: Bytes, o: Opened): (r: Option<seq<Source>>)
    requires KitOk(k)
  {
    var lo, hi := o.dhdr.poolStart, o.dhdr.poolStart + o.dhdr.poolSize;
    if hi > |file| || !TableReadable(k.enc, file[lo..hi], o.table) then None
    else Some(Sources(k.enc, file[lo..hi], o.table, |o.table|))
  }

  /** Closing and opening gives all live resources back, in order, with their names, uuids and
      data, exactly when the header fields are recognised and the file is not longer than the
      books say; otherwise the file is refused. */
  lemma AllSurvive(k: Kit, b: Books, rtblDigest: Bytes, n1: Bytes, n2: Bytes, image: Bytes, pool: Bytes)
    requires Closable(k, b, rtblDigest, n1, n2) && |pool| == b.poolSize && FoundAt(image, b.poolStart, pool)
    ensures b.entries <= |b.table| && TableReadable(k.enc, pool, b.table[..b.entries])
    ensures var o := Final(k, b, rtblDigest, n1, n2);
      && OpenedFits(o) && Laid(o) && o.dhdr.poolStart == b.poolStart && o.dhdr.poolSize == b.poolSize
      && var file := ClosedImage(k, o, image);
        && FoundAt(file, b.poolStart, pool) && b.poolStart + |pool| <= |file|
        && if Recognised(k, b.hdr) && |image| <= b.fileSize
        then Parse(k, file) == Some(o)
            && Contents(k, file) == Some(Sources(k.enc, pool, b.table[..b.entries], b.entries))
        else Parse(k, file) == None && Contents(k, file) == None
  {
    hide Consistent, OpenedFits, Sealed, FoundAt, ClosedImage, Parse, EncOk, TableOk, Final, Recognised,
         TableReadable, Readout, HeaderBytes, DetachedBytes, TableBytes;
    var o := Final(k, b, rtblDigest, n1, n2);
    FinalOk(k, b, rtblDigest, n1, n2);
    ConsistentFacts(b);
    ClosedKeepsPool(k, o, image, pool);
    ClosedParts(k, o, image);
    CloseThenOpen(k, o, image);
    SameRecognised(k, b.hdr, o.hdr);
    BooksReadable(k.enc, pool, b);
    SameReadout(k, ClosedImage(k, o, image), o, b.table[..b.entries], pool);
  }

  lemma SameReadout(k: Kit, file: Bytes, o: Opened, table: seq<Entry>, pool: Bytes)
    requires KitOk(k) && TableReadable(k.enc, pool, table) && |o.table| == |table|
    requires |pool| == o.dhdr.poolSize && o.dhdr.poolStart + |pool| <= |file|
    requires FoundAt(file, o.dhdr.poolStart, pool)
    requires forall i :: 0 <= i < |table| ==> o.table[i] == table[i].(digest := o.table[i].digest)
    ensures Readout(k, file, o) == Some(Sources(k.enc, pool, table, |table|))
  {
    hide EncOk, FoundAt, TableReadable, SourceAt, Sources;
    FoundReads(file, o.dhdr.poolStart, pool);
    SameSources(k.enc, pool, table, o.table, |table|);
  }

  lemma ParsedChecked(k: Kit, file: Bytes)
    requires KitOk(k) && Parse(k, file).Some?
    ensures var h := Parse(k, file).value.hdr; Recognised(k, h) && h.fileSize == |file|
  {
    hide Recognised, ReadHdr, ReadDhdr, EncOk, Coded, CheckDhdr, ParseTable, EndsWithin;
  }

  lemma SizedRecognised(k: Kit, a: Hdr, b: Hdr)
    requires b == a.(fileSize := b.fileSize)
    ensures Recognised(k, a) == Recognised(k, b)
  {
  }

  lemma SameRecognised(k: Kit, a: Hdr, b: Hdr)
    requires b == a.(dhdrIv := b.dhdrIv, digest := b.digest)
    ensures Recognised(k, a) == Recognised(k, b) && a.fileSize == b.fileSize
  {
  }

  /** Whether opening will recognise a container is settled when it is created. */
  lemma RecognisedStays(k: Kit, o: Options, h: Hdr)
    requires h == NewHdr(o).(fileSize := h.fileSize)
    ensures Recognised(k, h) == Recognised(k, NewHdr(o))
  {
  }

  /** The options that give a container which can be opened again, beyond what k_pres_create
      checks: a cipher needs a key size and has to be known. */
  predicate Usable(k: Kit, o: Options) {
    && 0 < o.hashFunction < HASHSUM_MAX && 0 < (o.hashSize + 7) / 8 == k.digestBytes <= MAX_DIGEST
    && (o.cipher != 0 ==> o.cipher < BLK_CIPHER_MAX && o.keySize != 0)
  }

  lemma NewRecognised(k: Kit, o: Options)
    requires EncOk(k.enc) && Names(k.enc, o.cipher, o.cipherMode)
    ensures Recognised(k, NewHdr(o)) <==> Usable(k, o)
  {
  }

  /** The pool of an opened file is on disk for good. */
  ghost predicate PoolSynced(o: Opened, image: Bytes, durable: Bytes, dirty: iset<nat>) {
    && o.dhdr.poolStart + o.dhdr.poolSize <= |image|
    && Synced(durable, dirty, o.dhdr.poolStart, image[o.dhdr.poolStart..o.dhdr.poolStart + o.dhdr.poolSize])
  }

  lemma PoolBounds(o: Opened, image: Bytes, durable: Bytes, dirty: iset<nat>)
    requires PoolSynced(o, image, durable, dirty)
    ensures o.dhdr.poolStart + o.dhdr.poolSize <= |image|
  {
    hide Synced;
  }

  lemma SliceFound(file: Bytes, lo: nat, hi: nat)
    requires lo <= hi <= |file|
    ensures FoundAt(file, lo, file[lo..hi]) && Synced(file, iset{}, lo, file[lo..hi])
  {
  }
}
