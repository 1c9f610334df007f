// The bookkeeping of struct pres_file_t: what the cursor fields, the headers and the resource
// table have to do with each other, and how stored bytes are coded.

module PresBooks {
  import opened Bytes
  import opened Words
  import opened BlockModes
  import opened Keystream
  import opened PresFormat
  import opened PresDisk

  const IOBUF: nat := 4194304
  const MAX_TABLE: nat := 0x4000_0000_0000_0000

  // ---------------------------------------------------------------- coding

  datatype Enc = Enc(c: Cipher, m: Mode)

  ghost predicate EncOk(e: Option<Enc>) {
    e.Some? ==> e.value.c.Valid() && KeystreamPrecomputable(e.value.m) && e.value.c.size <= MAX_IV
  }

  /** Data as stored under an IV field, from keystream position p on. */
  function Coded(e: Option<Enc>, iv: Bytes, p: nat, data: Bytes): (r: Bytes)
    requires EncOk(e) && |iv| == MAX_IV
    ensures |r| == |data|
  {
    match e
    case None => data
    case Some(s) => Crypt(s.c, s.m, iv[..s.c.size], p, data)
  }

  lemma CodedSplit(e: Option<Enc>, iv: Bytes, p: nat, a: Bytes, b: Bytes)
    requires EncOk(e) && |iv| == MAX_IV
    ensures Coded(e, iv, p, a + b) == Coded(e, iv, p, a) + Coded(e, iv, p + |a|, b)
  {
    hide Cipher.Valid, Crypt;
    if e.Some? {
      CryptSplit(e.value.c, e.value.m, iv[..e.value.c.size], p, a, b);
    }
  }

  lemma CodedTwice(e: Option<Enc>, iv: Bytes, p: nat, data: Bytes)
    requires EncOk(e) && |iv| == MAX_IV
    ensures Coded(e, iv, p, Coded(e, iv, p, data)) == data
  {
    hide Cipher.Valid, Crypt;
    if e.Some? {
      CryptTwice(e.value.c, e.value.m, iv[..e.value.c.size], p, data);
    }
  }

  lemma CodedSlice(e: Option<Enc>, iv: Bytes, p: nat, data: Bytes, from: nat, to: nat)
    requires EncOk(e) && |iv| == MAX_IV && from <= to <= |data|
    ensures Coded(e, iv, p + from, data[from..to]) == Coded(e, iv, p, data)[from..to]
  {
    hide Coded, EncOk;
    var tail := data[from..];
    CodedSplit(e, iv, p, data[..from], tail);
    CodedSplit(e, iv, p + from, tail[..to - from], tail[to - from..]);
    assert data == data[..from] + tail;
    assert tail == tail[..to - from] + tail[to - from..];
    assert tail[..to - from] == data[from..to];
  }

  lemma CodedFront(e: Option<Enc>, iv: Bytes, p: nat, data: Bytes, n: nat)
    requires EncOk(e) && |iv| == MAX_IV && n <= |data|
    ensures Coded(e, iv, p, data)[..n] == Coded(e, iv, p, data[..n])
  {
    hide Coded, EncOk;
    CodedSlice(e, iv, p, data, 0, n);
  }

  // ---------------------------------------------------------------- append

  /** What k_pres_append_to_new_resource writes of the coded data: `total` is not reset between
      full buffers, so after the first of them the write loop does not run again. */
  function Written(coded: Bytes): (w: Bytes) {
    var blocks := |coded| / IOBUF;
    if blocks <= 1 then coded else coded[..IOBUF] + coded[blocks * IOBUF..]
  }

  /** Append stores all of its data exactly when there are less than two full buffers. */
  lemma AppendExact(coded: Bytes)
    ensures Written(coded) == coded <==> |coded| < 2 * IOBUF
  {
    var blocks := |coded| / IOBUF;
    if blocks > 1 {
      assert |Written(coded)| == IOBUF + |coded| - blocks * IOBUF;
    }
  }

  // ---------------------------------------------------------------- the books

  /** cur_filesize, cur_rtbl_start, cur_resentries, cur_datapoolstart, cur_datapoolsize, the
      two headers, rtbl->entries and the allocated table. */
  datatype Books = Books(fileSize: nat, rtblStart: nat, resEntries: nat, poolStart: nat, poolSize: nat,
                         hdr: Hdr, dhdr: Dhdr, entries: nat, table: seq<Entry>)

  ghost predicate Balanced(b: Books) {
    && b.rtblStart == b.poolStart + b.poolSize
    && b.fileSize == b.rtblStart + SZ_RTBL + b.resEntries * SZ_ENTRY
    && b.resEntries <= |b.table|
    && b.poolStart >= SZ_HEADER + SZ_DHDR && b.hdr.dhdrStart == SZ_HEADER && b.hdr.dhdrSize == SZ_DHDR
    && b.dhdr.rtblSize == SZ_RTBL
  }

  /** The headers say what the cursors say, as they do between any two operations. */
  ghost predicate Posted(b: Books) {
    && b.hdr.fileSize == b.fileSize && b.dhdr.rtblStart == b.rtblStart
    && b.dhdr.poolStart == b.poolStart && b.dhdr.poolSize == b.poolSize && b.entries == b.resEntries
  }

  /** Every number fits its field. */
  ghost predicate Fitting(b: Books) {
    && HdrFits(b.hdr) && DhdrFits(b.dhdr) && (forall k :: 0 <= k < |b.table| ==> EntryFits(b.table[k]))
    && b.rtblStart <= MAX_FILE && SZ_RTBL + |b.table| * SZ_ENTRY <= MAX_TABLE
  }

  ghost predicate Consistent(b: Books) {
    Balanced(b) && Posted(b) && Fitting(b) && TableOk(b.table[..b.entries], b.poolSize)
  }

  /** The header and table that _commit_meta_data writes: the cursors posted. */
  function Post(b: Books): Books {
    b.(hdr := b.hdr.(fileSize := b.fileSize),
       dhdr := b.dhdr.(rtblStart := b.rtblStart, poolStart := b.poolStart, poolSize := b.poolSize),
       entries := b.resEntries)
  }

  function MetaOf(b: Books): Meta
    requires b.entries <= |b.table|
  {
    Meta(b.hdr, b.dhdr, b.table[..b.entries])
  }

  lemma NumberFits(n: nat)
    requires n < 0x1_0000_0000_0000_0000
    ensures n < Pow256(8)
  {
    Pow256Of8();
  }

  lemma PostFits(b: Books)
    requires Balanced(b) && Fitting(b)
    ensures Fitting(Post(b))
  {
    hide Pow256, EntryFits;
    NumberFits(b.fileSize);
    NumberFits(b.rtblStart);
    NumberFits(b.poolStart);
    NumberFits(b.poolSize);
    HdrSizeFits(b.hdr, b.fileSize);
    DhdrSizesFit(b.dhdr, b.rtblStart, b.poolStart, b.poolSize);
  }

  lemma HdrSizeFits(h: Hdr, n: nat)
    requires HdrFits(h) && n < Pow256(8)
    ensures HdrFits(h.(fileSize := n))
  {
    hide Pow256;
    var v, w := HdrValues(h), HdrValues(h.(fileSize := n));
    forall i | 0 <= i < |w| ensures FitsField(HDR_LAYOUT[i], w[i]) {
      assert FitsField(HDR_LAYOUT[i], v[i]);
      assert i != 8 ==> v[i] == w[i];
    }
  }

  lemma DhdrSizesFit(d: Dhdr, r: nat, p: nat, s: nat)
    requires DhdrFits(d) && r < Pow256(8) && p < Pow256(8) && s < Pow256(8)
    ensures DhdrFits(d.(rtblStart := r, poolStart := p, poolSize := s))
  {
    hide Pow256;
    var v, w := DhdrValues(d), DhdrValues(d.(rtblStart := r, poolStart := p, poolSize := s));
    forall i | 0 <= i < |w| ensures FitsField(DHDR_LAYOUT[i], w[i]) {
      assert FitsField(DHDR_LAYOUT[i], v[i]);
    }
  }

  // ---------------------------------------------------------------- a new container

  /** struct pres_options_t, with the digest length the hash reports and the salt in use. */
  datatype Options = Options(hashFunction: nat, hashSize: nat, cipher: nat, cipherMode: nat, keySize: nat,
                             tweakSize: nat, versionString: Bytes, kdfSalt: Bytes)

  predicate OptionsFit(o: Options) {
    && o.hashFunction < 0x1_0000_0000 && o.hashSize < 0x1_0000_0000 && o.cipher < 0x1_0000_0000
    && o.cipherMode < 0x1_0000_0000 && o.keySize < 0x1_0000_0000 && o.tweakSize < 0x1_0000_0000
    && |o.versionString| == 256 && |o.kdfSalt| == MAX_IV
    && (o.cipher == 0 ==> o.cipherMode == 0)
  }

  function NewHdr(o: Options): Hdr {
    Hdr(MAGIC, VERSION, o.hashFunction, o.hashSize, o.cipher, o.cipherMode, o.keySize, o.tweakSize, 0,
        o.versionString, SZ_DHDR, SZ_HEADER, Zeros(MAX_IV), o.kdfSalt, Zeros(MAX_DIGEST))
  }

  const NEW_DHDR: Dhdr := Dhdr(0, 0, SZ_RTBL, 0, Zeros(MAX_IV), Zeros(MAX_DIGEST))

  lemma NewFits(o: Options)
    requires OptionsFit(o)
    ensures HdrFits(NewHdr(o)) && DhdrFits(NEW_DHDR)
  {
    hide Pow256;
    Pow256Of8();
    var v := HdrValues(NewHdr(o));
    forall i | 0 <= i < |v| ensures FitsField(HDR_LAYOUT[i], v[i]) {
    }
    var w := DhdrValues(NEW_DHDR);
    forall i | 0 <= i < |w| ensures FitsField(DHDR_LAYOUT[i], w[i]) {
    }
  }

  // ---------------------------------------------------------------- the table

  const ZERO_ENTRY: Entry := Entry(0, 0, 0, 0, 0, Zeros(MAX_IV), Zeros(MAX_DIGEST), Zeros(MAX_NAME), Zeros(MAX_DIGEST))

  lemma ZeroEntryFits()
    ensures EntryFits(ZERO_ENTRY)
  {
    hide Pow256;
    NumberFits(0);
    var v := EntryValues(ZERO_ENTRY);
    forall i | 0 <= i < |v| ensures FitsField(ENTRY_LAYOUT[i], v[i]) {
    }
  }

  /** A new entry behind the old pool keeps the table in order. */
  lemma TableGrows(table: seq<Entry>, poolSize: nat, e: Entry)
    requires TableOk(table, poolSize)
    requires e.id == |table| + 1 && e.dataOffset == poolSize
    ensures TableOk(table + [e], poolSize + e.dataSize)
  {
    var t := table + [e];
    forall k | 0 <= k < |t| && Live(t[k])
      ensures t[k].id == k + 1 && t[k].dataOffset + t[k].dataSize <= poolSize + e.dataSize
    {
      if k < |table| {
        assert t[k] == table[k];
      }
    }
    forall j, k | 0 <= j < k < |t| && Live(t[j]) && Live(t[k])
      ensures t[j].dataOffset + t[j].dataSize <= t[k].dataOffset
    {
      assert t[j] == table[j];
      if k < |table| {
        assert t[k] == table[k];
      }
    }
  }

  /** Zeroing an entry keeps the table in order. */
  lemma TableDeletes(table: seq<Entry>, poolSize: nat, k: nat)
    requires TableOk(table, poolSize) && k < |table|
    ensures TableOk(table[k := ZERO_ENTRY], poolSize)
  {
    var t := table[k := ZERO_ENTRY];
    forall i | 0 <= i < |t| && Live(t[i])
      ensures t[i].id == i + 1 && t[i].dataOffset + t[i].dataSize <= poolSize
    {
      assert t[i] == table[i];
    }
    forall i, j | 0 <= i < j < |t| && Live(t[i]) && Live(t[j])
      ensures t[i].dataOffset + t[i].dataSize <= t[j].dataOffset
    {
      assert t[i] == table[i] && t[j] == table[j];
    }
  }

  /** The data of a live entry, read back from the pool. */
  function DataOf(e: Option<Enc>, pool: Bytes, x: Entry): (data: Bytes)
    requires EncOk(e) && |x.dataIv| == MAX_IV && x.dataOffset + x.dataSize <= |pool|
    ensures |data| == x.dataSize
  {
    Coded(e, x.dataIv, 0, Stored(pool, x))
  }

  /** Growing the pool leaves all earlier resources alone. */
  lemma DataKept(e: Option<Enc>, pool: Bytes, more: Bytes, x: Entry)
    requires EncOk(e) && |x.dataIv| == MAX_IV && x.dataOffset + x.dataSize <= |pool|
    ensures DataOf(e, pool + more, x) == DataOf(e, pool, x)
  {
    hide Cipher.Valid, Crypt;
    assert Stored(pool + more, x) == Stored(pool, x);
  }

  /** k_hash_final into a digest field. */
  function PutDigest(field: Bytes, digest: Bytes): (r: Bytes)
    requires |digest| <= |field|
    ensures |r| == |field| && r[..|digest|] == digest
  {
    digest + field[|digest|..]
  }

  /** A digest field as the library writes it: the digest, then zeros. */
  function Padded(digest: Bytes): (r: Bytes)
    requires |digest| <= MAX_DIGEST
    ensures |r| == MAX_DIGEST
  {
    digest + Zeros(MAX_DIGEST - |digest|)
  }

  /** Behind the first n bytes there are zeros. */
  predicate ZeroTail(field: Bytes, n: nat) {
    n <= |field| == MAX_DIGEST && field[n..] == Zeros(MAX_DIGEST - n)
  }

  lemma PutPads(field: Bytes, digest: Bytes)
    requires ZeroTail(field, |digest|)
    ensures PutDigest(field, digest) == Padded(digest) && ZeroTail(Padded(digest), |digest|)
  {
  }

  /** No digest longer than n bytes has ever been put into a slot that is not in use. */
  ghost predicate SparesClean(table: seq<Entry>, entries: nat, n: nat) {
    forall k :: entries <= k < |table| ==> ZeroTail(table[k].dataDigest, n)
  }

  lemma SparesSlot(table: seq<Entry>, entries: nat, n: nat, e: Entry)
    requires SparesClean(table, entries, n) && entries < |table|
    ensures ZeroTail(table[entries].dataDigest, n)
    ensures ZeroTail(e.dataDigest, n) ==> SparesClean(table[entries := e], entries, n)
    ensures SparesClean(table[entries := e], entries + 1, n)
  {
    hide ZeroTail;
  }

  lemma SparesGrow(table: seq<Entry>, entries: nat, n: nat, more: nat)
    requires SparesClean(table, entries, n) && n <= MAX_DIGEST
    ensures SparesClean(table + seq(more, _ => ZERO_ENTRY), entries, n)
  {
    var t := table + seq(more, _ => ZERO_ENTRY);
    forall k | entries <= k < |t| ensures ZeroTail(t[k].dataDigest, n) {
      if k < |table| {
        assert ZeroTail(table[k].dataDigest, n);
      }
    }
  }

  lemma SparesOther(table: seq<Entry>, entries: nat, n: nat, k: nat, e: Entry)
    requires SparesClean(table, entries, n) && k < entries && k < |table|
    ensures SparesClean(table[k := e], entries, n)
  {
    hide ZeroTail;
  }

  lemma NoSpares(table: seq<Entry>, entries: nat, n: nat)
    requires |table| <= entries
    ensures SparesClean(table, entries, n)
  {
  }

  /** The books after the entry at the end of the table has been taken in. */
  function Taken(b: Books, e: Entry): Books
    requires b.resEntries < |b.table|
  {
    var size := b.poolSize + e.dataSize;
    b.(resEntries := b.resEntries + 1, table := b.table[b.resEntries := e], poolSize := size,
       rtblStart := b.poolStart + size,
       fileSize := b.poolStart + size + SZ_RTBL + (b.resEntries + 1) * SZ_ENTRY)
  }

  lemma TakenPosts(b: Books, e: Entry)
    requires Consistent(b) && b.entries < |b.table| && EntryFits(e)
    requires e.id == b.entries + 1 && e.dataOffset == b.poolSize && b.rtblStart + e.dataSize <= MAX_FILE
    ensures var t := Taken(b, e);
      && Balanced(t) && t.poolSize == b.poolSize + e.dataSize && t.poolStart == b.poolStart
      && TableOk(t.table[..t.resEntries], t.poolSize) && Consistent(Post(t))
  {
    hide EntryFits, HdrFits, DhdrFits, TableOk;
    var t := Taken(b, e);
    TableGrows(b.table[..b.entries], b.poolSize, e);
    assert t.table[..t.resEntries] == b.table[..b.entries] + [e];
    PostFits(t);
  }

  lemma TakenTable(b: Books, e: Entry)
    requires b.resEntries < |b.table|
    ensures Taken(b, e).table == b.table[b.resEntries := e] && Post(Taken(b, e)).table == b.table[b.resEntries := e]
    ensures Taken(b, e).resEntries == Post(Taken(b, e)).entries == b.resEntries + 1
  {
  }

  /** The file gets longer by the new data and one entry. */
  lemma TakenLength(b: Books, e: Entry)
    requires Consistent(b) && b.entries < |b.table|
    ensures b.fileSize == b.rtblStart + SZ_RTBL + b.entries * SZ_ENTRY
    ensures Post(Taken(b, e)).fileSize == b.fileSize + e.dataSize + SZ_ENTRY
  {
    hide HdrFits, DhdrFits, EntryFits, TableOk;
  }

  /** The two books differ at most in table entries not in use. */
  ghost predicate SameBooks(a: Books, b: Books) {
    && a.entries <= |a.table| && a.entries <= |b.table|
    && b == a.(table := b.table) && b.table[..b.entries] == a.table[..a.entries]
  }

  /** The books that k_pres_create fills in, before the first commit of the metadata. */
  function NewBooks(o: Options): Books {
    Books(SZ_HEADER + SZ_DHDR + SZ_RTBL, SZ_HEADER + SZ_DHDR, 0, SZ_HEADER + SZ_DHDR, 0, NewHdr(o), NEW_DHDR, 0, [])
  }

  lemma NewBooksOk(o: Options)
    requires OptionsFit(o)
    ensures var b := NewBooks(o);
      b.resEntries == b.poolSize == 0 && b.table == [] && TableOk([], 0) && Consistent(Post(b))
  {
    hide HdrFits, DhdrFits;
    NewFits(o);
    PostFits(NewBooks(o));
  }

  lemma ConsistentFacts(b: Books)
    requires Consistent(b)
    ensures b.entries == b.resEntries <= |b.table| && b.poolStart + b.poolSize == b.rtblStart <= MAX_FILE
    ensures b.dhdr.poolStart == b.poolStart && b.dhdr.poolSize == b.poolSize && Posted(b) && Balanced(b)
    ensures TableOk(b.table[..b.entries], b.poolSize)
    ensures forall k :: 0 <= k < |b.table| ==> EntryFits(b.table[k])
  {
    hide HdrFits, DhdrFits, EntryFits, TableOk;
  }

  lemma SameItself(a: Books)
    requires a.entries <= |a.table|
    ensures SameBooks(a, a)
  {
  }

  lemma SameTwice(a: Books, b: Books, c: Books)
    requires SameBooks(a, b) && SameBooks(b, c)
    ensures SameBooks(a, c)
  {
  }

  /** What k_pres_commit_new_resource fills into the slot. */
  function NewEntry(slot: Entry, id: nat, offset: nat, name: Bytes, basenameOffset: nat, uuid: nat,
      digest: Bytes): Entry
    requires |digest| <= |slot.dataDigest|
  {
    slot.(id := id, uuid := uuid, basenameOffset := basenameOffset, dataOffset := offset,
          dataDigest := PutDigest(slot.dataDigest, digest), name := StoredName(name))
  }

  lemma NewEntryFits(slot: Entry, id: nat, offset: nat, name: Bytes, basenameOffset: nat, uuid: nat, digest: Bytes)
    requires EntryFits(slot) && |digest| <= MAX_DIGEST
    requires id <= MAX_FILE && offset <= MAX_FILE && basenameOffset < TWO64 && uuid < TWO64
    ensures |slot.dataDigest| == MAX_DIGEST
    ensures EntryFits(NewEntry(slot, id, offset, name, basenameOffset, uuid, digest))
  {
    hide Pow256, StoredName;
    NumberFits(id);
    NumberFits(offset);
    NumberFits(basenameOffset);
    NumberFits(uuid);
    var v := EntryValues(slot);
    assert FitsField(ENTRY_LAYOUT[6], v[6]);
    var w := EntryValues(NewEntry(slot, id, offset, name, basenameOffset, uuid, digest));
    forall i | 0 <= i < |w| ensures FitsField(ENTRY_LAYOUT[i], w[i]) {
      assert FitsField(ENTRY_LAYOUT[i], v[i]);
    }
  }

  /** What stands in the slot behind the table in use does not matter. */
  lemma SpareSlot(a: Books, b: Books, e: Entry)
    requires Consistent(a) && a.entries < |a.table| && EntryFits(e)
    requires SameBooks(a, b) && b.table == a.table[a.entries := e]
    ensures Consistent(b) && MetaOf(b) == MetaOf(a)
  {
    hide TableOk, HdrFits, DhdrFits, EntryFits;
  }

  /** The new entry holds the new bytes; when they are the coded data, reading gives the data. */
  lemma NewData(e: Option<Enc>, pool: Bytes, stored: Bytes, x: Entry, data: Bytes)
    requires EncOk(e) && |x.dataIv| == MAX_IV && x.dataOffset == |pool| && x.dataSize == |stored|
    ensures Stored(pool + stored, x) == stored
    ensures stored == Coded(e, x.dataIv, 0, data) ==> DataOf(e, pool + stored, x) == data
  {
    hide EncOk, Coded;
    assert Stored(pool + stored, x) == stored;
    CodedTwice(e, x.dataIv, 0, data);
  }

  lemma DeletePosts(b: Books, k: nat)
    requires Consistent(b) && k < b.entries
    ensures var t := b.(table := b.table[k := ZERO_ENTRY]);
      TableOk(t.table[..t.resEntries], t.poolSize) && Consistent(t) && Post(t) == t
  {
    hide TableOk, HdrFits, DhdrFits, EntryFits;
    ZeroEntryFits();
    TableDeletes(b.table[..b.entries], b.poolSize, k);
    assert b.table[k := ZERO_ENTRY][..b.entries] == b.table[..b.entries][k := ZERO_ENTRY];
  }

  // ---------------------------------------------------------------- the resources in a table

  /** A resource without what depends on its container. */
  datatype Source = Source(uuid: nat, basenameOffset: nat, name: Bytes, data: Bytes)

  ghost predicate TableReadable(e: Option<Enc>, pool: Bytes, table: seq<Entry>) {
    EncOk(e) && forall k :: 0 <= k < |table| && Live(table[k]) ==>
      |table[k].dataIv| == MAX_IV && table[k].dataOffset + table[k].dataSize <= |pool|
  }

  function SourceAt(e: Option<Enc>, pool: Bytes, x: Entry): Source
    requires EncOk(e) && |x.dataIv| == MAX_IV && x.dataOffset + x.dataSize <= |pool|
  {
    Source(x.uuid, x.basenameOffset, CString(x.name), DataOf(e, pool, x))
  }

  /** The live resources among the first n entries, in order. */
  ghost function Sources(e: Option<Enc>, pool: Bytes, table: seq<Entry>, n: nat): seq<Source>
    requires TableReadable(e, pool, table) && n <= |table|
  {
    if n == 0 then []
    else if Live(table[n - 1]) then Sources(e, pool, table, n - 1) + [SourceAt(e, pool, table[n - 1])]
    else Sources(e, pool, table, n - 1)
  }

  /** A consistent table can be read. */
  lemma BooksReadable(e: Option<Enc>, pool: Bytes, b: Books)
    requires EncOk(e) && Consistent(b) && |pool| == b.poolSize
    ensures b.entries <= |b.table| && TableReadable(e, pool, b.table[..b.entries])
  {
    hide EncOk, HdrFits, DhdrFits;
    var t := b.table[..b.entries];
    forall k | 0 <= k < |t| && Live(t[k])
      ensures |t[k].dataIv| == MAX_IV && t[k].dataOffset + t[k].dataSize <= |pool|
    {
      assert EntryFits(b.table[k]);
      assert FitsField(ENTRY_LAYOUT[5], EntryValues(b.table[k])[5]);
    }
  }

  /** The digest field of an entry has no part in the resource. */
  lemma {:induction false} SameSources(e: Option<Enc>, pool: Bytes, a: seq<Entry>, b: seq<Entry>, n: nat)
    requires TableReadable(e, pool, a) && |a| == |b| && n <= |a|
    requires forall k :: 0 <= k < |a| ==> b[k] == a[k].(digest := b[k].digest)
    ensures TableReadable(e, pool, b) && Sources(e, pool, b, n) == Sources(e, pool, a, n)
  {
    hide EncOk, Coded, CString;
    if n > 0 {
      SameSources(e, pool, a, b, n - 1);
      assert b[n - 1] == a[n - 1].(digest := b[n - 1].digest);
    }
  }

  // ---------------------------------------------------------------- what operations may change

  /** The pool has only grown, an entry once in the table is still there or was deleted, and the
      header says the same but for the file size. */
  ghost predicate Later(a: Books, pool: Bytes, b: Books, newPool: Bytes) {
    && b.hdr == a.hdr.(fileSize := b.hdr.fileSize) && b.poolStart == a.poolStart
    && a.entries <= |a.table| && a.entries <= b.entries <= |b.table| && pool <= newPool
    && forall k :: 0 <= k < a.entries ==> b.table[k] == a.table[k] || b.table[k] == ZERO_ENTRY
  }

  lemma LaterTwice(a: Books, p: Bytes, b: Books, q: Bytes, c: Books, r: Bytes)
    requires Later(a, p, b, q) && Later(b, q, c, r)
    ensures Later(a, p, c, r)
  {
  }

  lemma SameIsLater(a: Books, b: Books, pool: Bytes)
    requires SameBooks(a, b) || (a == b && a.entries <= |a.table|)
    ensures Later(a, pool, b, pool)
  {
    if SameBooks(a, b) {
      forall k | 0 <= k < a.entries ensures b.table[k] == a.table[k] {
        assert b.table[k] == b.table[..b.entries][k] == a.table[..a.entries][k];
      }
    }
  }

  lemma TakenIsLater(a: Books, e: Entry, pool: Bytes, more: Bytes)
    requires a.entries == a.resEntries < |a.table|
    ensures Later(a, pool, Post(Taken(a, e)), pool + more)
  {
  }

  lemma DeletedIsLater(a: Books, k: nat, pool: Bytes)
    requires k < a.entries <= |a.table|
    ensures Later(a, pool, a.(table := a.table[k := ZERO_ENTRY]), pool)
  {
  }

  /** An entry without its own digest, which closing fills in. */
  function Plain(e: Entry): Entry {
    e.(digest := Zeros(MAX_DIGEST))
  }

  /** What is left of Later across closing and opening. */
  ghost predicate Kept(a: Books, pool: Bytes, b: Books, newPool: Bytes) {
    && b.poolStart == a.poolStart && a.entries <= |a.table| && a.entries <= b.entries <= |b.table| && pool <= newPool
    && forall k :: 0 <= k < a.entries ==> Plain(b.table[k]) == Plain(a.table[k]) || Plain(b.table[k]) == ZERO_ENTRY
  }

  lemma LaterIsKept(a: Books, pool: Bytes, b: Books, newPool: Bytes)
    requires Later(a, pool, b, newPool)
    ensures Kept(a, pool, b, newPool)
  {
  }

  lemma KeptTwice(a: Books, p: Bytes, b: Books, q: Bytes, c: Books, r: Bytes)
    requires Kept(a, p, b, q) && Kept(b, q, c, r)
    ensures Kept(a, p, c, r)
  {
    hide Plain;
  }
}
