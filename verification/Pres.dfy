// struct pres_file_t while it is open for writing (src/utils/pres.c): adding, committing,
// rolling back and deleting resources. Every operation may fail anywhere; none of them leaves
// the books or the .meta file in a state that a crash could not recover from.

module Pres {
  import opened Bytes
  import opened BlockModes
  import opened Keystream
  import opened Words
  import opened PresFormat
  import opened PresDisk
  import opened PresBooks
  import opened PresReplay
  import opened PresGenuine
  import opened PresImage

  class Container {
    const d: Disk
    const enc: Option<Enc>
    /** The hash function, and the length of its digests. */
    const digest: Bytes -> Bytes
    const digestBytes: nat

    var isOpen: bool
    var isWritable: bool
    var fileSize: nat
    var rtblStart: nat
    var resEntries: nat
    var poolStart: nat
    var poolSize: nat
    var hdr: Hdr
    var dhdr: Dhdr
    var entries: nat
    var rtblDigest: Bytes
    var table: seq<Entry>
    /** The input of the running hash, and the IV and position of the running stream cipher. */
    var hashed: Bytes
    var scIv: Iv
    var scPos: nat
    /** The bytes written for the resource being added. */
    ghost var stored: Bytes
    ghost var adding: bool

    /** The structure before k_pres_create or k_pres_open: all zero. */
    constructor (disk: Disk, cipher: Option<Enc>, hash: Bytes -> Bytes, bytes: nat)
      requires EncOk(cipher) && bytes <= MAX_DIGEST && forall x :: |hash(x)| == bytes
      ensures Setup() && !isOpen && d == disk && enc == cipher && digest == hash && digestBytes == bytes
    {
      d := disk;
      enc := cipher;
      digest := hash;
      digestBytes := bytes;
      isOpen, isWritable := false, false;
      fileSize, rtblStart, resEntries, poolStart, poolSize := 0, 0, 0, 0, 0;
      hdr := NewHdr(Options(0, 0, 0, 0, 0, 0, Zeros(256), Zeros(MAX_IV)));
      dhdr := NEW_DHDR;
      entries := 0;
      rtblDigest := Zeros(MAX_DIGEST);
      table := [];
      hashed, scIv, scPos := [], Zeros(MAX_IV), 0;
      stored, adding := [], false;
    }

    /** _set_file_header and the rest of what k_pres_create fills in. */
    method SetHeaders(o: Options)
      modifies `fileSize, `rtblStart, `resEntries, `poolStart, `poolSize, `hdr, `dhdr, `entries, `rtblDigest, `table
      ensures B() == NewBooks(o) && |rtblDigest| == MAX_DIGEST
    {
      hdr, dhdr := NewHdr(o), NEW_DHDR;
      rtblStart, poolStart, poolSize := SZ_DHDR + SZ_HEADER, SZ_DHDR + SZ_HEADER, 0;
      fileSize := SZ_HEADER + SZ_DHDR + SZ_RTBL;
      resEntries, entries, table, rtblDigest := 0, 0, [], Zeros(MAX_DIGEST);
    }

    /** k_pres_create on the temporary that k_tcreat makes. A .meta file that is there already is
        replaced. When it fails, the temporary is unlinked, if there is one yet. */
    method Create(o: Options) returns (res: int)
      requires Setup() && !isOpen && OptionsFit(o) && (enc.Some? ==> Names(enc, o.cipher, o.cipherMode))
      requires d.Valid() && d.temporary && d.image == [] && d.meta == None
      modifies this, d
      ensures d.Traced() && old(d.trace) <= d.trace && d.temporary
      ensures res == 0 ==> Valid() && B() == Post(NewBooks(o)) && d.pool == [] && d.image == [] && !adding
      ensures res == 0 ==> Names(enc, o.cipher, o.cipherMode) && d.leftover == None
      ensures res != 0 ==> !isOpen && d.meta == None && d.leftover == old(d.leftover)
      ensures res != 0 ==> d.lost == (o.hashSize != 0 && Names(enc, o.cipher, o.cipherMode))
      ensures old(d.failed) || (res != 0 && o.hashSize != 0 && Names(enc, o.cipher, o.cipherMode)) ==> d.failed
    {
      hide SparesClean, Consistent, Disk.Traced, Container.Setup, TableOk, Synced, MetaOf, Container.Backed;
      NewBooksOk(o);
      SetHeaders(o);
      adding := false;
      if hdr.hashSize == 0 {
        return -1;
      }
      if hdr.cipher != 0 && enc.None? {
        return -1;
      }
      res := Start();
    }

    /** The part of k_pres_create behind k_tcreat. */
    method Start() returns (res: int)
      requires Setup() && !isOpen && Consistent(Post(B())) && resEntries == poolSize == 0 && table == []
      requires |rtblDigest| == MAX_DIGEST && d.Valid() && d.temporary && d.image == [] && d.meta == None
      modifies `hdr, `dhdr, `entries, `isOpen, `isWritable, d
      ensures d.Traced() && old(d.trace) <= d.trace && d.temporary
      ensures res == 0 ==> Valid() && B() == Post(old(B())) && d.pool == [] && d.image == [] && d.leftover == None
      ensures res != 0 ==> !isOpen && d.meta == None && d.leftover == old(d.leftover) && d.lost
      ensures old(d.failed) || res != 0 ==> d.failed
    {
      hide SparesClean, Consistent, Disk.Traced, Container.Setup, TableOk, Synced, MetaOf, Container.Backed;
      var ok := d.Seek(poolStart);
      NothingBacked();
      NoSpares(table, 0, digestBytes);
      if ok {
        ok := CommitMeta([]);
      }
      if !ok {
        d.RollbackFile();
        return -1;
      }
      d.Supersede();
      isOpen, isWritable := true, true;
      res := 0;
    }

    lemma NothingBacked()
      requires resEntries == poolSize == 0
      ensures Backed([])
    {
    }

    ghost function B(): Books
      reads this
    {
      Books(fileSize, rtblStart, resEntries, poolStart, poolSize, hdr, dhdr, entries, table)
    }

    ghost predicate Setup() {
      && EncOk(enc) && digestBytes <= MAX_DIGEST && (forall x :: |digest(x)| == digestBytes)
    }

    /** Between operations: the books are consistent, and the .meta file holds them. */
    ghost predicate Valid()
      reads this, d
    {
      && Setup() && d.Valid() && isOpen && isWritable
      && Consistent(B()) && d.meta == Some(MetaOf(B())) && |rtblDigest| == MAX_DIGEST
      && SparesClean(table, entries, digestBytes) && d.leftover == None
    }

    /** A resource is being added: the bytes written so far follow the pool. */
    ghost predicate Adding()
      reads this, d
    {
      && Valid() && adding && d.pos == rtblStart + |stored| <= MAX_FILE
      && FoundAt(d.image, rtblStart, stored)
      && entries < |table| && table[entries].dataSize == |stored|
      && scPos == |hashed| && (enc.Some? ==> table[entries].dataIv == scIv)
    }

    /** What the disk knows about the pool. */
    lemma PoolThere()
      requires d.Valid() && Posted(B()) && entries <= |table| && d.meta == Some(MetaOf(B()))
      ensures |d.pool| == poolSize && d.meta.Some? && d.meta.value.dhdr.poolStart == poolStart
      ensures Synced(d.durable, d.dirty, poolStart, d.pool) && FoundAt(d.image, poolStart, d.pool)
    {
      hide SparesClean, TableOk, FoundAt, Synced;
      d.ValidIsSafe();
      Disk.SyncKeeps(d.Now(), d.image, poolStart);
      SyncedIsFound(d.image, iset{}, poolStart, d.pool);
    }

    lemma ValidPool()
      requires Valid()
      ensures |d.pool| == poolSize && FoundAt(d.image, poolStart, d.pool)
    {
      hide SparesClean, Disk.Traced, Fitting, TableOk, FoundAt, Synced, Container.Setup;
      PoolThere();
    }

    static lemma SyncedIsFound(file: Bytes, dirty: iset<nat>, lo: nat, pool: Bytes)
      requires Synced(file, dirty, lo, pool)
      ensures FoundAt(file, lo, pool)
    {
    }

    /** The pool of the books is in the file for good. */
    ghost predicate Backed(pool: Bytes)
      requires resEntries <= |table|
      reads this, d
    {
      && |pool| == poolSize && TableOk(table[..resEntries], poolSize)
      && Synced(d.durable, d.dirty, poolStart, pool)
    }

    /** _commit_meta_data: post the cursors to the headers and replace the .meta file, or leave
        everything as it was. */
    method CommitMeta(ghost newPool: Bytes) returns (ok: bool)
      requires d.Valid() && resEntries <= |table|
      modifies this`hdr, this`dhdr, this`entries, d`meta, d`pool, d`trace, d`failed
      ensures old(d.trace) <= d.trace && (!ok || old(Backed(newPool)) ==> d.Valid())
      ensures ok ==> B() == Post(old(B())) && d.meta == Some(MetaOf(B())) && d.pool == newPool
      ensures !ok ==> B() == old(B()) && d.meta == old(d.meta) && d.pool == old(d.pool)
      ensures old(d.failed) || !ok ==> d.failed
    {
      hide SparesClean, TableOk, Synced, Disk.Traced;
      var fs, rts, dps, dpsi, e := hdr.fileSize, dhdr.rtblStart, dhdr.poolStart, dhdr.poolSize, entries;
      hdr := hdr.(fileSize := fileSize);
      dhdr := dhdr.(rtblStart := rtblStart, poolStart := poolStart, poolSize := poolSize);
      entries := resEntries;
      ok := d.ReplaceMeta(Meta(hdr, dhdr, table[..entries]), newPool);
      if !ok {
        hdr := hdr.(fileSize := fs);
        dhdr := dhdr.(rtblStart := rts, poolStart := dps, poolSize := dpsi);
        entries := e;
      }
    }

    /** k_pres_rollback: cut off what follows the pool. */
    method Rollback() returns (res: int)
      requires Valid()
      modifies d`image, d`pos, d`dirty, d`durable, d`trace, this`adding, d`failed
      ensures Valid() && old(d.trace) <= d.trace && !adding
      ensures res == 0 ==> |d.image| == rtblStart && d.durable == d.image
      ensures d.image == old(d.image) || |d.image| == rtblStart
      ensures old(d.failed) || res != 0 ==> d.failed
    {
      hide SparesClean, Consistent, Container.Setup, Disk.Traced, Synced, FoundAt, MetaOf;
      ConsistentFacts(B());
      PoolThere();
      adding := false;
      var ok := d.Truncate(rtblStart);
      if !ok {
        return -1;
      }
      ok := d.Seek(|d.image|);
      if !ok {
        return -1;
      }
      ok := d.Sync();
      res := if ok then 0 else -1;
    }

    /** k_pres_init_new_resource; the nonce comes from the random number generator. */
    method Init(nonce: Bytes) returns (res: int)
      requires Valid() && (enc.Some? ==> |nonce| == enc.value.c.size)
      modifies this`table, this`hashed, this`scIv, this`scPos, this`stored, this`adding, d`pos, d`failed
      ensures Valid() && SameBooks(old(B()), B())
      ensures res == 0 ==> Adding() && stored == [] && hashed == []
      ensures res == 0 && enc.Some? ==> |scIv| == MAX_IV && scIv[..|nonce|] == nonce
      ensures res != 0 ==> !adding
      ensures old(d.failed) || res != 0 ==> d.failed
    {
      hide SparesClean, Consistent, Disk.Traced, Container.Setup, SameBooks, FoundAt, MetaOf, Container.Adding;
      ConsistentFacts(B());
      SameItself(B());
      ghost var b0 := B();
      adding := false;
      var ok := d.Seek(rtblStart);
      if !ok {
        return -1;
      }
      if |table| < resEntries + 1 {
        ok := Grow();
        if !ok {
          return -1;
        }
      }
      ghost var b1 := B();
      BooksShape();
      StartSlot(nonce);
      AddingRoom();
      SameTwice(b0, b1, B());
      res := 0;
    }

    /** The hash, the cipher and the slot start over. */
    method StartSlot(nonce: Bytes)
      requires Valid() && entries < |table| && d.pos == rtblStart && (enc.Some? ==> |nonce| == enc.value.c.size)
      modifies this`table, this`hashed, this`scIv, this`scPos, this`stored, this`adding
      ensures Adding() && SameBooks(old(B()), B()) && stored == [] && hashed == []
      ensures enc.Some? ==> |scIv| == MAX_IV && scIv[..|nonce|] == nonce
    {
      hide SparesClean, Consistent, Disk.Traced, Container.Setup, SameBooks, FoundAt, MetaOf;
      ConsistentFacts(B());
      hashed := [];
      SetSlot(nonce);
      stored := [];
      NothingFound();
      ConsistentFacts(B());
      adding := true;
    }

    lemma NothingFound()
      ensures FoundAt(d.image, rtblStart, [])
    {
    }

    /** realloc of the resource table, which may fail. */
    method Grow() returns (ok: bool)
      requires Valid() && |table| == resEntries == entries
      modifies this`table, d`failed
      ensures Valid() && SameBooks(old(B()), B())
      ensures ok ==> entries < |table|
      ensures old(d.failed) || !ok ==> d.failed
    {
      hide SparesClean, TableOk, EntryFits, HdrFits, DhdrFits, Disk.Traced, Container.Setup;
      ok := *;
      if SZ_RTBL + (|table| + 32768) * SZ_ENTRY > MAX_TABLE {
        ok := false;
      }
      if !ok {
        d.OutOfMemory();
      } else {
        ZeroEntryFits();
        SetupDigest();
        SparesGrow(table, entries, digestBytes, 32768);
        ghost var before := table;
        table := table + seq(32768, _ => ZERO_ENTRY);
        assert table[..entries] == before[..entries];
      }
    }

    /** The slot behind the table in use: size 0, and a fresh IV if there is a cipher. */
    method SetSlot(nonce: Bytes)
      requires Valid() && resEntries == entries < |table| && (enc.Some? ==> |nonce| == enc.value.c.size)
      modifies this`table, this`scIv, this`scPos
      ensures Valid() && SameBooks(old(B()), B()) && entries < |table|
      ensures table[entries].dataSize == 0 && scPos == 0
      ensures enc.Some? ==> table[entries].dataIv == scIv && |scIv| == MAX_IV && scIv[..|nonce|] == nonce
    {
      hide SparesClean, TableOk, HdrFits, DhdrFits, EntryFits, Cipher.Valid, Disk.Traced;
      var slot := table[resEntries];
      IvFits(slot);
      SlotFits(slot, slot.dataIv, 0);
      scPos := 0;
      if enc.Some? {
        scIv := Patch(slot.dataIv, 0, nonce);
        SlotFits(slot, scIv, 0);
        slot := slot.(dataIv := scIv);
      } else {
        scIv := Zeros(MAX_IV);
      }
      ghost var before := table;
      SparesSlot(table, entries, digestBytes, slot.(dataSize := 0));
      table := table[resEntries := slot.(dataSize := 0)];
      assert table[..entries] == before[..entries];
    }

    static lemma IvFits(e: Entry)
      requires EntryFits(e)
      ensures |e.dataIv| == MAX_IV && |e.dataDigest| == MAX_DIGEST && |e.digest| == MAX_DIGEST
    {
      var v := EntryValues(e);
      assert FitsField(ENTRY_LAYOUT[5], v[5]) && FitsField(ENTRY_LAYOUT[6], v[6]) && FitsField(ENTRY_LAYOUT[8], v[8]);
    }

    static lemma SlotFits(e: Entry, iv: Bytes, size: nat)
      requires EntryFits(e) && |iv| == MAX_IV && size <= MAX_FILE
      ensures EntryFits(e.(dataIv := iv, dataSize := size))
    {

      NumberFits(size);
      var v, w := EntryValues(e), EntryValues(e.(dataIv := iv, dataSize := size));
      forall i | 0 <= i < |w| ensures FitsField(ENTRY_LAYOUT[i], w[i]) {
        assert FitsField(ENTRY_LAYOUT[i], v[i]);
      }
    }

    // ---------------------------------------------------------------- appending

    /** The inner loop of append: write buf from `total` on, until total reaches its length. */
    method WriteRest(buf: Bytes, start: nat, ghost lo: nat, ghost kept: Bytes) returns (ok: bool, total: nat)
      requires d.Valid() && start <= |buf| && d.Spares(d.pos, d.pos + (|buf| - start))
      requires FoundAt(d.image, lo, kept) && d.pos == lo + |kept| <= MAX_FILE
      modifies d`image, d`pos, d`dirty, d`trace, d`failed
      ensures d.Valid() && old(d.trace) <= d.trace
      ensures ok ==> total == |buf| && d.pos == old(d.pos) + (|buf| - start) <= MAX_FILE
      ensures ok ==> FoundAt(d.image, lo, kept + buf[start..]) && |d.image| <= Max(old(|d.image|), d.pos)
      ensures old(d.failed) || !ok ==> d.failed
    {
      hide SparesClean, Disk.Traced, FoundAt, WriteAt;
      total := start;
      ok := true;
      ghost var p0 := d.pos;
      assert kept + buf[start..start] == kept;
      while total != |buf|
        invariant start <= total <= |buf|
        invariant old(d.failed) ==> d.failed
        invariant d.Valid() && old(d.trace) <= d.trace && d.pos == p0 + (total - start) <= MAX_FILE
        invariant FoundAt(d.image, lo, kept + buf[start..total]) && |d.image| <= Max(old(|d.image|), d.pos)
        decreases |buf| - total
      {
        ghost var before := d.image;
        var nwritten := d.Write(buf[total..]);
        if nwritten < 0 {
          ok := false;
          return;
        }
        WroteMore(before, lo, kept, buf, start, total, nwritten);
        total := total + nwritten;
      }
      assert buf[start..total] == buf[start..];
    }

    static lemma WroteMore(image: Bytes, lo: nat, kept: Bytes, buf: Bytes, start: nat, total: nat, n: nat)
      requires start <= total && total + n <= |buf| && FoundAt(image, lo, kept + buf[start..total])
      ensures FoundAt(WriteAt(image, lo + |kept| + (total - start), buf[total..][..n]), lo,
          kept + buf[start..total + n])
    {
      hide FoundAt, WriteAt;
      var at, data := lo + |kept| + (total - start), buf[total..][..n];
      var done := kept + buf[start..total];
      WriteSpares(image, at, data, lo, done);
      WriteFound(image, at, data);
      FoundJoin(WriteAt(image, at, data), lo, done, data);
      assert kept + buf[start..total + n] == done + data;
    }

    /** Hash, code and write one buffer of the resource. */
    method PutBuffer(part: Bytes, start: nat, ghost w: Bytes) returns (ok: bool, total: nat)
      requires Valid() && start <= |part|
      requires d.pos == rtblStart + |stored + w| <= MAX_FILE && FoundAt(d.image, rtblStart, stored + w)
      modifies this`hashed, this`scPos, d`image, d`pos, d`dirty, d`trace, d`failed
      ensures Valid() && old(d.trace) <= d.trace
      ensures hashed == old(hashed) + part && scPos == old(scPos) + |part|
      ensures ok ==> total == |part| && var more := w + Coded(enc, scIv, old(scPos), part)[start..];
        d.pos == rtblStart + |stored + more| <= MAX_FILE && FoundAt(d.image, rtblStart, stored + more)
      ensures ok ==> |d.image| <= Max(old(|d.image|), d.pos)
      ensures old(d.failed) || !ok ==> d.failed
    {
      hide SparesClean, Consistent, TableOk, Disk.Traced, FoundAt, Coded, EncOk, Synced;
      ConsistentFacts(B());
      PoolThere();
      var iobuf := part;
      hashed := hashed + iobuf;
      iobuf := Coded(enc, scIv, scPos, iobuf);
      scPos := scPos + |part|;
      ok, total := WriteRest(iobuf, start, rtblStart, stored + w);
      assert stored + w + iobuf[start..] == stored + (w + iobuf[start..]);
    }

    /** How far appending data has come: its first `done` bytes are hashed, w is written. */
    ghost predicate Progress(data: Bytes, done: nat, h0: Bytes, w: Bytes)
      reads this, d
    {
      && Valid() && done <= |data|
      && hashed == h0 + data[..done] && scPos == |h0| + done
      && d.pos == rtblStart + |stored + w| <= MAX_FILE && FoundAt(d.image, rtblStart, stored + w)
    }

    /** The next buffer; of its coded bytes those from `start` on are written. */
    method PutPart(data: Bytes, from: nat, to: nat, start: nat, ghost h0: Bytes, ghost w: Bytes)
        returns (ok: bool, total: nat)
      requires Progress(data, from, h0, w) && from <= to <= |data| && start <= to - from
      modifies this`hashed, this`scPos, d`image, d`pos, d`dirty, d`trace, d`failed
      ensures Valid() && old(d.trace) <= d.trace && |Coded(enc, scIv, |h0|, data)| == |data|
      ensures ok ==> total == to - from && d.pos >= old(d.pos) && |d.image| <= Max(old(|d.image|), d.pos)
      ensures ok ==> Progress(data, to, h0, w + Coded(enc, scIv, |h0|, data)[from..to][start..])
      ensures old(d.failed) || !ok ==> d.failed
    {
      hide Container.Valid, Container.Setup, FoundAt, Coded, EncOk, Max;
      ValidSetup();
      SetupEnc();
      CodedSlice(enc, scIv, |h0|, data, from, to);
      NextPart(data, from, to);
      ok, total := PutBuffer(data[from..to], start, w);
    }

    /** The loop over full buffers. */
    method PutBlocks(data: Bytes, blocks: nat, ghost h0: Bytes) returns (ok: bool, total: nat, ghost w: Bytes)
      requires Progress(data, 0, h0, []) && blocks == |data| / IOBUF
      modifies this`hashed, this`scPos, d`image, d`pos, d`dirty, d`trace, d`failed
      ensures Valid() && old(d.trace) <= d.trace
      ensures ok ==> Progress(data, blocks * IOBUF, h0, w) && total == |w| && |d.image| <= Max(old(|d.image|), d.pos)
      ensures ok ==> w == if blocks == 0 then [] else Coded(enc, scIv, |h0|, data)[..IOBUF]
      ensures old(d.failed) || !ok ==> d.failed
    {
      hide Container.Valid, Container.Setup, Container.Progress, Coded, EncOk, Max;
      ProgressFacts(data, 0, h0, []);
      MaxItself(|d.image|, d.pos);
      ghost var code := Coded(enc, scIv, |h0|, data);
      w, total, ok := [], 0, true;
      var i := 0;
      while i < blocks
        invariant i <= blocks && Progress(data, i * IOBUF, h0, w) && Valid() && old(d.trace) <= d.trace
        invariant w == (if i == 0 then [] else code[..IOBUF]) && total == |w| && (old(d.failed) ==> d.failed)
        invariant |d.image| <= Max(old(|d.image|), d.pos)
      {
        ghost var length, p := |d.image|, d.pos;
        NextWritten(code, w, i);
        ok, total := PutPart(data, i * IOBUF, (i + 1) * IOBUF, total, h0, w);
        if !ok {
          return;
        }
        MaxTwice(old(|d.image|), p, length, d.pos, |d.image|);
        w := if i == 0 then code[..IOBUF] else w;
        i := i + 1;
      }
    }

    lemma ProgressFacts(data: Bytes, done: nat, h0: Bytes, w: Bytes)
      requires Progress(data, done, h0, w)
      ensures Valid() && Setup() && EncOk(enc)
    {
      hide SparesClean, Disk.Traced, Consistent, FoundAt, MetaOf;
    }

    static lemma NextPart(data: Bytes, from: nat, to: nat)
      requires from <= to <= |data|
      ensures data[..from] + data[from..to] == data[..to]
    {
    }

    /** `total` still holds the size of the first buffer, so later ones are not written. */
    static lemma NextWritten(code: Bytes, w: Bytes, i: nat)
      requires (i + 1) * IOBUF <= |code| && w == if i == 0 then [] else code[..IOBUF]
      ensures w + code[i * IOBUF..(i + 1) * IOBUF][|w|..] == code[..IOBUF]
    {
    }

    /** The rest that does not fill a buffer. */
    method PutRest(data: Bytes, blocks: nat, ghost h0: Bytes, ghost w0: Bytes)
        returns (ok: bool, total: nat, ghost w: Bytes)
      requires Progress(data, blocks * IOBUF, h0, w0) && blocks == |data| / IOBUF
      modifies this`hashed, this`scPos, d`image, d`pos, d`dirty, d`trace, d`failed
      ensures Valid() && old(d.trace) <= d.trace
      ensures ok ==> Progress(data, |data|, h0, w) && total == |w| - |w0| && d.pos >= old(d.pos)
      ensures ok ==> |d.image| <= Max(old(|d.image|), d.pos)
      ensures ok ==> w == w0 + Coded(enc, scIv, |h0|, data)[blocks * IOBUF..]
      ensures old(d.failed) || !ok ==> d.failed
    {
      hide Container.Valid, Container.Setup, Container.Progress, Coded, EncOk, Max;
      ProgressFacts(data, blocks * IOBUF, h0, w0);
      MaxItself(|d.image|, d.pos);
      var rest := |data| % IOBUF;
      ghost var code := Coded(enc, scIv, |h0|, data);
      ghost var from := blocks * IOBUF;
      total, ok, w := 0, true, w0;
      WholeTail(code, from);
      if rest > 0 {
        ok, total := PutPart(data, blocks * IOBUF, |data|, 0, h0, w);
        w := w0 + code[from..];
      } else {
        assert w0 + code[from..] == w0;
      }
    }

    static lemma WholeTail(s: Bytes, from: nat)
      requires from <= |s|
      ensures s[from..|s|][0..] == s[from..]
    {
    }

    /** All buffers: what gets written is Written of the coded data. */
    method PutAll(data: Bytes, ghost h0: Bytes) returns (ok: bool, filebytes: nat, ghost w: Bytes)
      requires Progress(data, 0, h0, [])
      modifies this`hashed, this`scPos, d`image, d`pos, d`dirty, d`trace, d`failed
      ensures Valid() && old(d.trace) <= d.trace
      ensures ok ==> Progress(data, |data|, h0, w) && filebytes == |w| && |d.image| <= Max(old(|d.image|), d.pos)
      ensures ok ==> w == Written(Coded(enc, scIv, |h0|, data))
      ensures old(d.failed) || !ok ==> d.failed
    {
      hide Container.Valid, Container.Setup, Container.Progress, EncOk, Coded, Written, Max;
      ProgressFacts(data, 0, h0, []);
      var blocks := |data| / IOBUF;
      var total;
      ghost var w0;
      ok, filebytes, w0 := PutBlocks(data, blocks, h0);
      w := w0;
      if ok {
        ghost var length, p := |d.image|, d.pos;
        ok, total, w := PutRest(data, blocks, h0, w0);
        if ok {
          MaxTwice(old(|d.image|), p, length, d.pos, |d.image|);
          Wrote(Coded(enc, scIv, |h0|, data), blocks, w);
        }
        filebytes := filebytes + total;
      }
    }

    lemma SetupEnc()
      requires Setup()
      ensures EncOk(enc)
    {
    }

    /** k_pres_append_to_new_resource */
    method Append(data: Bytes) returns (res: int)
      requires Adding()
      modifies this`table, this`hashed, this`scPos, this`stored, this`adding, d`image, d`pos, d`dirty, d`durable,
               d`trace, d`failed
      ensures Valid() && SameBooks(old(B()), B()) && old(d.trace) <= d.trace && (res == 0 || res == 1)
      ensures res == 0 ==> Adding() && hashed == old(hashed) + data
      ensures res == 0 ==> stored == old(stored) + Written(Coded(enc, scIv, old(scPos), data))
      ensures res == 0 ==> |d.image| <= Max(old(|d.image|), rtblStart + |stored|)
      ensures res == 1 ==> !adding
      ensures old(d.failed) || res != 0 ==> d.failed
    {
      hide Container.Valid, Container.Adding, Container.Progress, Container.Setup, EncOk, Coded, Written, SameBooks,
           Max;
      ghost var h0 := hashed;
      AddingStarts(data);
      SameItself(B());
      var ok, filebytes;
      ghost var w;
      ok, filebytes, w := PutAll(data, h0);
      if !ok {
        res := Rollback();
        return 1;
      }
      ProgressEnds(data, h0, w);
      AddSize(filebytes, w);
      AddingRoom();
      res := 0;
    }

    lemma AddingStarts(data: Bytes)
      requires Adding()
      ensures Progress(data, 0, hashed, []) && entries <= |table| && scPos == |hashed| && EncOk(enc)
      ensures adding && entries < |table| && table[entries].dataSize == |stored|
      ensures enc.Some? ==> table[entries].dataIv == scIv
    {
      hide SparesClean, Disk.Traced, Fitting, TableOk, FoundAt, MetaOf;
      assert stored + [] == stored && hashed + data[..0] == hashed;
    }

    lemma ProgressEnds(data: Bytes, h0: Bytes, w: Bytes)
      requires Progress(data, |data|, h0, w)
      ensures Valid() && hashed == h0 + data && scPos == |hashed|
      ensures d.pos == rtblStart + |stored + w| <= MAX_FILE && FoundAt(d.image, rtblStart, stored + w)
    {
      hide Container.Valid, FoundAt;
      assert data[..|data|] == data;
    }

    static lemma Wrote(code: Bytes, blocks: nat, w: Bytes)
      requires blocks == |code| / IOBUF
      requires w == (if blocks == 0 then [] else code[..IOBUF]) + code[blocks * IOBUF..]
      ensures w == Written(code)
    {
      if blocks == 1 {
        assert code == code[..IOBUF] + code[IOBUF..];
      } else if blocks == 0 {
        assert [] + code[0..] == code;
      }
    }

    /** data_size += filebytes */
    method AddSize(filebytes: nat, ghost w: Bytes)
      requires Valid() && adding && filebytes == |w| && entries < |table| && table[entries].dataSize == |stored|
      requires d.pos == rtblStart + |stored + w| <= MAX_FILE && FoundAt(d.image, rtblStart, stored + w)
      requires scPos == |hashed| && (enc.Some? ==> table[entries].dataIv == scIv)
      modifies this`table, this`stored
      ensures Adding() && SameBooks(old(B()), B()) && stored == old(stored) + w
    {
      hide SparesClean, TableOk, HdrFits, DhdrFits, EntryFits, Disk.Traced, FoundAt, Container.Setup;
      var slot := table[resEntries];
      IvFits(slot);
      SlotFits(slot, slot.dataIv, slot.dataSize + filebytes);
      ghost var before := table;
      SparesSlot(table, entries, digestBytes, slot.(dataSize := slot.dataSize + filebytes));
      table := table[resEntries := slot.(dataSize := slot.dataSize + filebytes)];
      stored := stored + w;
      assert table[..entries] == before[..entries];
    }

    // ---------------------------------------------------------------- committing

    /** The entry that the resource being added is about to become. */
    ghost function Upcoming(name: Bytes, basenameOffset: nat, uuid: nat): Entry
      requires Adding()
      reads this, d
    {
      ConsistentFacts(B());
      IvFits(table[entries]);
      NewEntry(table[entries], entries + 1, poolSize, name, basenameOffset, uuid, digest(hashed))
    }

    lemma UpcomingOk(name: Bytes, basenameOffset: nat, uuid: nat)
      requires Adding() && basenameOffset < TWO64 && uuid < TWO64
      ensures var e := Upcoming(name, basenameOffset, uuid);
        && EntryFits(e) && e.id == entries + 1 && e.dataOffset == poolSize && e.dataSize == |stored|
        && rtblStart + e.dataSize <= MAX_FILE
    {
      hide SparesClean, TableOk, HdrFits, DhdrFits, EntryFits, Disk.Traced, FoundAt, MetaOf;
      NewEntryFits(table[entries], entries + 1, poolSize, name, basenameOffset, uuid, digest(hashed));
    }

    lemma UpcomingSpares(name: Bytes, basenameOffset: nat, uuid: nat)
      requires Adding()
      ensures var e := Upcoming(name, basenameOffset, uuid);
        && e.dataDigest == Padded(digest(hashed)) && SparesClean(table[entries := e], entries, digestBytes)
        && SparesClean(table[entries := e], entries + 1, digestBytes)
    {
      hide SparesClean, TableOk, HdrFits, DhdrFits, EntryFits, Disk.Traced, FoundAt, MetaOf, Synced, ZeroTail,
           PutDigest, Padded;
      var e := Upcoming(name, basenameOffset, uuid);
      SparesSlot(table, entries, digestBytes, e);
      PutPads(table[entries].dataDigest, digest(hashed));
    }

    /** Fill the slot and move the cursors behind the new data. */
    method TakeIn(name: Bytes, basenameOffset: nat, uuid: nat)
      requires Adding() && basenameOffset < TWO64 && uuid < TWO64
      modifies this`resEntries, this`table, this`poolSize, this`rtblStart, this`fileSize
      ensures Consistent(old(B())) && old(entries) < |old(table)|
      ensures B() == Taken(old(B()), old(Upcoming(name, basenameOffset, uuid)))
      ensures EntryFits(old(Upcoming(name, basenameOffset, uuid)))
    {
      hide SparesClean, TableOk, HdrFits, DhdrFits, EntryFits, Disk.Traced, FoundAt, MetaOf;
      var slot := table[resEntries];
      IvFits(slot);
      assert SZ_RTBL + |table| * SZ_ENTRY <= MAX_TABLE;
      NewEntryFits(slot, entries + 1, poolSize, name, basenameOffset, uuid, digest(hashed));
      resEntries := resEntries + 1;
      table := table[resEntries - 1 := NewEntry(slot, resEntries, poolSize, name, basenameOffset, uuid,
          digest(hashed))];
      poolSize := poolSize + table[resEntries - 1].dataSize;
      rtblStart := poolStart + poolSize;
      fileSize := rtblStart + dhdr.rtblSize + resEntries * SZ_ENTRY;
    }

    /** The undo path of k_pres_commit_new_resource. */
    method TakeOut(ghost b: Books, ghost e: Entry)
      requires Consistent(b) && b.entries < |b.table| && B() == Taken(b, e)
      modifies this`resEntries, this`poolSize, this`rtblStart, this`fileSize
      ensures SameBooks(b, B()) && table == b.table[b.entries := e]
    {
      hide TableOk, HdrFits, DhdrFits, EntryFits;
      poolSize := poolSize - table[resEntries - 1].dataSize;
      rtblStart := poolStart + poolSize;
      resEntries := resEntries - 1;
      fileSize := rtblStart + dhdr.rtblSize + resEntries * SZ_ENTRY;
      assert table[..b.entries] == b.table[..b.entries];
    }

    /** fsync makes the new bytes part of what is surely on disk. */
    lemma PoolGrows()
      requires Adding() && d.durable == d.image && d.dirty == iset{}
      ensures |d.pool| == poolSize && Synced(d.durable, d.dirty, poolStart, d.pool + stored)
    {
      hide SparesClean, TableOk, Fitting, Disk.Traced, FoundAt, MetaOf, Container.Setup;
      PoolThere();
      FoundJoin(d.image, poolStart, d.pool, stored);
    }

    /** Take the resource in and commit the metadata, or take it out again. */
    method Enter(name: Bytes, basenameOffset: nat, uuid: nat) returns (ok: bool)
      requires Adding() && d.durable == d.image && d.dirty == iset{} && basenameOffset < TWO64 && uuid < TWO64
      modifies this`resEntries, this`table, this`poolSize, this`rtblStart, this`fileSize,
               this`hdr, this`dhdr, this`entries, d`meta, d`pool, d`trace, d`failed
      ensures Valid() && old(d.trace) <= d.trace
      ensures ok ==>
        d.pool == old(d.pool) + stored && B() == Post(Taken(old(B()), old(Upcoming(name, basenameOffset, uuid))))
      ensures !ok ==> SameBooks(old(B()), B()) && d.pool == old(d.pool)
      ensures old(d.failed) || !ok ==> d.failed
    {
      hide SparesClean, Consistent, TableOk, Disk.Traced, FoundAt, Synced, SameBooks, Container.Setup, Taken, NewEntry,
           EntryFits, MetaOf;
      ghost var b := B();
      ghost var e := Upcoming(name, basenameOffset, uuid);
      PoolGrows();
      UpcomingOk(name, basenameOffset, uuid);
      ConsistentFacts(b);
      TakenPosts(b, e);
      UpcomingSpares(name, basenameOffset, uuid);
      TakeIn(name, basenameOffset, uuid);
      TakenTable(b, e);
      ok := CommitMeta(d.pool + stored);
      if !ok {
        TakeOut(b, e);
        SpareSlot(b, B(), e);
      }
    }

    /** k_pres_commit_new_resource: the resource is in the table and in the .meta file, or
        nothing has changed. */
    method Commit(name: Bytes, basenameOffset: nat, uuid: nat) returns (res: int)
      requires Adding() && IsCString(name) && basenameOffset < TWO64 && uuid < TWO64
      modifies this, d`image, d`pos, d`meta, d`pool, d`durable, d`dirty, d`trace, d`failed
      ensures Valid() && old(d.trace) <= d.trace && (res == 0 || res == 1)
      ensures res == 0 ==>
        && name != [] && d.pool == old(d.pool) + old(stored) && d.image == old(d.image)
        && B() == Post(Taken(old(B()), old(Upcoming(name, basenameOffset, uuid))))
      ensures res == 1 ==> SameBooks(old(B()), B()) && d.pool == old(d.pool) && !adding
      ensures old(d.failed) || (res != 0 && name != []) ==> d.failed
    {
      hide SparesClean, Consistent, TableOk, Disk.Traced, FoundAt, SameBooks, Container.Setup, Taken, NewEntry, MetaOf;
      ConsistentFacts(B());
      SameItself(B());
      var ok := |name| > 0;
      if ok {
        ok := d.Sync();
      }
      if ok {
        ok := Enter(name, basenameOffset, uuid);
      }
      if !ok {
        res := Rollback();
        return 1;
      }
      res := 0;
    }

    // ---------------------------------------------------------------- deleting

    /** k_pres_delete_id: the entry is zeroed here and in the .meta file, or nothing changes. */
    method Delete(id: nat) returns (done: bool)
      requires Valid() && 1 <= id <= entries
      modifies this`table, this`hdr, this`dhdr, this`entries, d`meta, d`pool, d`trace, d`failed
      ensures Valid() && old(d.trace) <= d.trace && d.pool == old(d.pool)
      ensures B() == old(B()).(table := if done then old(table)[id - 1 := ZERO_ENTRY] else old(table))
      ensures old(Adding()) ==> Adding()
      ensures old(d.failed) || !done ==> d.failed
    {
      hide SparesClean, Consistent, TableOk, Disk.Traced, FoundAt, Synced, Container.Setup, MetaOf;
      ghost var b := B();
      ConsistentFacts(b);
      PoolThere();
      DeletePosts(b, id - 1);
      var e := table[id - 1];
      SparesOther(table, entries, digestBytes, id - 1, ZERO_ENTRY);
      table := table[id - 1 := ZERO_ENTRY];
      done := CommitMeta(d.pool);
      if !done {
        table := table[id - 1 := e];
        assert table == b.table;
      }
    }

    // ---------------------------------------------------------------- runs

    /** Nothing follows the pool that the file size does not account for, but for the resource
        being added. */
    ghost predicate Neat(p: Phase)
      reads this, d
    {
      p.clean ==> |d.image| <= fileSize || (p.active && |d.image| <= rtblStart + |stored|)
    }

    /** What each id gives access to. */
    ghost function Slots(): seq<Option<Source>>
      reads this, d
    {
      SlotsOf(enc, d.pool, B())
    }

    /** The resource being added is this one. */
    ghost predicate Uploading(u: Upload)
      requires EncOk(enc)
      reads this, d
    {
      && Adding() && NonceOk(enc, u.nonce) && (enc.Some? ==> |scIv| == MAX_IV && scIv[..|u.nonce|] == u.nonce)
      && hashed == Concat(u.pieces) && stored == Recorded(enc, u.nonce, u.pieces)
    }

    /** The container is what its caller thinks it is. */
    ghost predicate Mirrors(h: Held)
      requires EncOk(enc)
      reads this, d
    {
      Slots() == h.slots && (h.upload.Some? ==> Uploading(h.upload.value))
    }

    lemma UploadStarts(nonce: Bytes)
      requires EncOk(enc) && Adding() && stored == [] && hashed == [] && NonceOk(enc, nonce)
      requires enc.Some? ==> |scIv| == MAX_IV && scIv[..|nonce|] == nonce
      ensures Uploading(Upload(nonce, []))
    {
      hide Container.Adding, EncOk;
    }

    lemma UploadGrows(u: Upload, data: Bytes, s: Bytes, h: Bytes)
      requires EncOk(enc) && Adding() && NonceOk(enc, u.nonce) && h == Concat(u.pieces)
      requires s == Recorded(enc, u.nonce, u.pieces)
      requires enc.Some? ==> |scIv| == MAX_IV && scIv[..|u.nonce|] == u.nonce
      requires hashed == h + data && |scIv| == MAX_IV
      requires stored == s + Written(Coded(enc, scIv, |h|, data))
      ensures Uploading(u.(pieces := u.pieces + [data]))
    {
      hide Container.Adding, EncOk, Coded, Coding, Written;
      var pieces := u.pieces + [data];
      assert pieces[..|pieces| - 1] == u.pieces;
      CodingIs(enc, u.nonce, scIv, |h|, data);
    }

    /** One operation of a caller that gives up a resource as soon as a call on it fails. */
    method Perform(op: Op, phase: Phase, ghost h: Held) returns (code: int, next: Phase)
      requires Valid() && OpOk(enc, op) && (phase.active ==> Adding())
      requires EncOk(enc) && HeldOk(enc, h) && Mirrors(h) && (phase.active <==> h.upload.Some?)
      modifies this, d`image, d`pos, d`meta, d`pool, d`durable, d`dirty, d`trace, d`failed
      ensures Valid() && old(d.trace) <= d.trace && (next.active ==> Adding())
      ensures next == NextPhase(phase, op, code) && (old(Neat(phase)) ==> Neat(next))
      ensures Later(old(B()), old(d.pool), B(), d.pool)
      ensures Mirrors(Step(enc, h, op, code)) && (next.active <==> Step(enc, h, op, code).upload.Some?)
      ensures (old(d.failed) ==> d.failed) && (!d.failed ==> code == if Sensible(h, op) then 0 else 1)
    {
      hide Container.Valid, Container.Adding, Container.Upcoming, Later, SameBooks, Taken, Post, IsCString, EncOk,
           Container.Uploading, SlotsOf, Retrieved;
      ghost var b, p := B(), d.pool;
      BooksShape();
      SameIsLater(b, b, p);
      code, next := 0, phase;
      match op {
        case OpInit(nonce) =>
          code := PerformInit(nonce);
          SameIsLater(b, B(), p);
          SameSize(b, B());
          SlotsSame(enc, p, b, B());
        case OpAppend(data) =>
          if phase.active {
            code := PerformAppend(data, h.upload.value);
            SameIsLater(b, B(), p);
            SameSize(b, B());
            SlotsSame(enc, p, b, B());
          }
        case OpCommit(name, basenameOffset, uuid) =>
          if phase.active {
            code := PerformCommit(name, basenameOffset, uuid, h.upload.value);
          }
        case OpRollback =>
          code := Rollback();
          BooksShape();
        case OpDelete(id) =>
          code := PerformDelete(id, h);
      }
      next := NextPhase(phase, op, code);
    }

    method PerformInit(nonce: Bytes) returns (code: int)
      requires Valid() && NonceOk(enc, nonce) && EncOk(enc)
      modifies this`table, this`hashed, this`scIv, this`scPos, this`stored, this`adding, d`pos, d`failed
      ensures Valid() && SameBooks(old(B()), B())
      ensures code == 0 ==> Adding() && stored == [] && Uploading(Upload(nonce, []))
      ensures old(d.failed) || code != 0 ==> d.failed
    {
      hide Container.Valid, Container.Adding, Container.Uploading, SameBooks, EncOk;
      code := Init(nonce);
      if code == 0 {
        UploadStarts(nonce);
      }
    }

    method PerformAppend(data: Bytes, ghost u: Upload) returns (code: int)
      requires EncOk(enc) && Adding() && Uploading(u)
      modifies this`table, this`hashed, this`scPos, this`stored, this`adding, d`image, d`pos, d`dirty, d`durable,
               d`trace, d`failed
      ensures Valid() && SameBooks(old(B()), B()) && old(d.trace) <= d.trace
      ensures code == 0 ==> Adding() && Uploading(u.(pieces := u.pieces + [data]))
      ensures code == 0 ==> |d.image| <= Max(old(|d.image|), rtblStart + |stored|) && old(|stored|) <= |stored|
      ensures old(d.failed) || code != 0 ==> d.failed
    {
      hide Container.Valid, Container.Adding, SameBooks, EncOk, Coded, Coding, Written, Recorded, Max, Concat;
      ghost var s, h := stored, hashed;
      AddingStarts(data);
      code := Append(data);
      if code == 0 {
        UploadGrows(u, data, s, h);
      }
    }

    method PerformDelete(id: nat, ghost h: Held) returns (code: int)
      requires Valid() && EncOk(enc) && Mirrors(h)
      modifies this`table, this`hdr, this`dhdr, this`entries, d`meta, d`pool, d`trace, d`failed
      ensures Valid() && old(d.trace) <= d.trace && Later(old(B()), old(d.pool), B(), d.pool)
      ensures fileSize == old(fileSize) && (old(Adding()) ==> Adding())
      ensures HeldOk(enc, h) ==> Mirrors(Step(enc, h, OpDelete(id), code))
      ensures (old(d.failed) ==> d.failed) && (!d.failed ==> code == if 1 <= id <= |h.slots| then 0 else 1)
    {
      hide Container.Valid, Container.Adding, Later, EncOk, SlotsOf, Recorded, Concat;
      ghost var b, p := B(), d.pool;
      BooksShape();
      SameIsLater(b, b, p);
      SlotsLength(enc, p, b);
      code := 1;
      if 1 <= id <= entries {
        var done := Delete(id);
        if done {
          code := 0;
          DeletedIsLater(b, id - 1, p);
          SlotsDeleted(enc, p, b, id);
        }
      }
    }

    /** Commit, said in terms of runs. */
    method PerformCommit(name: Bytes, basenameOffset: nat, uuid: nat, ghost u: Upload) returns (code: int)
      requires Adding() && IsCString(name) && basenameOffset < TWO64 && uuid < TWO64
      requires EncOk(enc) && Uploading(u)
      modifies this, d`image, d`pos, d`meta, d`pool, d`durable, d`dirty, d`trace, d`failed
      ensures Valid() && old(d.trace) <= d.trace && Later(old(B()), old(d.pool), B(), d.pool)
      ensures code == 0 && (old(|d.image| <= fileSize || |d.image| <= rtblStart + |stored|)) ==> |d.image| <= fileSize
      ensures NonceOk(enc, u.nonce)
      ensures Slots() ==
        if code != 0 then old(Slots())
        else
          old(Slots()) +
          [Some(Source(uuid, basenameOffset, CString(StoredName(name)), Retrieved(enc, u.nonce, u.pieces)))]
      ensures (old(d.failed) ==> d.failed) && (!d.failed ==> code == if name != [] then 0 else 1)
    {
      hide Container.Valid, Container.Adding, Container.Upcoming, Later, SameBooks, Taken, Post, IsCString, EncOk,
           SlotsOf, Retrieved, Recorded, TableReadable, Slot, Concat;
      AddingRoom();
      ghost var b, p, e, s := B(), d.pool, Upcoming(name, basenameOffset, uuid), stored;
      UpcomingSize(name, basenameOffset, uuid);
      UpcomingSlot(name, basenameOffset, uuid, u);
      code := Commit(name, basenameOffset, uuid);
      if code == 0 {
        TakenIsLater(b, e, p, s);
        TakenLength(b, e);
        SlotsTaken(enc, p, b, e, s);
      } else {
        SameIsLater(b, B(), p);
        SlotsSame(enc, p, b, B());
      }
    }

    lemma UpcomingSlot(name: Bytes, basenameOffset: nat, uuid: nat, u: Upload)
      requires EncOk(enc) && Adding() && Uploading(u)
      ensures entries <= |table| && TableReadable(enc, d.pool, table[..entries])
      ensures Slot(enc, d.pool + stored, Upcoming(name, basenameOffset, uuid)) ==
              Some(Source(uuid, basenameOffset, CString(StoredName(name)), Retrieved(enc, u.nonce, u.pieces)))
    {
      hide SparesClean, TableOk, Consistent, Disk.Traced, FoundAt, Synced, MetaOf, StoredName, CString, EncOk,
           Container.Setup, Recorded, Retrieved, Slot, TableReadable, Concat, PutDigest;
      ConsistentFacts(B());
      PoolThere();
      IvFits(table[entries]);
      BooksReadable(enc, d.pool, B());
      SlotOfNew(enc, d.pool, u, Upcoming(name, basenameOffset, uuid), name);
    }

    lemma UpcomingSize(name: Bytes, basenameOffset: nat, uuid: nat)
      requires Adding()
      ensures Upcoming(name, basenameOffset, uuid).dataSize == |stored| && Consistent(B())
    {
      hide SparesClean, Consistent, Disk.Traced, FoundAt, MetaOf;
    }

    static lemma SameSize(a: Books, b: Books)
      requires SameBooks(a, b)
      ensures a.fileSize == b.fileSize && a.rtblStart == b.rtblStart
    {
    }

    lemma BooksShape()
      requires Valid()
      ensures entries == resEntries <= |table| && rtblStart <= fileSize
    {
      hide SparesClean, TableOk, Fitting, Disk.Traced, MetaOf;
    }

    lemma SameNow()
      requires Valid()
      ensures SameBooks(B(), B())
    {
      hide Container.Valid;
      BooksShape();
      SameItself(B());
    }

    lemma AddingRoom()
      requires Adding()
      ensures Valid() && entries == resEntries < |table|
    {
      hide SparesClean, TableOk, Fitting, Disk.Traced, FoundAt, MetaOf;
    }

    /** Any run of operations, failing wherever they like: the books stay consistent, every state
        of the disk on the way is one that a crash can recover from, every id gives access to what
        the operations and their outcomes say, and the file is no longer than the books say unless
        the return values show that an init or append was neither committed nor rolled back. If no
        system call fails, no operation fails that makes sense. */
    method Run(ops: seq<Op>) returns (codes: seq<int>)
      requires Valid() && EncOk(enc) && OpsOk(enc, ops)
      modifies this, d`image, d`pos, d`meta, d`pool, d`durable, d`dirty, d`trace, d`failed
      ensures Valid() && old(d.trace) <= d.trace && |codes| == |ops|
      ensures Later(old(B()), old(d.pool), B(), d.pool)
      ensures PhaseAfter(ops, codes).active ==> Adding()
      ensures old(|d.image| <= fileSize) ==> Neat(PhaseAfter(ops, codes))
      ensures var h := Replay(enc, Held(old(Slots()), None), ops, codes);
        Mirrors(h) && (h.upload.Some? <==> PhaseAfter(ops, codes).active)
      ensures old(d.failed) ==> d.failed
      ensures !d.failed ==> codes == Outcomes(enc, Held(old(Slots()), None), ops)
    {
      hide Container.Valid, Container.Adding, Later, SameBooks, OpOk, NextPhase, Step, EncOk, SlotsOf,
           Container.Uploading, Outcomes, Replay, Sensible;
      BooksShape();
      SameIsLater(B(), B(), d.pool);
      NothingDone(enc, Held(Slots(), None));
      ghost var h0 := Held(Slots(), None);
      ghost var h := h0;
      var phase := Phase(false, true);
      codes := [];
      var i := 0;
      while i < |ops|
        invariant i == |codes| <= |ops| && Valid() && (phase.active ==> Adding()) && old(d.trace) <= d.trace
        invariant phase == PhaseAfter(ops[..i], codes) && (old(|d.image| <= fileSize) ==> Neat(phase))
        invariant Later(old(B()), old(d.pool), B(), d.pool)
        invariant OpsOk(enc, ops[..i]) && h == Replay(enc, h0, ops[..i], codes) && Mirrors(h)
        invariant phase.active <==> h.upload.Some?
        invariant (old(d.failed) ==> d.failed) && (!d.failed ==> codes == Outcomes(enc, h0, ops[..i]))
      {
        ghost var b, p := B(), d.pool;
        var code;
        code, phase := Perform(ops[i], phase, h);
        LaterTwice(old(B()), old(d.pool), b, p, B(), d.pool);
        OneMore(ops, codes, i, code);
        OneStep(enc, h0, ops, codes, i, code);
        h := Step(enc, h, ops[i], code);
        codes := codes + [code];
        i := i + 1;
      }
      assert ops[..i] == ops;
    }

    static lemma OneMore(ops: seq<Op>, codes: seq<int>, i: nat, code: int)
      requires i == |codes| < |ops|
      ensures PhaseAfter(ops[..i + 1], codes + [code]) == NextPhase(PhaseAfter(ops[..i], codes), ops[i], code)
    {
      assert ops[..i + 1][..i] == ops[..i] && (codes + [code])[..i] == codes;
    }

    static lemma NothingDone(e: Option<Enc>, h: Held)
      requires EncOk(e) && HeldOk(e, h)
      ensures Replay(e, h, [], []) == h && Outcomes(e, h, []) == []
    {
    }

    static lemma OneStep(e: Option<Enc>, h: Held, ops: seq<Op>, codes: seq<int>, i: nat, code: int)
      requires EncOk(e) && HeldOk(e, h) && OpsOk(e, ops) && i == |codes| < |ops|
      ensures OpsOk(e, ops[..i]) && OpsOk(e, ops[..i + 1])
      ensures Replay(e, h, ops[..i + 1], codes + [code]) == Step(e, Replay(e, h, ops[..i], codes), ops[i], code)
      ensures codes == Outcomes(e, h, ops[..i]) &&
              code == (if Sensible(Replay(e, h, ops[..i], codes), ops[i]) then 0 else 1) ==>
        codes + [code] == Outcomes(e, h, ops[..i + 1])
    {
      hide EncOk, OpOk, Step, Sensible;
      assert ops[..i + 1][..i] == ops[..i] && (codes + [code])[..i] == codes;
    }

    /** An unfinished resource makes the file longer than the books say exactly when its bytes
        reach behind the place of the table. */
    lemma LeftoverExact()
      requires Adding() && (|d.image| <= fileSize || |d.image| <= rtblStart + |stored|)
      ensures |d.image| <= fileSize <==> |stored| <= SZ_RTBL + entries * SZ_ENTRY
    {
      hide SparesClean, Fitting, TableOk, Disk.Traced, FoundAt, MetaOf;
      if stored != [] {
        FoundLength(d.image, rtblStart, stored);
      }
    }

    // ---------------------------------------------------------------- a whole resource

    /** Every append since Init stayed below two buffers. */
    ghost predicate Faithful()
      requires Setup()
      reads this
    {
      stored == Coded(enc, scIv, 0, hashed)
    }

    /** One append of less than two buffers extends the coded data by the coded piece. */
    lemma FaithfulNext(h: Bytes, s: Bytes, data: Bytes)
      requires Setup() && s == Coded(enc, scIv, 0, h) && |data| < 2 * IOBUF
      ensures s + Written(Coded(enc, scIv, |h|, data)) == Coded(enc, scIv, 0, h + data)
    {
      hide Coded, EncOk, Written;
      AppendExact(Coded(enc, scIv, |h|, data));
      CodedSplit(enc, scIv, 0, h, data);
    }

    lemma CodedNothing()
      requires Setup()
      ensures Coded(enc, scIv, 0, []) == []
    {
    }

    lemma FaithfulLength()
      requires Setup() && Faithful()
      ensures |stored| == |hashed|
    {
    }

    lemma NothingFaithful()
      requires Setup() && stored == [] && hashed == []
      ensures Faithful()
    {
      CodedNothing();
    }

    /** An entry as commit leaves it for a resource with this content. */
    ghost predicate IsEntryOf(e: Entry, id: nat, offset: nat, data: Bytes, name: Bytes, basenameOffset: nat, uuid: nat)
      requires Setup()
    {
      && e.id == id && e.uuid == uuid && e.basenameOffset == basenameOffset && e.name == StoredName(name)
      && e.dataOffset == offset && e.dataSize == |data| && |e.dataIv| == MAX_IV
      && e.dataDigest == Padded(digest(data))
    }

    /** A resource was added to a container with books b and pool `pool`. */
    ghost predicate Added(b: Books, pool: Bytes, data: Bytes, name: Bytes, basenameOffset: nat, uuid: nat)
      requires Setup()
      reads this, d
    {
      && b.entries < |table| && b.entries <= |b.table| && entries == b.entries + 1
      && table[..b.entries] == b.table[..b.entries] && pool <= d.pool && |d.pool| == |pool| + |data|
      && var e := table[b.entries];
        && IsEntryOf(e, entries, |pool|, data, name, basenameOffset, uuid)
        && e.dataOffset + e.dataSize <= |d.pool| && DataOf(enc, d.pool, e) == data
    }

    lemma UpcomingData(name: Bytes, basenameOffset: nat, uuid: nat)
      requires Adding() && Faithful() && basenameOffset < TWO64 && uuid < TWO64
      ensures var e := Upcoming(name, basenameOffset, uuid);
        && IsEntryOf(e, entries + 1, |d.pool|, hashed, name, basenameOffset, uuid)
        && stored == Coded(enc, e.dataIv, 0, hashed)
    {
      hide SparesClean, TableOk, HdrFits, DhdrFits, EntryFits, Disk.Traced, FoundAt, Synced, MetaOf, StoredName, Crypt,
           Padded, PutDigest;
      PoolThere();
      IvFits(table[entries]);
      UpcomingSpares(name, basenameOffset, uuid);
    }

    lemma AddedIs(b0: Books, b1: Books, e: Entry, pool: Bytes, s: Bytes, data: Bytes,
                  name: Bytes, basenameOffset: nat, uuid: nat)
      requires Setup() && SameBooks(b0, b1) && b1.entries == b1.resEntries < |b1.table|
      requires B() == Post(Taken(b1, e)) && d.pool == pool + s
      requires IsEntryOf(e, b1.entries + 1, |pool|, data, name, basenameOffset, uuid)
      requires s == Coded(enc, e.dataIv, 0, data)
      ensures Added(b0, pool, data, name, basenameOffset, uuid)
    {
      hide Coded, EncOk, StoredName;
      SetupEnc();
      NewData(enc, pool, s, e, data);
      assert table == b1.table[b1.entries := e];
      assert table[..b0.entries] == b1.table[..b1.entries];
    }

    /** An append of less than two buffers. */
    method AppendPiece(piece: Bytes) returns (res: int)
      requires Adding() && Faithful() && |piece| <= IOBUF
      modifies this`table, this`hashed, this`scPos, this`stored, this`adding, d`image, d`pos, d`dirty, d`durable,
               d`trace, d`failed
      ensures Valid() && SameBooks(old(B()), B()) && old(d.trace) <= d.trace
      ensures res == 0 ==> Adding() && Faithful() && hashed == old(hashed) + piece && |stored| == |hashed|
      ensures res == 0 ==> |d.image| <= Max(old(|d.image|), rtblStart + |stored|)
      ensures old(d.failed) || res != 0 ==> d.failed
    {
      hide Container.Valid, Disk.Traced, Consistent, FoundAt, SameBooks, Coded, EncOk, Written, MetaOf;
      AddingRoom();
      ValidSetup();
      FaithfulNext(hashed, stored, piece);
      res := Append(piece);
      if res == 0 {
        FaithfulLength();
      }
    }

    /** The read loop of k_pres_add_file. */
    method AppendAll(pieces: seq<Bytes>) returns (res: int)
      requires Adding() && stored == [] && hashed == []
      requires forall k :: 0 <= k < |pieces| ==> |pieces[k]| <= IOBUF
      modifies this`table, this`hashed, this`scPos, this`stored, this`adding, d`image, d`pos, d`dirty, d`durable,
               d`trace, d`failed
      ensures Valid() && SameBooks(old(B()), B()) && old(d.trace) <= d.trace
      ensures res == 0 ==> Adding() && Faithful() && hashed == Concat(pieces) && |stored| == |hashed|
      ensures res == 0 ==> |d.image| <= Max(old(|d.image|), rtblStart + |stored|)
      ensures old(d.failed) || res != 0 ==> d.failed
    {
      hide Container.Valid, Container.Adding, Container.Setup, Container.Faithful, SameBooks, Max;
      AddingRoom();
      ValidSetup();
      SameItself(B());
      NothingFaithful();
      MaxItself(|d.image|, rtblStart);
      res := 0;
      var i := 0;
      while i < |pieces|
        invariant i <= |pieces| && Valid() && Adding() && Faithful() && hashed == Concat(pieces[..i]) && res == 0
        invariant SameBooks(old(B()), B()) && old(d.trace) <= d.trace && |stored| == |hashed|
        invariant old(d.failed) ==> d.failed
        invariant |d.image| <= Max(old(|d.image|), rtblStart + |stored|)
      {
        ghost var b1, length, p := B(), |d.image|, rtblStart + |stored|;
        res := AppendPiece(pieces[i]);
        SameTwice(old(B()), b1, B());
        if res != 0 {
          return;
        }
        MaxTwice(old(|d.image|), p, length, rtblStart + |stored|, |d.image|);
        assert pieces[..i + 1][..i] == pieces[..i];
        i := i + 1;
      }
      assert pieces[..i] == pieces;
    }

    /** Commit of a resource all of whose data was stored faithfully. */
    method CommitData(name: Bytes, basenameOffset: nat, uuid: nat) returns (res: int)
      requires Adding() && Faithful() && IsCString(name) && basenameOffset < TWO64 && uuid < TWO64
      modifies this, d`image, d`pos, d`meta, d`pool, d`durable, d`dirty, d`trace, d`failed
      ensures Valid() && old(d.trace) <= d.trace && Later(old(B()), old(d.pool), B(), d.pool)
      ensures res != 0 ==> SameBooks(old(B()), B()) && d.pool == old(d.pool)
      ensures res == 0 ==> name != [] && Added(old(B()), old(d.pool), old(hashed), name, basenameOffset, uuid)
      ensures res == 0 && old(|d.image| <= fileSize || |d.image| <= rtblStart + |stored|) ==> |d.image| <= fileSize
      ensures old(d.failed) || (res != 0 && name != []) ==> d.failed
    {
      hide SparesClean, Consistent, TableOk, Disk.Traced, FoundAt, SameBooks, Coded, EncOk, MetaOf, Taken, Later,
           Container.Upcoming, Container.Added, Container.IsEntryOf;
      ghost var b, e, pool, s, data := B(), Upcoming(name, basenameOffset, uuid), d.pool, stored, hashed;
      ConsistentFacts(b);
      SameItself(b);
      UpcomingData(name, basenameOffset, uuid);
      UpcomingOk(name, basenameOffset, uuid);
      TakenLength(b, e);
      res := Commit(name, basenameOffset, uuid);
      if res == 0 {
        AddedIs(b, b, e, pool, s, data, name, basenameOffset, uuid);
        TakenIsLater(b, e, pool, s);
      } else {
        SameIsLater(b, B(), pool);
      }
    }

    /** k_pres_add_file. The name loses everything up to its first slash, hidden files are left
        out, and the file is read in pieces that fit the buffer. A read error ends the run
        without a rollback, and after the first piece with the return value of success. */
    method AddFile(nonce: Bytes, path: Bytes, opens: bool, pieces: seq<Bytes>, readError: bool,
                   basenameOffset: nat, uuid: nat)
        returns (res: int, ghost broken: bool)
      requires Valid() && (enc.Some? ==> |nonce| == enc.value.c.size)
      requires forall k :: 0 <= k < |pieces| ==> 0 < |pieces[k]| <= IOBUF
      requires IsCString(path) && basenameOffset < TWO64 && uuid < TWO64
      modifies this, d`image, d`pos, d`meta, d`pool, d`durable, d`dirty, d`trace, d`failed
      ensures Valid() && old(d.trace) <= d.trace && Later(old(B()), old(d.pool), B(), d.pool)
      ensures broken ==> readError && opens && (res == 0 <==> pieces != [])
      ensures broken ==> Adding() && Faithful() && hashed == Concat(pieces)
      ensures broken && old(|d.image| <= fileSize) ==>
        (|d.image| <= fileSize <==> |Concat(pieces)| <= SZ_RTBL + entries * SZ_ENTRY)
      ensures res != 0 || broken ==> SameBooks(old(B()), B()) && d.pool == old(d.pool)
      ensures res == 0 && !broken ==>
        && opens && !readError && !Hidden(Stripped(path)) && Stripped(path) != []
        && Added(old(B()), old(d.pool), Concat(pieces), Stripped(path), Shifted(basenameOffset, path), uuid)
        && (old(|d.image| <= fileSize) ==> |d.image| <= fileSize)
      ensures old(d.failed) ==> d.failed
      ensures opens && !Hidden(Stripped(path)) && Stripped(path) != [] && !d.failed ==>
        if readError then broken else res == 0
    {
      hide Container.Valid, Container.Adding, SameBooks, Container.Faithful, Container.Added, IsCString, Hidden, Later,
           Concat, Stripped, Shifted, Container.Setup;
      ghost var b, pool := B(), d.pool;
      ValidSetup();
      broken := false;
      res := Init(nonce);
      SameIsLater(b, B(), pool);
      if res != 0 {
        return;
      }
      SameSize(b, B());
      if !opens {
        return 1, false;
      }
      var name, shifted := Strip(path, basenameOffset);
      StrippedIsCString(path);
      var hidden := IsHidden(name);
      if hidden {
        return 1, false;
      }
      ghost var b1 := B();
      res, broken := StoreFile(name, pieces, readError, shifted, uuid);
      LaterTwice(b, pool, b1, pool, B(), d.pool);
      if res != 0 || broken {
        SameTwice(b, b1, B());
      } else {
        AddedSame(b, b1, pool, Concat(pieces), name, shifted, uuid);
      }
    }

    /** The part of k_pres_add_file behind the test for hidden files. */
    method StoreFile(name: Bytes, pieces: seq<Bytes>, readError: bool, basenameOffset: nat, uuid: nat)
        returns (res: int, ghost broken: bool)
      requires Adding() && stored == [] && hashed == []
      requires forall k :: 0 <= k < |pieces| ==> 0 < |pieces[k]| <= IOBUF
      requires IsCString(name) && basenameOffset < TWO64 && uuid < TWO64
      modifies this, d`image, d`pos, d`meta, d`pool, d`durable, d`dirty, d`trace, d`failed
      ensures Valid() && old(d.trace) <= d.trace && Later(old(B()), old(d.pool), B(), d.pool)
      ensures broken ==> readError && (res == 0 <==> pieces != [])
      ensures broken ==> Adding() && Faithful() && hashed == Concat(pieces)
      ensures broken && old(|d.image| <= fileSize) ==>
        (|d.image| <= fileSize <==> |Concat(pieces)| <= SZ_RTBL + entries * SZ_ENTRY)
      ensures res != 0 || broken ==> SameBooks(old(B()), B()) && d.pool == old(d.pool)
      ensures res == 0 && !broken ==>
        && !readError && name != [] && Added(old(B()), old(d.pool), Concat(pieces), name, basenameOffset, uuid)
        && (old(|d.image| <= fileSize) ==> |d.image| <= fileSize)
      ensures old(d.failed) ==> d.failed
      ensures name != [] && !d.failed ==> if readError then broken else res == 0
    {
      hide Container.Valid, Container.Adding, SameBooks, Container.Faithful, Container.Added, IsCString, Later, Concat,
           Container.Setup;
      ghost var b, pool := B(), d.pool;
      AddingRoom();
      ValidSetup();
      broken := false;
      res := AppendAll(pieces);
      SameIsLater(b, B(), pool);
      SameSize(b, B());
      if res != 0 {
        return;
      }
      if readError {
        if old(|d.image| <= fileSize) {
          LeftoverExact();
        }
        res, broken := if pieces == [] then 1 else 0, true;
        return;
      }
      ghost var b2 := B();
      res := CommitData(name, basenameOffset, uuid);
      LaterTwice(b, pool, b2, pool, B(), d.pool);
      if res != 0 {
        SameTwice(b, b2, B());
      } else {
        AddedSame(b, b2, pool, Concat(pieces), name, basenameOffset, uuid);
      }
    }

    lemma ValidSetup()
      requires Valid()
      ensures Setup()
    {
    }

    lemma AddedSame(a: Books, b: Books, pool: Bytes, data: Bytes, name: Bytes, basenameOffset: nat, uuid: nat)
      requires Setup() && SameBooks(a, b) && Added(b, pool, data, name, basenameOffset, uuid)
      ensures Added(a, pool, data, name, basenameOffset, uuid)
    {
      hide DataOf, EncOk, StoredName, Container.Setup;
    }

    // ---------------------------------------------------------------- closing

    ghost function TheKit(): Kit {
      Kit(enc, digest, digestBytes)
    }

    /** lseek and one write that has to take all bytes. */
    method PutAt(at: nat, data: Bytes) returns (ok: bool)
      requires d.Valid() && data != [] && d.Spares(at, at + |data|)
      modifies d`image, d`pos, d`dirty, d`trace, d`failed
      ensures d.Valid() && old(d.trace) <= d.trace
      ensures ok ==> d.image == WriteAt(old(d.image), at, data)
      ensures old(d.dirty) <= d.dirty && (ok ==> at in d.dirty)
      ensures old(d.failed) || !ok ==> d.failed
    {
      hide SparesClean, Disk.Traced, WriteAt;
      ok := d.Seek(at);
      if ok {
        var n := d.Write(data);
        ok := n == |data|;
        if ok {
          assert data[..n] == data;
        }
      }
    }

    lemma SetupKit()
      requires Setup()
      ensures KitOk(TheKit())
    {
    }

    /** The digests of all entries. */
    method SealEntries()
      requires Setup() && EntriesFit(table) && entries <= |table|
      modifies this`table
      ensures |table| == |old(table)| && EntriesFit(table)
      ensures table[..entries] == SealTable(TheKit(), old(table)[..entries])
    {
      hide EntryFits, SealEntry, KitOk, Container.Setup;
      SetupKit();
      ghost var t := table;
      var i := 0;
      while i < entries
        invariant i <= entries && |table| == |t| && EntriesFit(table)
        invariant forall j :: 0 <= j < i ==> table[j] == SealEntry(TheKit(), t[j])
        invariant forall j :: i <= j < |t| ==> table[j] == t[j]
      {
        SealedEntry(TheKit(), table[i]);
        table := table[i := SealEntry(Kit(enc, digest, digestBytes), table[i])];
        i := i + 1;
      }
    }

    /** The part of _commit_and_close that writes both headers. */
    method WriteHeaders(dhdrNonce: Bytes, rtblNonce: Bytes) returns (ok: bool)
      requires Valid() && (enc.Some? ==> |dhdrNonce| == |rtblNonce| == enc.value.c.size)
      modifies this`hdr, this`dhdr, d`image, d`pos, d`dirty, d`trace, d`failed
      ensures HdrFits(old(hdr)) && DhdrFits(old(dhdr)) && KitOk(TheKit())
      ensures d.Valid() && old(d.trace) <= d.trace
      ensures hdr == FinalHdr(TheKit(), old(B()), dhdrNonce) && dhdr == FinalDhdr(TheKit(), old(B()), rtblNonce)
      ensures HdrFits(hdr) && DhdrFits(dhdr) && |hdr.dhdrIv| == MAX_IV
      ensures ok ==>
        d.image == WriteAt(WriteAt(old(d.image), 0, PackHdr(hdr)), SZ_HEADER, Coded(enc, hdr.dhdrIv, 0, PackDhdr(dhdr)))
      ensures ok ==> 0 in d.dirty
      ensures old(d.failed) || !ok ==> d.failed
    {
      hide SparesClean, HdrFits, DhdrFits, Disk.Traced, TableOk, FoundAt, Synced, WriteAt, SealHdr, SealDhdr, PackHdr,
           PackDhdr, Coded, Cipher.Valid, NewIv, MetaOf;
      ghost var b := B();
      BooksFit(b);
      PoolThere();
      FinalHeaders(TheKit(), b, dhdrNonce, rtblNonce);
      HdrParts(hdr);
      DhdrParts(dhdr);
      HdrIvFits(hdr, NewIv(enc, hdr.dhdrIv, dhdrNonce));
      DhdrIvFits(dhdr, NewIv(enc, dhdr.rtblIv, rtblNonce));
      hdr := hdr.(dhdrIv := NewIv(enc, hdr.dhdrIv, dhdrNonce));
      dhdr := dhdr.(rtblIv := NewIv(enc, dhdr.rtblIv, rtblNonce));
      hdr := SealHdr(Kit(enc, digest, digestBytes), hdr);
      dhdr := SealDhdr(Kit(enc, digest, digestBytes), dhdr);
      ok := PutAt(0, PackHdr(hdr));
      if ok {
        ok := PutAt(hdr.dhdrStart, Coded(enc, hdr.dhdrIv, 0, PackDhdr(dhdr)));
      }
    }

    /** The part of _commit_and_close that writes the table. */
    method WriteTable(ghost o: Opened) returns (ok: bool)
      requires Setup() && d.Valid() && EntriesFit(table) && entries <= |table| && |rtblDigest| == MAX_DIGEST
      requires entries < TWO64
      requires OpenedFits(o) && o.dhdr.rtblIv == dhdr.rtblIv && o.table == SealTable(TheKit(), table[..entries])
      requires RtblFits(Rtbl(entries, rtblDigest)) && o.rtbl == SealRtbl(TheKit(), Rtbl(entries, rtblDigest))
      requires d.Spares(rtblStart, rtblStart + SZ_RTBL + entries * SZ_ENTRY)
      modifies this`rtblDigest, this`table, d`image, d`pos, d`dirty, d`trace, d`failed
      ensures d.Valid() && old(d.trace) <= d.trace
      ensures ok ==> d.image == WriteAt(old(d.image), rtblStart, TableBytes(TheKit(), o))
      ensures old(d.dirty) <= d.dirty
      ensures old(d.failed) || !ok ==> d.failed
    {
      hide SparesClean, EntryFits, SealEntry, SealTable, SealRtbl, HdrFits, DhdrFits, RtblFits, PackTable, PackRtbl,
           Coded, EncOk, WriteAt, Disk.Traced;
      var head := SealRtbl(Kit(enc, digest, digestBytes), Rtbl(entries, rtblDigest));
      rtblDigest := head.digest;
      SealEntries();
      var bytes := Coded(enc, dhdr.rtblIv, 0, PackRtbl(head) + PackTable(table[..entries]));
      ok := PutAt(rtblStart, bytes);
    }

    lemma NoLeftover()
      requires Valid()
      ensures d.leftover == None
    {
    }

    /** What the .meta file is for, before and after the file of a new container is unlinked. */
    lemma NewStays()
      requires Valid()
      ensures entries <= |table| && d.meta == Some(MetaOf(B())) && Recoverable(d.Now())
      ensures Recoverable(Unlinked(d.Now())) <==> Empty(table[..entries])
    {
      hide SparesClean, TableOk, Fitting, Synced, Recoverable, Empty, Unlinked, Container.Setup;
      d.ValidIsSafe();
      UnlinkedExactly(d.Now());
    }

    lemma ValidData()
      requires Valid()
      ensures d.Valid() && isOpen && isWritable && entries <= |table| && d.meta == Some(MetaOf(B()))
      ensures dhdr.poolStart == poolStart && dhdr.poolSize == poolSize
    {
      hide SparesClean, Disk.Traced, Fitting, TableOk, Container.Setup;
    }

    lemma ClosingBooks(n1: Bytes, n2: Bytes)
      requires Valid() && (enc.Some? ==> |n1| == |n2| == enc.value.c.size)
      ensures Setup() && KitOk(TheKit()) && Closable(TheKit(), B(), rtblDigest, n1, n2)
      ensures entries <= |table| && entries < TWO64 && |rtblDigest| == MAX_DIGEST
      ensures EntriesFit(table) && EntriesFit(table[..entries]) && HdrFits(hdr) && DhdrFits(dhdr)
      ensures RtblFits(Rtbl(entries, rtblDigest))
      ensures d.Spares(rtblStart, rtblStart + SZ_RTBL + entries * SZ_ENTRY)
    {
      hide SparesClean, Disk.Traced, TableOk, FoundAt, Synced, MetaOf, HdrFits, DhdrFits, EntryFits, RtblFits,
           Cipher.Valid;
      PoolThere();
      BooksFit(B());
      RtblHeadFits(entries, rtblDigest);
    }

    lemma ClosingFacts(n1: Bytes, n2: Bytes)
      requires KitOk(TheKit()) && Closable(TheKit(), B(), rtblDigest, n1, n2) && entries <= |table|
      requires EntriesFit(table[..entries]) && HdrFits(hdr) && DhdrFits(dhdr) && RtblFits(Rtbl(entries, rtblDigest))
      requires |rtblDigest| == MAX_DIGEST && (enc.Some? ==> |n1| == |n2| == enc.value.c.size)
      ensures var o := Final(TheKit(), B(), rtblDigest, n1, n2);
        && OpenedFits(o) && o.hdr == FinalHdr(TheKit(), B(), n1) && o.dhdr == FinalDhdr(TheKit(), B(), n2)
        && o.dhdr.rtblStart == rtblStart && o.table == SealTable(TheKit(), table[..entries])
        && o.rtbl == SealRtbl(TheKit(), Rtbl(entries, rtblDigest))
    {
      hide TableOk, HdrFits, DhdrFits, EntriesFit, RtblFits, FinalHdr, FinalDhdr, SealRtbl, SealTable, KitOk, Sealed,
           Laid;
      FinalOk(TheKit(), B(), rtblDigest, n1, n2);
    }

    /** k_pres_close of a writable container. When it works the pool is still on disk for good,
        and the rest of the file too if fsync was called and worked. When it fails, a new
        container is unlinked under its .meta file; an opened one stays. */
    method Close(dhdrNonce: Bytes, rtblNonce: Bytes) returns (res: int, ghost synced: bool)
      requires Valid() && (enc.Some? ==> |dhdrNonce| == |rtblNonce| == enc.value.c.size)
      modifies this, d`image, d`pos, d`meta, d`temporary, d`lost, d`durable, d`dirty, d`trace, d`failed
      ensures d.Traced() && old(d.trace) <= d.trace && !isOpen
      ensures Closable(TheKit(), old(B()), old(rtblDigest), dhdrNonce, rtblNonce)
      ensures OpenedFits(Final(TheKit(), old(B()), old(rtblDigest), dhdrNonce, rtblNonce))
      ensures res == 0 ==> d.Valid() && !d.temporary && d.meta == None
      ensures res == 0 ==> Synced(d.durable, d.dirty, old(poolStart), d.pool) && |d.pool| == old(poolSize)
      ensures res == 0 ==>
        d.image == ClosedImage(TheKit(), Final(TheKit(), old(B()), old(rtblDigest), dhdrNonce, rtblNonce), old(d.image))
      ensures res == 0 ==>
        if synced then !old(d.temporary) && d.durable == d.image && d.dirty == iset{}
        else d.durable == old(d.durable) && 0 in d.dirty
      ensures res != 0 ==> d.meta == old(d.meta) && d.lost == old(d.temporary) == d.temporary
      ensures old(entries <= |table|)
      ensures res != 0 ==>
        (Recoverable(d.Now()) <==> !old(d.temporary) || Empty(old(table)[..old(entries)]))
      ensures old(d.failed) || res != 0 || (!old(d.temporary) && !synced) ==> d.failed
    {
      hide Container.Valid, Container.Setup, Consistent, Disk.Traced, OpenedFits, Sealed, Laid, FinalHdr, FinalDhdr,
           SealRtbl, SealTable, TableOk, WriteAt, Coded, PackHdr, PackDhdr, HdrFits, DhdrFits, RtblFits, EntriesFit,
           TableBytes, Closable, Final, KitOk, Recoverable, Synced, Empty;
      ValidData();
      ClosingBooks(dhdrNonce, rtblNonce);
      ClosingFacts(dhdrNonce, rtblNonce);
      ghost var b, o := B(), Final(TheKit(), B(), rtblDigest, dhdrNonce, rtblNonce);
      var ok := WriteHeaders(dhdrNonce, rtblNonce);
      if ok {
        ok := WriteTable(o);
      }
      ok, synced := Finish(ok, MetaOf(b));
      isOpen, isWritable := false, false;
      res := if ok then 0 else -1;
    }

    /** The end of _commit_and_close: commit the container file and drop the .meta file, or roll
        back. */
    method Finish(written: bool, ghost m: Meta) returns (ok: bool, ghost synced: bool)
      requires d.Valid() && d.meta == Some(m)
      modifies d`image, d`meta, d`temporary, d`lost, d`durable, d`dirty, d`trace, d`failed
      ensures d.Traced() && old(d.trace) <= d.trace
      ensures ok ==> written && d.Valid() && !d.temporary && d.meta == None && d.image == old(d.image)
      ensures ok ==> Synced(d.durable, d.dirty, m.dhdr.poolStart, d.pool) && |d.pool| == m.dhdr.poolSize
      ensures ok ==>
        if synced then !old(d.temporary) && d.durable == d.image && d.dirty == iset{}
        else d.durable == old(d.durable) && d.dirty == old(d.dirty)
      ensures !ok ==> d.meta == Some(m) && d.lost == old(d.temporary) == d.temporary
      ensures !ok ==> (Recoverable(d.Now()) <==> !old(d.temporary) || Empty(m.table))
      ensures old(d.failed) || (written && (!ok || (!old(d.temporary) && !synced))) ==> d.failed
    {
      hide SparesClean, Disk.Traced, TableOk, Recoverable, Safe, Synced, Empty;
      ok, synced := written, false;
      if ok {
        ok, synced := d.CommitFile();
      } else {
        d.RollbackFile();
      }
      if ok {
        PoolStays(m);
        d.DropMeta();
      } else {
        d.ValidIsSafe();
        RecoverableExactly(d.Now());
      }
    }

    lemma PoolStays(m: Meta)
      requires d.Valid() && d.meta == Some(m)
      ensures Synced(d.durable, d.dirty, m.dhdr.poolStart, d.pool) && |d.pool| == m.dhdr.poolSize
    {
      hide SparesClean, TableOk, Synced;
      d.ValidIsSafe();
    }

    // ---------------------------------------------------------------- opening

    /** The loop of _verify_rtbl_entries. */
    method VerifyEntries(raw: Bytes, n: nat) returns (ok: bool)
      requires Setup() && |raw| == n * SZ_ENTRY
      ensures ok == CheckTable(TheKit(), raw, n, dhdr.poolStart, hdr.fileSize)
    {
      hide CheckEntry, EncOk;
      var kit := Kit(enc, digest, digestBytes);
      var rest, left := raw, n;
      while left > 0
        invariant left <= n && |rest| == left * SZ_ENTRY
        invariant CheckTable(kit, raw, n, dhdr.poolStart, hdr.fileSize) ==
                  CheckTable(kit, rest, left, dhdr.poolStart, hdr.fileSize)
      {
        if !CheckEntry(kit, rest[..SZ_ENTRY], dhdr.poolStart, hdr.fileSize) {
          return false;
        }
        rest := rest[SZ_ENTRY..];
        left := left - 1;
      }
      ok := true;
    }

    /** _get_rtbl_entries: the running stream cipher goes on from the head to the entries. */
    method GetEntries() returns (ok: bool)
      requires Setup() && |dhdr.rtblIv| == MAX_IV && scIv == dhdr.rtblIv && scPos == SZ_RTBL
      requires dhdr.rtblStart + SZ_RTBL <= |d.image|
      modifies this`table, this`resEntries, this`scPos
      ensures var at, end := dhdr.rtblStart + SZ_RTBL, dhdr.rtblStart + SZ_RTBL + entries * SZ_ENTRY;
        && (end > |d.image| ==> !ok)
        && (end <= |d.image| ==>
              var all := Coded(enc, dhdr.rtblIv, SZ_RTBL, d.image[at..end]);
              && ok == CheckTable(TheKit(), all, entries, dhdr.poolStart, hdr.fileSize)
              && table == ReadTable(all, entries) && resEntries == entries)
    {
      hide CheckTable, ReadTable, Coded, EncOk;
      var at := dhdr.rtblStart + SZ_RTBL;
      var end := at + entries * SZ_ENTRY;
      if end > |d.image| {
        return false;
      }
      var all := Coded(enc, scIv, scPos, d.image[at..end]);
      scPos := scPos + entries * SZ_ENTRY;
      table := ReadTable(all, entries);
      ok := VerifyEntries(all, entries);
      resEntries := entries;
    }

    /** _get_rtbl: the head of the table, and the entries after it. The table is accepted exactly
        when it is in the file, with every digest. */
    method GetTable() returns (ok: bool)
      requires Setup() && |dhdr.rtblIv| == MAX_IV
      modifies this`entries, this`rtblDigest, this`table, this`resEntries, this`scIv, this`scPos
      ensures var p := ParseTable(TheKit(), d.image, hdr, dhdr);
        && ok == p.Some?
        && (ok ==> p.value == (Rtbl(entries, rtblDigest), table) && resEntries == entries)
      ensures hdr.fileSize == |d.image| < TWO64 ==>
        if ok then TableFound(TheKit(), d.image, dhdr, Rtbl(entries, rtblDigest), table)
        else NoTable(TheKit(), d.image, dhdr)
    {
      hide CheckRtbl, CheckTable, ReadTable, ReadRtbl, Coded, EncOk, TableFound, NoTable;
      if hdr.fileSize == |d.image| < TWO64 {
        TablesFound(TheKit(), d.image, hdr, dhdr);
      }
      var kit := Kit(enc, digest, digestBytes);
      var at := dhdr.rtblStart;
      if at + SZ_RTBL > |d.image| {
        return false;
      }
      scIv, scPos := dhdr.rtblIv, 0;
      var raw := Coded(enc, scIv, scPos, d.image[at..at + SZ_RTBL]);
      scPos := scPos + SZ_RTBL;
      var head := ReadRtbl(raw);
      entries, rtblDigest := head.entries, head.digest;
      if !CheckRtbl(kit, raw) {
        return false;
      }
      ok := GetEntries();
    }

    /** _get_file_header and _get_detached_header. */
    method GetHeaders() returns (ok: bool)
      requires Setup()
      modifies this`hdr, this`dhdr, this`fileSize, this`rtblStart, this`poolStart, this`poolSize
      ensures ok ==> |dhdr.rtblIv| == MAX_IV
      ensures ok ==>
        fileSize == hdr.fileSize && rtblStart == dhdr.rtblStart && poolStart == dhdr.poolStart
            && poolSize == dhdr.poolSize
      ensures ok ==> var t := ParseTable(TheKit(), d.image, hdr, dhdr);
        Parse(TheKit(), d.image) == if t.None? then None else Some(Opened(hdr, dhdr, t.value.0, t.value.1))
      ensures !ok ==> Parse(TheKit(), d.image) == None
    {
      hide CheckHdr, CheckDhdr, ReadHdr, ReadDhdr, Coded, EncOk, ParseTable;
      var kit := Kit(enc, digest, digestBytes);
      if |d.image| < SZ_HEADER + SZ_DHDR || !CheckHdr(kit, d.image[..SZ_HEADER], |d.image|) {
        return false;
      }
      hdr := ReadHdr(d.image[..SZ_HEADER]);
      HdrIv(d.image[..SZ_HEADER]);
      fileSize := hdr.fileSize;
      var raw := Coded(enc, hdr.dhdrIv, 0, d.image[SZ_HEADER..SZ_HEADER + SZ_DHDR]);
      if !CheckDhdr(kit, raw, hdr.fileSize) {
        return false;
      }
      DhdrIv(raw);
      dhdr := ReadDhdr(raw);
      rtblStart, poolStart, poolSize := dhdr.rtblStart, dhdr.poolStart, dhdr.poolSize;
      ok := true;
    }

    lemma OpenedBacked(o: Opened, pool: Bytes)
      requires Laid(o) && B() == BooksOf(o) && PoolSynced(o, d.image, d.durable, d.dirty)
      requires pool == d.image[o.dhdr.poolStart..o.dhdr.poolStart + o.dhdr.poolSize]
      ensures resEntries <= |table| && Backed(pool) && FoundAt(d.image, poolStart, pool)
    {
      hide Synced, FoundAt, TableOk;
      assert o.table[..o.rtbl.entries] == o.table;
      SliceFound(d.image, o.dhdr.poolStart, o.dhdr.poolStart + o.dhdr.poolSize);
    }

    lemma OpenedFacts(o: Opened) returns (pool: Bytes)
      requires KitOk(TheKit()) && Parse(TheKit(), d.image) == Some(o) && B() == BooksOf(o)
      ensures OpenedFits(o) && entries == resEntries == |table| && Post(B()) == B() && |o.rtbl.digest| == MAX_DIGEST
      ensures Laid(o) && PoolSynced(o, d.image, d.durable, d.dirty) ==>
        && Consistent(B()) && Backed(pool) && FoundAt(d.image, poolStart, pool)
        && pool == d.image[poolStart..poolStart + poolSize]
    {
      hide OpenedFits, Laid, Consistent, Parse, TableOk, FoundAt, Synced, KitOk, Container.Backed, PoolSynced;
      ParsedFits(TheKit(), d.image);
      RtblParts(o);
      pool := [];
      if Laid(o) && PoolSynced(o, d.image, d.durable, d.dirty) {
        OpenedConsistent(o);
        PoolBounds(o, d.image, d.durable, d.dirty);
        pool := d.image[poolStart..poolStart + poolSize];
        OpenedBacked(o, pool);
      }
    }

    static lemma RtblParts(o: Opened)
      requires OpenedFits(o)
      ensures |o.rtbl.digest| == MAX_DIGEST
    {
      hide HdrFits, DhdrFits, EntriesFit, FitsAll;
      FieldFits(RTBL_LAYOUT, RtblValues(o.rtbl), 1);
    }

    /** _pres_open_key for writing: any file that passes all checks is opened, and its .meta file
        is one to recover from if closing has laid the file out and its pool is on disk. */
    method Open() returns (res: int)
      requires Setup() && !isOpen && d.Valid()
      modifies this, d`meta, d`pool, d`pos, d`trace, d`failed
      ensures old(d.trace) <= d.trace
      ensures res == 0 ==> old(d.meta) == None && d.leftover == None && isOpen && isWritable
      ensures res == 0 ==> DigestsHold(TheKit(), d.image)
      ensures res == 0 ==> Parse(TheKit(), d.image).Some?
      ensures res == 0 ==>
        var o := Parse(TheKit(), d.image).value;
        && Genuine(TheKit(), d.image, o)
        && OpenedFits(o) && B() == BooksOf(o) && entries == |table| && d.meta == Some(MetaOf(B()))
        && (Laid(o) && PoolSynced(o, d.image, d.durable, d.dirty) ==>
              Valid() && d.pool == d.image[poolStart..poolStart + poolSize] && FoundAt(d.image, poolStart, d.pool))
      ensures res != 0 ==> !isOpen
      ensures var p := Parse(TheKit(), d.image);
        old(d.meta).Some? || p.None? || (Laid(p.value) && PoolSynced(p.value, d.image, d.durable, d.dirty)) ==>
          d.Valid()
      ensures old(d.failed) || (res != 0 && old(d.meta) == d.leftover == None && Parse(TheKit(), d.image).Some?) ==>
        d.failed
    {
      hide Disk.Traced, OpenedFits, Laid, Consistent, Parse, ParseTable, FoundAt, KitOk, Container.Setup, PoolSynced,
           Container.Valid, MetaOf, Genuine, DigestsHold;
      SetupKit();
      if d.meta.Some? || d.leftover.Some? {
        return -1;
      }
      var ok := GetHeaders();
      if ok {
        ok := GetTable();
      }
      if !ok {
        return -1;
      }
      ParseExact(TheKit(), d.image, Parse(TheKit(), d.image).value);
      AcceptedDigests(TheKit(), d.image);
      ok := Accept(Parse(TheKit(), d.image).value);
      res := if ok then 0 else -1;
    }

    /** The end of _pres_open_key: the .meta file, and the position behind the pool. */
    method Accept(ghost o: Opened) returns (ok: bool)
      requires Setup() && KitOk(TheKit()) && !isOpen && d.Valid() && Parse(TheKit(), d.image) == Some(o)
      requires d.leftover == None
      requires B() == BooksOf(o) && rtblDigest == o.rtbl.digest
      modifies `hdr, `dhdr, `entries, `isOpen, `isWritable, d`meta, d`pool, d`pos, d`trace, d`failed
      ensures old(d.trace) <= d.trace && isOpen == ok && (ok ==> isWritable)
      ensures ok ==> OpenedFits(o) && B() == BooksOf(o) && entries == |table| && d.meta == Some(MetaOf(B()))
      ensures Laid(o) && PoolSynced(o, d.image, d.durable, d.dirty) ==>
        && d.Valid()
        && (ok ==> Valid() && d.pool == d.image[poolStart..poolStart + poolSize] && FoundAt(d.image, poolStart, d.pool))
      ensures old(d.failed) || !ok ==> d.failed
    {
      hide Disk.Traced, OpenedFits, Laid, Consistent, Parse, TableOk, FoundAt, Synced, KitOk, Container.Setup,
           Container.Backed, PoolSynced, Container.Valid, MetaOf, Post;
      ghost var newPool := OpenedFacts(o);
      ok := CommitMeta(newPool);
      if ok {
        ok := d.Seek(poolStart + poolSize);
      }
      if ok {
        isOpen, isWritable := true, true;
        if Laid(o) && PoolSynced(o, d.image, d.durable, d.dirty) {
          NowValid();
        }
      }
    }

    lemma NowValid()
      requires Setup() && d.Valid() && isOpen && isWritable && |rtblDigest| == MAX_DIGEST
      requires Consistent(B()) && entries == |table| && d.meta == Some(MetaOf(B())) && d.leftover == None
      ensures Valid()
    {
      hide SparesClean, Disk.Traced, Consistent, Container.Setup, MetaOf;
      NoSpares(table, entries, digestBytes);
    }

    // ---------------------------------------------------------------- reading resources

    /** What reading needs: the table in use, and the pool in the file. */
    ghost predicate Readable()
      reads this, d
    {
      && Setup() && d.Valid() && isOpen && entries <= |table| && EntriesFit(table) && dhdr.poolStart == poolStart
      && TableOk(table[..entries], |d.pool|) && FoundAt(d.image, poolStart, d.pool)
    }

    /** Everything there is to know about a live entry. */
    lemma LiveEntry(i: nat)
      requires Readable() && i < entries && Live(table[i])
      ensures Setup() && EncOk(enc) && table[i].id == i + 1 && |table[i].dataIv| == MAX_IV
      ensures |table[i].dataDigest| == MAX_DIGEST
      ensures table[i].dataOffset + table[i].dataSize <= |d.pool|
    {
      hide SparesClean, Disk.Traced, FoundAt, EntryFits;
      EntryParts(table[i]);
      assert table[..entries][i] == table[i];
    }

    /** The data of live resource i. */
    ghost function Data(i: nat): (data: Bytes)
      requires Readable() && i < entries && Live(table[i])
      reads this, d
      ensures |data| == table[i].dataSize
    {
      LiveEntry(i);
      DataOf(enc, d.pool, table[i])
    }

    lemma DataIs(i: nat)
      requires Readable() && i < entries && Live(table[i])
      ensures EncOk(enc) && |table[i].dataIv| == MAX_IV && table[i].dataOffset + table[i].dataSize <= |d.pool|
      ensures TableReadable(enc, d.pool, table[..entries]) && table[..entries][i] == table[i]
      ensures SourceAt(enc, d.pool, table[i]) ==
              Source(table[i].uuid, table[i].basenameOffset, CString(table[i].name), Data(i))
      ensures DataOf(enc, d.pool, table[i]) == Data(i)
    {
      hide SparesClean, Disk.Traced, FoundAt, Coded, CString, EntryFits;
      ReadableTable();
      assert table[..entries][i] == table[i];
    }

    lemma ReadableLength()
      requires Readable()
      ensures entries <= |table|
    {
      hide SparesClean, Disk.Traced, FoundAt, EntryFits, EncOk, TableOk;
    }

    lemma ReadableTable()
      requires Readable()
      ensures TableReadable(enc, d.pool, table[..entries])
    {
      hide SparesClean, Disk.Traced, FoundAt, EntryFits, EncOk;
      forall k | 0 <= k < entries && Live(table[..entries][k])
        ensures |table[..entries][k].dataIv| == MAX_IV
      {
        EntryParts(table[k]);
      }
    }

    /** The live resources, in order. */
    ghost function Resources(): (rs: seq<Source>)
      requires Readable()
      reads this, d
    {
      ReadableLength();
      ReadableTable();
      Sources(enc, d.pool, table[..entries], entries)
    }

    /** Those among the first n entries. */
    ghost function FirstResources(n: nat): (rs: seq<Source>)
      requires Readable() && n <= entries
      reads this, d
    {
      ReadableLength();
      ReadableTable();
      Sources(enc, d.pool, table[..entries], n)
    }

    lemma SourceFits(i: nat)
      requires Readable() && i < entries && Live(table[i])
      ensures |table[i].dataDigest| == MAX_DIGEST
      ensures table[i].uuid < TWO64
      ensures table[i].basenameOffset < TWO64
      ensures IsCString(CString(table[i].name)) && |Data(i)| == table[i].dataSize
    {
      hide SparesClean, Disk.Traced, FoundAt, CString, IsCString, Pow256;
      LiveEntry(i);
      Pow256Of8();
      FieldFits(ENTRY_LAYOUT, EntryValues(table[i]), 1);
      FieldFits(ENTRY_LAYOUT, EntryValues(table[i]), 2);
      CStringHasNoZero(table[i].name);
    }

    lemma SetupDigest()
      requires Setup()
      ensures digestBytes <= MAX_DIGEST && forall x :: |digest(x)| == digestBytes
    {
    }

    lemma ValidReadable()
      requires Valid()
      ensures Readable()
    {
      hide SparesClean, Disk.Traced, TableOk, FoundAt, Synced, MetaOf, HdrFits, DhdrFits, EntryFits, Container.Setup;
      PoolThere();
    }

    lemma ValidTable()
      requires Valid()
      ensures entries <= |table|
    {
      hide SparesClean, Disk.Traced, TableOk, Fitting;
    }

    /** k_pres_res_open: deleted entries are refused, the stream cipher starts over. It is the
        cipher that also codes the resource being added, so that appending may not go on unless
        nothing has been appended yet and both resources have the same IV. */
    method ResOpen(id: nat) returns (r: Option<Resource>)
      requires Readable() && 1 <= id <= entries
      modifies this`scIv, this`scPos
      ensures Readable() && r.Some? == Live(table[id - 1])
      ensures r.Some? ==>
        var e := table[id - 1];
        r.value == Resource(e.uuid, CString(e.name), e.dataDigest, e.basenameOffset, poolStart + e.dataOffset,
            e.dataSize)
      ensures if enc.Some? && r.Some? then scIv == table[id - 1].dataIv && scPos == 0
              else scIv == old(scIv) && scPos == old(scPos)
      ensures old(Adding()) ==>
        (Adding() <==> enc.None? || r.None? || (hashed == [] && table[id - 1].dataIv == old(scIv)))
    {
      hide SparesClean, Disk.Traced, TableOk, FoundAt, Consistent, Container.Setup, CString, EntryFits, MetaOf;
      var e := table[id - 1];
      if !Live(e) {
        return None;
      }
      LiveEntry(id - 1);
      if enc.Some? {
        scIv, scPos := e.dataIv, 0;
      }
      r := Some(Resource(e.uuid, CString(e.name), e.dataDigest, e.basenameOffset, dhdr.poolStart + e.dataOffset,
          e.dataSize));
    }

    /** k_pres_res_map; length 0 asks for the whole resource. Whatever stands in the file there is
        decoded where the stream cipher stands: inside the resource a window is right when the
        windows before it were mapped in order, or there is no cipher. What is asked for behind
        the end of the file is not determined. The file position moves behind what was read,
        where appending may go on only if that happens to be the place. */
    method ResMap(r: Resource, length: nat, offset: nat, ghost i: nat) returns (m: Option<Bytes>)
      requires Readable() && i < entries && Live(table[i]) && r.size == table[i].dataSize
      requires r.absoff == poolStart + table[i].dataOffset && (enc.Some? ==> scIv == table[i].dataIv)
      modifies this`scPos, d`pos, d`failed
      ensures Readable() && EncOk(enc) && |table[i].dataIv| == MAX_IV
      ensures m.None? ==> scPos == old(scPos)
      ensures m.Some? ==>
        var from := if length == 0 then 0 else offset;
        var to := if length == 0 then r.size else offset + length;
        var at, there := r.absoff + from, Reach(d.image, r.absoff + from, to - from);
        && |m.value| == to - from && d.pos == at + there
        && scPos == (if enc.Some? then old(scPos) + (to - from) else old(scPos))
        && (there > 0 ==>
              m.value[..there] == Coded(enc, table[i].dataIv, old(scPos), d.image[at..at + there]))
        && (to <= r.size && (enc.None? || old(scPos) == from) ==> there == to - from && m.value == Data(i)[from..to])
        && (old(Adding()) ==> (Adding() <==> (enc.None? || from == to) && at + there == rtblStart + |stored|))
      ensures old(d.failed) || m.None? ==> d.failed
    {
      hide SparesClean, Disk.Traced, TableOk, Coded, EntryFits, FoundAt, Consistent, MetaOf, Container.Adding;
      LiveEntry(i);
      var size, start := length, offset;
      if length == 0 {
        size, start := r.size, 0;
      }
      ghost var p := scPos;
      m := Fetch(r.absoff + start, size, table[i].dataIv);
      if m.Some? && start + size <= r.size {
        WindowData(i, start, start + size, p, m.value);
      }
    }

    /** The part of k_pres_res_map behind the choice of the window. */
    method Fetch(at: nat, size: nat, ghost iv: Bytes) returns (m: Option<Bytes>)
      requires Setup() && EncOk(enc) && d.Valid() && |iv| == MAX_IV && (enc.Some? ==> scIv == iv)
      modifies this`scPos, d`pos, d`failed
      ensures d.Valid() && (m.None? ==> scPos == old(scPos))
      ensures m.Some? ==>
        var there := Reach(d.image, at, size);
        && |m.value| == size && d.pos == at + there
        && scPos == (if enc.Some? then old(scPos) + size else old(scPos))
        && (there > 0 ==> m.value[..there] == Coded(enc, iv, old(scPos), d.image[at..at + there]))
        && (old(Adding()) ==> (Adding() <==> (enc.None? || size == 0) && at + there == rtblStart + |stored|))
      ensures old(d.failed) || m.None? ==> d.failed
    {
      hide SparesClean, Disk.Traced, TableOk, Coded, FoundAt, Consistent, MetaOf, EncOk;
      m := d.Read(at, size);
      if m.Some? {
        var there := Reach(d.image, at, size);
        CodedFront(enc, scIv, scPos, m.value, there);
        PlainOrNot(m.value[..there], iv, scPos);
        m := Some(Coded(enc, scIv, scPos, m.value));
        if enc.Some? {
          scPos := scPos + size;
        }
      }
    }

    /** A window inside the resource is there, and decodes to its part of the data. */
    lemma WindowData(i: nat, from: nat, to: nat, p: nat, m: Bytes)
      requires Readable() && i < entries && Live(table[i]) && from <= to <= table[i].dataSize && |m| == to - from
      requires EncOk(enc) && |table[i].dataIv| == MAX_IV
      requires var at := poolStart + table[i].dataOffset + from;
        var there := Reach(d.image, at, to - from);
        there > 0 ==> m[..there] == Coded(enc, table[i].dataIv, p, d.image[at..at + there])
      ensures Reach(d.image, poolStart + table[i].dataOffset + from, to - from) == to - from
      ensures enc.None? || p == from ==> m == Data(i)[from..to]
    {
      hide SparesClean, Disk.Traced, TableOk, Coded, EntryFits, FoundAt;
      LiveEntry(i);
      var e := table[i];
      var raw := Stored(d.pool, e);
      CodedSlice(enc, e.dataIv, 0, raw, from, to);
      if from < to {
        WindowThere(d.image, poolStart, d.pool, e, from, to - from);
        AnyPosition(raw[from..to], e.dataIv, p, from);
        assert m[..to - from] == m;
      } else {
        assert m == Data(i)[from..to];
      }
    }

    lemma AnyPosition(s: Bytes, iv: Bytes, p: nat, q: nat)
      requires EncOk(enc) && |iv| == MAX_IV
      ensures enc.None? || p == q ==> Coded(enc, iv, p, s) == Coded(enc, iv, q, s)
    {
    }

    /** Without a cipher the position does not matter. */
    lemma PlainOrNot(s: Bytes, iv: Bytes, p: nat)
      requires EncOk(enc) && |scIv| == |iv| == MAX_IV && (enc.Some? ==> scIv == iv)
      ensures enc.None? || scPos == p ==> Coded(enc, scIv, scPos, s) == Coded(enc, iv, p, s)
    {
    }

    static lemma WindowThere(file: Bytes, lo: nat, pool: Bytes, e: Entry, offset: nat, length: nat)
      requires FoundAt(file, lo, pool) && e.dataOffset + e.dataSize <= |pool| && offset + length <= e.dataSize
      requires length > 0
      ensures var at := lo + e.dataOffset + offset;
        && at + length <= |file|
        && file[at..at + length] == Stored(pool, e)[offset..offset + length]
    {
      hide FoundAt;
      var from := e.dataOffset + offset;
      FoundSlice(file, lo, pool, from, from + length);
      FoundLength(file, lo + from, pool[from..from + length]);
      FoundReads(file, lo + from, pool[from..from + length]);
      SliceOfSlice(pool, e.dataOffset, e.dataOffset + e.dataSize, offset, offset + length);
    }

    static lemma SliceOfSlice(s: Bytes, lo: nat, hi: nat, a: nat, b: nat)
      requires lo <= hi <= |s| && a <= b <= hi - lo
      ensures s[lo..hi][a..b] == s[lo + a..lo + b]
    {
      var l, r := s[lo..hi][a..b], s[lo + a..lo + b];
      forall k | 0 <= k < b - a ensures l[k] == r[k] {
        assert l[k] == s[lo..hi][a + k];
      }
      assert l == r;
    }

    static lemma FoundLength(file: Bytes, at: nat, bytes: Bytes)
      requires FoundAt(file, at, bytes) && bytes != []
      ensures at + |bytes| <= |file|
    {
      assert HasByte(file, at + (|bytes| - 1), bytes[|bytes| - 1]);
    }
  }

  /** struct pres_res_t */
  datatype Resource = Resource(uuid: nat, name: Bytes, digest: Bytes, basenameOffset: nat, absoff: nat, size: nat)
}
