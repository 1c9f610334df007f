// The two files of a container that is open for writing: the container file with its
// write-back cache, and the .meta file, which k_tcreat and k_tcommit_and_close replace
// atomically. Any operation may fail; a crash may strike between any two.

module PresDisk {
  import opened Bytes
  import opened PresFormat

  /** The plain metadata that _commit_meta_data writes. */
  datatype Meta = Meta(hdr: Hdr, dhdr: Dhdr, table: seq<Entry>)

  /** What a crash finds: the container file as last synced, the bytes touched since, the .meta
      file, the pool bytes that the .meta file is about, and whether the container file has
      been unlinked. */
  datatype Snapshot = Snapshot(durable: Bytes, dirty: iset<nat>, meta: Option<Meta>, pool: Bytes, lost: bool)

  /** Touched bytes may hold anything after a crash; untouched ones are there, and the file is no
      longer than it was unless that was touched. Of an unlinked file nothing is left. */
  ghost predicate Crash(s: Snapshot, c: Bytes) {
    if s.lost then c == []
    else
      && (forall p: nat :: p < |s.durable| && p !in s.dirty ==> p < |c| && c[p] == s.durable[p])
      && (forall p: nat :: |s.durable| <= p < |c| ==> p in s.dirty)
  }

  /** A synced file is what any crash finds. */
  lemma CrashOfSynced(s: Snapshot, c: Bytes)
    requires !s.lost && s.dirty == iset{} && Crash(s, c)
    ensures c == s.durable
  {
    var m, n := |s.durable|, |c|;
    assert m !in s.dirty && n !in s.dirty;
  }

  /** A byte touched since the last sync may be any. */
  lemma CrashTouches(s: Snapshot, c: Bytes, p: nat, b: Byte)
    requires !s.lost && Crash(s, c) && p in s.dirty && p < |c|
    ensures Crash(s, c[p := b])
  {
  }

  const MAX_FILE: nat := 0x7fff_ffff_ffff_ffff

  predicate Live(e: Entry) {
    e.id != 0
  }

  /** The pool bytes of an entry. */
  function Stored(pool: Bytes, e: Entry): (s: Bytes)
    requires e.dataOffset + e.dataSize <= |pool|
    ensures |s| == e.dataSize
  {
    pool[e.dataOffset..e.dataOffset + e.dataSize]
  }

  /** Live entries lie inside the pool, in the order of the table and without overlap. */
  ghost predicate TableOk(table: seq<Entry>, poolSize: nat) {
    && (forall k :: 0 <= k < |table| && Live(table[k]) ==>
          table[k].id == k + 1 && table[k].dataOffset + table[k].dataSize <= poolSize)
    && (forall j, k :: 0 <= j < k < |table| && Live(table[j]) && Live(table[k]) ==>
          table[j].dataOffset + table[j].dataSize <= table[k].dataOffset)
  }

  /** The file holds these bytes at this offset. */
  ghost predicate FoundAt(file: Bytes, at: nat, bytes: Bytes) {
    forall i: nat :: i < |bytes| ==> HasByte(file, at + i, bytes[i])
  }

  predicate HasByte(file: Bytes, p: nat, b: Byte) {
    p < |file| && file[p] == b
  }

  lemma FoundJoin(file: Bytes, at: nat, a: Bytes, b: Bytes)
    requires FoundAt(file, at, a) && FoundAt(file, at + |a|, b)
    ensures FoundAt(file, at, a + b)
  {
    forall i: nat | i < |a + b| ensures HasByte(file, at + i, (a + b)[i]) {
      if i < |a| {
        assert HasByte(file, at + i, a[i]);
      } else {
        assert HasByte(file, at + |a| + (i - |a|), b[i - |a|]);
      }
    }
  }

  lemma FoundSlice(file: Bytes, at: nat, bytes: Bytes, from: nat, to: nat)
    requires FoundAt(file, at, bytes) && from <= to <= |bytes|
    ensures FoundAt(file, at + from, bytes[from..to])
  {
    forall i: nat | i < to - from ensures HasByte(file, at + from + i, bytes[from..to][i]) {
      assert HasByte(file, at + (from + i), bytes[from + i]);
    }
  }

  lemma FoundReads(file: Bytes, at: nat, bytes: Bytes)
    requires FoundAt(file, at, bytes) && at + |bytes| <= |file|
    ensures file[at..at + |bytes|] == bytes
  {
    forall i: nat | i < |bytes| ensures file[at..at + |bytes|][i] == bytes[i] {
      assert HasByte(file, at + i, bytes[i]);
    }
  }

  /** The pool bytes from lo on are on disk and untouched. */
  ghost predicate Synced(durable: Bytes, dirty: iset<nat>, lo: nat, pool: Bytes) {
    FoundAt(durable, lo, pool) && forall p :: p in dirty ==> !Within(p, lo, lo + |pool|)
  }

  predicate Within(p: nat, from: nat, to: nat) {
    from <= p < to
  }

  lemma SyncedByte(durable: Bytes, dirty: iset<nat>, lo: nat, pool: Bytes, i: nat)
    requires Synced(durable, dirty, lo, pool) && i < |pool|
    ensures lo + i < |durable| && lo + i !in dirty && durable[lo + i] == pool[i]
  {
    assert HasByte(durable, lo + i, pool[i]);
    assert Within(lo + i, lo, lo + |pool|);
  }

  /** The .meta file describes a pool, and unless the container file is gone, the pool is all
      there. */
  ghost predicate Safe(s: Snapshot) {
    s.meta.Some? ==>
      var m := s.meta.value;
      && |s.pool| == m.dhdr.poolSize && TableOk(m.table, |s.pool|)
      && (s.lost || Synced(s.durable, s.dirty, m.dhdr.poolStart, s.pool))
  }

  /** In whatever state a crash leaves the container file, a live entry of the .meta file still
      finds its bytes, exactly when the file was not unlinked or there are none. */
  lemma CrashKeepsData(s: Snapshot, c: Bytes, k: nat)
    requires Safe(s) && s.meta.Some? && Crash(s, c)
    requires k < |s.meta.value.table| && Live(s.meta.value.table[k])
    ensures var m := s.meta.value; var e := m.table[k];
      && e.dataOffset + e.dataSize <= |s.pool|
      && (FoundAt(c, m.dhdr.poolStart + e.dataOffset, Stored(s.pool, e)) <==> !s.lost || e.dataSize == 0)
  {
    var m := s.meta.value;
    var e, lo := m.table[k], m.dhdr.poolStart;
    var bytes := Stored(s.pool, e);
    if s.lost {
      NothingFoundInNothing(lo + e.dataOffset, bytes);
    } else {
      forall i: nat | i < e.dataSize ensures HasByte(c, lo + e.dataOffset + i, bytes[i]) {
        SyncedByte(s.durable, s.dirty, lo, s.pool, e.dataOffset + i);
      }
    }
  }

  lemma NothingFoundInNothing(at: nat, bytes: Bytes)
    ensures FoundAt([], at, bytes) <==> bytes == []
  {
    if bytes != [] {
      assert !HasByte([], at + 0, bytes[0]);
    }
  }

  /** After any crash every live entry of the .meta file finds its bytes. */
  ghost predicate Recoverable(s: Snapshot) {
    s.meta.Some? ==>
      var m := s.meta.value;
      forall c: Bytes, k: nat :: Crash(s, c) && k < |m.table| && Live(m.table[k]) ==>
        var e := m.table[k];
        e.dataOffset + e.dataSize <= |s.pool| && FoundAt(c, m.dhdr.poolStart + e.dataOffset, Stored(s.pool, e))
  }

  /** No live entry has any bytes. */
  ghost predicate Empty(table: seq<Entry>) {
    forall k :: 0 <= k < |table| && Live(table[k]) ==> table[k].dataSize == 0
  }

  /** Only unlinking the container file makes the .meta file useless, and only when it
      describes data. */
  lemma RecoverableExactly(s: Snapshot)
    requires Safe(s) && s.meta.Some?
    ensures Recoverable(s) <==> !s.lost || Empty(s.meta.value.table)
  {
    hide TableOk, FoundAt, Synced;
    var m := s.meta.value;
    forall c: Bytes, k: nat | Crash(s, c) && k < |m.table| && Live(m.table[k])
      ensures var e := m.table[k];
        && e.dataOffset + e.dataSize <= |s.pool|
        && (FoundAt(c, m.dhdr.poolStart + e.dataOffset, Stored(s.pool, e)) <==> !s.lost || e.dataSize == 0)
    {
      CrashKeepsData(s, c, k);
    }
    if s.lost {
      assert Crash(s, []);
    }
  }

  /** Once a temporary is unlinked, as the exit of the process does it. */
  ghost function Unlinked(s: Snapshot): Snapshot {
    s.(durable := [], dirty := iset{}, lost := true)
  }

  lemma UnlinkedExactly(s: Snapshot)
    requires Safe(s) && s.meta.Some? && !s.lost
    ensures Recoverable(s) && (Recoverable(Unlinked(s)) <==> Empty(s.meta.value.table))
  {
    hide TableOk, Synced, Recoverable, Empty;
    RecoverableExactly(s);
    RecoverableExactly(Unlinked(s));
  }

  /** The pool of a new container with one byte of data, unlinked. */
  lemma OneByteLost(hdr: Hdr, dhdr: Dhdr, e: Entry, b: Byte)
    requires e.id == 1 && e.dataOffset == 0 && e.dataSize == 1 && dhdr.poolSize == 1
    ensures var s := Snapshot([], iset{}, Some(Meta(hdr, dhdr, [e])), [b], true);
      Safe(s) && !Recoverable(s)
  {
    var s := Snapshot([], iset{}, Some(Meta(hdr, dhdr, [e])), [b], true);
    RecoverableExactly(s);
    assert Live(s.meta.value.table[0]);
  }

  /** What write leaves in a file: a gap behind the end reads as zeros. */
  function WriteAt(image: Bytes, at: nat, data: Bytes): (r: Bytes)
    ensures |r| == if at + |data| > |image| then at + |data| else |image|
    ensures r[at..at + |data|] == data
  {
    var wide := if at + |data| > |image| then image + Zeros(at + |data| - |image|) else image;
    Patch(wide, at, data)
  }

  lemma WriteAtByte(image: Bytes, at: nat, data: Bytes, p: nat)
    requires p < |image| && !(at <= p < at + |data|)
    ensures p < |WriteAt(image, at, data)| && WriteAt(image, at, data)[p] == image[p]
  {
  }

  ghost function Span(from: nat, to: nat): iset<nat> {
    iset p: nat | Within(p, from, to)
  }

  /** The bytes that a write touches, a gap behind the old end included. */
  ghost function Touched(image: Bytes, at: nat, n: nat): iset<nat> {
    Span(if at < |image| then at else |image|, at + n)
  }

  ghost function From(len: nat): iset<nat> {
    iset p: nat | !Within(p, 0, len)
  }

  lemma WriteFound(image: Bytes, at: nat, data: Bytes)
    ensures FoundAt(WriteAt(image, at, data), at, data)
  {
    hide WriteAt;
    var r := WriteAt(image, at, data);
    forall i: nat | i < |data| ensures HasByte(r, at + i, data[i]) {
      assert r[at..at + |data|][i] == data[i];
    }
  }

  /** Writing next to bytes leaves them alone. */
  lemma WriteSpares(image: Bytes, at: nat, data: Bytes, lo: nat, bytes: Bytes)
    requires FoundAt(image, lo, bytes) && (at + |data| <= lo || lo + |bytes| <= at)
    ensures FoundAt(WriteAt(image, at, data), lo, bytes)
  {
    hide WriteAt;
    forall i: nat | i < |bytes| ensures HasByte(WriteAt(image, at, data), lo + i, bytes[i]) {
      assert HasByte(image, lo + i, bytes[i]);
      WriteAtByte(image, at, data, lo + i);
    }
  }

  /** How many of the n bytes from `at` on a file has. */
  function Reach(file: Bytes, at: nat, n: nat): (r: nat)
    ensures r <= n && (r > 0 ==> at + r <= |file|)
  {
    if at + n <= |file| then n else if at <= |file| then |file| - at else 0
  }

  function Max(a: nat, b: nat): nat {
    if a < b then b else a
  }

  lemma MaxItself(a: nat, b: nat)
    ensures a <= Max(a, b)
  {
  }

  lemma MaxTwice(start: nat, p: nat, middle: nat, q: nat, end: nat)
    requires middle <= Max(start, p) && end <= Max(middle, q) && p <= q
    ensures end <= Max(start, q)
  {
  }

  class Disk {
    /** The container file as its users see it, and the file position. */
    var image: Bytes
    var pos: nat
    var meta: Option<Meta>
    /** A .meta file that was there before, about another container file of the same name. */
    var leftover: Option<Meta>
    /** Whether the container file is one that k_tcreat made and that has not been committed, and
        whether such a file has been unlinked. */
    var temporary: bool
    var lost: bool
    /** Whether any system call on these files, or realloc of the table, has ever failed or done
        less than it was asked for. */
    ghost var failed: bool
    ghost var durable: Bytes
    ghost var dirty: iset<nat>
    ghost var pool: Bytes
    /** Every state the disk has gone through. */
    ghost var trace: seq<Snapshot>

    ghost function Now(): Snapshot
      reads this
    {
      Snapshot(durable, dirty, meta, pool, lost)
    }

    /** All states up to now; losing the file is the end of a temporary. */
    ghost predicate Traced()
      reads this
    {
      && Crash(Now(), image)
      && trace != [] && trace[|trace| - 1] == Now()
      && (forall i :: 0 <= i < |trace| ==> Safe(trace[i]) && (trace[i].lost ==> lost && temporary))
    }

    /** The file is there. */
    ghost predicate Valid()
      reads this
    {
      Traced() && !lost
    }

    /** No byte of the committed pool lies in [from, to). */
    ghost predicate Spares(from: nat, to: nat)
      reads this
    {
      meta.Some? ==> to <= meta.value.dhdr.poolStart || meta.value.dhdr.poolStart + |pool| <= from
    }

    constructor (file: Bytes, isTemporary: bool, before: Option<Meta>)
      ensures Valid() && image == file && pos == 0 && meta == None && temporary == isTemporary && leftover == before
      ensures durable == image && dirty == iset{} && !failed
    {
      image := file;
      pos := 0;
      meta, leftover := None, before;
      temporary, lost := isTemporary, false;
      durable := file;
      dirty := iset{};
      failed := false;
      pool := [];
      trace := [Snapshot(file, iset{}, None, [], false)];
    }

    lemma ValidIsSafe()
      requires Traced()
      ensures Safe(Now())
    {
      assert Safe(trace[|trace| - 1]);
    }

    /** Memory has run out. */
    ghost method OutOfMemory()
      modifies this`failed
      ensures failed && (old(Traced()) ==> Traced())
    {
      failed := true;
    }

    /** lseek to an absolute offset. */
    method Seek(p: nat) returns (ok: bool)
      modifies this`pos, this`failed
      ensures (old(Traced()) ==> Traced()) && pos == if ok then p else old(pos)
      ensures old(failed) || !ok ==> failed
    {
      ok := *;
      if ok {
        pos := p;
      } else {
        failed := true;
      }
    }

    /** One write call: fails, or writes at least one byte. */
    method Write(data: Bytes) returns (n: int)
      requires Valid() && data != [] && Spares(pos, pos + |data|)
      modifies this`image, this`pos, this`dirty, this`trace, this`failed
      ensures Valid() && old(trace) <= trace && n <= |data|
      ensures if n < 0 then image == old(image) && pos == old(pos)
              else 0 < n && image == WriteAt(old(image), old(pos), data[..n]) && pos == old(pos) + n <= MAX_FILE
      ensures old(dirty) <= dirty && (n > 0 ==> old(pos) in dirty)
      ensures old(failed) || n < |data| ==> failed
    {
      hide WriteAt, TableOk, Synced;
      n := *;
      if n != |data| || pos + n > MAX_FILE {
        failed := true;
      }
      if !(0 < n <= |data| && pos + n <= MAX_FILE) {
        n := -1;
      } else {
        WriteKeeps(Now(), image, pos, data[..n]);
        ghost var touched := Touched(image, pos, n);
        image := WriteAt(image, pos, data[..n]);
        dirty := dirty + touched;
        pos := pos + n;
        trace := trace + [Now()];
      }
    }

    lemma WriteKeeps(s: Snapshot, file: Bytes, at: nat, data: Bytes)
      requires Valid() && s == Now() && file == image && Spares(at, at + |data|)
      ensures var t := s.(dirty := s.dirty + Touched(file, at, |data|));
        Safe(t) && Crash(t, WriteAt(file, at, data))
    {
      hide WriteAt, TableOk;
      ValidIsSafe();
      var touched := Touched(file, at, |data|);
      if meta.Some? {
        TouchSpares(s, file, at, |data|, meta.value.dhdr.poolStart);
      }
      var c := WriteAt(file, at, data);
      forall p: nat | p < |s.durable| && p !in s.dirty && p !in touched
        ensures p < |c| && c[p] == s.durable[p]
      {
        WriteAtByte(file, at, data, p);
      }
      forall p: nat | |s.durable| <= p < |c| && p !in touched ensures p in s.dirty {
        assert p < |file|;
      }
    }

    /** A gap in front of what is written lies behind the committed pool. */
    static lemma TouchSpares(s: Snapshot, file: Bytes, at: nat, n: nat, lo: nat)
      requires !s.lost && Crash(s, file) && Synced(s.durable, s.dirty, lo, s.pool)
      requires at + n <= lo || lo + |s.pool| <= at
      ensures Synced(s.durable, s.dirty + Touched(file, at, n), lo, s.pool)
    {
      if s.pool != [] {
        SyncedByte(s.durable, s.dirty, lo, s.pool, |s.pool| - 1);
      }
      forall p | p in Touched(file, at, n) ensures !Within(p, lo, lo + |s.pool|) {
        if s.pool != [] && at + n <= lo {
          assert at < |file|;
        }
      }
    }

    /** lseek and read until n bytes are there or the file ends, into memory from malloc. */
    method Read(at: nat, n: nat) returns (r: Option<Bytes>)
      requires Valid()
      modifies this`pos, this`failed
      ensures Valid() && (r.None? ==> pos == old(pos) || pos == at)
      ensures r.Some? ==>
        var there := Reach(image, at, n);
        |r.value| == n && pos == at + there && (there > 0 ==> r.value[..there] == image[at..at + there])
      ensures old(failed) || r.None? ==> failed
    {
      var mem := new Byte[n];
      var ok := Seek(at);
      if !ok {
        return None;
      }
      ok := *;
      if !ok {
        failed := true;
        return None;
      }
      var there := Reach(image, at, n);
      pos := at + there;
      var got := if there == 0 then [] else image[at..at + there];
      r := Some(got + mem[there..]);
    }

    /** ftruncate */
    method Truncate(len: nat) returns (ok: bool)
      requires Valid() && (meta.Some? ==> meta.value.dhdr.poolStart + |pool| <= len)
      modifies this`image, this`dirty, this`trace, this`failed
      ensures Valid() && old(trace) <= trace
      ensures image == if ok then Resized(old(image), len) else old(image)
      ensures old(failed) || !ok ==> failed
    {
      hide TableOk;
      ok := *;
      if ok {
        ValidIsSafe();
        if meta.Some? {
          CutSpares(Now(), image, len, meta.value.dhdr.poolStart);
        }
        ghost var cut := if len < |image| then len else |image|;
        image := Resized(image, len);
        dirty := dirty + From(cut);
        trace := trace + [Now()];
      } else {
        failed := true;
      }
    }

    static lemma CutSpares(s: Snapshot, file: Bytes, len: nat, lo: nat)
      requires !s.lost && Crash(s, file) && Synced(s.durable, s.dirty, lo, s.pool) && lo + |s.pool| <= len
      ensures Synced(s.durable, s.dirty + From(if len < |file| then len else |file|), lo, s.pool)
    {
      if s.pool != [] {
        SyncedByte(s.durable, s.dirty, lo, s.pool, |s.pool| - 1);
      }
    }

    /** fsync */
    method Sync() returns (ok: bool)
      requires Valid()
      modifies this`durable, this`dirty, this`trace, this`failed
      ensures Valid() && old(trace) <= trace
      ensures if ok then durable == image && dirty == iset{} else durable == old(durable) && dirty == old(dirty)
      ensures old(failed) || !ok ==> failed
    {
      hide TableOk;
      ok := *;
      if ok {
        ValidIsSafe();
        if meta.Some? {
          SyncKeeps(Now(), image, meta.value.dhdr.poolStart);
        }
        durable := image;
        dirty := iset{};
        trace := trace + [Now()];
      } else {
        failed := true;
      }
    }

    static lemma SyncKeeps(s: Snapshot, file: Bytes, lo: nat)
      requires Crash(s, file) && !s.lost && Synced(s.durable, s.dirty, lo, s.pool)
      ensures Synced(file, iset{}, lo, s.pool)
    {
      forall i: nat | i < |s.pool| ensures HasByte(file, lo + i, s.pool[i]) {
        SyncedByte(s.durable, s.dirty, lo, s.pool, i);
      }
    }

    /** The file holds, for good, the pool that this metadata describes. */
    ghost predicate Backs(m: Meta, p: Bytes)
      reads this
    {
      |p| == m.dhdr.poolSize && TableOk(m.table, |p|) && Synced(durable, dirty, m.dhdr.poolStart, p)
    }

    /** k_tcreat, writes and k_tcommit_and_close on the .meta file: all or nothing. */
    method ReplaceMeta(m: Meta, ghost newPool: Bytes) returns (ok: bool)
      requires Valid()
      modifies this`meta, this`pool, this`trace, this`failed
      ensures old(trace) <= trace && (!ok || Backs(m, newPool) ==> Valid())
      ensures meta == (if ok then Some(m) else old(meta)) && pool == if ok then newPool else old(pool)
      ensures old(failed) || !ok ==> failed
    {
      hide TableOk, Synced;
      ok := *;
      if ok {
        meta := Some(m);
        pool := newPool;
        trace := trace + [Now()];
      } else {
        failed := true;
      }
    }

    /** k_tcommit_and_close on the container file. A temporary is renamed, without fsync, or
        unlinked; any other file is synced, whatever fsync says, and closed. */
    method CommitFile() returns (ok: bool, ghost synced: bool)
      requires Valid()
      modifies this`image, this`temporary, this`lost, this`durable, this`dirty, this`trace, this`failed
      ensures Traced() && old(trace) <= trace && lost == !ok
      ensures ok ==> Valid() && image == old(image) && !temporary
      ensures !ok ==> old(temporary) && temporary
      ensures ok ==> if synced then !old(temporary) && durable == image && dirty == iset{}
                     else durable == old(durable) && dirty == old(dirty)
      ensures old(failed) || !ok || (!old(temporary) && !synced) ==> failed
    {
      hide TableOk;
      ok, synced := true, false;
      if temporary {
        ok := *;
        if ok {
          temporary := false;
        } else {
          failed := true;
          Unlink();
        }
      } else {
        synced := Sync();
      }
    }

    /** k_trollback_and_close on the container file: a temporary is unlinked, any other file is
        synced, whatever fsync says, and closed. */
    method RollbackFile()
      requires Valid()
      modifies this`image, this`lost, this`durable, this`dirty, this`trace, this`failed
      ensures Traced() && old(trace) <= trace && lost == temporary
      ensures image == if temporary then [] else old(image)
      ensures old(failed) ==> failed
    {
      if temporary {
        Unlink();
      } else {
        var ignored := Sync();
      }
    }

    /** unlink of the temporary */
    method Unlink()
      requires Valid() && temporary
      modifies this`image, this`lost, this`durable, this`dirty, this`trace
      ensures Traced() && old(trace) <= trace && lost && image == [] && Now() == Unlinked(old(Now()))
    {
      hide TableOk, Synced;
      ValidIsSafe();
      image, lost := [], true;
      durable, dirty := [], iset{};
      trace := trace + [Now()];
    }

    /** The first .meta file of a new container takes the place of one that was left over. */
    method Supersede()
      modifies this`leftover
      ensures leftover == None && (old(Traced()) ==> Traced())
    {
      leftover := None;
    }

    /** unlink of the .meta file */
    method DropMeta()
      requires Valid()
      modifies this`meta, this`trace
      ensures Valid() && old(trace) <= trace && meta == None
    {
      hide TableOk;
      meta := None;
      trace := trace + [Now()];
    }
  }

  /** On every run, at every step: a crash loses the data that the .meta file describes exactly
      when the file was a temporary that has been unlinked. */
  lemma CrashAnywhere(d: Disk, i: nat, c: Bytes, k: nat)
    requires d.Traced() && i < |d.trace| && d.trace[i].meta.Some? && Crash(d.trace[i], c)
    requires k < |d.trace[i].meta.value.table| && Live(d.trace[i].meta.value.table[k])
    ensures d.trace[i].lost ==> d.lost && d.temporary
    ensures var m := d.trace[i].meta.value; var e := m.table[k];
      && e.dataOffset + e.dataSize <= |d.trace[i].pool|
      && (FoundAt(c, m.dhdr.poolStart + e.dataOffset, Stored(d.trace[i].pool, e)) <==>
          !d.trace[i].lost || e.dataSize == 0)
  {
    hide TableOk, FoundAt, Crash;
    assert Safe(d.trace[i]);
    CrashKeepsData(d.trace[i], c, k);
  }

  function Resized(image: Bytes, len: nat): (r: Bytes)
    ensures |r| == len
  {
    if len <= |image| then image[..len] else image + Zeros(len - |image|)
  }
}
