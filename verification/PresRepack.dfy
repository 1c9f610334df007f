// k_pres_repack (src/utils/pres.c): copy the live resources of one container into a new one.

module PresRepack {
  import opened Bytes
  import opened PresFormat
  import opened PresDisk
  import opened PresBooks
  import opened PresImage
  import opened Pres

  /** An entry that holds a resource, under its place in the table as id. */
  ghost predicate Copy(e: Option<Enc>, pool: Bytes, x: Entry, id: nat, r: Source)
    requires EncOk(e)
  {
    && x.id == id && x.uuid == r.uuid && x.basenameOffset == r.basenameOffset && x.name == StoredName(r.name)
    && |x.dataIv| == MAX_IV && x.dataOffset + x.dataSize <= |pool| && DataOf(e, pool, x) == r.data
  }

  /** Where entry j has to start when there are no gaps. */
  function Behind(table: seq<Entry>, j: nat): nat
    requires j <= |table|
  {
    if j == 0 then 0 else table[j - 1].dataOffset + table[j - 1].dataSize
  }

  /** The table holds exactly these resources, in order, renumbered and without gaps. */
  ghost predicate Packed(e: Option<Enc>, pool: Bytes, table: seq<Entry>, rs: seq<Source>)
    requires EncOk(e)
  {
    && |table| == |rs| && Behind(table, |table|) == |pool|
    && (forall j :: 0 <= j < |table| ==> Copy(e, pool, table[j], j + 1, rs[j]))
    && (forall j :: 0 <= j < |table| ==> table[j].dataOffset == Behind(table, j))
  }

  lemma CopyKept(e: Option<Enc>, pool: Bytes, more: Bytes, x: Entry, id: nat, r: Source)
    requires EncOk(e) && Copy(e, pool, x, id, r)
    ensures Copy(e, pool + more, x, id, r)
  {
    hide EncOk, DataOf, StoredName;
    DataKept(e, pool, more, x);
  }

  lemma PackedGrows(e: Option<Enc>, pool: Bytes, table: seq<Entry>, rs: seq<Source>, more: Bytes, x: Entry, r: Source)
    requires EncOk(e) && Packed(e, pool, table, rs) && x.dataOffset == |pool| && x.dataSize == |more|
    requires Copy(e, pool + more, x, |table| + 1, r)
    ensures Packed(e, pool + more, table + [x], rs + [r])
  {
    hide EncOk, Copy, Behind;
    var t := table + [x];
    BehindSame(table, x, |table|);
    forall j | 0 <= j < |t|
      ensures Copy(e, pool + more, t[j], j + 1, (rs + [r])[j]) && t[j].dataOffset == Behind(t, j)
    {
      if j < |table| {
        BehindSame(table, x, j);
        CopyKept(e, pool, more, table[j], j + 1, rs[j]);
      }
    }
  }

  lemma BehindSame(table: seq<Entry>, x: Entry, j: nat)
    requires j <= |table|
    ensures Behind(table + [x], j) == Behind(table, j)
    ensures Behind(table + [x], |table| + 1) == x.dataOffset + x.dataSize
  {
  }

  /** The next window of the old resource is mapped and appended. */
  method CopyWindow(from: Container, to: Container, i: nat, r: Resource, length: nat, offset: nat, ghost data: Bytes)
      returns (ok: bool)
    requires from != to && from.d != to.d && from.Readable() && i < from.entries && Live(from.table[i])
    requires r.size == from.table[i].dataSize && r.absoff == from.poolStart + from.table[i].dataOffset
    requires from.enc.Some? ==> from.scIv == from.table[i].dataIv && from.scPos == offset
    requires from.Data(i) == data
    requires 0 < length <= IOBUF && offset + length <= |data|
    requires to.Adding() && to.Faithful() && to.hashed == data[..offset]
    modifies from`scPos, from.d`pos, from.d`failed
    modifies to`table, to`hashed, to`scPos, to`stored, to`adding, to.d`image, to.d`pos, to.d`failed, to.d`dirty,
             to.d`durable, to.d`trace
    ensures from.Readable() && from.Data(i) == data && to.Valid() && SameBooks(old(to.B()), to.B())
    ensures old(to.d.trace) <= to.d.trace
    ensures ok ==> to.Adding() && to.Faithful() && to.hashed == data[..offset + length]
    ensures ok ==> from.scIv == old(from.scIv) && (from.enc.Some? ==> from.scPos == offset + length)
    ensures ok ==> |old(to.stored)| <= |to.stored|
    ensures ok ==> |to.d.image| <= Max(old(|to.d.image|), to.rtblStart + |to.stored|)
    ensures (old(from.d.failed) ==> from.d.failed) && (old(to.d.failed) ==> to.d.failed)
    ensures !ok ==> from.d.failed || to.d.failed
  {
    hide Consistent, SameBooks, Disk.Traced, FoundAt, TableOk, EntriesFit, MetaOf, Coded, Written, EncOk, DataOf;
    ConsistentFacts(to.B());
    SameItself(to.B());
    var m := from.ResMap(r, length, offset, i);
    if m.None? {
      return false;
    }
    assert data[..offset] + data[offset..offset + length] == data[..offset + length];
    var res := to.AppendPiece(m.value);
    ok := res == 0;
  }

  /** The loop of _add_resource_to_new_pres: windows of the old resource are appended in order. */
  method CopyData(from: Container, to: Container, i: nat, r: Resource, ghost data: Bytes) returns (ok: bool)
    requires from != to && from.d != to.d && from.Readable() && i < from.entries && Live(from.table[i])
    requires r.size == from.table[i].dataSize && r.absoff == from.poolStart + from.table[i].dataOffset
    requires from.enc.Some? ==> from.scIv == from.table[i].dataIv && from.scPos == 0
    requires from.Data(i) == data
    requires to.Adding() && to.stored == [] && to.hashed == []
    modifies from`scPos, from.d`pos, from.d`failed
    modifies to`table, to`hashed, to`scPos, to`stored, to`adding, to.d`image, to.d`pos, to.d`failed, to.d`dirty,
             to.d`durable, to.d`trace
    ensures from.Readable() && from.Data(i) == data && to.Valid() && SameBooks(old(to.B()), to.B())
    ensures old(to.d.trace) <= to.d.trace
    ensures ok ==> to.Adding() && to.Faithful() && to.hashed == data
    ensures ok ==> |to.d.image| <= Max(old(|to.d.image|), to.rtblStart + |to.stored|)
    ensures (old(from.d.failed) ==> from.d.failed) && (old(to.d.failed) ==> to.d.failed)
    ensures !ok ==> from.d.failed || to.d.failed
  {
    hide Consistent, SameBooks, Disk.Traced, FoundAt, TableOk, EntriesFit, MetaOf, Coded, Written, EncOk, Max,
         Container.Readable, Container.Setup, Container.Data, Container.Valid, Container.Adding, Container.Faithful,
         Container.B;
    to.AddingRoom();
    to.ValidSetup();
    to.SameNow();
    to.NothingFaithful();
    MaxItself(|to.d.image|, to.rtblStart);
    var niter, nlast := r.size / IOBUF, r.size % IOBUF;
    ok := true;
    var k := 0;
    while k < niter
      invariant (old(from.d.failed) ==> from.d.failed) && (old(to.d.failed) ==> to.d.failed)
      invariant k <= niter && from.Readable() && from.Data(i) == data
      invariant from.scIv == old(from.scIv) && (from.enc.Some? ==> from.scPos == k * IOBUF)
      invariant |to.d.image| <= Max(old(|to.d.image|), to.rtblStart + |to.stored|)
      invariant to.Adding() && to.Faithful() && to.hashed == data[..k * IOBUF]
      invariant SameBooks(old(to.B()), to.B()) && old(to.d.trace) <= to.d.trace
    {
      ghost var b1, length, p := to.B(), |to.d.image|, to.rtblStart + |to.stored|;
      ok := CopyWindow(from, to, i, r, IOBUF, k * IOBUF, data);
      SameTwice(old(to.B()), b1, to.B());
      if !ok {
        return;
      }
      MaxTwice(old(|to.d.image|), p, length, to.rtblStart + |to.stored|, |to.d.image|);
      k := k + 1;
    }
    if nlast > 0 {
      ghost var b1, length, p := to.B(), |to.d.image|, to.rtblStart + |to.stored|;
      ok := CopyWindow(from, to, i, r, nlast, niter * IOBUF, data);
      SameTwice(old(to.B()), b1, to.B());
      if ok {
        MaxTwice(old(|to.d.image|), p, length, to.rtblStart + |to.stored|, |to.d.image|);
      }
    }
    if ok {
      to.AddingRoom();
    }
    assert data[..r.size] == data;
  }

  /** What the books of a container say about the resources in it. */
  ghost predicate Holds(c: Container, rs: seq<Source>)
    requires c.Setup() && c.entries <= |c.table|
    reads c, c.d
  {
    Packed(c.enc, c.d.pool, c.table[..c.entries], rs)
  }

  lemma HoldsMore(c: Container, b: Books, pool: Bytes, rs: seq<Source>, r: Source)
    requires c.Setup() && b.entries <= |b.table| && Packed(c.enc, pool, b.table[..b.entries], rs)
    requires c.Added(b, pool, r.data, r.name, r.basenameOffset, r.uuid)
    ensures c.entries <= |c.table| && Holds(c, rs + [r])
  {
    hide Packed, EncOk, DataOf, StoredName;
    var x := c.table[b.entries];
    var more := c.d.pool[|pool|..];
    assert c.d.pool == pool + more;
    PackedLength(c.enc, pool, b.table[..b.entries], rs);
    PackedGrows(c.enc, pool, b.table[..b.entries], rs, more, x, r);
    assert c.table[..c.entries] == b.table[..b.entries] + [x];
  }

  lemma PackedLength(e: Option<Enc>, pool: Bytes, table: seq<Entry>, rs: seq<Source>)
    requires EncOk(e) && Packed(e, pool, table, rs)
    ensures |table| == |rs| && Behind(table, |table|) == |pool|
  {
  }

  // ---------------------------------------------------------------- comparing digests

  /** The table can be read, and every live entry has the digest of its data, as committing leaves
      it (Container.IsEntryOf). */
  ghost predicate Signed(c: Container, pool: Bytes, table: seq<Entry>)
    requires c.Setup()
  {
    && TableReadable(c.enc, pool, table)
    && forall k :: 0 <= k < |table| && Live(table[k]) ==>
      table[k].dataDigest == Padded(c.digest(DataOf(c.enc, pool, table[k])))
  }

  /** The digest of the data over the digest length of the new container is what the field of the
      old one starts with. */
  ghost predicate Passes(to: Container, field: Bytes, data: Bytes)
    requires to.Setup()
  {
    to.digestBytes <= |field| && to.digest(data) == field[..to.digestBytes]
  }

  /** The comparison passes for all live resources among the first n. */
  ghost predicate AllPass(to: Container, e: Option<Enc>, pool: Bytes, table: seq<Entry>, n: nat)
    requires to.Setup() && TableReadable(e, pool, table) && n <= |table|
  {
    forall k :: 0 <= k < n && Live(table[k]) ==> Passes(to, table[k].dataDigest, DataOf(e, pool, table[k]))
  }

  lemma NonePassed(to: Container, e: Option<Enc>, pool: Bytes, table: seq<Entry>)
    requires to.Setup() && TableReadable(e, pool, table)
    ensures AllPass(to, e, pool, table, 0)
  {
  }

  lemma OneMorePasses(to: Container, e: Option<Enc>, pool: Bytes, table: seq<Entry>, n: nat)
    requires to.Setup() && TableReadable(e, pool, table) && n < |table|
    ensures EncOk(e)
    ensures Live(table[n]) ==> |table[n].dataIv| == MAX_IV && table[n].dataOffset + table[n].dataSize <= |pool|
    ensures AllPass(to, e, pool, table, n + 1) <==>
      AllPass(to, e, pool, table, n) && (Live(table[n]) ==>
        Passes(to, table[n].dataDigest, DataOf(e, pool, table[n])))
    ensures AllPass(to, e, pool, table, |table|) ==> AllPass(to, e, pool, table, n + 1)
  {
    hide EncOk, DataOf, Passes;
  }

  /** The shorter of two digests starts the other, and if that of the new container is longer, it
      goes on with zeros. */
  predicate Agree(before: Bytes, after: Bytes) {
    if |after| <= |before| then after == before[..|after|] else after == before + Zeros(|after| - |before|)
  }

  lemma AgreeExact(a: Bytes, b: Bytes)
    requires |a| <= MAX_DIGEST && |b| <= MAX_DIGEST
    ensures b == Padded(a)[..|b|] <==> Agree(a, b)
    ensures Agree(a, a)
  {
    if |b| <= |a| {
      assert Padded(a)[..|b|] == a[..|b|];
    } else {
      assert Padded(a)[..|b|] == a + Zeros(|b| - |a|);
    }
  }

  lemma FieldPasses(from: Container, to: Container, field: Bytes, data: Bytes)
    requires from.Setup() && to.Setup() && |from.digest(data)| <= MAX_DIGEST && field == Padded(from.digest(data))
    ensures Passes(to, field, data) <==> Agree(from.digest(data), to.digest(data))
    ensures Agree(from.digest(data), from.digest(data))
  {
    hide Padded, Agree, EncOk;
    AgreeExact(from.digest(data), to.digest(data));
  }

  lemma SignedMore(c: Container, b: Books, pool: Bytes, data: Bytes, name: Bytes, basenameOffset: nat, uuid: nat)
    requires c.Setup() && b.entries <= |b.table| && Signed(c, pool, b.table[..b.entries])
    requires c.Added(b, pool, data, name, basenameOffset, uuid)
    ensures c.entries <= |c.table| && Signed(c, c.d.pool, c.table[..c.entries])
  {
    hide EncOk, DataOf, StoredName, Padded;
    var t, more := c.table[..c.entries], c.d.pool[|pool|..];
    assert c.d.pool == pool + more;
    forall k | 0 <= k < |t| && Live(t[k])
      ensures |t[k].dataIv| == MAX_IV && t[k].dataOffset + t[k].dataSize <= |c.d.pool|
      ensures t[k].dataDigest == Padded(c.digest(DataOf(c.enc, c.d.pool, t[k])))
    {
      if k < b.entries {
        assert t[k] == b.table[..b.entries][k];
        DataKept(c.enc, pool, more, t[k]);
      }
    }
  }

  /** _add_resource_to_new_pres: besides copying, the digest of the data is compared with the
      stored one, over the digest length of the new container. */
  method AddResource(from: Container, to: Container, i: nat, r: Resource, nonce: Bytes, ghost data: Bytes)
      returns (ok: bool, ghost refused: bool)
    requires from != to && from.d != to.d && from.Readable() && i < from.entries && Live(from.table[i])
    requires r == Resource(from.table[i].uuid, CString(from.table[i].name), from.table[i].dataDigest,
                           from.table[i].basenameOffset, from.poolStart + from.table[i].dataOffset,
                               from.table[i].dataSize)
    requires from.enc.Some? ==> from.scIv == from.table[i].dataIv && from.scPos == 0
    requires from.Data(i) == data
    requires to.Valid() && (to.enc.Some? ==> |nonce| == to.enc.value.c.size)
    modifies from`scPos, from.d`pos, from.d`failed
    modifies to, to.d`image, to.d`pos, to.d`failed, to.d`meta, to.d`pool, to.d`durable, to.d`dirty, to.d`trace
    ensures from.Readable() && to.Valid() && old(to.d.trace) <= to.d.trace
    ensures Later(old(to.B()), old(to.d.pool), to.B(), to.d.pool)
    ensures |r.digest| == MAX_DIGEST && to.digestBytes <= MAX_DIGEST
    ensures ok || refused ==> (ok <==> Passes(to, r.digest, data)) && (ok <==> !refused)
    ensures !ok ==> SameBooks(old(to.B()), to.B()) && to.d.pool == old(to.d.pool)
    ensures ok ==> to.Added(old(to.B()), old(to.d.pool), data, r.name, r.basenameOffset, r.uuid)
    ensures ok && old(|to.d.image| <= to.fileSize) ==> |to.d.image| <= to.fileSize
    ensures (old(from.d.failed) ==> from.d.failed) && (old(to.d.failed) ==> to.d.failed)
    ensures !ok && !refused && r.name != [] ==> from.d.failed || to.d.failed
  {
    hide Consistent, SameBooks, Disk.Traced, FoundAt, TableOk, EntriesFit, MetaOf, Coded, EncOk, CString, Later,
         Container.Readable, Container.Setup, Container.Data, Container.Added, Container.Valid, Container.Adding,
         Container.Faithful;
    ghost var b, p := to.B(), to.d.pool;
    from.SourceFits(i);
    to.ValidSetup();
    to.SetupDigest();
    refused := false;
    var res := to.Init(nonce);
    SameIsLater(b, to.B(), p);
    if res != 0 {
      return false, false;
    }
    ghost var b1 := to.B();
    ok := CopyData(from, to, i, r, data);
    SameTwice(b, b1, to.B());
    SameIsLater(b, to.B(), p);
    if !ok {
      return;
    }
    if to.digest(to.hashed) != r.digest[..to.digestBytes] {
      return false, true;
    }
    ghost var b2 := to.B();
    Container.SameSize(b, b2);
    res := to.CommitData(r.name, r.basenameOffset, r.uuid);
    LaterTwice(b, p, b2, p, to.B(), to.d.pool);
    ok := res == 0;
    if ok {
      to.AddedSame(b, b2, p, data, r.name, r.basenameOffset, r.uuid);
    } else {
      SameTwice(b, b2, to.B());
    }
  }

  /** Every live entry has a name, as it has if it was committed. */
  predicate Named(table: seq<Entry>) {
    forall k :: 0 <= k < |table| && Live(table[k]) ==> CString(table[k].name) != []
  }

  /** All live resources pass the comparison. */
  ghost predicate Compared(from: Container, to: Container)
    reads from, from.d
  {
    from.Readable() && to.Setup() &&
    (from.ReadableLength();
    from.ReadableTable();
    AllPass(to, from.enc, from.d.pool, from.table[..from.entries], from.entries))
  }

  /** With entries as committing leaves them, the old hash function and the new one decide whether
      all resources pass; if they are the same, none is refused. */
  lemma ComparisonExact(from: Container, to: Container)
    requires from.Readable() && from.Setup() && to.Setup() && from.entries <= |from.table|
    requires Signed(from, from.d.pool, from.table[..from.entries])
    ensures Compared(from, to) <==>
      forall i :: 0 <= i < from.entries && Live(from.table[i]) ==>
        Agree(from.digest(from.Data(i)), to.digest(from.Data(i)))
    ensures (forall x :: to.digest(x) == from.digest(x)) ==> Compared(from, to)
  {
    hide EncOk, DataOf, Padded, Agree, Container.Readable, Container.Data, Passes;
    var table := from.table[..from.entries];
    forall i | 0 <= i < from.entries && Live(table[i])
      ensures from.Data(i) == DataOf(from.enc, from.d.pool, table[i])
      ensures Passes(to, table[i].dataDigest, from.Data(i)) <==>
        Agree(from.digest(from.Data(i)), to.digest(from.Data(i)))
      ensures Agree(from.digest(from.Data(i)), from.digest(from.Data(i)))
    {
      from.DataIs(i);
      FieldPasses(from, to, table[i].dataDigest, from.Data(i));
    }
  }

  /** The loop of k_pres_repack: the new container ends up with exactly the live resources of
      the old one, in order, or of the entries in front of the one that could not be copied. */
  method CopyAll(from: Container, to: Container, nonces: seq<Bytes>)
      returns (ok: bool, ghost refused: bool, ghost copied: nat)
    requires from != to && from.d != to.d && from.Readable() && |nonces| == from.entries
    requires to.Valid() && to.entries == 0 && to.d.pool == [] && |to.d.image| <= to.fileSize
    requires forall n :: n in nonces && to.enc.Some? ==> |n| == to.enc.value.c.size
    modifies from`scIv, from`scPos, from.d`pos, from.d`failed
    modifies to, to.d`image, to.d`pos, to.d`failed, to.d`meta, to.d`pool, to.d`durable, to.d`dirty, to.d`trace
    ensures from.Readable() && to.Valid() && old(to.d.trace) <= to.d.trace && to.entries <= |to.table|
    ensures Later(old(to.B()), old(to.d.pool), to.B(), to.d.pool)
    ensures if ok then copied == from.entries else copied < from.entries
    ensures Holds(to, from.FirstResources(copied))
    ensures ok ==> Holds(to, from.Resources()) && Signed(to, to.d.pool, to.table[..to.entries])
    ensures ok ==> |to.d.image| <= to.fileSize
    ensures ok || refused ==> (ok <==> Compared(from, to)) && (ok <==> !refused)
    ensures (old(from.d.failed) ==> from.d.failed) && (old(to.d.failed) ==> to.d.failed)
    ensures !ok && !refused && Named(from.table[..from.entries]) ==> from.d.failed || to.d.failed
  {
    hide Container.Readable, Container.Setup, Container.Valid, Container.Adding, Container.Data, Container.Added,
         Packed, CString, EncOk, TableReadable, SourceAt, Later, DataOf, Signed, AllPass, Passes, SameBooks, Live;
    to.ValidSetup();
    to.ValidTable();
    from.ReadableTable();
    from.ReadableLength();
    NothingPacked(to);
    ghost var e, pool, table := from.enc, from.d.pool, from.table[..from.entries];
    NonePassed(to, e, pool, table);
    SameIsLater(to.B(), to.B(), to.d.pool);
    ok, refused, copied := true, false, 0;
    var i := 1;
    while i <= from.entries
      invariant (old(from.d.failed) ==> from.d.failed) && (old(to.d.failed) ==> to.d.failed)
      invariant 1 <= i <= from.entries + 1 && from.Readable() && to.Valid() && old(to.d.trace) <= to.d.trace
      invariant ok && !refused && copied == i - 1
      invariant to.entries <= |to.table| && Holds(to, Sources(e, pool, table, i - 1))
      invariant Signed(to, to.d.pool, to.table[..to.entries]) && AllPass(to, e, pool, table, i - 1)
      invariant |to.d.image| <= to.fileSize && Later(old(to.B()), old(to.d.pool), to.B(), to.d.pool)
    {
      var r := from.ResOpen(i);
      if r.Some? {
        ghost var b, p := to.B(), to.d.pool;
        from.DataIs(i - 1);
        OneMorePasses(to, e, pool, table, i - 1);
        ok, refused := AddResource(from, to, i - 1, r.value, nonces[i - 1], from.Data(i - 1));
        LaterTwice(old(to.B()), old(to.d.pool), b, p, to.B(), to.d.pool);
        to.ValidTable();
        if !ok {
          HoldsSame(to, b, Sources(e, pool, table, i - 1));
          return;
        }
        HoldsMore(to, b, p, Sources(e, pool, table, i - 1), SourceAt(e, pool, table[i - 1]));
        SignedMore(to, b, p, DataOf(e, pool, table[i - 1]), r.value.name, r.value.basenameOffset, r.value.uuid);
      } else {
        OneMorePasses(to, e, pool, table, i - 1);
      }
      i := i + 1;
      copied := copied + 1;
    }
  }

  lemma HoldsSame(c: Container, b: Books, rs: seq<Source>)
    requires c.Setup() && SameBooks(b, c.B())
    requires Packed(c.enc, c.d.pool, b.table[..b.entries], rs)
    ensures c.entries <= |c.table| && Holds(c, rs)
  {
    hide Packed, EncOk;
  }

  /** What becomes of the resources: names are cut to the length of their field. */
  function Renamed(rs: seq<Source>): (t: seq<Source>)
    ensures |t| == |rs|
  {
    seq(|rs|, i requires 0 <= i < |rs| => rs[i].(name := CString(StoredName(rs[i].name))))
  }

  /** Nothing, exactly when all names are shorter than the field. */
  lemma RenamedSame(rs: seq<Source>)
    requires forall i :: 0 <= i < |rs| ==> IsCString(rs[i].name)
    ensures Renamed(rs) == rs <==> forall i :: 0 <= i < |rs| ==> |rs[i].name| < MAX_NAME
  {
    hide CString, StoredName, IsCString;
    var t := Renamed(rs);
    forall i | 0 <= i < |rs| ensures t[i] == rs[i] <==> |rs[i].name| < MAX_NAME {
      NameRoundTrip(rs[i].name);
    }
  }

  /** A packed table gives access to exactly its resources. */
  lemma {:induction false} PackedSources(e: Option<Enc>, pool: Bytes, table: seq<Entry>, rs: seq<Source>, n: nat)
    requires EncOk(e) && Packed(e, pool, table, rs) && n <= |table|
    requires TableReadable(e, pool, table)
    ensures Sources(e, pool, table, n) == Renamed(rs)[..n]
  {
    hide EncOk, DataOf, CString, StoredName, TableReadable, Behind;
    if n > 0 {
      PackedSources(e, pool, table, rs, n - 1);
      assert Copy(e, pool, table[n - 1], n, rs[n - 1]);
      assert Renamed(rs)[..n] == Renamed(rs)[..n - 1] + [Renamed(rs)[n - 1]];
    }
  }

  /** The file is what closing writes for these books. */
  ghost predicate ClosedFrom(k: Kit, b: Books, rtblDigest: Bytes, n1: Bytes, n2: Bytes, image: Bytes, file: Bytes) {
    && Closable(k, b, rtblDigest, n1, n2)
    && (FinalOk(k, b, rtblDigest, n1, n2); file == ClosedImage(k, Final(k, b, rtblDigest, n1, n2), image))
  }

  ghost predicate BooksHold(e: Option<Enc>, pool: Bytes, b: Books, rs: seq<Source>) {
    EncOk(e) && b.entries <= |b.table| && Packed(e, pool, b.table[..b.entries], rs)
  }

  /** How far k_pres_repack got. */
  datatype Stage = NotCreated | NotCopied(copied: nat) | NotClosed | Done

  /** Copying stopped behind the first entries: the .meta file holds their resources and recovers
      them, but the temporary it is about is unlinked when the process exits. */
  ghost predicate Stopped(from: Container, to: Container, b: Books, copied: nat)
    reads from, from.d, to.d
  {
    && from.Readable() && copied < from.entries && BooksHold(to.enc, to.d.pool, b, from.FirstResources(copied))
    && to.d.temporary && to.d.meta == Some(MetaOf(b)) && Recoverable(to.d.Now())
    && (Recoverable(Unlinked(to.d.Now())) <==> Empty(b.table[..b.entries]))
  }

  ghost predicate BooksSigned(c: Container, pool: Bytes, b: Books) {
    c.Setup() && b.entries <= |b.table| && Signed(c, pool, b.table[..b.entries])
  }

  /** k_pres_repack: create, copy, close. It refuses a resource only if not all of them pass the
      comparison of digests; ComparisonExact says when they do. When copying fails, the temporary
      is closed and stays, and so does its .meta file. When all succeeds, the new file is
      what closing writes for books that hold exactly the live resources of the old container; it
      opens exactly when the options are usable, and then gives access to these resources. */
  method Repack(from: Container, to: Container, o: Options, nonces: seq<Bytes>, n1: Bytes, n2: Bytes)
      returns (res: int, ghost refused: bool, ghost stage: Stage, ghost b: Books, ghost rtblDigest: Bytes,
               ghost image: Bytes)
    requires from != to && from.d != to.d && from.Readable() && |nonces| == from.entries
    requires to.Setup() && !to.isOpen && OptionsFit(o) && (to.enc.Some? ==> Names(to.enc, o.cipher, o.cipherMode))
    requires to.d.Valid() && to.d.temporary && to.d.image == [] && to.d.meta == None
    requires forall n :: n in nonces && to.enc.Some? ==> |n| == to.enc.value.c.size
    requires to.enc.Some? ==> |n1| == |n2| == to.enc.value.c.size
    modifies from`scIv, from`scPos, from.d`pos, from.d`failed
    modifies to, to.d
    ensures from.Readable()
    ensures to.d.Traced() && old(to.d.trace) <= to.d.trace && !to.isOpen && KitOk(to.TheKit())
    ensures (res == 0 <==> stage == Done) && (stage == NotCreated ==> to.d.meta == None)
    ensures stage.NotCopied? ==> Stopped(from, to, b, stage.copied)
    ensures stage == NotClosed ==>
      && BooksHold(to.enc, to.d.pool, b, from.Resources()) && to.d.meta == Some(MetaOf(b))
      && (Recoverable(to.d.Now()) <==> Empty(b.table[..b.entries]))
    ensures res == 0 ==> to.d.Valid() && !to.d.temporary && to.d.meta == None
    ensures res == 0 ==> ClosedFrom(to.TheKit(), b, rtblDigest, n1, n2, image, to.d.image)
    ensures res == 0 ==> |image| <= b.fileSize && FoundAt(image, b.poolStart, to.d.pool)
    ensures res == 0 ==> BooksHold(to.enc, to.d.pool, b, from.Resources()) && BooksSigned(to, to.d.pool, b)
    ensures res == 0 || refused ==> (Compared(from, to) <==> !refused) && (refused ==> res != 0)
    ensures res == 0 ==>
      Contents(to.TheKit(), to.d.image) ==
      if Usable(to.TheKit(), o) then Some(Renamed(from.Resources())) else None
    ensures (old(from.d.failed) ==> from.d.failed) && (old(to.d.failed) ==> to.d.failed)
    ensures from.d.failed || to.d.failed || refused ||
      (o.hashSize != 0 && Names(to.enc, o.cipher, o.cipherMode) && Named(from.table[..from.entries]) ==> res == 0)
  {
    hide Container.Readable, Container.Valid, Packed, EncOk, TableReadable, SourceAt, Closable, OpenedFits, Final,
         ClosedImage, Disk.Traced, Container.Setup, OptionsFit, KitOk, Later, Recognised, Usable, Contents, Renamed,
         Recoverable, Synced, FoundAt, Empty, Unlinked;
    to.SetupKit();
    to.SetupEnc();
    refused, stage := false, NotCreated;
    res := to.Create(o);
    b, rtblDigest, image := to.B(), to.rtblDigest, to.d.image;
    if res != 0 {
      return;
    }
    ghost var b0 := to.B();
    var ok;
    ghost var copied;
    ok, refused, copied := CopyAll(from, to, nonces);
    to.ValidData();
    b, rtblDigest, image := to.B(), to.rtblDigest, to.d.image;
    if !ok {
      to.NewStays();
      stage := NotCopied(copied);
      to.isOpen, to.isWritable := false, false;
      res := -1;
      return;
    }
    ghost var pool, rs := to.d.pool, from.Resources();
    to.ValidPool();
    ghost var synced;
    to.NewStays();
    res, synced := to.Close(n1, n2);
    stage := NotClosed;
    if res == 0 {
      stage := Done;
      Repacked(to.TheKit(), o, b0, b, rtblDigest, n1, n2, image, pool, rs);
    }
  }

  lemma Repacked(k: Kit, o: Options, b0: Books, b: Books, rtblDigest: Bytes, n1: Bytes, n2: Bytes, image: Bytes,
                 pool: Bytes, rs: seq<Source>)
    requires Closable(k, b, rtblDigest, n1, n2) && |pool| == b.poolSize && FoundAt(image, b.poolStart, pool)
    requires |image| <= b.fileSize && b0 == Post(NewBooks(o)) && Later(b0, [], b, pool)
    requires Names(k.enc, o.cipher, o.cipherMode)
    requires b.entries <= |b.table| && EncOk(k.enc) && Packed(k.enc, pool, b.table[..b.entries], rs)
    ensures OpenedFits(Final(k, b, rtblDigest, n1, n2))
    ensures Contents(k, ClosedImage(k, Final(k, b, rtblDigest, n1, n2), image)) ==
      if Usable(k, o) then Some(Renamed(rs)) else None
  {
    hide EncOk, Packed, Closable, OpenedFits, Final, ClosedImage, Contents, Renamed, FoundAt, Recognised, Usable,
         TableReadable, Parse, Laid, Sources;
    AllSurvive(k, b, rtblDigest, n1, n2, image, pool);
    PackedLength(k.enc, pool, b.table[..b.entries], rs);
    PackedSources(k.enc, pool, b.table[..b.entries], rs, b.entries);
    assert Renamed(rs)[..|rs|] == Renamed(rs);
    RecognisedStays(k, o, b.hdr);
    NewRecognised(k, o);
  }

  lemma NothingPacked(c: Container)
    requires c.Setup() && c.entries == 0 && c.d.pool == []
    ensures Holds(c, []) && Signed(c, [], [])
  {
  }
}
