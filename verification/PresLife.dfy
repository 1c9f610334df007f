// Whole lives of containers: what is written comes back after closing and opening, unless the
// file was left longer than its books say.

module PresLife {
  import opened Bytes
  import opened Words
  import opened PresFormat
  import opened PresDisk
  import opened PresBooks
  import opened PresReplay
  import opened PresGenuine
  import opened PresImage
  import opened Pres

  /** The live resources of an open container. */
  ghost function Resources(c: Container): (rs: seq<Source>)
    requires c.Valid()
    reads c, c.d
  {
    c.ValidReadable();
    c.Resources()
  }

  lemma ValidReads(c: Container)
    requires c.Valid()
    ensures EncOk(c.enc) && Consistent(c.B()) && |c.d.pool| == c.poolSize && c.entries <= |c.table|
    ensures TableReadable(c.enc, c.d.pool, c.table[..c.entries]) && FoundAt(c.d.image, c.poolStart, c.d.pool)
  {
    hide Disk.Traced, Consistent, Container.Setup, EncOk, TableReadable, FoundAt, MetaOf;
    c.ValidSetup();
    c.SetupEnc();
    c.ValidPool();
    BooksReadable(c.enc, c.d.pool, c.B());
    ConsistentFacts(c.B());
  }

  /** k_pres_close and k_pres_open, on whatever container. When both work nothing has changed for
      its users; and whether the closed file can be opened at all depends on the header fields
      and on how long the file was. */
  method CloseAndOpen(c: Container, n1: Bytes, n2: Bytes) returns (closed: bool, reopened: bool)
    requires c.Valid() && (c.enc.Some? ==> |n1| == |n2| == c.enc.value.c.size)
    modifies c, c.d
    ensures KitOk(c.TheKit()) && old(c.d.trace) <= c.d.trace && c.d.Traced() && (closed ==> c.d.Valid())
    ensures closed ==>
      Contents(c.TheKit(), c.d.image) ==
      if Recognised(c.TheKit(), old(c.hdr)) && old(|c.d.image| <= c.fileSize) then Some(old(Resources(c))) else None
    ensures !closed ==> c.d.meta == old(c.d.meta) && c.d.lost == old(c.d.temporary)
    ensures !closed ==>
      (Recoverable(c.d.Now()) <==> !old(c.d.temporary) || Empty(old(c.table)[..old(c.entries)]))
    ensures if closed then !c.d.temporary else c.d.pool == old(c.d.pool)
    ensures reopened ==> closed && Contents(c.TheKit(), c.d.image).Some? && c.Slots() == old(c.Slots())
    ensures reopened ==> c.Valid() && c.Readable() && Resources(c) == old(Resources(c)) && c.d.pool == old(c.d.pool)
    ensures reopened ==> |c.d.image| == c.fileSize && Recognised(c.TheKit(), c.hdr)
    ensures reopened ==> Kept(old(c.B()), old(c.d.pool), c.B(), c.d.pool)
    ensures old(c.d.failed) ==> c.d.failed
    ensures !c.d.failed ==> closed && (reopened <==> Contents(c.TheKit(), c.d.image).Some?)
  {
    hide Container.Valid, Container.Setup, Disk.Traced, Closable, OpenedFits, Final, ClosedImage, Laid, Contents,
         Readout, Parse, Recognised, TableReadable, Sources, Synced, FoundAt, PoolSynced, EncOk, KitOk, Recoverable,
         Consistent, Container.Readable, Genuine, DigestsHold;
    c.ValidSetup();
    c.SetupKit();
    c.NoLeftover();
    ValidReads(c);
    ghost var k, b, digest, image, pool := c.TheKit(), c.B(), c.rtblDigest, c.d.image, c.d.pool;
    ghost var synced;
    var res;
    res, synced := c.Close(n1, n2);
    closed, reopened := res == 0, false;
    if !closed {
      return;
    }
    ghost var o := Final(k, b, digest, n1, n2);
    AllSurvive(k, b, digest, n1, n2, image, pool);
    FoundReads(c.d.image, b.poolStart, pool);
    PoolIsSynced(o, c.d.image, c.d.durable, c.d.dirty, pool);
    res := c.Open();
    reopened := res == 0;
    if reopened {
      ReadBack(k, o, c.d.image, pool);
      assert c.table[..c.entries] == o.table;
      c.ValidReadable();
      ParsedChecked(k, c.d.image);
      SealedIsKept(k, b, digest, n1, n2, pool);
      SealedSlots(k, b, digest, n1, n2, pool);
    }
  }

  lemma SealedSlots(k: Kit, b: Books, rtblDigest: Bytes, n1: Bytes, n2: Bytes, pool: Bytes)
    requires Closable(k, b, rtblDigest, n1, n2)
    ensures SlotsOf(k.enc, pool, BooksOf(Final(k, b, rtblDigest, n1, n2))) == SlotsOf(k.enc, pool, b)
  {
    hide Consistent, OpenedFits, Sealed, TableOk, Final;
    FinalOk(k, b, rtblDigest, n1, n2);
    ConsistentFacts(b);
    var o := Final(k, b, rtblDigest, n1, n2);
    assert o.table[..o.rtbl.entries] == o.table;
    SlotsSealed(k.enc, pool, b.table[..b.entries], o.table);
  }

  lemma SealedIsKept(k: Kit, b: Books, rtblDigest: Bytes, n1: Bytes, n2: Bytes, pool: Bytes)
    requires Closable(k, b, rtblDigest, n1, n2)
    ensures Kept(b, pool, BooksOf(Final(k, b, rtblDigest, n1, n2)), pool)
  {
    hide Consistent, OpenedFits, Sealed, TableOk, Final;
    FinalOk(k, b, rtblDigest, n1, n2);
    ConsistentFacts(b);
  }

  lemma PoolIsSynced(o: Opened, image: Bytes, durable: Bytes, dirty: iset<nat>, pool: Bytes)
    requires o.dhdr.poolStart + |pool| <= |image| && |pool| == o.dhdr.poolSize
    requires image[o.dhdr.poolStart..o.dhdr.poolStart + |pool|] == pool
    requires Synced(durable, dirty, o.dhdr.poolStart, pool)
    ensures PoolSynced(o, image, durable, dirty)
  {
    hide Synced;
  }

  lemma ReadBack(k: Kit, o: Opened, file: Bytes, pool: Bytes)
    requires KitOk(k) && Parse(k, file) == Some(o) && Contents(k, file).Some?
    requires o.dhdr.poolStart + o.dhdr.poolSize <= |file|
    requires file[o.dhdr.poolStart..o.dhdr.poolStart + o.dhdr.poolSize] == pool
    ensures TableReadable(k.enc, pool, o.table)
    ensures Contents(k, file) == Some(Sources(k.enc, pool, o.table, |o.table|))
  {
    hide KitOk, Parse, TableReadable, Sources;
  }

  /** Every crash finds a file that gives access to the same resources. */
  ghost predicate CrashProof(k: Kit, s: Snapshot, image: Bytes)
    requires KitOk(k)
  {
    forall c: Bytes :: Crash(s, c) ==> Contents(k, c) == Contents(k, image)
  }

  lemma SyncedIsCrashProof(k: Kit, s: Snapshot, image: Bytes)
    requires KitOk(k) && !s.lost && s.durable == image && s.dirty == iset{}
    ensures CrashProof(k, s, image)
  {
    hide KitOk, Contents, Crash;
    forall c: Bytes | Crash(s, c) ensures Contents(k, c) == Contents(k, image) {
      CrashOfSynced(s, c);
    }
  }

  /** A header that was not synced may be gone. */
  lemma NotCrashProof(k: Kit, s: Snapshot, image: Bytes)
    requires KitOk(k) && !s.lost && Crash(s, image) && 0 in s.dirty && Contents(k, image).Some?
    ensures !CrashProof(k, s, image)
  {
    hide KitOk, Crash, Parse, Readout;
    MagicStart(k, image);
    var b := if image[0] == 0 then 1 else 0;
    var c := image[0 := b];
    CrashTouches(s, image, 0, b);
    assert c[..8][0] != image[..8][0];
    if Parse(k, c).Some? {
      MagicStart(k, c);
      assert false;
    }
  }

  /** A successful k_pres_close drops the .meta file. What it leaves behind survives every crash
      exactly when fsync was called and worked, which it never is for a new container. */
  method CloseForGood(c: Container, n1: Bytes, n2: Bytes) returns (closed: bool, ghost synced: bool)
    requires c.Valid() && (c.enc.Some? ==> |n1| == |n2| == c.enc.value.c.size)
    modifies c, c.d
    ensures KitOk(c.TheKit()) && old(c.d.trace) <= c.d.trace && c.d.Traced() && (closed ==> c.d.meta == None)
    ensures closed && Contents(c.TheKit(), c.d.image).Some? ==>
      (CrashProof(c.TheKit(), c.d.Now(), c.d.image) <==> synced)
    ensures old(c.d.temporary) ==> !(closed && synced)
    ensures old(c.d.failed) ==> c.d.failed
    ensures !c.d.failed ==> closed && synced == !old(c.d.temporary)
  {
    hide Container.Valid, Container.Setup, Closable, OpenedFits, Final, ClosedImage, Contents, Synced, KitOk,
         Recoverable, Consistent, Safe, Crash, CrashProof;
    c.ValidSetup();
    c.SetupKit();
    var res;
    res, synced := c.Close(n1, n2);
    closed := res == 0;
    if closed {
      if synced {
        SyncedIsCrashProof(c.TheKit(), c.d.Now(), c.d.image);
      } else if Contents(c.TheKit(), c.d.image).Some? {
        NotCrashProof(c.TheKit(), c.d.Now(), c.d.image);
      }
    }
  }

  // ---------------------------------------------------------------- runs, closed and opened again

  /** What a closed file is for a container that holds h, by what its caller knows: it gives
      access to exactly the resources there are, or is refused. It is not refused if the header
      is recognised and every init was followed by a commit or a rollback that worked; if the
      last one was not, it depends on whether the bytes of that resource fit where the table
      goes. */
  ghost predicate ClosedAs(k: Kit, file: Bytes, h: Held, phase: Phase, recognised: bool)
    requires KitOk(k) && HeldOk(k.enc, h)
  {
    var all, found := Some(Present(h.slots)), Contents(k, file);
    && (found == None || (recognised && found == all))
    && (phase == Phase(false, true) ==> found == if recognised then all else None)
    && (phase == Phase(true, true) ==>
          h.upload.Some? &&
          found == if recognised && Unfinished(k.enc, h) <= SZ_RTBL + |h.slots| * SZ_ENTRY then all else None)
  }

  /** What a close that failed leaves: a .meta file with exactly the resources there are. It
      recovers them unless the container file was a temporary, which is unlinked. */
  ghost predicate LeftAs(e: Option<Enc>, d: Disk, h: Held, temporary: bool)
    reads d
  {
    && d.meta.Some? && SlotsIn(e, d.pool, d.meta.value.table) == h.slots
    && (Recoverable(d.Now()) <==> !temporary || NoData(h.slots))
  }

  lemma ValidSlots(c: Container)
    requires c.Valid()
    ensures Resources(c) == Present(c.Slots()) && |c.Slots()| == c.entries <= |c.table|
    ensures NoData(c.Slots()) <==> Empty(c.table[..c.entries])
    ensures c.d.meta.Some? && SlotsIn(c.enc, c.d.pool, c.d.meta.value.table) == c.Slots()
  {
    hide Disk.Traced, Consistent, Container.Setup, EncOk, TableReadable, FoundAt, Present, NoData, Empty, Sources,
         SlotsIn;
    ValidReads(c);
    PresentAll(c.enc, c.d.pool, c.table[..c.entries]);
    NoDataIs(c.enc, c.d.pool, c.table[..c.entries]);
  }

  /** The end of a run, by what its caller knows. */
  method CloseRun(c: Container, ghost h: Held, ghost phase: Phase, n1: Bytes, n2: Bytes)
      returns (closed: bool, reopened: bool)
    requires c.Valid() && NonceOk(c.enc, n1) && NonceOk(c.enc, n2)
    requires EncOk(c.enc) && HeldOk(c.enc, h) && c.Mirrors(h) && c.Neat(phase)
    requires (phase.active <==> h.upload.Some?) && (phase.active ==> c.Adding())
    modifies c, c.d
    ensures KitOk(c.TheKit()) && old(c.d.trace) <= c.d.trace && c.d.Traced() && (reopened ==> closed)
    ensures if closed then ClosedAs(c.TheKit(), c.d.image, h, phase, old(Recognised(c.TheKit(), c.hdr)))
            else LeftAs(c.enc, c.d, h, old(c.d.temporary))
    ensures reopened ==>
      && c.Valid() && c.Slots() == h.slots && !c.d.temporary
      && |c.d.image| == c.fileSize && Recognised(c.TheKit(), c.hdr)
      && Kept(old(c.B()), old(c.d.pool), c.B(), c.d.pool)
    ensures old(c.d.failed) ==> c.d.failed
    ensures !c.d.failed ==> closed && (reopened <==> Contents(c.TheKit(), c.d.image).Some?)
  {
    hide Container.Valid, Container.Adding, Container.Setup, Disk.Traced, Contents, Recognised, TableReadable, Sources,
         KitOk, EncOk, Kept, Present, NoData, Empty, Recoverable, SlotsIn, SlotsOf, Recorded, Concat;
    ValidSlots(c);
    if phase == Phase(true, true) {
      c.LeftoverExact();
    }
    closed, reopened := CloseAndOpen(c, n1, n2);
  }

  /** A container from k_pres_create on: any run of operations, failing wherever they like, then
      closing and opening. What comes back is what the operations and their outcomes say; and if
      no system call fails, nothing does but an operation that makes no sense. */
  method Lifetime(c: Container, o: Options, ops: seq<Op>, n1: Bytes, n2: Bytes)
      returns (created: bool, codes: seq<int>, closed: bool, reopened: bool)
    requires c.Setup() && !c.isOpen && OptionsFit(o) && (c.enc.Some? ==> Names(c.enc, o.cipher, o.cipherMode))
    requires c.d.Valid() && c.d.temporary && c.d.image == [] && c.d.meta == None
    requires OpsOk(c.enc, ops) && NonceOk(c.enc, n1) && NonceOk(c.enc, n2)
    modifies c, c.d
    ensures old(c.d.trace) <= c.d.trace && c.d.Traced() && KitOk(c.TheKit())
    ensures (reopened ==> closed) && (closed ==> created)
    ensures created ==>
      && |codes| == |ops|
      && var h := Replay(c.enc, Held([], None), ops, codes);
        && (if closed then ClosedAs(c.TheKit(), c.d.image, h, PhaseAfter(ops, codes), Usable(c.TheKit(), o))
            else LeftAs(c.enc, c.d, h, true))
        && (reopened ==> c.Valid() && c.Slots() == h.slots)
    ensures old(c.d.failed) ==> c.d.failed
    ensures !c.d.failed && o.hashSize != 0 && Names(c.enc, o.cipher, o.cipherMode) ==>
      && created && closed && (reopened <==> Contents(c.TheKit(), c.d.image).Some?)
      && codes == Outcomes(c.enc, Held([], None), ops)
  {
    hide Container.Valid, Container.Adding, Container.Setup, Disk.Traced, Recognised, Usable, KitOk, Later, OpsOk,
         OptionsFit, PhaseAfter, EncOk, Replay, ClosedAs, LeftAs, SlotsIn, Container.Uploading;
    c.SetupKit();
    c.SetupEnc();
    codes, closed, reopened := [], false, false;
    var res := c.Create(o);
    created := res == 0;
    if !created {
      return;
    }
    c.BooksShape();
    assert c.Slots() == [];
    codes := c.Run(ops);
    ValidReads(c);
    HeaderStays(c.TheKit(), o, c.B(), c.d.pool);
    closed, reopened := CloseRun(c, Replay(c.enc, Held([], None), ops, codes), PhaseAfter(ops, codes), n1, n2);
  }

  lemma HeaderStays(k: Kit, o: Options, b: Books, pool: Bytes)
    requires Later(Post(NewBooks(o)), [], b, pool) && EncOk(k.enc) && Names(k.enc, o.cipher, o.cipherMode)
    ensures Recognised(k, b.hdr) == Usable(k, o)
  {
    RecognisedStays(k, o, b.hdr);
    NewRecognised(k, o);
  }

  /** Session after session, with closing and opening behind each. In the end, or where a close
      or an open failed, everything is as the operations of all sessions and their outcomes say.
      If no system call fails, what ends the sessions early is a closed file that is refused. */
  method Sessions(c: Container, sessions: seq<Session>) returns (done: nat, codes: seq<seq<int>>, closed: bool)
    requires c.Valid() && |c.d.image| <= c.fileSize && Recognised(c.TheKit(), c.hdr)
    requires EncOk(c.enc) && SessionsOk(c.enc, sessions)
    modifies c, c.d
    ensures KitOk(c.TheKit()) && old(c.d.trace) <= c.d.trace && c.d.Traced()
    ensures done <= |sessions| && |codes| == (if done < |sessions| then done + 1 else done)
    ensures RunsOf(sessions[..|codes|], codes)
    ensures var h := ReplayAll(c.enc, old(c.Slots()), sessions[..|codes|], codes);
      if done == |sessions| then c.Valid() && c.Slots() == h.slots
      else if closed
      then ClosedAs(c.TheKit(), c.d.image, h, PhaseAfter(sessions[done].ops, codes[done]), true)
      else LeftAs(c.enc, c.d, h, old(c.d.temporary) && done == 0)
    ensures done == |sessions| ==>
      && |c.d.image| <= c.fileSize && Recognised(c.TheKit(), c.hdr) && (done > 0 ==> !c.d.temporary)
      && Kept(old(c.B()), old(c.d.pool), c.B(), c.d.pool)
    ensures old(c.d.failed) ==> c.d.failed
    ensures !c.d.failed ==>
      && codes == OutcomesAll(c.enc, old(c.Slots()), sessions[..|codes|])
      && (done < |sessions| ==> closed && Contents(c.TheKit(), c.d.image) == None)
  {
    hide Container.Valid, Container.Adding, Container.Setup, Disk.Traced, Contents, Recognised, KitOk, EncOk,
         Later, Kept, OpOk, OpsOk, PhaseAfter, SessionsOk, RunsOf, Replay, ReplayAll, ClosedAs, LeftAs, SlotsIn,
         Outcomes, OutcomesAll,
         Container.Uploading;
    c.ValidSetup();
    c.SetupKit();
    c.BooksShape();
    c.ValidData();
    StaysKept(c.B(), c.d.pool);
    done, codes, closed := 0, [], true;
    NoSessions(c.enc, c.Slots(), sessions);
    while done < |sessions|
      invariant done == |codes| <= |sessions| && c.Valid() && |c.d.image| <= c.fileSize
      invariant Recognised(c.TheKit(), c.hdr) && c.d.Traced() && old(c.d.trace) <= c.d.trace
      invariant c.d.temporary ==> old(c.d.temporary) && done == 0
      invariant done == 0 ==> c.d.temporary == old(c.d.temporary)
      invariant SessionsOk(c.enc, sessions[..done]) && RunsOf(sessions[..done], codes)
      invariant c.Slots() == ReplayAll(c.enc, old(c.Slots()), sessions[..done], codes).slots
      invariant Kept(old(c.B()), old(c.d.pool), c.B(), c.d.pool) && (old(c.d.failed) ==> c.d.failed)
      invariant !c.d.failed ==> codes == OutcomesAll(c.enc, old(c.Slots()), sessions[..done])
    {
      ghost var b, p, slots := c.B(), c.d.pool, c.Slots();
      ghost var temporary := c.d.temporary;
      SessionFits(c.enc, sessions, done);
      var run := c.Run(sessions[done].ops);
      HeaderKept(c.TheKit(), b, p, c.B(), c.d.pool);
      KeptTwice(old(c.B()), old(c.d.pool), b, p, c.B(), c.d.pool);
      c.ValidData();
      ghost var b2, p2 := c.B(), c.d.pool;
      ghost var h := Replay(c.enc, Held(slots, None), sessions[done].ops, run);
      OneSession(c.enc, old(c.Slots()), sessions, codes, done, run);
      codes := codes + [run];
      var reopened;
      closed, reopened := CloseRun(c, h, PhaseAfter(sessions[done].ops, run), sessions[done].dhdrNonce,
          sessions[done].rtblNonce);
      if !reopened {
        return;
      }
      c.ValidData();
      KeptTwice(old(c.B()), old(c.d.pool), b2, p2, c.B(), c.d.pool);
      done := done + 1;
    }
    assert sessions[..done] == sessions;
  }

  lemma NoSessions(e: Option<Enc>, slots: seq<Option<Source>>, sessions: seq<Session>)
    requires EncOk(e) && SessionsOk(e, sessions)
    ensures SessionsOk(e, sessions[..0]) && RunsOf(sessions[..0], [])
    ensures ReplayAll(e, slots, sessions[..0], []) == Held(slots, None) && OutcomesAll(e, slots, sessions[..0]) == []
  {
    hide EncOk;
  }

  lemma SessionFits(e: Option<Enc>, sessions: seq<Session>, i: nat)
    requires SessionsOk(e, sessions) && i < |sessions|
    ensures OpsOk(e, sessions[i].ops)
    ensures NonceOk(e, sessions[i].dhdrNonce) && NonceOk(e, sessions[i].rtblNonce)
  {
    hide OpsOk, NonceOk;
  }

  lemma StaysKept(b: Books, pool: Bytes)
    requires b.entries <= |b.table|
    ensures Kept(b, pool, b, pool)
  {
  }

  lemma HeaderKept(k: Kit, a: Books, p: Bytes, b: Books, q: Bytes)
    requires Later(a, p, b, q)
    ensures Recognised(k, a.hdr) == Recognised(k, b.hdr) && Kept(a, p, b, q)
  {
    hide Recognised, Kept;
    SizedRecognised(k, a.hdr, b.hdr);
    LaterIsKept(a, p, b, q);
  }

  /** A read error in k_pres_add_file: reported as success after the first piece, although nothing
      was added, and the closed container cannot be opened exactly when the pieces do not fit
      where the table goes. */
  method ReadErrorThenClose(c: Container, nonce: Bytes, path: Bytes, pieces: seq<Bytes>, basenameOffset: nat, uuid: nat,
                            n1: Bytes, n2: Bytes)
      returns (res: int, closed: bool, ghost broken: bool)
    requires c.Valid() && |c.d.image| <= c.fileSize && Recognised(c.TheKit(), c.hdr)
    requires c.enc.Some? ==> |nonce| == |n1| == |n2| == c.enc.value.c.size
    requires forall k :: 0 <= k < |pieces| ==> 0 < |pieces[k]| <= IOBUF
    requires IsCString(path) && basenameOffset < TWO64 && uuid < TWO64
    modifies c, c.d
    ensures KitOk(c.TheKit()) && (res == 0 ==> broken) && (broken ==> (res == 0 <==> pieces != []))
    ensures closed && broken ==>
      Contents(c.TheKit(), c.d.image) ==
      if |Concat(pieces)| <= SZ_RTBL + old(c.entries) * SZ_ENTRY then Some(old(Resources(c))) else None
    ensures old(c.d.failed) ==> c.d.failed
    ensures !c.d.failed && !Hidden(Stripped(path)) && Stripped(path) != [] ==> broken && closed
  {
    hide Container.Valid, Container.Adding, Container.Setup, Disk.Traced, Contents, Recognised, Usable, TableReadable,
         Sources, KitOk, SameBooks, IsCString;
    ValidReads(c);
    ghost var b := c.B();
    res, broken := c.AddFile(nonce, path, true, pieces, true, basenameOffset, uuid);
    ValidReads(c);
    if broken {
      SameTable(b, c.B());
    }
    var reopened;
    closed, reopened := CloseAndOpen(c, n1, n2);
  }

  lemma SameTable(a: Books, b: Books)
    requires SameBooks(a, b)
    ensures b.hdr == a.hdr && b.entries == a.entries && b.fileSize == a.fileSize
    ensures b.table[..b.entries] == a.table[..a.entries]
  {
  }

  /** A new container with one file. When everything works, the file comes back. When only the
      closing fails, the .meta file is of no use unless the file was empty. */
  method OneFile(c: Container, o: Options, nonce: Bytes, path: Bytes, pieces: seq<Bytes>, basenameOffset: nat,
                 uuid: nat, n1: Bytes, n2: Bytes)
      returns (created: bool, added: bool, closed: bool)
    requires c.Setup() && !c.isOpen && OptionsFit(o) && (c.enc.Some? ==> Names(c.enc, o.cipher, o.cipherMode))
    requires c.d.Valid() && c.d.temporary && c.d.image == [] && c.d.meta == None
    requires c.enc.Some? ==> |nonce| == |n1| == |n2| == c.enc.value.c.size
    requires forall k :: 0 <= k < |pieces| ==> 0 < |pieces[k]| <= IOBUF
    requires IsCString(path) && basenameOffset < TWO64 && uuid < TWO64
    modifies c, c.d
    ensures KitOk(c.TheKit()) && (closed ==> created)
    ensures created && added && closed ==>
      Contents(c.TheKit(), c.d.image) ==
      if Usable(c.TheKit(), o)
      then Some([Source(uuid, Shifted(basenameOffset, path), CString(StoredName(Stripped(path))), Concat(pieces))])
      else None
    ensures created && added && !closed ==>
      c.d.meta.Some? && (Recoverable(c.d.Now()) <==> Concat(pieces) == [])
    ensures old(c.d.failed) ==> c.d.failed
    ensures !c.d.failed && o.hashSize != 0 && Names(c.enc, o.cipher, o.cipherMode) ==>
      created && closed && (added <==> !Hidden(Stripped(path)) && Stripped(path) != [])
  {
    hide Container.Valid, Container.Adding, Container.Setup, Disk.Traced, Contents, Recognised, Usable, TableReadable,
         Sources, KitOk, Later, OptionsFit, Recoverable, Empty, Container.Added, IsCString, Post, NewBooks, Hidden;
    c.SetupKit();
    added, closed := false, false;
    var res := c.Create(o);
    created := res == 0;
    if !created {
      return;
    }
    c.BooksShape();
    ghost var broken;
    res, broken := c.AddFile(nonce, path, true, pieces, false, basenameOffset, uuid);
    added := res == 0;
    HeaderStays(c.TheKit(), o, c.B(), c.d.pool);
    c.ValidData();
    if added {
      JustOne(c, o, Concat(pieces), Stripped(path), Shifted(basenameOffset, path), uuid);
    }
    var reopened;
    closed, reopened := CloseAndOpen(c, n1, n2);
  }

  lemma JustOne(c: Container, o: Options, data: Bytes, name: Bytes, basenameOffset: nat, uuid: nat)
    requires c.Valid() && c.Setup() && c.Added(Post(NewBooks(o)), [], data, name, basenameOffset, uuid)
    ensures c.entries <= |c.table| && (Empty(c.table[..c.entries]) <==> data == [])
    ensures Resources(c) == [Source(uuid, basenameOffset, CString(StoredName(name)), data)]
  {
    hide Container.Valid, Container.Setup, DataOf, EncOk, CString, StoredName, TableReadable;
    ValidReads(c);
    var t := c.table[..c.entries];
    assert |t| == 1 && t[0] == c.table[0] && Live(t[0]);
    assert Sources(c.enc, c.d.pool, t, 0) == [];
  }
}
