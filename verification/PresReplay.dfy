// What a run of operations on a container is for: the resources it holds, said of the operations
// and their outcomes alone.

module PresReplay {
  import opened Bytes
  import opened Words
  import opened BlockModes
  import opened Keystream
  import opened PresFormat
  import opened PresDisk
  import opened PresBooks

  // ---------------------------------------------------------------- operations

  /** The operations on a container open for writing. */
  datatype Op = OpInit(nonce: Bytes) | OpAppend(data: Bytes) | OpCommit(name: Bytes, basenameOffset: nat, uuid: nat)
              | OpRollback | OpDelete(id: nat)

  ghost predicate NonceOk(e: Option<Enc>, nonce: Bytes) {
    e.Some? ==> |nonce| == e.value.c.size
  }

  ghost predicate OpOk(e: Option<Enc>, op: Op) {
    match op
    case OpInit(nonce) => NonceOk(e, nonce)
    case OpCommit(name, basenameOffset, uuid) => IsCString(name) && basenameOffset < TWO64 && uuid < TWO64
    case _ => true
  }

  ghost predicate OpsOk(e: Option<Enc>, ops: seq<Op>) {
    forall i :: 0 <= i < |ops| ==> OpOk(e, ops[i])
  }

  /** What a caller knows from return values: whether a resource is being added, and whether
      nothing but such a resource can follow the pool. */
  datatype Phase = Phase(active: bool, clean: bool)

  /** A caller that gives up a resource as soon as a call on it fails. An init that cuts an
      unfinished resource short, and a failure after which k_pres_rollback is not known to have
      worked, may leave bytes behind the pool. */
  function NextPhase(p: Phase, op: Op, code: int): Phase {
    match op
    case OpInit(_) => Phase(code == 0, p.clean && !p.active)
    case OpAppend(_) => if p.active && code != 0 then Phase(false, false) else p
    case OpCommit(_, _, _) => if !p.active then p else Phase(false, p.clean && code == 0)
    case OpRollback => Phase(false, code == 0 || (p.clean && !p.active))
    case OpDelete(_) => p
  }

  /** The phase after a run with these return values. */
  function PhaseAfter(ops: seq<Op>, codes: seq<int>): Phase
    requires |ops| == |codes|
  {
    if ops == [] then Phase(false, true)
    else NextPhase(PhaseAfter(ops[..|ops| - 1], codes[..|ops| - 1]), ops[|ops| - 1], codes[|ops| - 1])
  }

  // ---------------------------------------------------------------- the data of one resource

  /** A resource being added: its nonce, and the data of each append so far. */
  datatype Upload = Upload(nonce: Bytes, pieces: seq<Bytes>)

  /** Data coded from keystream position p on; decoding is the same. */
  function Coding(e: Option<Enc>, nonce: Bytes, p: nat, data: Bytes): (r: Bytes)
    requires EncOk(e) && NonceOk(e, nonce)
    ensures |r| == |data|
  {
    match e
    case None => data
    case Some(s) => Crypt(s.c, s.m, nonce, p, data)
  }

  /** What the appends have stored. */
  function Recorded(e: Option<Enc>, nonce: Bytes, pieces: seq<Bytes>): Bytes
    requires EncOk(e) && NonceOk(e, nonce)
  {
    if pieces == [] then []
    else
      var before := pieces[..|pieces| - 1];
      Recorded(e, nonce, before) + Written(Coding(e, nonce, |Concat(before)|, pieces[|pieces| - 1]))
  }

  /** What reading it gives. */
  function Retrieved(e: Option<Enc>, nonce: Bytes, pieces: seq<Bytes>): Bytes
    requires EncOk(e) && NonceOk(e, nonce)
  {
    Coding(e, nonce, 0, Recorded(e, nonce, pieces))
  }

  predicate AllShort(pieces: seq<Bytes>) {
    forall i :: 0 <= i < |pieces| ==> |pieces[i]| < 2 * IOBUF
  }

  lemma CodingSplit(e: Option<Enc>, nonce: Bytes, p: nat, a: Bytes, b: Bytes)
    requires EncOk(e) && NonceOk(e, nonce)
    ensures Coding(e, nonce, p, a + b) == Coding(e, nonce, p, a) + Coding(e, nonce, p + |a|, b)
  {
    hide Cipher.Valid, Crypt;
    if e.Some? {
      CryptSplit(e.value.c, e.value.m, nonce, p, a, b);
    }
  }

  lemma CodingTwice(e: Option<Enc>, nonce: Bytes, data: Bytes)
    requires EncOk(e) && NonceOk(e, nonce)
    ensures Coding(e, nonce, 0, Coding(e, nonce, 0, data)) == data
  {
    hide Cipher.Valid, Crypt;
    if e.Some? {
      CryptTwice(e.value.c, e.value.m, nonce, 0, data);
    }
  }

  lemma CodingNothing(e: Option<Enc>, nonce: Bytes)
    requires EncOk(e) && NonceOk(e, nonce)
    ensures Coding(e, nonce, 0, []) == []
  {
    hide EncOk, Coding;
    assert |Coding(e, nonce, 0, [])| == 0;
  }

  /** The nonce in the IV field of an entry is all that counts of it. */
  lemma CodingIs(e: Option<Enc>, nonce: Bytes, iv: Bytes, p: nat, data: Bytes)
    requires EncOk(e) && NonceOk(e, nonce) && |iv| == MAX_IV && (e.Some? ==> iv[..e.value.c.size] == nonce)
    ensures Coding(e, nonce, p, data) == Coded(e, iv, p, data)
  {
    hide Cipher.Valid, Crypt;
  }

  lemma WrittenLength(coded: Bytes)
    ensures |Written(coded)| <= |coded|
    ensures |Written(coded)| == |coded| <==> |coded| < 2 * IOBUF
    ensures |coded| < 2 * IOBUF ==> Written(coded) == coded
  {
  }

  lemma {:induction false} RecordedShort(e: Option<Enc>, nonce: Bytes, pieces: seq<Bytes>)
    requires EncOk(e) && NonceOk(e, nonce) && AllShort(pieces)
    ensures Recorded(e, nonce, pieces) == Coding(e, nonce, 0, Concat(pieces))
  {
    hide EncOk, Coding, Written;
    if pieces == [] {
      CodingNothing(e, nonce);
    } else {
      var before, last := pieces[..|pieces| - 1], pieces[|pieces| - 1];
      RecordedShort(e, nonce, before);
      CodingSplit(e, nonce, 0, Concat(before), last);
      WrittenLength(Coding(e, nonce, |Concat(before)|, last));
    }
  }

  lemma {:induction false} RecordedLength(e: Option<Enc>, nonce: Bytes, pieces: seq<Bytes>)
    requires EncOk(e) && NonceOk(e, nonce)
    ensures |Recorded(e, nonce, pieces)| <= |Concat(pieces)|
    ensures |Recorded(e, nonce, pieces)| == |Concat(pieces)| ==> AllShort(pieces)
  {
    hide EncOk, Coding, Written;
    if pieces != [] {
      var before, last := pieces[..|pieces| - 1], pieces[|pieces| - 1];
      RecordedLength(e, nonce, before);
      WrittenLength(Coding(e, nonce, |Concat(before)|, last));
      if |Recorded(e, nonce, pieces)| == |Concat(pieces)| {
        forall i | 0 <= i < |pieces| ensures |pieces[i]| < 2 * IOBUF {
          assert i < |before| ==> pieces[i] == before[i];
        }
      }
    }
  }

  /** A resource reads back as what was appended exactly when every append was shorter than two
      full buffers. */
  lemma RetrievedExact(e: Option<Enc>, nonce: Bytes, pieces: seq<Bytes>)
    requires EncOk(e) && NonceOk(e, nonce)
    ensures Retrieved(e, nonce, pieces) == Concat(pieces) <==> AllShort(pieces)
  {
    hide EncOk, Coding, Recorded, AllShort;
    RecordedLength(e, nonce, pieces);
    if AllShort(pieces) {
      RecordedShort(e, nonce, pieces);
      CodingTwice(e, nonce, Concat(pieces));
    }
  }

  // ---------------------------------------------------------------- runs

  /** A container as its caller sees it: what each id gives access to, and what is being added. */
  datatype Held = Held(slots: seq<Option<Source>>, upload: Option<Upload>)

  ghost predicate HeldOk(e: Option<Enc>, h: Held) {
    h.upload.Some? ==> NonceOk(e, h.upload.value.nonce)
  }

  /** One operation and its outcome. The outcome is the return value; k_pres_delete_id has none,
      and here its outcome is 0 if it zeroed the entry, as looking for the id shows. */
  ghost function Step(e: Option<Enc>, h: Held, op: Op, code: int): (r: Held)
    requires EncOk(e) && HeldOk(e, h) && OpOk(e, op)
    ensures HeldOk(e, r)
  {
    match op
    case OpInit(nonce) => h.(upload := if code == 0 then Some(Upload(nonce, [])) else None)
    case OpAppend(data) =>
      if h.upload.None? then h
      else if code != 0 then h.(upload := None)
      else h.(upload := Some(h.upload.value.(pieces := h.upload.value.pieces + [data])))
    case OpCommit(name, basenameOffset, uuid) =>
      if h.upload.None? then h
      else if code != 0 then h.(upload := None)
      else
        var data := Retrieved(e, h.upload.value.nonce, h.upload.value.pieces);
        Held(h.slots + [Some(Source(uuid, basenameOffset, CString(StoredName(name)), data))], None)
    case OpRollback => h.(upload := None)
    case OpDelete(id) => if code == 0 && 1 <= id <= |h.slots| then h.(slots := h.slots[id - 1 := None]) else h
  }

  /** Whether only a failing system call can make the operation fail: a commit needs a name, and
      what is deleted needs an entry. */
  predicate Sensible(h: Held, op: Op) {
    match op
    case OpCommit(name, _, _) => h.upload.None? || name != []
    case OpDelete(id) => 1 <= id <= |h.slots|
    case _ => true
  }

  /** A run of operations with these outcomes. */
  ghost function Replay(e: Option<Enc>, h: Held, ops: seq<Op>, codes: seq<int>): (r: Held)
    requires EncOk(e) && HeldOk(e, h) && OpsOk(e, ops) && |ops| == |codes|
    ensures HeldOk(e, r)
  {
    if ops == [] then h
    else
      var n := |ops| - 1;
      Step(e, Replay(e, h, ops[..n], codes[..n]), ops[n], codes[n])
  }

  /** The outcomes when no system call fails. */
  ghost function Outcomes(e: Option<Enc>, h: Held, ops: seq<Op>): (codes: seq<int>)
    requires EncOk(e) && HeldOk(e, h) && OpsOk(e, ops)
    ensures |codes| == |ops|
  {
    if ops == [] then []
    else
      var n := |ops| - 1;
      var before := Outcomes(e, h, ops[..n]);
      before + [if Sensible(Replay(e, h, ops[..n], before), ops[n]) then 0 else 1]
  }

  /** What a caller does between opening and closing, and the nonces that closing draws. */
  datatype Session = Session(ops: seq<Op>, dhdrNonce: Bytes, rtblNonce: Bytes)

  ghost predicate SessionsOk(e: Option<Enc>, sessions: seq<Session>) {
    forall i :: 0 <= i < |sessions| ==>
      OpsOk(e, sessions[i].ops) && NonceOk(e, sessions[i].dhdrNonce) && NonceOk(e, sessions[i].rtblNonce)
  }

  /** The outcomes of the operations of each session. */
  predicate RunsOf(sessions: seq<Session>, codes: seq<seq<int>>) {
    |sessions| == |codes| && forall i :: 0 <= i < |codes| ==> |codes[i]| == |sessions[i].ops|
  }

  /** Session after session; what was being added at the end of one is gone in the next. */
  ghost function ReplayAll(e: Option<Enc>, slots: seq<Option<Source>>, sessions: seq<Session>, codes: seq<seq<int>>)
      : (r: Held)
    requires EncOk(e) && SessionsOk(e, sessions) && RunsOf(sessions, codes)
    ensures HeldOk(e, r)
  {
    if sessions == [] then Held(slots, None)
    else
      var n := |sessions| - 1;
      var before := ReplayAll(e, slots, sessions[..n], codes[..n]);
      Replay(e, Held(before.slots, None), sessions[n].ops, codes[n])
  }

  /** The outcomes of all sessions when no system call fails. */
  ghost function OutcomesAll(e: Option<Enc>, slots: seq<Option<Source>>, sessions: seq<Session>)
      : (codes: seq<seq<int>>)
    requires EncOk(e) && SessionsOk(e, sessions)
    ensures RunsOf(sessions, codes)
  {
    if sessions == [] then []
    else
      var n := |sessions| - 1;
      var before := OutcomesAll(e, slots, sessions[..n]);
      var held := ReplayAll(e, slots, sessions[..n], before);
      before + [Outcomes(e, Held(held.slots, None), sessions[n].ops)]
  }

  lemma OneSession(e: Option<Enc>, slots: seq<Option<Source>>, sessions: seq<Session>, codes: seq<seq<int>>, i: nat,
                   run: seq<int>)
    requires EncOk(e) && SessionsOk(e, sessions) && i == |codes| < |sessions| && RunsOf(sessions[..i], codes)
    requires |run| == |sessions[i].ops|
    ensures OpsOk(e, sessions[i].ops)
    ensures NonceOk(e, sessions[i].dhdrNonce) && NonceOk(e, sessions[i].rtblNonce)
    ensures SessionsOk(e, sessions[..i]) && SessionsOk(e, sessions[..i + 1])
    ensures RunsOf(sessions[..i + 1], codes + [run])
    ensures ReplayAll(e, slots, sessions[..i + 1], codes + [run]) ==
            Replay(e, Held(ReplayAll(e, slots, sessions[..i], codes).slots, None), sessions[i].ops, run)
    ensures codes == OutcomesAll(e, slots, sessions[..i]) &&
            run == Outcomes(e, Held(ReplayAll(e, slots, sessions[..i], codes).slots, None), sessions[i].ops) ==>
      codes + [run] == OutcomesAll(e, slots, sessions[..i + 1])
  {
    hide EncOk, OpsOk, NonceOk, Replay, Outcomes;
    assert sessions[..i + 1][..i] == sessions[..i] && (codes + [run])[..i] == codes;
  }

  /** How many bytes of an unfinished resource there are in the file. */
  ghost function Unfinished(e: Option<Enc>, h: Held): nat
    requires EncOk(e) && HeldOk(e, h)
  {
    if h.upload.None? then 0 else |Recorded(e, h.upload.value.nonce, h.upload.value.pieces)|
  }

  /** The resources there are, in order. */
  function Present(slots: seq<Option<Source>>): seq<Source> {
    if slots == [] then []
    else
      var n := |slots| - 1;
      Present(slots[..n]) + if slots[n].Some? then [slots[n].value] else []
  }

  /** None of them has any data. */
  predicate NoData(slots: seq<Option<Source>>) {
    forall i :: 0 <= i < |slots| && slots[i].Some? ==> slots[i].value.data == []
  }

  // ---------------------------------------------------------------- what a table gives access to

  ghost predicate EntryReadable(e: Option<Enc>, pool: Bytes, x: Entry) {
    Live(x) && EncOk(e) && |x.dataIv| == MAX_IV && x.dataOffset + x.dataSize <= |pool|
  }

  ghost function Slot(e: Option<Enc>, pool: Bytes, x: Entry): Option<Source> {
    if EntryReadable(e, pool, x) then Some(SourceAt(e, pool, x)) else None
  }

  ghost function SlotsIn(e: Option<Enc>, pool: Bytes, table: seq<Entry>): (s: seq<Option<Source>>)
    ensures |s| == |table| && forall i :: 0 <= i < |s| ==> s[i] == Slot(e, pool, table[i])
  {
    seq(|table|, i requires 0 <= i < |table| => Slot(e, pool, table[i]))
  }

  ghost function SlotsOf(e: Option<Enc>, pool: Bytes, b: Books): seq<Option<Source>> {
    if b.entries <= |b.table| then SlotsIn(e, pool, b.table[..b.entries]) else []
  }

  /** Reading the file and asking for the ids are two views of one table. */
  lemma {:induction false} PresentIs(e: Option<Enc>, pool: Bytes, table: seq<Entry>, n: nat)
    requires TableReadable(e, pool, table) && n <= |table|
    ensures Present(SlotsIn(e, pool, table)[..n]) == Sources(e, pool, table, n)
  {
    hide EncOk, SourceAt;
    if n > 0 {
      PresentIs(e, pool, table, n - 1);
      var s := SlotsIn(e, pool, table)[..n];
      assert s[..n - 1] == SlotsIn(e, pool, table)[..n - 1];
      assert s[n - 1] == Slot(e, pool, table[n - 1]);
    }
  }

  lemma PresentAll(e: Option<Enc>, pool: Bytes, table: seq<Entry>)
    requires TableReadable(e, pool, table)
    ensures Present(SlotsIn(e, pool, table)) == Sources(e, pool, table, |table|)
  {
    hide TableReadable, SlotsIn, Sources, Present;
    PresentIs(e, pool, table, |table|);
    assert SlotsIn(e, pool, table)[..|table|] == SlotsIn(e, pool, table);
  }

  lemma NoDataIs(e: Option<Enc>, pool: Bytes, table: seq<Entry>)
    requires TableReadable(e, pool, table)
    ensures NoData(SlotsIn(e, pool, table)) <==> Empty(table)
  {
    hide EncOk, SlotsIn, DataOf, CString;
    var s := SlotsIn(e, pool, table);
    forall i | 0 <= i < |table|
      ensures s[i].Some? <==> Live(table[i])
      ensures s[i].Some? ==> (s[i].value.data == [] <==> table[i].dataSize == 0)
    {
      assert s[i] == Slot(e, pool, table[i]);
    }
  }

  lemma SlotsSame(e: Option<Enc>, pool: Bytes, a: Books, b: Books)
    requires SameBooks(a, b)
    ensures SlotsOf(e, pool, b) == SlotsOf(e, pool, a)
  {
    hide SlotsIn;
  }

  lemma SlotsLength(e: Option<Enc>, pool: Bytes, b: Books)
    requires b.entries <= |b.table|
    ensures |SlotsOf(e, pool, b)| == b.entries
  {
  }

  /** The digest field of an entry has no part in what it gives access to. */
  lemma SlotsSealed(e: Option<Enc>, pool: Bytes, a: seq<Entry>, b: seq<Entry>)
    requires |a| == |b| && forall k :: 0 <= k < |a| ==> b[k] == a[k].(digest := b[k].digest)
    ensures SlotsIn(e, pool, b) == SlotsIn(e, pool, a)
  {
    hide EncOk, Coded, CString, SlotsIn;
    var s, t := SlotsIn(e, pool, a), SlotsIn(e, pool, b);
    forall i | 0 <= i < |s| ensures t[i] == s[i] {
      assert b[i] == a[i].(digest := b[i].digest);
      assert t[i] == Slot(e, pool, b[i]) && s[i] == Slot(e, pool, a[i]);
    }
  }

  lemma SlotsDeleted(e: Option<Enc>, pool: Bytes, a: Books, id: nat)
    requires 1 <= id <= a.entries <= |a.table|
    ensures |SlotsOf(e, pool, a)| == a.entries
    ensures SlotsOf(e, pool, a.(table := a.table[id - 1 := ZERO_ENTRY])) == SlotsOf(e, pool, a)[id - 1 := None]
  {
    hide SlotsIn, SourceAt, EncOk;
    var t := a.table[..a.entries];
    var u := a.table[id - 1 := ZERO_ENTRY][..a.entries];
    assert u == t[id - 1 := ZERO_ENTRY];
    var r := SlotsIn(e, pool, u);
    forall i | 0 <= i < |r| ensures r[i] == SlotsIn(e, pool, t)[id - 1 := None][i] {
      assert r[i] == Slot(e, pool, u[i]);
    }
  }

  lemma SlotKept(e: Option<Enc>, pool: Bytes, more: Bytes, x: Entry)
    requires Live(x) ==> EntryReadable(e, pool, x)
    ensures Slot(e, pool + more, x) == Slot(e, pool, x)
  {
    hide EncOk, DataOf, CString;
    if Live(x) {
      DataKept(e, pool, more, x);
    }
  }

  lemma SlotsTaken(e: Option<Enc>, pool: Bytes, a: Books, x: Entry, more: Bytes)
    requires a.entries == a.resEntries < |a.table| && TableReadable(e, pool, a.table[..a.entries])
    ensures SlotsOf(e, pool + more, Post(Taken(a, x))) == SlotsOf(e, pool, a) + [Slot(e, pool + more, x)]
  {
    hide EncOk, Slot, SlotsIn;
    var t, u := a.table[..a.entries], a.table[a.entries := x][..a.entries + 1];
    assert u == t + [x];
    var r := SlotsIn(e, pool + more, u);
    forall i | 0 <= i < |t| ensures r[i] == SlotsIn(e, pool, t)[i] {
      assert r[i] == Slot(e, pool + more, u[i]) && u[i] == t[i];
      SlotKept(e, pool, more, t[i]);
    }
    assert r[|t|] == Slot(e, pool + more, u[|t|]);
    assert r == SlotsIn(e, pool, t) + [Slot(e, pool + more, x)];
  }

  /** A committed entry gives access to what was added. */
  lemma SlotOfNew(e: Option<Enc>, pool: Bytes, u: Upload, x: Entry, name: Bytes)
    requires EncOk(e) && NonceOk(e, u.nonce) && |x.dataIv| == MAX_IV
    requires e.Some? ==> x.dataIv[..e.value.c.size] == u.nonce
    requires Live(x) && x.dataOffset == |pool| && x.dataSize == |Recorded(e, u.nonce, u.pieces)|
    requires x.name == StoredName(name)
    ensures Slot(e, pool + Recorded(e, u.nonce, u.pieces), x) ==
            Some(Source(x.uuid, x.basenameOffset, CString(StoredName(name)), Retrieved(e, u.nonce, u.pieces)))
  {
    hide EncOk, Coded, Coding, CString, StoredName, Recorded;
    var s := Recorded(e, u.nonce, u.pieces);
    assert Stored(pool + s, x) == s;
    CodingIs(e, u.nonce, x.dataIv, 0, s);
  }
}
