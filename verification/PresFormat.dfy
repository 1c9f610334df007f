// The on-disk structures of a pres container (include/libk/internal/pres.h): packed records of
// little-endian numbers and fixed-size byte arrays.

module PresFormat {
  import opened Bytes
  import opened Words

  const MAX_DIGEST: nat := 128
  const MAX_IV: nat := 128
  const MAX_NAME: nat := 256

  /** The contents of an IV field. */
  type Iv = s: Bytes | |s| == MAX_IV witness Zeros(MAX_IV)

  const SZ_HEADER: nat := 700
  const SZ_DHDR: nat := 288
  const SZ_RTBL: nat := 136
  const SZ_ENTRY: nat := 680

  const MAGIC: nat := 0x0701198123421337
  const VERSION: nat := 4

  // ---------------------------------------------------------------- packed records

  datatype Kind = U(width: nat) | B(len: nat)

  datatype Value = Num(n: nat) | Raw(s: Bytes)

  predicate FitsField(k: Kind, v: Value) {
    match k
    case U(w) => v.Num? && v.n < Pow256(w)
    case B(l) => v.Raw? && |v.s| == l
  }

  ghost predicate FitsAll(ks: seq<Kind>, vs: seq<Value>) {
    |ks| == |vs| && forall i :: 0 <= i < |ks| ==> FitsField(ks[i], vs[i])
  }

  function Width(k: Kind): nat {
    match k
    case U(w) => w
    case B(l) => l
  }

  function Size(ks: seq<Kind>): nat {
    if ks == [] then 0 else Width(ks[0]) + Size(ks[1..])
  }

  function Field(k: Kind, v: Value): (s: Bytes)
    requires FitsField(k, v)
    ensures |s| == Width(k)
  {
    match k
    case U(w) => LeBytes(v.n, w)
    case B(l) => v.s
  }

  function Pack(ks: seq<Kind>, vs: seq<Value>): (s: Bytes)
    requires FitsAll(ks, vs)
    ensures |s| == Size(ks)
  {
    if ks == [] then [] else Field(ks[0], vs[0]) + Pack(ks[1..], vs[1..])
  }

  function ReadField(k: Kind, s: Bytes): Value
    requires |s| == Width(k)
  {
    match k
    case U(w) => Num(LeValue(s))
    case B(l) => Raw(s)
  }

  function Unpack(ks: seq<Kind>, s: Bytes): (vs: seq<Value>)
    requires |s| == Size(ks)
    ensures |vs| == |ks|
  {
    if ks == [] then []
    else [ReadField(ks[0], s[..Width(ks[0])])] + Unpack(ks[1..], s[Width(ks[0])..])
  }

  lemma ReadWritten(k: Kind, v: Value)
    requires FitsField(k, v)
    ensures ReadField(k, Field(k, v)) == v
  {
    hide LeBytes, LeValue, Pow256;
    match k
    case U(w) => LeRoundTrip(v.n, w);
    case B(l) =>
  }

  lemma {:induction false} UnpackPack(ks: seq<Kind>, vs: seq<Value>)
    requires FitsAll(ks, vs)
    ensures Unpack(ks, Pack(ks, vs)) == vs
  {
    hide FitsField, Field, ReadField;
    if ks != [] {
      ReadWritten(ks[0], vs[0]);
      UnpackPack(ks[1..], vs[1..]);
      var s := Pack(ks, vs);
      assert s[..Width(ks[0])] == Field(ks[0], vs[0]);
      assert s[Width(ks[0])..] == Pack(ks[1..], vs[1..]);
    }
  }

  /** Records that agree on all but the last field agree on all bytes before it. */
  lemma {:induction false} PackFront(ks: seq<Kind>, vs: seq<Value>, ws: seq<Value>)
    requires FitsAll(ks, vs) && FitsAll(ks, ws) && ks != [] && vs[..|vs| - 1] == ws[..|ws| - 1]
    ensures Size(ks) >= Width(ks[|ks| - 1])
    ensures var n := Size(ks) - Width(ks[|ks| - 1]);
      Pack(ks, vs)[..n] == Pack(ks, ws)[..n]
  {
    hide FitsField, Field;
    if |ks| > 1 {
      assert vs[1..][..|vs| - 2] == vs[..|vs| - 1][1..];
      assert ws[1..][..|ws| - 2] == ws[..|ws| - 1][1..];
      PackFront(ks[1..], vs[1..], ws[1..]);
      assert vs[0] == vs[..|vs| - 1][0] && ws[0] == ws[..|ws| - 1][0];
      var w, n := Width(ks[0]), Size(ks) - Width(ks[|ks| - 1]);
      Joined(Field(ks[0], vs[0]), Pack(ks[1..], vs[1..]), n);
      Joined(Field(ks[0], ws[0]), Pack(ks[1..], ws[1..]), n);
    }
  }

  lemma Joined(a: Bytes, b: Bytes, n: nat)
    requires |a| <= n <= |a| + |b|
    ensures (a + b)[..n] == a + b[..n - |a|]
  {
  }

  // ---------------------------------------------------------------- the four structures

  datatype Hdr = Hdr(magic: nat, version: nat, hashFunction: nat, hashSize: nat, cipher: nat, cipherMode: nat,
                     keySize: nat, tweakSize: nat, fileSize: nat, versionString: Bytes, dhdrSize: nat,
                     dhdrStart: nat, dhdrIv: Bytes, kdfSalt: Bytes, digest: Bytes)

  datatype Dhdr = Dhdr(poolSize: nat, poolStart: nat, rtblSize: nat, rtblStart: nat, rtblIv: Bytes, digest: Bytes)

  datatype Entry = Entry(id: nat, uuid: nat, basenameOffset: nat, dataSize: nat, dataOffset: nat, dataIv: Bytes,
                         dataDigest: Bytes, name: Bytes, digest: Bytes)

  /** The head of the resource table. */
  datatype Rtbl = Rtbl(entries: nat, digest: Bytes)

  const HDR_LAYOUT: seq<Kind> :=
    [U(8), U(4), U(4), U(4), U(4), U(4), U(4), U(4), U(8), B(256), U(8), U(8), B(128), B(128), B(128)]
  const DHDR_LAYOUT: seq<Kind> := [U(8), U(8), U(8), U(8), B(128), B(128)]
  const ENTRY_LAYOUT: seq<Kind> := [U(8), U(8), U(8), U(8), U(8), B(128), B(128), B(256), B(128)]
  const RTBL_LAYOUT: seq<Kind> := [U(8), B(128)]

  function HdrValues(h: Hdr): seq<Value> {
    [Num(h.magic), Num(h.version), Num(h.hashFunction), Num(h.hashSize), Num(h.cipher), Num(h.cipherMode),
     Num(h.keySize), Num(h.tweakSize), Num(h.fileSize), Raw(h.versionString), Num(h.dhdrSize), Num(h.dhdrStart),
     Raw(h.dhdrIv), Raw(h.kdfSalt), Raw(h.digest)]
  }

  function DhdrValues(d: Dhdr): seq<Value> {
    [Num(d.poolSize), Num(d.poolStart), Num(d.rtblSize), Num(d.rtblStart), Raw(d.rtblIv), Raw(d.digest)]
  }

  function EntryValues(e: Entry): seq<Value> {
    [Num(e.id), Num(e.uuid), Num(e.basenameOffset), Num(e.dataSize), Num(e.dataOffset), Raw(e.dataIv),
     Raw(e.dataDigest), Raw(e.name), Raw(e.digest)]
  }

  function RtblValues(r: Rtbl): seq<Value> {
    [Num(r.entries), Raw(r.digest)]
  }

  ghost predicate HdrFits(h: Hdr) {
    FitsAll(HDR_LAYOUT, HdrValues(h))
  }

  ghost predicate DhdrFits(d: Dhdr) {
    FitsAll(DHDR_LAYOUT, DhdrValues(d))
  }

  ghost predicate EntryFits(e: Entry) {
    FitsAll(ENTRY_LAYOUT, EntryValues(e))
  }

  ghost predicate RtblFits(r: Rtbl) {
    FitsAll(RTBL_LAYOUT, RtblValues(r))
  }

  lemma HdrSize()
    ensures Size(HDR_LAYOUT) == SZ_HEADER
  {
    assert HDR_LAYOUT[8..] == [U(8), B(256), U(8), U(8), B(128), B(128), B(128)];
    assert Size([U(8), B(256), U(8), U(8), B(128), B(128), B(128)]) == 664;
    Size4(HDR_LAYOUT);
    Size4(HDR_LAYOUT[4..]);
    assert HDR_LAYOUT[4..][4..] == HDR_LAYOUT[8..];
  }

  lemma Size4(ks: seq<Kind>)
    requires |ks| >= 4
    ensures Size(ks) == Width(ks[0]) + Width(ks[1]) + Width(ks[2]) + Width(ks[3]) + Size(ks[4..])
  {
    assert ks[1..][1..] == ks[2..] && ks[2..][1..] == ks[3..] && ks[3..][1..] == ks[4..];
  }

  lemma OtherSizes()
    ensures Size(DHDR_LAYOUT) == SZ_DHDR && Size(RTBL_LAYOUT) == SZ_RTBL
  {
  }

  lemma EntrySize()
    ensures Size(ENTRY_LAYOUT) == SZ_ENTRY
  {
  }

  // ---------------------------------------------------------------- reading and writing them

  function NumOf(v: Value): nat {
    if v.Num? then v.n else 0
  }

  function RawOf(v: Value): Bytes {
    if v.Raw? then v.s else []
  }

  function PackHdr(h: Hdr): (s: Bytes)
    requires HdrFits(h)
    ensures |s| == SZ_HEADER
  {
    HdrSize();
    Pack(HDR_LAYOUT, HdrValues(h))
  }

  function PackDhdr(d: Dhdr): (s: Bytes)
    requires DhdrFits(d)
    ensures |s| == SZ_DHDR
  {
    OtherSizes();
    Pack(DHDR_LAYOUT, DhdrValues(d))
  }

  function PackEntry(e: Entry): (s: Bytes)
    requires EntryFits(e)
    ensures |s| == SZ_ENTRY
  {
    EntrySize();
    Pack(ENTRY_LAYOUT, EntryValues(e))
  }

  function PackRtbl(r: Rtbl): (s: Bytes)
    requires RtblFits(r)
    ensures |s| == SZ_RTBL
  {
    OtherSizes();
    Pack(RTBL_LAYOUT, RtblValues(r))
  }

  function ReadHdr(s: Bytes): Hdr
    requires |s| == SZ_HEADER
  {
    HdrSize();
    var v := Unpack(HDR_LAYOUT, s);
    Hdr(NumOf(v[0]), NumOf(v[1]), NumOf(v[2]), NumOf(v[3]), NumOf(v[4]), NumOf(v[5]), NumOf(v[6]), NumOf(v[7]),
        NumOf(v[8]), RawOf(v[9]), NumOf(v[10]), NumOf(v[11]), RawOf(v[12]), RawOf(v[13]), RawOf(v[14]))
  }

  function ReadDhdr(s: Bytes): Dhdr
    requires |s| == SZ_DHDR
  {
    OtherSizes();
    var v := Unpack(DHDR_LAYOUT, s);
    Dhdr(NumOf(v[0]), NumOf(v[1]), NumOf(v[2]), NumOf(v[3]), RawOf(v[4]), RawOf(v[5]))
  }

  function ReadEntry(s: Bytes): Entry
    requires |s| == SZ_ENTRY
  {
    EntrySize();
    var v := Unpack(ENTRY_LAYOUT, s);
    Entry(NumOf(v[0]), NumOf(v[1]), NumOf(v[2]), NumOf(v[3]), NumOf(v[4]), RawOf(v[5]), RawOf(v[6]), RawOf(v[7]),
        RawOf(v[8]))
  }

  function ReadRtbl(s: Bytes): Rtbl
    requires |s| == SZ_RTBL
  {
    OtherSizes();
    var v := Unpack(RTBL_LAYOUT, s);
    Rtbl(NumOf(v[0]), RawOf(v[1]))
  }

  lemma HdrRoundTrip(h: Hdr)
    requires HdrFits(h)
    ensures ReadHdr(PackHdr(h)) == h
  {
    hide FitsAll, Pack, Unpack, Size;
    HdrSize();
    UnpackPack(HDR_LAYOUT, HdrValues(h));
  }

  lemma DhdrRoundTrip(d: Dhdr)
    requires DhdrFits(d)
    ensures ReadDhdr(PackDhdr(d)) == d
  {
    hide FitsAll, Pack, Unpack, Size;
    OtherSizes();
    UnpackPack(DHDR_LAYOUT, DhdrValues(d));
  }

  lemma EntryRoundTrip(e: Entry)
    requires EntryFits(e)
    ensures ReadEntry(PackEntry(e)) == e
  {
    hide FitsAll, Pack, Unpack, Size;
    EntrySize();
    UnpackPack(ENTRY_LAYOUT, EntryValues(e));
  }

  lemma RtblRoundTrip(r: Rtbl)
    requires RtblFits(r)
    ensures ReadRtbl(PackRtbl(r)) == r
  {
    hide FitsAll, Pack, Unpack, Size;
    OtherSizes();
    UnpackPack(RTBL_LAYOUT, RtblValues(r));
  }

  // ---------------------------------------------------------------- digests

  /** The bytes a structure's digest covers: all but the digest field itself. */
  lemma DigestCoverHdr(h: Hdr, digest: Bytes)
    requires HdrFits(h) && |digest| == MAX_DIGEST
    ensures HdrFits(h.(digest := digest))
    ensures PackHdr(h.(digest := digest))[..SZ_HEADER - MAX_DIGEST] == PackHdr(h)[..SZ_HEADER - MAX_DIGEST]
  {
    hide Pack, Size;
    HdrSize();
    var h2 := h.(digest := digest);
    assert HdrValues(h2)[..14] == HdrValues(h)[..14];
    LastReplaced(HDR_LAYOUT, HdrValues(h), HdrValues(h2));
    PackFront(HDR_LAYOUT, HdrValues(h), HdrValues(h2));
  }

  lemma DigestCoverDhdr(d: Dhdr, digest: Bytes)
    requires DhdrFits(d) && |digest| == MAX_DIGEST
    ensures DhdrFits(d.(digest := digest))
    ensures PackDhdr(d.(digest := digest))[..SZ_DHDR - MAX_DIGEST] == PackDhdr(d)[..SZ_DHDR - MAX_DIGEST]
  {
    hide Pack, Size;
    OtherSizes();
    var d2 := d.(digest := digest);
    assert DhdrValues(d2)[..5] == DhdrValues(d)[..5];
    LastReplaced(DHDR_LAYOUT, DhdrValues(d), DhdrValues(d2));
    PackFront(DHDR_LAYOUT, DhdrValues(d), DhdrValues(d2));
  }

  lemma DigestCoverEntry(e: Entry, digest: Bytes)
    requires EntryFits(e) && |digest| == MAX_DIGEST
    ensures EntryFits(e.(digest := digest))
    ensures PackEntry(e.(digest := digest))[..SZ_ENTRY - MAX_DIGEST] == PackEntry(e)[..SZ_ENTRY - MAX_DIGEST]
  {
    hide Pack, Size;
    EntrySize();
    var e2 := e.(digest := digest);
    assert EntryValues(e2)[..8] == EntryValues(e)[..8];
    LastReplaced(ENTRY_LAYOUT, EntryValues(e), EntryValues(e2));
    PackFront(ENTRY_LAYOUT, EntryValues(e), EntryValues(e2));
  }

  lemma DigestCoverRtbl(r: Rtbl, digest: Bytes)
    requires RtblFits(r) && |digest| == MAX_DIGEST
    ensures RtblFits(r.(digest := digest))
    ensures PackRtbl(r.(digest := digest))[..SZ_RTBL - MAX_DIGEST] == PackRtbl(r)[..SZ_RTBL - MAX_DIGEST]
  {
    hide Pack, Size;
    OtherSizes();
    var r2 := r.(digest := digest);
    assert RtblValues(r2)[..1] == RtblValues(r)[..1];
    LastReplaced(RTBL_LAYOUT, RtblValues(r), RtblValues(r2));
    PackFront(RTBL_LAYOUT, RtblValues(r), RtblValues(r2));
  }

  lemma LastReplaced(ks: seq<Kind>, vs: seq<Value>, ws: seq<Value>)
    requires FitsAll(ks, vs) && |vs| == |ws| > 0 && vs[..|vs| - 1] == ws[..|vs| - 1]
    requires FitsField(ks[|ks| - 1], ws[|ws| - 1])
    ensures FitsAll(ks, ws)
  {
    hide FitsField;
    forall i | 0 <= i < |ks| ensures FitsField(ks[i], ws[i]) {
      if i < |ks| - 1 {
        assert ws[i] == ws[..|vs| - 1][i] == vs[..|vs| - 1][i] == vs[i];
      }
    }
  }

  // ---------------------------------------------------------------- names

  /** snprintf of a C string into the name field: at most 255 bytes and a terminating zero. */
  function StoredName(name: Bytes): (s: Bytes)
    ensures |s| == MAX_NAME
  {
    var kept := if |name| < MAX_NAME then name else name[..MAX_NAME - 1];
    kept + Zeros(MAX_NAME - |kept|)
  }

  /** The C string at the start of a field. */
  function CString(s: Bytes): Bytes {
    if s == [] || s[0] == 0 then [] else [s[0]] + CString(s[1..])
  }

  ghost predicate IsCString(name: Bytes) {
    forall k :: 0 <= k < |name| ==> name[k] != 0
  }

  lemma {:induction false} CStringHasNoZero(s: Bytes)
    ensures IsCString(CString(s))
  {
    if s != [] && s[0] != 0 {
      CStringHasNoZero(s[1..]);
    }
  }

  lemma {:induction false} CStringOf(name: Bytes, n: nat)
    requires IsCString(name) && n > 0
    ensures CString(name + Zeros(n)) == name
  {
    if name != [] {
      CStringOf(name[1..], n);
      var s := name + Zeros(n);
      assert s[1..] == name[1..] + Zeros(n);
      assert name == [name[0]] + name[1..];
    }
  }

  /** A name comes back exactly when it is shorter than the field. */
  lemma NameRoundTrip(name: Bytes)
    requires IsCString(name)
    ensures CString(StoredName(name)) == name <==> |name| < MAX_NAME
  {
    if |name| < MAX_NAME {
      CStringOf(name, MAX_NAME - |name|);
    } else {
      CStringOf(name[..MAX_NAME - 1], 1);
    }
  }

  // ---------------------------------------------------------------- names of added files

  const SLASH: Byte := 0x2f
  const DOT: Byte := 0x2e

  /** Where the first slash is, or the length. */
  function FirstSlash(path: Bytes): (k: nat)
    ensures k <= |path| && (k < |path| ==> path[k] == SLASH)
    ensures forall i :: 0 <= i < k ==> path[i] != SLASH
  {
    if path == [] || path[0] == SLASH then 0 else 1 + FirstSlash(path[1..])
  }

  /** What k_pres_add_file keeps of a path: what follows the first slash, if there is one. */
  function Stripped(path: Bytes): Bytes {
    var k := FirstSlash(path);
    if k < |path| then path[k + 1..] else path
  }

  /** The offset of the base name in it, in 64-bit arithmetic. */
  function Shifted(basenameOffset: nat, path: Bytes): (r: nat)
    ensures basenameOffset < TWO64 ==> r < TWO64
  {
    var k := FirstSlash(path);
    if k < |path| then (basenameOffset - (k + 1)) % TWO64 else basenameOffset
  }

  /** The offset still leads to the same base name exactly when that lay behind the slash. */
  lemma BasenameKept(path: Bytes, basenameOffset: nat)
    requires basenameOffset <= |path| < TWO64 / 2
    ensures var name, off := Stripped(path), Shifted(basenameOffset, path); var k := FirstSlash(path);
      (off <= |name| && name[off..] == path[basenameOffset..]) <==> (k == |path| || basenameOffset > k)
  {
    hide FirstSlash;
    var k := FirstSlash(path);
    if k < |path| {
      Wraps(basenameOffset - (k + 1));
      if k < basenameOffset {
        assert path[k + 1..][basenameOffset - (k + 1)..] == path[basenameOffset..];
      }
    }
  }

  lemma Wraps(n: int)
    requires -TWO64 <= n < TWO64
    ensures n % TWO64 == if n < 0 then n + TWO64 else n
  {
  }

  lemma StrippedIsCString(path: Bytes)
    requires IsCString(path)
    ensures IsCString(Stripped(path))
  {
  }

  /** The loop that strips the path. */
  method Strip(path: Bytes, basenameOffset: nat) returns (name: Bytes, shifted: nat)
    requires basenameOffset < TWO64
    ensures name == Stripped(path) && shifted == Shifted(basenameOffset, path)
  {
    var off := 0;
    name, shifted := path, basenameOffset;
    while off < |path| && path[off] != SLASH
      invariant off <= |path| && forall i :: 0 <= i < off ==> path[i] != SLASH
    {
      off := off + 1;
    }
    if off < |path| {
      name, shifted := path[off + 1..], (basenameOffset - (off + 1)) % TWO64;
    }
  }

  /** A component of the name starts with a dot. */
  ghost predicate Hidden(name: Bytes) {
    (name != [] && name[0] == DOT) || exists i :: DotAfterSlash(name, i)
  }

  predicate DotAfterSlash(name: Bytes, i: int) {
    0 <= i < |name| - 1 && name[i] == SLASH && name[i + 1] == DOT
  }

  method IsHidden(name: Bytes) returns (hidden: bool)
    ensures hidden == Hidden(name)
  {
    if name != [] && name[0] == DOT {
      return true;
    }
    var i := 0;
    while i < |name|
      invariant i <= |name| && forall k :: k < i ==> !DotAfterSlash(name, k)
    {
      if DotAfterSlash(name, i) {
        return true;
      }
      i := i + 1;
    }
    hidden := false;
  }
}
