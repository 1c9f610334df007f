// Where every field of the four structures lies on disk: its offset, its width and its number, and
// the converse of the round trip: packing what was read gives the same bytes.

module PresFields {
  import opened Bytes
  import opened Words
  import opened PresFormat
  import opened PresImage

  // ---------------------------------------------------------------- any record

  /** The offset of field i. */
  function Start(ks: seq<Kind>, i: nat): nat
    requires i <= |ks|
  {
    if i == 0 then 0 else Width(ks[0]) + Start(ks[1..], i - 1)
  }

  lemma StartFirst(ks: seq<Kind>)
    ensures Start(ks, 0) == 0
  {
  }

  lemma {:induction false} StartNext(ks: seq<Kind>, i: nat)
    requires i < |ks|
    ensures Start(ks, i + 1) == Start(ks, i) + Width(ks[i])
  {
    if i > 0 {
      StartNext(ks[1..], i - 1);
    }
  }

  lemma {:induction false} StartInside(ks: seq<Kind>, i: nat)
    requires i < |ks|
    ensures Start(ks, i) + Width(ks[i]) <= Size(ks)
  {
    if i > 0 {
      StartInside(ks[1..], i - 1);
    }
  }

  lemma {:induction false} UnpackedAt(ks: seq<Kind>, s: Bytes, i: nat)
    requires i < |ks| && |s| == Size(ks) && Start(ks, i) + Width(ks[i]) <= Size(ks)
    ensures Unpack(ks, s)[i] == ReadField(ks[i], s[Start(ks, i)..Start(ks, i) + Width(ks[i])])
  {
    hide ReadField, Width;
    if i == 0 {
      assert s[..Width(ks[0])] == s[0..0 + Width(ks[0])];
    } else {
      var w, rest := Width(ks[0]), ks[1..];
      var at := Start(rest, i - 1);
      StartInside(rest, i - 1);
      UnpackedAt(rest, s[w..], i - 1);
      SliceOfTail(s, w, at, at + Width(ks[i]));
    }
  }

  lemma SliceOfTail(s: Bytes, w: nat, lo: nat, hi: nat)
    requires lo <= hi && w + hi <= |s|
    ensures s[w..][lo..hi] == s[w + lo..w + hi]
  {
    assert |s[w..][lo..hi]| == |s[w + lo..w + hi]|;
    forall j | 0 <= j < hi - lo ensures s[w..][lo..hi][j] == s[w + lo..w + hi][j] {
    }
  }

  /** Packing what was read gives the bytes back. */
  lemma {:induction false} PackUnpack(ks: seq<Kind>, s: Bytes)
    requires |s| == Size(ks) && FitsAll(ks, Unpack(ks, s))
    ensures Pack(ks, Unpack(ks, s)) == s
  {
    hide FitsField, Field, ReadField, Width;
    if ks != [] {
      var w, vs := Width(ks[0]), Unpack(ks, s);
      assert vs[1..] == Unpack(ks[1..], s[w..]);
      UnpackFits(ks[1..], s[w..]);
      PackUnpack(ks[1..], s[w..]);
      WrittenRead(ks[0], s[..w]);
      assert s == s[..w] + s[w..];
    }
  }

  lemma WrittenRead(k: Kind, s: Bytes)
    requires |s| == Width(k) && FitsField(k, ReadField(k, s))
    ensures Field(k, ReadField(k, s)) == s
  {
    hide LeBytes, LeValue, Pow256;
    match k
    case U(w) => LeBytesOfValue(s);
    case B(l) =>
  }

  /** A field that has the shape of its kind is not changed by giving it that shape. */
  lemma ShapedFits(ks: seq<Kind>, vs: seq<Value>, ws: seq<Value>)
    requires FitsAll(ks, vs) && |ws| == |ks|
    requires forall i :: 0 <= i < |ks| ==> ws[i] == Shaped(ks[i], vs[i])
    ensures ws == vs
  {
    hide Pow256;
    forall i | 0 <= i < |ks| ensures ws[i] == vs[i] {
      assert FitsField(ks[i], vs[i]);
    }
  }

  // ---------------------------------------------------------------- the file header

  // ---------------------------------------------------------------- the file header

  /** The bytes hold these fields, each at its offset, numbers in little-endian order. */
  predicate HdrOnDisk(s: Bytes, h: Hdr)
    requires |s| == SZ_HEADER
  {
    && LeValue(s[0..8]) == h.magic && LeValue(s[8..12]) == h.version && LeValue(s[12..16]) == h.hashFunction
    && LeValue(s[16..20]) == h.hashSize && LeValue(s[20..24]) == h.cipher && LeValue(s[24..28]) == h.cipherMode
    && LeValue(s[28..32]) == h.keySize && LeValue(s[32..36]) == h.tweakSize && LeValue(s[36..44]) == h.fileSize
    && s[44..300] == h.versionString && LeValue(s[300..308]) == h.dhdrSize
    && LeValue(s[308..316]) == h.dhdrStart && s[316..444] == h.dhdrIv && s[444..572] == h.kdfSalt
    && s[572..700] == h.digest
  }

  lemma HdrStarts0()
    ensures Start(HDR_LAYOUT, 0) == 0 && Start(HDR_LAYOUT, 1) == 8 && Start(HDR_LAYOUT, 2) == 12
    ensures Start(HDR_LAYOUT, 3) == 16 && Start(HDR_LAYOUT, 4) == 20 && Start(HDR_LAYOUT, 5) == 24
  {
    hide Start;
    StartFirst(HDR_LAYOUT);
    StartNext(HDR_LAYOUT, 0);
    StartNext(HDR_LAYOUT, 1);
    StartNext(HDR_LAYOUT, 2);
    StartNext(HDR_LAYOUT, 3);
    StartNext(HDR_LAYOUT, 4);
  }

  lemma HdrStarts1()
    requires Start(HDR_LAYOUT, 5) == 24
    ensures Start(HDR_LAYOUT, 6) == 28 && Start(HDR_LAYOUT, 7) == 32 && Start(HDR_LAYOUT, 8) == 36
    ensures Start(HDR_LAYOUT, 9) == 44 && Start(HDR_LAYOUT, 10) == 300
  {
    hide Start;
    StartNext(HDR_LAYOUT, 5);
    StartNext(HDR_LAYOUT, 6);
    StartNext(HDR_LAYOUT, 7);
    StartNext(HDR_LAYOUT, 8);
    StartNext(HDR_LAYOUT, 9);
  }

  lemma HdrStarts2()
    requires Start(HDR_LAYOUT, 10) == 300
    ensures Start(HDR_LAYOUT, 11) == 308 && Start(HDR_LAYOUT, 12) == 316 && Start(HDR_LAYOUT, 13) == 444
    ensures Start(HDR_LAYOUT, 14) == 572
  {
    hide Start;
    StartNext(HDR_LAYOUT, 10);
    StartNext(HDR_LAYOUT, 11);
    StartNext(HDR_LAYOUT, 12);
    StartNext(HDR_LAYOUT, 13);
  }

  /** What is read, as the list of fields. */
  lemma HdrUnpacked(s: Bytes)
    requires |s| == SZ_HEADER == Size(HDR_LAYOUT)
    ensures HdrValues(ReadHdr(s)) == Unpack(HDR_LAYOUT, s) && FitsAll(HDR_LAYOUT, Unpack(HDR_LAYOUT, s))
  {
    hide Unpack, FitsAll, Size, Shaped, ReadHdr;
    UnpackFits(HDR_LAYOUT, s);
    var vs, ws := Unpack(HDR_LAYOUT, s), HdrValues(ReadHdr(s));
    forall i | 0 <= i < 15 ensures ws[i] == Shaped(HDR_LAYOUT[i], vs[i]) {
      HdrFieldRead(s, i);
    }
    ShapedFits(HDR_LAYOUT, vs, ws);
  }

  lemma HdrFields0(s: Bytes)
    requires |s| == SZ_HEADER == Size(HDR_LAYOUT)
    requires Start(HDR_LAYOUT, 0) == 0 && Start(HDR_LAYOUT, 1) == 8 && Start(HDR_LAYOUT, 2) == 12
    requires Start(HDR_LAYOUT, 3) == 16 && Start(HDR_LAYOUT, 4) == 20
    ensures var v := Unpack(HDR_LAYOUT, s);
      && v[0] == Num(LeValue(s[0..8]))
      && v[1] == Num(LeValue(s[8..12]))
      && v[2] == Num(LeValue(s[12..16]))
      && v[3] == Num(LeValue(s[16..20]))
      && v[4] == Num(LeValue(s[20..24]))
  {
    hide Unpack, Start, Size, LeValue;
    UnpackedAt(HDR_LAYOUT, s, 0);
    UnpackedAt(HDR_LAYOUT, s, 1);
    UnpackedAt(HDR_LAYOUT, s, 2);
    UnpackedAt(HDR_LAYOUT, s, 3);
    UnpackedAt(HDR_LAYOUT, s, 4);
  }

  lemma HdrFields1(s: Bytes)
    requires |s| == SZ_HEADER == Size(HDR_LAYOUT)
    requires Start(HDR_LAYOUT, 5) == 24 && Start(HDR_LAYOUT, 6) == 28 && Start(HDR_LAYOUT, 7) == 32
    requires Start(HDR_LAYOUT, 8) == 36 && Start(HDR_LAYOUT, 9) == 44
    ensures var v := Unpack(HDR_LAYOUT, s);
      && v[5] == Num(LeValue(s[24..28]))
      && v[6] == Num(LeValue(s[28..32]))
      && v[7] == Num(LeValue(s[32..36]))
      && v[8] == Num(LeValue(s[36..44]))
      && v[9] == Raw(s[44..300])
  {
    hide Unpack, Start, Size, LeValue;
    UnpackedAt(HDR_LAYOUT, s, 5);
    UnpackedAt(HDR_LAYOUT, s, 6);
    UnpackedAt(HDR_LAYOUT, s, 7);
    UnpackedAt(HDR_LAYOUT, s, 8);
    UnpackedAt(HDR_LAYOUT, s, 9);
  }

  lemma HdrFields2(s: Bytes)
    requires |s| == SZ_HEADER == Size(HDR_LAYOUT)
    requires Start(HDR_LAYOUT, 10) == 300 && Start(HDR_LAYOUT, 11) == 308 && Start(HDR_LAYOUT, 12) == 316
    requires Start(HDR_LAYOUT, 13) == 444 && Start(HDR_LAYOUT, 14) == 572
    ensures var v := Unpack(HDR_LAYOUT, s);
      && v[10] == Num(LeValue(s[300..308]))
      && v[11] == Num(LeValue(s[308..316]))
      && v[12] == Raw(s[316..444])
      && v[13] == Raw(s[444..572])
      && v[14] == Raw(s[572..700])
  {
    hide Unpack, Start, Size, LeValue;
    UnpackedAt(HDR_LAYOUT, s, 10);
    UnpackedAt(HDR_LAYOUT, s, 11);
    UnpackedAt(HDR_LAYOUT, s, 12);
    UnpackedAt(HDR_LAYOUT, s, 13);
    UnpackedAt(HDR_LAYOUT, s, 14);
  }

  /** Read and packed again, every record says what its bytes say, and gives them back. */
  lemma HdrRead(s: Bytes)
    requires |s| == SZ_HEADER
    ensures HdrOnDisk(s, ReadHdr(s)) && HdrFits(ReadHdr(s)) && PackHdr(ReadHdr(s)) == s
  {
    hide Unpack, ReadHdr, Pack, Start, Size, LeValue, FitsAll, Width;
    HdrSize();
    HdrStarts0();
    HdrStarts1();
    HdrStarts2();
    HdrFields0(s);
    HdrFields1(s);
    HdrFields2(s);
    HdrUnpacked(s);
    PackUnpack(HDR_LAYOUT, s);
  }

  // ---------------------------------------------------------------- the detached header

  /** The bytes hold these fields, each at its offset, numbers in little-endian order. */
  predicate DhdrOnDisk(s: Bytes, d: Dhdr)
    requires |s| == SZ_DHDR
  {
    && LeValue(s[0..8]) == d.poolSize && LeValue(s[8..16]) == d.poolStart && LeValue(s[16..24]) == d.rtblSize
    && LeValue(s[24..32]) == d.rtblStart && s[32..160] == d.rtblIv && s[160..288] == d.digest
  }

  lemma DhdrStarts()
    ensures Start(DHDR_LAYOUT, 0) == 0 && Start(DHDR_LAYOUT, 1) == 8 && Start(DHDR_LAYOUT, 2) == 16
    ensures Start(DHDR_LAYOUT, 3) == 24 && Start(DHDR_LAYOUT, 4) == 32 && Start(DHDR_LAYOUT, 5) == 160
  {
    hide Start;
    StartFirst(DHDR_LAYOUT);
    StartNext(DHDR_LAYOUT, 0);
    StartNext(DHDR_LAYOUT, 1);
    StartNext(DHDR_LAYOUT, 2);
    StartNext(DHDR_LAYOUT, 3);
    StartNext(DHDR_LAYOUT, 4);
  }

  /** What is read, as the list of fields. */
  lemma DhdrUnpacked(s: Bytes)
    requires |s| == SZ_DHDR == Size(DHDR_LAYOUT)
    ensures DhdrValues(ReadDhdr(s)) == Unpack(DHDR_LAYOUT, s) && FitsAll(DHDR_LAYOUT, Unpack(DHDR_LAYOUT, s))
  {
    UnpackFits(DHDR_LAYOUT, s);
    var vs, ws := Unpack(DHDR_LAYOUT, s), DhdrValues(ReadDhdr(s));
    hide Unpack, FitsAll, Size;
    ShapedFits(DHDR_LAYOUT, vs, ws);
  }

  lemma DhdrFields0(s: Bytes)
    requires |s| == SZ_DHDR == Size(DHDR_LAYOUT)
    requires Start(DHDR_LAYOUT, 0) == 0 && Start(DHDR_LAYOUT, 1) == 8 && Start(DHDR_LAYOUT, 2) == 16
    requires Start(DHDR_LAYOUT, 3) == 24 && Start(DHDR_LAYOUT, 4) == 32
    ensures var v := Unpack(DHDR_LAYOUT, s);
      && v[0] == Num(LeValue(s[0..8]))
      && v[1] == Num(LeValue(s[8..16]))
      && v[2] == Num(LeValue(s[16..24]))
      && v[3] == Num(LeValue(s[24..32]))
      && v[4] == Raw(s[32..160])
  {
    hide Unpack, Start, Size, LeValue;
    UnpackedAt(DHDR_LAYOUT, s, 0);
    UnpackedAt(DHDR_LAYOUT, s, 1);
    UnpackedAt(DHDR_LAYOUT, s, 2);
    UnpackedAt(DHDR_LAYOUT, s, 3);
    UnpackedAt(DHDR_LAYOUT, s, 4);
  }

  lemma DhdrFields1(s: Bytes)
    requires |s| == SZ_DHDR == Size(DHDR_LAYOUT)
    requires Start(DHDR_LAYOUT, 5) == 160
    ensures var v := Unpack(DHDR_LAYOUT, s);
      && v[5] == Raw(s[160..288])
  {
    hide Unpack, Start, Size, LeValue;
    UnpackedAt(DHDR_LAYOUT, s, 5);
  }

  /** Read and packed again, every record says what its bytes say, and gives them back. */
  lemma DhdrRead(s: Bytes)
    requires |s| == SZ_DHDR
    ensures DhdrOnDisk(s, ReadDhdr(s)) && DhdrFits(ReadDhdr(s)) && PackDhdr(ReadDhdr(s)) == s
  {
    hide Unpack, ReadDhdr, Pack, Start, Size, LeValue, FitsAll, Width;
    OtherSizes();
    DhdrStarts();
    DhdrFields0(s);
    DhdrFields1(s);
    DhdrUnpacked(s);
    PackUnpack(DHDR_LAYOUT, s);
  }

  // ---------------------------------------------------------------- the entry of the table

  /** The bytes hold these fields, each at its offset, numbers in little-endian order. */
  predicate EntryOnDisk(s: Bytes, e: Entry)
    requires |s| == SZ_ENTRY
  {
    && LeValue(s[0..8]) == e.id && LeValue(s[8..16]) == e.uuid && LeValue(s[16..24]) == e.basenameOffset
    && LeValue(s[24..32]) == e.dataSize && LeValue(s[32..40]) == e.dataOffset && s[40..168] == e.dataIv
    && s[168..296] == e.dataDigest && s[296..552] == e.name && s[552..680] == e.digest
  }

  lemma EntryStarts0()
    ensures Start(ENTRY_LAYOUT, 0) == 0 && Start(ENTRY_LAYOUT, 1) == 8 && Start(ENTRY_LAYOUT, 2) == 16
    ensures Start(ENTRY_LAYOUT, 3) == 24 && Start(ENTRY_LAYOUT, 4) == 32 && Start(ENTRY_LAYOUT, 5) == 40
  {
    hide Start;
    StartFirst(ENTRY_LAYOUT);
    StartNext(ENTRY_LAYOUT, 0);
    StartNext(ENTRY_LAYOUT, 1);
    StartNext(ENTRY_LAYOUT, 2);
    StartNext(ENTRY_LAYOUT, 3);
    StartNext(ENTRY_LAYOUT, 4);
  }

  lemma EntryStarts1()
    requires Start(ENTRY_LAYOUT, 5) == 40
    ensures Start(ENTRY_LAYOUT, 6) == 168 && Start(ENTRY_LAYOUT, 7) == 296 && Start(ENTRY_LAYOUT, 8) == 552
  {
    hide Start;
    StartNext(ENTRY_LAYOUT, 5);
    StartNext(ENTRY_LAYOUT, 6);
    StartNext(ENTRY_LAYOUT, 7);
  }

  /** What is read, as the list of fields. */
  lemma EntryUnpacked(s: Bytes)
    requires |s| == SZ_ENTRY == Size(ENTRY_LAYOUT)
    ensures EntryValues(ReadEntry(s)) == Unpack(ENTRY_LAYOUT, s) && FitsAll(ENTRY_LAYOUT, Unpack(ENTRY_LAYOUT, s))
  {
    UnpackFits(ENTRY_LAYOUT, s);
    var vs, ws := Unpack(ENTRY_LAYOUT, s), EntryValues(ReadEntry(s));
    hide *;
    forall i | 0 <= i < 9 ensures ws[i] == Shaped(ENTRY_LAYOUT[i], vs[i]) {
      EntryFieldRead(s, i);
    }
    ShapedFits(ENTRY_LAYOUT, vs, ws);
  }

  lemma EntryFields0(s: Bytes)
    requires |s| == SZ_ENTRY == Size(ENTRY_LAYOUT)
    requires Start(ENTRY_LAYOUT, 0) == 0 && Start(ENTRY_LAYOUT, 1) == 8 && Start(ENTRY_LAYOUT, 2) == 16
    requires Start(ENTRY_LAYOUT, 3) == 24 && Start(ENTRY_LAYOUT, 4) == 32
    ensures var v := Unpack(ENTRY_LAYOUT, s);
      && v[0] == Num(LeValue(s[0..8]))
      && v[1] == Num(LeValue(s[8..16]))
      && v[2] == Num(LeValue(s[16..24]))
      && v[3] == Num(LeValue(s[24..32]))
      && v[4] == Num(LeValue(s[32..40]))
  {
    hide Unpack, Start, Size, LeValue;
    UnpackedAt(ENTRY_LAYOUT, s, 0);
    UnpackedAt(ENTRY_LAYOUT, s, 1);
    UnpackedAt(ENTRY_LAYOUT, s, 2);
    UnpackedAt(ENTRY_LAYOUT, s, 3);
    UnpackedAt(ENTRY_LAYOUT, s, 4);
  }

  lemma EntryFields1(s: Bytes)
    requires |s| == SZ_ENTRY == Size(ENTRY_LAYOUT)
    requires Start(ENTRY_LAYOUT, 5) == 40 && Start(ENTRY_LAYOUT, 6) == 168 && Start(ENTRY_LAYOUT, 7) == 296
    requires Start(ENTRY_LAYOUT, 8) == 552
    ensures var v := Unpack(ENTRY_LAYOUT, s);
      && v[5] == Raw(s[40..168])
      && v[6] == Raw(s[168..296])
      && v[7] == Raw(s[296..552])
      && v[8] == Raw(s[552..680])
  {
    hide Unpack, Start, Size, LeValue;
    UnpackedAt(ENTRY_LAYOUT, s, 5);
    UnpackedAt(ENTRY_LAYOUT, s, 6);
    UnpackedAt(ENTRY_LAYOUT, s, 7);
    UnpackedAt(ENTRY_LAYOUT, s, 8);
  }

  /** Read and packed again, every record says what its bytes say, and gives them back. */
  lemma EntryRead(s: Bytes)
    requires |s| == SZ_ENTRY
    ensures EntryOnDisk(s, ReadEntry(s)) && EntryFits(ReadEntry(s)) && PackEntry(ReadEntry(s)) == s
  {
    hide Unpack, ReadEntry, Pack, Start, Size, LeValue, FitsAll, Width;
    EntrySize();
    EntryStarts0();
    EntryStarts1();
    EntryFields0(s);
    EntryFields1(s);
    EntryUnpacked(s);
    PackUnpack(ENTRY_LAYOUT, s);
  }

  // ---------------------------------------------------------------- the head of the table

  /** The bytes hold these fields, each at its offset, numbers in little-endian order. */
  predicate RtblOnDisk(s: Bytes, r: Rtbl)
    requires |s| == SZ_RTBL
  {
    && LeValue(s[0..8]) == r.entries && s[8..136] == r.digest
  }

  lemma RtblStarts()
    ensures Start(RTBL_LAYOUT, 0) == 0 && Start(RTBL_LAYOUT, 1) == 8
  {
    hide Start;
    StartFirst(RTBL_LAYOUT);
    StartNext(RTBL_LAYOUT, 0);
  }

  /** What is read, as the list of fields. */
  lemma RtblUnpacked(s: Bytes)
    requires |s| == SZ_RTBL == Size(RTBL_LAYOUT)
    ensures RtblValues(ReadRtbl(s)) == Unpack(RTBL_LAYOUT, s) && FitsAll(RTBL_LAYOUT, Unpack(RTBL_LAYOUT, s))
  {
    UnpackFits(RTBL_LAYOUT, s);
    var vs, ws := Unpack(RTBL_LAYOUT, s), RtblValues(ReadRtbl(s));
    hide Unpack, FitsAll, Size;
    ShapedFits(RTBL_LAYOUT, vs, ws);
  }

  lemma RtblFields(s: Bytes)
    requires |s| == SZ_RTBL == Size(RTBL_LAYOUT)
    requires Start(RTBL_LAYOUT, 0) == 0 && Start(RTBL_LAYOUT, 1) == 8
    ensures var v := Unpack(RTBL_LAYOUT, s);
      && v[0] == Num(LeValue(s[0..8]))
      && v[1] == Raw(s[8..136])
  {
    hide Unpack, Start, Size, LeValue;
    UnpackedAt(RTBL_LAYOUT, s, 0);
    UnpackedAt(RTBL_LAYOUT, s, 1);
  }

  /** Read and packed again, every record says what its bytes say, and gives them back. */
  lemma RtblRead(s: Bytes)
    requires |s| == SZ_RTBL
    ensures RtblOnDisk(s, ReadRtbl(s)) && RtblFits(ReadRtbl(s)) && PackRtbl(ReadRtbl(s)) == s
  {
    hide Unpack, ReadRtbl, Pack, Start, Size, LeValue, FitsAll, Width;
    OtherSizes();
    RtblStarts();
    RtblFields(s);
    RtblUnpacked(s);
    PackUnpack(RTBL_LAYOUT, s);
  }

}
