// 32-bit machine words and their loads and stores (src/utils/endian-neutral.h).

module Words32 {
  import opened Bytes

  type Word32 = bv32

  function Get32b(s: Bytes): Word32
    requires |s| == 4
  {
    (s[0] as Word32 << 24) | (s[1] as Word32 << 16) | (s[2] as Word32 << 8) | (s[3] as Word32)
  }

  function Get32l(s: Bytes): Word32
    requires |s| == 4
  {
    (s[3] as Word32 << 24) | (s[2] as Word32 << 16) | (s[1] as Word32 << 8) | (s[0] as Word32)
  }

  function Put32b(w: Word32): (s: Bytes)
    ensures |s| == 4
  {
    [((w >> 24) & 0xff) as Byte, ((w >> 16) & 0xff) as Byte, ((w >> 8) & 0xff) as Byte, (w & 0xff) as Byte]
  }

  function Put32l(w: Word32): (s: Bytes)
    ensures |s| == 4
  {
    [(w & 0xff) as Byte, ((w >> 8) & 0xff) as Byte, ((w >> 16) & 0xff) as Byte, ((w >> 24) & 0xff) as Byte]
  }

  lemma PutGet32b(s: Bytes)
    requires |s| == 4
    ensures Put32b(Get32b(s)) == s
  {
    var t := Put32b(Get32b(s));
    assert forall k :: 0 <= k < 4 ==> t[k] == s[k];
  }

  lemma GetPut32b(w: Word32)
    ensures Get32b(Put32b(w)) == w
  {
  }
}
