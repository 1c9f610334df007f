// Skein as libk builds it: over Threefish, keyed with the chaining value.

module SkeinThreefish {
  import opened Bytes
  import opened Words
  import T = Threefish
  import C = ThreefishCode
  import S = SkeinSpec

  /** The schedule after tf*_set_key and tf*_set_tweak. */
  ghost function Scheduled(v: T.Variant, key: Bytes, tweak: Bytes): (s: T.Schedule)
    requires |key| == 8 * v.nw && |tweak| == 16
    ensures T.Fits(v, s)
  {
    T.Schedule(C.KeyWords(LoadWords(key, v.nw)), C.TweakWords(Get64(tweak[..8]), Get64(tweak[8..])))
  }

  ghost function Enc(v: T.Variant, key: Bytes, tweak: Bytes, block: Bytes): Bytes
    requires T.WellFormed(v)
  {
    if |key| == 8 * v.nw && |tweak| == 16 then C.EncryptBlock(v, Scheduled(v, key, tweak), block) else block
  }

  ghost function Tweakable(v: T.Variant): S.Tweakable
    requires T.WellFormed(v)
  {
    S.Tweakable(8 * v.nw, (key, tweak, block) requires T.WellFormed(v) => Enc(v, key, tweak, block))
  }

  /** Threefish is a tweakable cipher of the kind Skein needs, so the streaming theorem of
      Skein.Context holds for Skein-256, Skein-512 and Skein-1024. */
  lemma ThreefishIsTweakable(v: T.Variant)
    requires T.WellFormed(v)
    ensures Tweakable(v).Valid() && Tweakable(v).size == 8 * v.nw
  {
    hide T.IsRow, T.IsOrder, C.EncryptBlock, Scheduled;
    forall k: Bytes, t: Bytes, b: Bytes | |k| == 8 * v.nw && |t| == 16 && |b| == 8 * v.nw
      ensures |Enc(v, k, t, b)| == 8 * v.nw
    {
      C.BlockSizes(v, Scheduled(v, k, t), b);
    }
  }
}
