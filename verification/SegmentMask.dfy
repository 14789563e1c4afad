/** The bitmask that addresses segments in a frame. */
module SegmentMask {
  import opened BleFrame

  // ----- the bitmask -----

  /** Bit `i` of a mask, least significant first. */
  predicate Bit(mask: seq<Byte>, i: nat)
    requires i < 8 * |mask|
  {
    (mask[i / 8] >> (i % 8)) & 1 == 1
  }

  function OneBit(i: nat): Byte
    requires i < 8
  {
    (1 as Byte) << i
  }

  lemma BitOfOr(b: Byte, i: nat, j: nat)
    requires i < 8 && j < 8
    ensures ((b | OneBit(i)) >> j) & 1 == 1 <==> (b >> j) & 1 == 1 || i == j
  {
  }

  lemma NoBitYet(mask: seq<Byte>)
    requires forall k | 0 <= k < |mask| :: mask[k] == 0
    ensures forall i | 0 <= i < 8 * |mask| :: !Bit(mask, i)
  {
  }

  lemma MaskOneMore(mask: seq<Byte>, seg: nat, i: nat)
    requires seg / 8 < |mask| && i < 8 * |mask|
    ensures Bit(mask[seg / 8 := mask[seg / 8] | OneBit(seg % 8)], i) <==> Bit(mask, i) || i == seg
  {
    if i / 8 == seg / 8 {
      BitOfOr(mask[seg / 8], seg % 8, i % 8);
      assert i == seg <==> i % 8 == seg % 8;
    }
  }

  lemma PowerOf(b: Byte, i: nat)
    requires i < 8
    ensures (b >> i) & 1 == 1 <==> b & POWERS[i] != 0
  {
    assert i == 0 || i == 1 || i == 2 || i == 3 || i == 4 || i == 5 || i == 6 || i == 7;
  }

  lemma BitIsPower(mask: seq<Byte>, i: nat)
    requires i < 8 * |mask|
    ensures mask[i / 8] & POWERS[i % 8] != 0 <==> Bit(mask, i)
  {
    PowerOf(mask[i / 8], i % 8);
  }

  /** The loop over the segments: the least bit of the first byte is segment 0; one beyond the mask is left out. */
  method BuildSegmentBitmask(segments: seq<nat>, byteCount: nat) returns (mask: seq<Byte>)
    ensures |mask| == byteCount
    ensures forall i | 0 <= i < 8 * byteCount :: Bit(mask, i) <==> i in segments
    ensures forall i | 0 <= i < 8 * byteCount :: mask[i / 8] & POWERS[i % 8] != 0 <==> i in segments
  {
    hide Bit, OneBit;
    mask := seq(byteCount, _ => 0);
    NoBitYet(mask);
    for k := 0 to |segments|
      invariant |mask| == byteCount
      invariant forall i | 0 <= i < 8 * byteCount :: Bit(mask, i) <==> i in segments[..k]
    {
      var seg := segments[k];
      var byteIdx, bitIdx := seg / 8, seg % 8;
      ghost var before := mask;
      if byteIdx < byteCount {
        mask := mask[byteIdx := mask[byteIdx] | OneBit(bitIdx)];
      }
      forall i: nat | i < 8 * byteCount ensures Bit(mask, i) <==> i in segments[..k + 1] {
        assert segments[..k + 1] == segments[..k] + [seg];
        if byteIdx < byteCount { MaskOneMore(before, seg, i); }
      }
    }
    assert segments[..|segments|] == segments;
    forall i | 0 <= i < 8 * byteCount ensures mask[i / 8] & POWERS[i % 8] != 0 <==> Bit(mask, i) {
      BitIsPower(mask, i);
    }
  }
}
