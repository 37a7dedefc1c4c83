/**
 Packing of 7-bit characters into octets, least significant bit first
 (section 6.1.2.2.1 of TS 23.038), in the two independent implementations of
 the repository.
 */
module Gsm7 {
  import opened Bits

  // ---- specification ------------------------------------------------------

  /** Bit p of the septet stream: bit p % 7 of septet p / 7, zero past the end */
  predicate SeptetBit(septets: seq<Byte>, p: nat) {
    p < 7 * |septets| && Bit(septets[p / 7], p % 7)
  }

  /** Bit p of the octet stream: bit p % 8 of octet p / 8, zero past the end */
  predicate OctetBit(octets: seq<Byte>, p: nat) {
    p < 8 * |octets| && Bit(octets[p / 8], p % 8)
  }

  function FromBits(bs: seq<bool>): (x: nat)
    ensures x < Pow2(|bs|)
    ensures forall k: nat :: Bit(x, k) == (k < |bs| && bs[k])
  {
    if bs == [] then
      assert forall k: nat :: !Bit(0, k) by { forall k: nat ensures !Bit(0, k) { BitZero(k); } }
      0
    else
      var t := FromBits(bs[1..]);
      var x := (if bs[0] then 1 else 0) + 2 * t;
      assert forall k: nat :: Bit(x, k) == (k < |bs| && bs[k]) by {
        forall k: nat ensures Bit(x, k) == (k < |bs| && bs[k]) {
          if k > 0 { assert x / 2 == t && Bit(x, k) == Bit(t, k - 1); }
        }
      }
      x
  }

  function OctetCount(n: nat): nat {
    (n * 7 + 7) / 8
  }

  function Pack(septets: seq<Byte>): (octets: seq<Byte>)
    ensures |octets| == OctetCount(|septets|)
  {
    assert Pow2(8) == 256;
    seq(OctetCount(|septets|),
        o requires 0 <= o => FromBits(seq(8, k requires 0 <= k => SeptetBit(septets, 8 * o + k))))
  }

  function Unpack(octets: seq<Byte>, count: nat): (septets: seq<Byte>)
    ensures |septets| == count
  {
    assert Pow2(7) == 128;
    seq(count, i requires 0 <= i => FromBits(seq(7, k requires 0 <= k => OctetBit(octets, 7 * i + k))))
  }

  predicate Seven(septets: seq<Byte>) {
    forall i | 0 <= i < |septets| :: septets[i] < 128
  }

  lemma SevenBits(s: Byte)
    requires s < 128
    ensures forall k: nat | k >= 7 :: !Bit(s, k)
  {
    assert Pow2(7) == 128;
    forall k: nat | k >= 7 ensures !Bit(s, k) { HighBitsClear(s, 7, k); }
  }

  /** Stream bit p of the packed octets is stream bit p of the septets. */
  lemma PackBits(septets: seq<Byte>, p: nat)
    ensures OctetBit(Pack(septets), p) == SeptetBit(septets, p)
  {
    if p < 8 * OctetCount(|septets|) {
      hide SeptetBit, Bit;
      var o := p / 8;
      var bits := seq(8, k requires 0 <= k => SeptetBit(septets, 8 * o + k));
      assert Pack(septets)[o] == FromBits(bits);
      assert bits[p % 8] == SeptetBit(septets, p);
    }
  }

  /** Octets are determined by their stream bits. */
  lemma PackUnique(septets: seq<Byte>, octets: seq<Byte>)
    requires |octets| == OctetCount(|septets|)
    requires forall p: nat | p < 8 * |octets| :: OctetBit(octets, p) == SeptetBit(septets, p)
    ensures octets == Pack(septets)
  {
    hide Pack, Bit, SeptetBit;
    forall o | 0 <= o < |octets| ensures octets[o] == Pack(septets)[o] {
      forall k: nat | k < 8 ensures Bit(octets[o], k) == Bit(Pack(septets)[o], k) {
        PackBits(septets, 8 * o + k);
        assert OctetBit(octets, 8 * o + k) == SeptetBit(septets, 8 * o + k);
      }
      SameByte(octets[o], Pack(septets)[o]);
    }
  }

  lemma UnpackAt(octets: seq<Byte>, count: nat, i: nat, v: Byte)
    requires i < count
    requires v < 128 && forall k: nat | k < 7 :: Bit(v, k) == OctetBit(octets, 7 * i + k)
    ensures Unpack(octets, count)[i] == v
  {
    var u := Unpack(octets, count)[i];
    SevenBits(v);
    SameByte(u, v);
  }

  /** Unpacking inverts packing at every length; one more septet reads as zero. */
  lemma UnpackPack(septets: seq<Byte>, extra: nat)
    requires Seven(septets)
    ensures Unpack(Pack(septets), |septets| + extra) == septets + seq(extra, i => 0)
  {
    hide Pack, Unpack, Bit;
    var n, all := |septets| + extra, septets + seq(extra, i => 0);
    forall i | 0 <= i < n ensures Unpack(Pack(septets), n)[i] == all[i] {
      forall k: nat | k < 7 ensures Bit(all[i], k) == OctetBit(Pack(septets), 7 * i + k) {
        PackBits(septets, 7 * i + k);
        if i >= |septets| { BitZero(k); }
      }
      UnpackAt(Pack(septets), n, i, all[i]);
    }
  }

  /** The count derived from the octet length is exact unless n % 8 == 7; then
      it is one too many, and the extra septet decodes as zero ('@'). */
  lemma OctetLengthAmbiguity(septets: seq<Byte>)
    requires Seven(septets)
    ensures var n := |septets|;
            var derived := SeptetCountForOctets(|Pack(septets)|);
            && derived == (if n % 8 == 7 then n + 1 else n)
            && Unpack(Pack(septets), derived) == (if n % 8 == 7 then septets + [0] else septets)
  {
    var n := |septets|;
    assert SeptetCountForOctets(OctetCount(n)) == if n % 8 == 7 then n + 1 else n by {
      var q, m := n / 8, n % 8;
      assert n * 7 + 7 == 8 * (7 * q) + (7 * m + 7);
      assert OctetCount(n) == 7 * q + (7 * m + 7) / 8;
      assert OctetCount(n) * 8 == 7 * (8 * q) + (7 * m + 7) / 8 * 8;
    }
    UnpackPack(septets, if n % 8 == 7 then 1 else 0);
    assert septets + seq(1, i => 0) == septets + [0];
    assert septets + seq(0, i => 0) == septets;
  }

  function SeptetCountForOctets(octets: nat): nat {
    octets * 8 / 7
  }

  // ---- shared/gsm7 --------------------------------------------------------

  function Mask(septets: seq<Byte>): (r: seq<Byte>)
    ensures |r| == |septets| && Seven(r)
  {
    assert Pow2(7) == 128;
    seq(|septets|, i requires 0 <= i < |septets| => Low(septets[i], 7))
  }

  /** What one septet contributes: OR `s << shift` into octet 7i/8 and
      `s >> (8 - shift)` into the next one. */
  lemma OrSeptet(s: Byte, i: nat, p: nat)
    requires s < 128
    ensures var o, shift := i * 7 / 8, i * 7 % 8;
            && (p / 8 == o ==> Bit(ShlByte(s, shift), p % 8) == (7 * i <= p < 7 * i + 7 && Bit(s, p - 7 * i)))
            && (p / 8 == o + 1 && shift > 1 ==>
                  Bit(ShrByte(s, 8 - shift), p % 8) == (7 * i <= p < 7 * i + 7 && Bit(s, p - 7 * i)))
  {
    SevenBits(s);
    var o, shift := i * 7 / 8, i * 7 % 8;
    assert 7 * i == 8 * o + shift;
    if p / 8 == o && p % 8 >= shift {
      assert p - 7 * i == p % 8 - shift;
    }
    if p / 8 == o + 1 && shift > 1 {
      assert p - 7 * i == p % 8 + (8 - shift);
    }
  }

  /** The octets after the first i septets */
  ghost predicate PackedUpTo(septets: seq<Byte>, i: nat, octets: seq<Byte>)
    requires i <= |septets|
  {
    forall p: nat | p < 8 * |octets| :: OctetBit(octets, p) == (p < 7 * i && SeptetBit(septets, p))
  }

  lemma PackStep(septets: seq<Byte>, i: nat, before: seq<Byte>, after: seq<Byte>)
    requires i < |septets| && septets[i] < 128
    requires |before| == |after| == OctetCount(|septets|) && PackedUpTo(septets, i, before)
    requires var o, shift := i * 7 / 8, i * 7 % 8;
             && (shift > 1 ==> o + 1 < |before|) && o < |before|
             && after[o] == OrByte(before[o], ShlByte(septets[i], shift))
             && (shift > 1 ==> after[o + 1] == OrByte(before[o + 1], ShrByte(septets[i], 8 - shift)))
             && forall j | 0 <= j < |after| && j != o && !(shift > 1 && j == o + 1) :: after[j] == before[j]
    ensures PackedUpTo(septets, i + 1, after)
  {
    var s, o, shift := septets[i], i * 7 / 8, i * 7 % 8;
    forall p: nat | p < 8 * |after| ensures OctetBit(after, p) == (p < 7 * (i + 1) && SeptetBit(septets, p)) {
      OrSeptet(s, i, p);
      assert OctetBit(before, p) == (p < 7 * i && SeptetBit(septets, p));
      if 7 * i <= p < 7 * i + 7 {
        assert p / 7 == i && p % 7 == p - 7 * i;
      }
    }
  }

  lemma SpillInBounds(n: nat, i: nat)
    requires i < n
    ensures i * 7 / 8 < OctetCount(n)
    ensures i * 7 % 8 > 1 ==> i * 7 / 8 + 1 < OctetCount(n)
  {
  }

  method PackSeptets(septets: seq<Byte>) returns (packed: seq<Byte>)
    ensures packed == Pack(Mask(septets))
  {
    assert Pow2(7) == 128;
    hide PackedUpTo, OrByte, ShlByte, ShrByte, Pack, Pow2;
    var n := |septets|;
    var out := new Byte[(n * 7 + 7) / 8](i => 0);
    ghost var masked := Mask(septets);
    EmptyPacked(masked, out[..]);
    for i := 0 to n
      invariant out.Length == OctetCount(n)
      invariant PackedUpTo(masked, i, out[..])
    {
      ghost var before := out[..];
      var s := Low(septets[i], 7);
      assert s == masked[i];
      var bitPos := i * 7;
      var bytePos, bitOffset := bitPos / 8, bitPos % 8;
      SpillInBounds(n, i);
      out[bytePos] := OrByte(out[bytePos], ShlByte(s, bitOffset));
      if bitOffset > 1 && bytePos + 1 < out.Length {
        out[bytePos + 1] := OrByte(out[bytePos + 1], ShrByte(s, 8 - bitOffset));
      }
      PackStep(masked, i, before, out[..]);
    }
    FullyPacked(masked, out[..]);
    packed := out[..];
  }

  lemma FullyPacked(septets: seq<Byte>, octets: seq<Byte>)
    requires |octets| == OctetCount(|septets|) && PackedUpTo(septets, |septets|, octets)
    ensures octets == Pack(septets)
  {
    PackUnique(septets, octets);
  }

  lemma EmptyPacked(septets: seq<Byte>, octets: seq<Byte>)
    requires forall j | 0 <= j < |octets| :: octets[j] == 0
    ensures PackedUpTo(septets, 0, octets)
  {
    forall p: nat | p < 8 * |octets| ensures !OctetBit(octets, p) { BitZero(p % 8); }
  }

  /** `packed[o] >> shift | packed[o+1] << (8 - shift)`, low seven bits */
  lemma GatherSeptet(octets: seq<Byte>, i: nat, v: Byte)
    requires var o, shift := i * 7 / 8, i * 7 % 8;
             var lo := if o < |octets| then ShrByte(octets[o], shift) else 0;
             v == if shift > 1 && o + 1 < |octets| then OrByte(lo, ShlByte(octets[o + 1], 8 - shift)) else lo
    ensures Low(v, 7) < 128
    ensures forall k: nat | k < 7 :: Bit(Low(v, 7), k) == OctetBit(octets, 7 * i + k)
  {
    assert Pow2(7) == 128;
    var o, shift := i * 7 / 8, i * 7 % 8;
    assert 7 * i == 8 * o + shift;
    forall k: nat | k < 7 ensures Bit(Low(v, 7), k) == OctetBit(octets, 7 * i + k) {
      BitLow(v, 7, k);
      BitZero(k);
      if k + shift < 8 {
        assert (7 * i + k) / 8 == o && (7 * i + k) % 8 == k + shift;
      } else {
        assert (7 * i + k) / 8 == o + 1 && (7 * i + k) % 8 == k - (8 - shift);
        if o < |octets| { ByteBits(octets[o], k + shift); }
      }
    }
  }

  method UnpackSeptets(packed: seq<Byte>, count: nat) returns (septets: seq<Byte>)
    ensures septets == Unpack(packed, count)
  {
    var out := new Byte[count];
    for i := 0 to count
      invariant forall j | 0 <= j < i :: out[j] == Unpack(packed, count)[j]
    {
      var bitPos := i * 7;
      var bytePos, bitOffset := bitPos / 8, bitPos % 8;
      var v: Byte := 0;
      if bytePos < |packed| {
        v := ShrByte(packed[bytePos], bitOffset);
      }
      if bitOffset > 1 && bytePos + 1 < |packed| {
        v := OrByte(v, ShlByte(packed[bytePos + 1], 8 - bitOffset));
      }
      GatherSeptet(packed, i, v);
      out[i] := Low(v, 7);
      UnpackAt(packed, count, i, out[i]);
    }
    assert out[..] == Unpack(packed, count);
    septets := out[..];
  }

  // ---- shared/nas/network_name.go -----------------------------------------

  /** Unlike PackSeptets it does not mask its input and does not guard the write
      to the next octet, which is in bounds for every input. */
  method PackGSM7(septets: seq<Byte>) returns (packed: seq<Byte>, spareBits: Byte)
    ensures |packed| == OctetCount(|septets|) && spareBits == 8 * |packed| - 7 * |septets| <= 7
    ensures Seven(septets) ==> packed == Pack(septets)
  {
    hide PackedUpTo, OrByte, ShlByte, ShrByte, Pack;
    var bitLen := |septets| * 7;
    var octetLen := (bitLen + 7) / 8;
    var out := new Byte[octetLen](i => 0);
    EmptyPacked(septets, out[..]);
    for i := 0 to |septets|
      invariant out.Length == OctetCount(|septets|)
      invariant Seven(septets) ==> PackedUpTo(septets, i, out[..])
    {
      ghost var before := out[..];
      var s, bitPos := septets[i], i * 7;
      var octet, shift := bitPos / 8, bitPos % 8;
      SpillInBounds(|septets|, i);
      out[octet] := OrByte(out[octet], ShlByte(s, shift));
      if shift > 1 {
        out[octet + 1] := OrByte(out[octet + 1], ShrByte(s, 8 - shift));
      }
      if Seven(septets) {
        PackStep(septets, i, before, out[..]);
      }
    }
    if Seven(septets) {
      FullyPacked(septets, out[..]);
    }
    packed, spareBits := out[..], octetLen * 8 - bitLen;
  }

  /** Go's division truncates toward zero. */
  function GSM7Count(octets: nat, spareBits: Byte): nat {
    if octets * 8 <= spareBits then 0 else (octets * 8 - spareBits) / 7
  }

  method UnpackGSM7(packed: seq<Byte>, spareBits: Byte) returns (septets: seq<Byte>)
    requires |packed| > 0 ==> spareBits as int < |packed| * 8 + 7  // beyond, the slice capacity is negative
    ensures septets == Unpack(packed, GSM7Count(|packed|, spareBits))
  {
    if |packed| == 0 {
      return [];
    }
    var total := if |packed| * 8 <= spareBits then 0 else (|packed| * 8 - spareBits) / 7;
    septets := [];
    for i := 0 to total
      invariant |septets| == i
      invariant forall j | 0 <= j < i :: septets[j] == Unpack(packed, total)[j]
    {
      var bitPos := i * 7;
      var octet, shift := bitPos / 8, bitPos % 8;
      assert bitPos + 7 <= |packed| * 8;
      var v := ShrByte(packed[octet], shift);
      if shift > 1 && octet + 1 < |packed| {
        v := OrByte(v, ShlByte(packed[octet + 1], 8 - shift));
      }
      GatherSeptet(packed, i, v);
      UnpackAt(packed, total, i, Low(v, 7));
      septets := septets + [Low(v, 7)];
    }
  }

  /** The spare-bit count resolves the 7/8-septet ambiguity at every length. */
  lemma SpareBitsResolve(n: nat)
    ensures GSM7Count(OctetCount(n), 8 * OctetCount(n) - 7 * n) == n
  {
  }
}
