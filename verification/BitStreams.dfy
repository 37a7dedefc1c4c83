/** The mutable bit writer and bit reader over byte buffers. */
module BitStreams {
  import opened Wrappers
  import opened Machine
  import opened Bits
  import opened Uper

  /** Bit i of a buffer, counting from the most significant bit of octet 0 */
  predicate StreamBit(buf: seq<Byte>, i: nat)
    requires i < 8 * |buf|
  {
    Bit(buf[i / 8], 7 - i % 8)
  }

  function StreamBits(buf: seq<Byte>): (s: seq<bool>)
    ensures |s| == 8 * |buf|
  {
    seq(8 * |buf|, i requires 0 <= i < 8 * |buf| => StreamBit(buf, i))
  }

  function Zeros(n: nat): seq<bool> {
    seq(n, i => false)
  }

  /** What the writer hands out: `bits` padded with zero bits to whole octets */
  ghost predicate Packs(buf: seq<Byte>, bits: seq<bool>) {
    && |buf| == (|bits| + 7) / 8
    && StreamBits(buf) == bits + Zeros(8 * |buf| - |bits|)
  }

  /** The packing is unique, so `Packs` determines the octets. */
  lemma PacksUnique(a: seq<Byte>, b: seq<Byte>, bits: seq<bool>)
    requires Packs(a, bits) && Packs(b, bits)
    ensures a == b
  {
    forall i | 0 <= i < |a| ensures a[i] == b[i] {
      forall k: nat | k < 8 ensures Bit(a[i], k) == Bit(b[i], k) {
        assert StreamBits(a)[8 * i + 7 - k] == StreamBits(b)[8 * i + 7 - k];
      }
      SameByte(a[i], b[i]);
    }
  }

  class BitWriter {
    var buf: seq<Byte>
    var bitLen: nat

    ghost predicate Valid()
      reads this
    {
      && |buf| == (bitLen + 7) / 8
      && forall i: nat | bitLen <= i < 8 * |buf| :: !StreamBit(buf, i)
    }

    ghost function Contents(): (s: seq<bool>)
      reads this
      requires Valid()
      ensures |s| == bitLen
    {
      StreamBits(buf)[..bitLen]
    }

    constructor ()
      ensures Valid() && Contents() == []
    {
      buf := [];
      bitLen := 0;
    }

    method WriteBit(b: bool)
      requires Valid()
      modifies this
      ensures Valid()
      ensures Contents() == old(Contents()) + [b]
      ensures forall k {:trigger PutBool(b, k)} :: Contents() + k == old(Contents()) + PutBool(b, k)
    {
      hide StreamBit, StreamBits, OrByte, ShrByte;
      ghost var start := buf;
      if bitLen % 8 == 0 {
        AppendZero(buf);
        buf := buf + [0];
      }
      if b {
        SetBit(buf, bitLen);
        buf := buf[bitLen / 8 := OrByte(buf[bitLen / 8], ShrByte(0x80, bitLen % 8))];
      }
      WroteBit(start, buf, bitLen, b);
      bitLen := bitLen + 1;
    }

    method WriteBits(v: nat, n: nat)
      requires Valid()
      modifies this
      ensures Valid()
      ensures forall k {:trigger Put(v, n, k)} :: Contents() + k == old(Contents()) + Put(v, n, k)
    {
      hide StreamBits, PutBool;
      ghost var before := Contents();
      var i := n;
      while i > 0
        invariant 0 <= i <= n
        invariant Valid()
        invariant forall k {:trigger PutRaw(v, n, k)} :: Contents() + PutRaw(v, i, k) == before + PutRaw(v, n, k)
      {
        i := i - 1;
        ghost var mid := Contents();
        WriteBit(ShrByteBit(v, i));
        forall k ensures Contents() + PutRaw(v, i, k) == before + PutRaw(v, n, k) {
          assert mid + PutRaw(v, i + 1, k) == before + PutRaw(v, n, k);
          assert PutRaw(v, i + 1, k) == PutBool(Bit(v, i), PutRaw(v, i, k));
        }
      }
    }

    method WriteBool(b: bool)
      requires Valid()
      modifies this
      ensures Valid()
      ensures Contents() == old(Contents()) + [b]
      ensures forall k {:trigger PutBool(b, k)} :: Contents() + k == old(Contents()) + PutBool(b, k)
    {
      WriteBit(b);
    }

    method WriteConstrained(v: Int64, lb: Int64, ub: Int64) returns (ok: bool)
      requires Valid() && lb <= ub
      modifies this
      ensures Valid()
      ensures ok == (lb <= v <= ub)
      ensures ok ==> forall k {:trigger PutConstrained(v, lb, ub, k)} ::
                       Contents() + k == old(Contents()) + PutConstrained(v, lb, ub, k)
      ensures !ok ==> Contents() == old(Contents())
    {
      if v < lb || v > ub {
        return false;
      }
      WriteBits(v - lb, BitWidth(RangeSize(lb, ub)));
      return true;
    }

    method WriteEnumExt(v: nat, rootCount: nat)
      requires Valid() && rootCount < TWO64
      modifies this
      ensures Valid()
      ensures forall k {:trigger PutEnumRoot(v, rootCount, k)} ::
                Contents() + k == old(Contents()) + PutEnumRoot(v, rootCount, k)
    {
      ghost var before := Contents();
      WriteBit(false);
      WriteBits(v, BitWidth(rootCount));
      forall k ensures Contents() + k == before + PutEnumRoot(v, rootCount, k) {
        var t := PutBool(false, Put(v, BitWidth(rootCount), k));
      }
    }

    method Bytes() returns (out: seq<Byte>)
      requires Valid()
      ensures Packs(out, Contents())
    {
      out := buf;
    }
  }

  /** `(v >> i) & 1` */
  function ShrByteBit(v: nat, i: nat): (b: bool)
    ensures b == Bit(v, i)
  {
    BitShr(v, i, 0);
    Shr(v, i) % 2 == 1
  }

  /** `0x80 >> s` has the single bit 7 - s. */
  lemma MaskBits(s: nat)
    requires s < 8
    ensures forall k: nat | k < 8 :: Bit(ShrByte(0x80, s), k) == (k == 7 - s)
  {
    forall k: nat | k < 8 ensures Bit(ShrByte(0x80, s), k) == (k == 7 - s) {
      assert Bit(ShrByte(0x80, s), k) == Bit(0x80, k + s);
      if k + s < 7 {
        BitShl(1, 7, k + s);
      } else {
        BitShl(1, 7, k + s);
        if k + s > 7 { assert Bit(1, k + s - 7) == Bit(0, k + s - 8); BitZero(k + s - 8); }
      }
      assert Shl(1, 7) == 0x80;
    }
  }

  /** The buffer after one more bit, octet by octet and as a bit string */
  lemma WroteBit(start: seq<Byte>, buf: seq<Byte>, n: nat, b: bool)
    requires |start| == (n + 7) / 8 && |buf| == (n + 8) / 8
    requires forall i: nat | n <= i < 8 * |start| :: !StreamBit(start, i)
    requires forall i: nat | i < 8 * |buf| ::
               StreamBit(buf, i) == ((i < 8 * |start| && StreamBit(start, i)) || (b && i == n))
    ensures forall i: nat | n + 1 <= i < 8 * |buf| :: !StreamBit(buf, i)
    ensures StreamBits(buf)[..n + 1] == StreamBits(start)[..n] + [b]
    ensures forall k {:trigger PutBool(b, k)} :: StreamBits(buf)[..n + 1] + k == StreamBits(start)[..n] + PutBool(b, k)
  {
    hide StreamBit;
    var before, after := StreamBits(start)[..n], StreamBits(buf)[..n + 1];
    forall i | 0 <= i < n + 1 ensures after[i] == if i < n then before[i] else b {
      assert StreamBits(buf)[i] == StreamBit(buf, i);
      if i < n { assert StreamBits(start)[i] == StreamBit(start, i); }
    }
    Snoc(after, before, b);
  }

  lemma Snoc(s: seq<bool>, before: seq<bool>, b: bool)
    requires |s| == |before| + 1 && forall i | 0 <= i < |s| :: s[i] == if i < |before| then before[i] else b
    ensures s == before + [b]
    ensures forall k {:trigger PutBool(b, k)} :: s + k == before + PutBool(b, k)
  {
    forall k ensures s + k == before + PutBool(b, k) {
      assert (before + [b]) + k == before + ([b] + k);
    }
  }

  lemma AppendZero(buf: seq<Byte>)
    ensures forall i: nat | i < 8 * |buf| :: StreamBit(buf + [0], i) == StreamBit(buf, i)
    ensures forall i: nat | 8 * |buf| <= i < 8 * |buf + [0]| :: !StreamBit(buf + [0], i)
  {
    forall i: nat | 8 * |buf| <= i < 8 * |buf + [0]| ensures !StreamBit(buf + [0], i) {
      assert i / 8 == |buf|;
      BitZero(7 - i % 8);
    }
  }

  /** ORing `0x80 >> (i % 8)` into octet i / 8 sets stream bit i and no other. */
  lemma SetBit(buf: seq<Byte>, i: nat)
    requires i < 8 * |buf|
    ensures var buf' := buf[i / 8 := OrByte(buf[i / 8], ShrByte(0x80, i % 8))];
            forall j: nat | j < 8 * |buf| :: StreamBit(buf', j) == (StreamBit(buf, j) || j == i)
  {
    var mask := ShrByte(0x80, i % 8);
    MaskBits(i % 8);
    var buf' := buf[i / 8 := OrByte(buf[i / 8], mask)];
    forall j: nat | j < 8 * |buf| ensures StreamBit(buf', j) == (StreamBit(buf, j) || j == i) {
      if j / 8 == i / 8 {
        assert Bit(buf'[j / 8], 7 - j % 8) == (Bit(buf[j / 8], 7 - j % 8) || Bit(mask, 7 - j % 8));
      }
    }
  }

  class BitReader {
    const buf: seq<Byte>
    var pos: nat

    ghost predicate Valid()
      reads this
    {
      pos <= 8 * |buf|
    }

    /** The bits still to be read */
    ghost function Rest(): seq<bool>
      reads this
      requires Valid()
    {
      StreamBits(buf)[pos..]
    }

    constructor (b: seq<Byte>)
      ensures Valid() && Rest() == StreamBits(b)
    {
      buf := b;
      pos := 0;
    }

    ghost predicate Agrees<T>(spec: Parsed<T>, r: Result<T>)
      reads this
      requires Valid()
    {
      && r.Ok? == spec.Got?
      && (r.Ok? ==> r.value == spec.value && Rest() == spec.rest)
    }

    method ReadBit() returns (r: Result<bool>)
      requires Valid()
      modifies this
      ensures Valid() && Agrees(Uper.ReadBit(old(Rest())), r)
    {
      if pos >= 8 * |buf| {
        return Err;
      }
      var b := ShrByteBit(buf[pos / 8], 7 - pos % 8);
      pos := pos + 1;
      return Ok(b);
    }

    method ReadBits(n: nat) returns (r: Result<nat>)
      requires Valid()
      modifies this
      ensures Valid() && Agrees(Uper.ReadBits(old(Rest()), n), r)
    {
      ghost var start := Rest();
      var v, i := 0, 0;
      while i < n
        invariant 0 <= i <= n && 0 <= v < TWO64
        invariant Valid()
        invariant ReadInto(Rest(), n - i, v) == Uper.ReadBits(start, n)
      {
        var b :- this.ReadBit();
        v := (2 * v + (if b then 1 else 0)) % TWO64;
        i := i + 1;
      }
      return Ok(v);
    }

    method ReadBool() returns (r: Result<bool>)
      requires Valid()
      modifies this
      ensures Valid() && Agrees(Uper.ReadBit(old(Rest())), r)
    {
      r := this.ReadBit();
    }

    method ReadConstrained(lb: Int64, ub: Int64) returns (r: Result<Int64>)
      requires Valid() && lb <= ub
      modifies this
      ensures Valid() && Agrees(Uper.ReadConstrained(old(Rest()), lb, ub), r)
    {
      var v :- this.ReadBits(BitWidth(RangeSize(lb, ub)));
      var out := AddWrap(lb, v);
      if out > ub {
        return Err;
      }
      return Ok(out);
    }

    method ReadEnumExt(rootCount: nat) returns (r: Result<nat>)
      requires Valid()
      modifies this
      ensures Valid() && Agrees(Uper.ReadEnumExt(old(Rest()), rootCount), r)
    {
      var ext :- this.ReadBit();
      if !ext {
        r := this.ReadBits(BitWidth(rootCount));
        return;
      }
      var small :- this.ReadNormallySmall();
      return Ok(rootCount + small);
    }

    method ReadNormallySmall() returns (r: Result<nat>)
      requires Valid()
      modifies this
      ensures Valid() && Agrees(Uper.ReadNormallySmall(old(Rest())), r)
    {
      var big :- this.ReadBit();
      if big {
        return Err;
      }
      r := this.ReadBits(6);
    }

    method ReadGeneralLength() returns (r: Result<nat>)
      requires Valid()
      modifies this
      ensures Valid() && Agrees(Uper.ReadGeneralLength(old(Rest())), r)
    {
      hide StreamBits, Uper.ReadBits;
      var b :- this.ReadBits(8);
      if b % 256 < 128 {
        return Ok(b);
      }
      if b % 128 < 64 {
        var b2 :- this.ReadBits(8);
        return Ok(b % 64 * 256 + b2);
      }
      return Err;
    }

    method SkipOpenType() returns (r: Result<()>)
      requires Valid()
      modifies this
      ensures Valid() && Agrees(Uper.SkipOpenType(old(Rest())), r)
    {
      var n :- this.ReadGeneralLength();
      var _ :- this.ReadBits(n * 8);
      return Ok(());
    }

    method ReadPresence(n: nat) returns (r: Result<seq<bool>>)
      requires Valid()
      modifies this
      ensures Valid() && Agrees(Uper.ReadPresence(old(Rest()), n), r)
    {
      ghost var start := Rest();
      var out: seq<bool> := [];
      while |out| < n
        invariant |out| <= n
        invariant Valid()
        invariant |out| <= |start| && start[..|out|] == out && start[|out|..] == Rest()
        decreases n - |out|
      {
        var b :- this.ReadBit();
        out := out + [b];
      }
      return Ok(out);
    }

    method SkipSequenceExtensions() returns (r: Result<()>)
      requires Valid()
      modifies this
      ensures Valid() && Agrees(Uper.SkipSequenceExtensions(old(Rest())), r)
    {
      hide StreamBits, Uper.ReadNormallySmall, Uper.ReadPresence, Uper.SkipOpenType;
      var countMinus1 :- this.ReadNormallySmall();
      var present :- this.ReadPresence(countMinus1 + 1);
      ghost var start := Rest();
      var i := 0;
      while i < |present|
        invariant 0 <= i <= |present|
        invariant Valid()
        invariant SkipOpenTypes(Rest(), present[i..]) == SkipOpenTypes(start, present)
      {
        assert present[i..][1..] == present[i + 1..];
        if present[i] {
          var _ :- this.SkipOpenType();
        }
        i := i + 1;
      }
      return Ok(());
    }

    /** The closure returned by readSeqExt, called after the root fields */
    method SkipIf(ext: bool) returns (r: Result<()>)
      requires Valid()
      modifies this
      ensures Valid() && Agrees(Uper.SkipIf(old(Rest()), ext), r)
    {
      if ext {
        r := this.SkipSequenceExtensions();
      } else {
        r := Ok(());
      }
    }
  }
}
