/**
 Unaligned PER at the level of bit strings (ITU-T X.691).

 A `Read...` function consumes a prefix of a bit string and returns the value and
 the rest.  A `Put...` function prepends the encoding of a value to a bit string
 `k`.  Each Put function promises that the matching Read function gives back the
 value and leaves exactly `k`, whatever `k` is.
 */
module Uper {
  import opened Wrappers
  import opened Machine
  import opened Bits

  datatype Parsed<+T> = Fail | Got(value: T, rest: seq<bool>) {
    predicate IsFailure() {
      Fail?
    }

    function PropagateFailure<U>(): Parsed<U>
      requires Fail?
    {
      Fail
    }

    function Extract(): (T, seq<bool>)
      requires Got?
    {
      (value, rest)
    }
  }

  // ---- widths -------------------------------------------------------------

  /** math/bits.Len64 */
  function Len64(x: nat): (n: nat)
    ensures x < Pow2(n)
    ensures n > 0 ==> Pow2(n - 1) <= x
  {
    if x == 0 then 0 else 1 + Len64(x / 2)
  }

  function BitWidth(n: nat): (w: nat)
    ensures n >= 1 ==> n <= Pow2(w)
    ensures n >= 2 ==> w >= 1 && Pow2(w - 1) < n
  {
    if n <= 1 then 0 else Len64(n - 1)
  }

  /** `uint64(ub - lb + 1)`: the full int64 range wraps to zero. */
  function RangeSize(lb: Int64, ub: Int64): (n: nat)
    requires lb <= ub
    ensures n < TWO64
  {
    if ub - lb + 1 == TWO64 then 0 else ub - lb + 1
  }

  /** `lb + int64(v)` in two's complement, for a uint64 v */
  function AddWrap(lb: Int64, v: nat): (r: Int64)
    requires v < TWO64
  {
    if lb + v >= TWO63 then lb + v - TWO64 else lb + v
  }

  lemma {:induction false} Pow2Mono(m: nat, n: nat)
    requires m <= n
    ensures Pow2(m) <= Pow2(n)
    decreases n - m
  {
    if m < n { Pow2Mono(m, n - 1); }
  }

  lemma {:induction false} Pow2Add(m: nat, n: nat)
    ensures Pow2(m + n) == Pow2(m) * Pow2(n)
  {
    if n > 0 { Pow2Add(m, n - 1); }
  }

  lemma Pow2Of64()
    ensures Pow2(64) == TWO64
  {
    assert Pow2(8) == 0x100;
    Pow2Add(8, 8);
    assert Pow2(16) == 0x1_0000;
    Pow2Add(16, 16);
    assert Pow2(32) == 0x1_0000_0000;
    Pow2Add(32, 32);
  }

  /** A range of at most 2^64 - 1 values needs at most 64 bits. */
  lemma WidthAtMost64(n: nat)
    requires n < TWO64
    ensures BitWidth(n) <= 64
  {
    if BitWidth(n) > 64 {
      Pow2Of64();
      Pow2Mono(64, BitWidth(n) - 1);
    }
  }

  // ---- plain bit fields ---------------------------------------------------

  function ReadBit(s: seq<bool>): Parsed<bool> {
    if s == [] then Fail else Got(s[0], s[1..])
  }

  /** `v = v<<1 | b`, n times, on a uint64 */
  function ReadInto(s: seq<bool>, n: nat, acc: nat): (r: Parsed<nat>)
    requires acc < TWO64
    ensures r.Got? <==> n <= |s|
    ensures r.Got? ==> r.value < TWO64 && r.rest == s[n..]
    decreases n
  {
    if n == 0 then Got(acc, s)
    else if s == [] then Fail
    else ReadInto(s[1..], n - 1, (2 * acc + (if s[0] then 1 else 0)) % TWO64)
  }

  lemma {:induction false} ReadIntoBound(s: seq<bool>, n: nat, acc: nat)
    requires acc < TWO64 && n <= |s|
    ensures ReadInto(s, n, acc).value < (acc + 1) * Pow2(n)
    decreases n
  {
    if n > 0 {
      var next := (2 * acc + (if s[0] then 1 else 0)) % TWO64;
      assert next + 1 <= 2 * (acc + 1);
      ReadIntoBound(s[1..], n - 1, next);
      MulMono(next + 1, 2 * (acc + 1), Pow2(n - 1));
      MulAssoc(acc + 1, 2, Pow2(n - 1));
    }
  }

  lemma MulAssoc(a: nat, b: nat, c: nat)
    ensures b * a * c == a * (b * c)
  {
  }

  lemma MulMono(a: nat, b: nat, c: nat)
    requires a <= b
    ensures a * c <= b * c
  {
  }

  function ReadBits(s: seq<bool>, n: nat): (r: Parsed<nat>)
    ensures r.Got? <==> n <= |s|
    ensures r.Got? ==> r.value < TWO64 && r.value < Pow2(n) && r.rest == s[n..]
  {
    assert n <= |s| ==> ReadInto(s, n, 0).value < Pow2(n) by {
      if n <= |s| { ReadIntoBound(s, n, 0); }
    }
    ReadInto(s, n, 0)
  }

  function PutBool(b: bool, k: seq<bool>): (r: seq<bool>)
    ensures ReadBit(r) == Got(b, k)
  {
    [b] + k
  }

  /** The n low bits of v, most significant first, in front of k */
  function PutRaw(v: nat, n: nat, k: seq<bool>): (r: seq<bool>)
    ensures |r| == n + |k| && r[n..] == k
  {
    if n == 0 then k else PutBool(Bit(v, n - 1), PutRaw(v, n - 1, k))
  }

  lemma {:induction false} ReadIntoPutRaw(v: nat, n: nat, k: seq<bool>)
    requires v < TWO64
    ensures ReadInto(PutRaw(v, n, k), n, Shr(v, n)) == Got(v, k)
  {
    if n > 0 {
      var s, top := PutRaw(v, n, k), Shr(v, n - 1);
      ShrStep(v, n - 1);
      assert s[0] == Bit(v, n - 1) && s[1..] == PutRaw(v, n - 1, k);
      assert 2 * Shr(v, n) + (if s[0] then 1 else 0) == top && top % TWO64 == top;
      ReadIntoPutRaw(v, n - 1, k);
    }
  }

  lemma {:induction false} PutRawLow(v: nat, w: nat, n: nat, k: seq<bool>)
    requires forall i: nat | i < n :: Bit(v, i) == Bit(w, i)
    ensures PutRaw(v, n, k) == PutRaw(w, n, k)
  {
    if n > 0 { PutRawLow(v, w, n - 1, k); }
  }

  function Put(v: nat, n: nat, k: seq<bool>): (r: seq<bool>)
    ensures |r| == n + |k| && r[n..] == k
    ensures n <= 64 ==> ReadBits(r, n) == Got(Low(v, n), k)
    ensures n <= 64 && v < Pow2(n) ==> ReadBits(r, n) == Got(v, k)
  {
    assert n <= 64 ==> ReadBits(PutRaw(v, n, k), n) == Got(Low(v, n), k) by {
      if n <= 64 {
        var low := Low(v, n);
        Pow2Of64();
        Pow2Mono(n, 64);
        ShrZero(low, n);
        forall i: nat | i < n ensures Bit(v, i) == Bit(low, i) { BitLow(v, n, i); }
        PutRawLow(v, low, n, k);
        ReadIntoPutRaw(low, n, k);
      }
    }
    assert v < Pow2(n) ==> Low(v, n) == v by {
      if v < Pow2(n) { LowId(v, n); }
    }
    PutRaw(v, n, k)
  }

  /** Presence bitmap of a SEQUENCE preamble */
  function ReadPresence(s: seq<bool>, n: nat): (r: Parsed<seq<bool>>)
    ensures r.Got? ==> |r.value| == n
  {
    if n <= |s| then Got(s[..n], s[n..]) else Fail
  }

  function Flags(fs: seq<bool>, k: seq<bool>): (r: seq<bool>)
    ensures ReadPresence(r, |fs|) == Got(fs, k)
  {
    assert (fs + k)[..|fs|] == fs && (fs + k)[|fs|..] == k;
    fs + k
  }

  lemma PutStep(v: nat, n: nat, k: seq<bool>)
    ensures Put(v, n + 1, k) == [Bit(v, n)] + Put(v, n, k)
  {
  }

  lemma FlagsStep(fs: seq<bool>, k: seq<bool>)
    requires fs != []
    ensures Flags(fs, k) == [fs[0]] + Flags(fs[1..], k)
  {
    hide ReadPresence;
  }

  /** Writing a bitmap as one number or as single bits is the same. */
  lemma {:induction false} FlagsAreBits(v: nat, fs: seq<bool>, k: seq<bool>)
    requires forall i | 0 <= i < |fs| :: fs[i] == Bit(v, |fs| - 1 - i)
    ensures Put(v, |fs|, k) == Flags(fs, k)
  {
    if fs == [] {
      assert fs + k == k;
    } else {
      PutStep(v, |fs| - 1, k);
      FlagsStep(fs, k);
      hide Put, Flags, Bit;
      FlagsAreBits(v, fs[1..], k);
    }
  }

  // ---- constrained numbers and enumerations -------------------------------

  function ReadConstrained(s: seq<bool>, lb: Int64, ub: Int64): (r: Parsed<Int64>)
    requires lb <= ub
    ensures r.Got? && lb + 2 * (ub - lb + 1) <= TWO63 ==> lb <= r.value <= ub
  {
    var (v, t) :- ReadBits(s, BitWidth(RangeSize(lb, ub)));
    var out := AddWrap(lb, v);
    if out > ub then Fail else Got(out, t)
  }

  /** The one range the codec cannot carry is the full int64 range. */
  predicate Representable(lb: Int64, ub: Int64)
    requires lb <= ub
  {
    ub - lb + 1 < TWO64
  }

  function PutConstrained(v: Int64, lb: Int64, ub: Int64, k: seq<bool>): (r: seq<bool>)
    requires lb <= v <= ub
    ensures Representable(lb, ub) ==> ReadConstrained(r, lb, ub) == Got(v, k)
  {
    WidthAtMost64(RangeSize(lb, ub));
    Put(v - lb, BitWidth(RangeSize(lb, ub)), k)
  }

  /** Reading back a constrained number gives the number exactly when the range
      is representable or the value happens to be the lower bound. */
  lemma ConstrainedRoundTrip(v: Int64, lb: Int64, ub: Int64, k: seq<bool>)
    requires lb <= v <= ub
    ensures ReadConstrained(PutConstrained(v, lb, ub, k), lb, ub) == Got(v, k)
       <==> (Representable(lb, ub) || v == lb)
  {
    if !Representable(lb, ub) {
      assert RangeSize(lb, ub) == 0;
      assert BitWidth(0) == 0;
      assert PutConstrained(v, lb, ub, k) == Put(v - lb, 0, k) == k;
    }
  }

  function ReadNormallySmall(s: seq<bool>): Parsed<nat> {
    var (big, t) :- ReadBit(s);
    if big then Fail else ReadBits(t, 6)
  }

  function PutNormallySmall(v: nat, k: seq<bool>): (r: seq<bool>)
    requires v < 64
    ensures ReadNormallySmall(r) == Got(v, k)
  {
    assert Pow2(6) == 64;
    PutBool(false, Put(v, 6, k))
  }

  function ReadEnumExt(s: seq<bool>, rootCount: nat): Parsed<nat> {
    var (ext, t) :- ReadBit(s);
    if !ext then ReadBits(t, BitWidth(rootCount))
    else
      var (small, u) :- ReadNormallySmall(t);
      Got(rootCount + small, u)
  }

  /** Root value: what the writer emits, truncated to the width of the index */
  function PutEnumRoot(v: nat, rootCount: nat, k: seq<bool>): (r: seq<bool>)
    requires rootCount < TWO64
    ensures v < rootCount ==> ReadEnumExt(r, rootCount) == Got(v, k)
    ensures ReadEnumExt(r, rootCount) == Got(Low(v, BitWidth(rootCount)), k)
  {
    WidthAtMost64(rootCount);
    PutBool(false, Put(v, BitWidth(rootCount), k))
  }

  /** Any value of an extensible ENUMERATED: a root index, or an addition that
      decodes to rootCount plus its number */
  function PutEnum(v: nat, rootCount: nat, k: seq<bool>): (r: seq<bool>)
    requires v < rootCount + 64 && rootCount < TWO64
    ensures ReadEnumExt(r, rootCount) == Got(v, k)
  {
    if v < rootCount then PutEnumRoot(v, rootCount, k)
    else PutBool(true, PutNormallySmall(v - rootCount, k))
  }

  // ---- open types and extension additions ---------------------------------

  function ReadGeneralLength(s: seq<bool>): Parsed<nat> {
    var (b, t) :- ReadBits(s, 8);
    if b % 256 < 128 then Got(b, t)
    else if b % 128 < 64 then
      var (b2, u) :- ReadBits(t, 8);
      Got(b % 64 * 256 + b2, u)
    else Fail
  }

  function PutOctet(b: Byte, k: seq<bool>): (r: seq<bool>)
    ensures |r| == 8 + |k| && r[8..] == k
    ensures ReadBits(r, 8) == Got(b, k)
  {
    assert Pow2(8) == 256;
    Put(b, 8, k)
  }

  lemma LongLength(n: nat, hi: nat, lo: nat)
    requires n < 16384 && hi == 128 + n / 256 && lo == n % 256
    ensures 128 <= hi < 256 && hi % 256 >= 128 && hi % 128 < 64 && hi % 64 * 256 + lo == n
  {
  }

  /** One octet below 128 unless the sender chose the long form, else two */
  function PutGeneralLength(n: nat, long: bool, k: seq<bool>): seq<bool>
    requires n < 16384
  {
    if n < 128 && !long then PutOctet(n, k) else PutOctet(128 + n / 256, PutOctet(n % 256, k))
  }

  lemma GeneralLengthInverts(n: nat, long: bool, k: seq<bool>)
    requires n < 16384
    ensures ReadGeneralLength(PutGeneralLength(n, long, k)) == Got(n, k)
  {
    hide PutOctet, ReadBits;
    if n >= 128 || long { LongLength(n, 128 + n / 256, n % 256); }
  }

  function SkipOpenType(s: seq<bool>): Parsed<()> {
    var (n, t) :- ReadGeneralLength(s);
    var (_, u) :- ReadBits(t, n * 8);
    Got((), u)
  }

  function PutOctets(os: seq<Byte>, k: seq<bool>): (r: seq<bool>)
    ensures |r| == 8 * |os| + |k| && r[8 * |os|..] == k
  {
    if os == [] then k else
      var t := PutOctets(os[1..], k);
      var r := PutOctet(os[0], t);
      assert r[8 * |os|..] == r[8..][8 * |os| - 8..];
      r
  }

  /** An open type: its octets, and whether a short length takes the long form */
  datatype OpenType = OpenType(octets: seq<Byte>, long: bool)

  function PutOpenType(o: OpenType, k: seq<bool>): (r: seq<bool>)
    requires |o.octets| < 16384
    ensures SkipOpenType(r) == Got((), k)
  {
    hide ReadGeneralLength, PutGeneralLength;
    GeneralLengthInverts(|o.octets|, o.long, PutOctets(o.octets, k));
    PutGeneralLength(|o.octets|, o.long, PutOctets(o.octets, k))
  }

  function SkipOpenTypes(s: seq<bool>, present: seq<bool>): Parsed<()>
    decreases |present|
  {
    if present == [] then Got((), s)
    else if present[0] then
      var (_, t) :- SkipOpenType(s);
      SkipOpenTypes(t, present[1..])
    else SkipOpenTypes(s, present[1..])
  }

  function SkipSequenceExtensions(s: seq<bool>): Parsed<()> {
    var (countMinus1, t) :- ReadNormallySmall(s);
    var (present, u) :- ReadPresence(t, countMinus1 + 1);
    SkipOpenTypes(u, present)
  }

  /** Extension additions of one SEQUENCE value: one entry per addition the
      sender knows, None where the addition is absent */
  type Additions = adds: seq<Option<OpenType>>
    | 1 <= |adds| <= 64 && forall i | 0 <= i < |adds| :: adds[i].Some? ==> |adds[i].value.octets| < 16384
    witness [None]

  predicate OpenTypesFit(adds: seq<Option<OpenType>>) {
    forall i | 0 <= i < |adds| :: adds[i].Some? ==> |adds[i].value.octets| < 16384
  }

  function PresenceOf(adds: seq<Option<OpenType>>): seq<bool> {
    seq(|adds|, i requires 0 <= i < |adds| => adds[i].Some?)
  }

  function PutOpenTypes(adds: seq<Option<OpenType>>, k: seq<bool>): seq<bool>
    requires OpenTypesFit(adds)
    decreases |adds|
  {
    if adds == [] then k else
      match adds[0]
      case None => PutOpenTypes(adds[1..], k)
      case Some(o) => PutOpenType(o, PutOpenTypes(adds[1..], k))
  }

  lemma {:induction false} OpenTypesInvert(adds: seq<Option<OpenType>>, k: seq<bool>)
    requires OpenTypesFit(adds)
    ensures SkipOpenTypes(PutOpenTypes(adds, k), PresenceOf(adds)) == Got((), k)
    decreases |adds|
  {
    hide SkipOpenType, PutOpenType;
    if adds != [] {
      OpenTypesInvert(adds[1..], k);
      assert PresenceOf(adds)[1..] == PresenceOf(adds[1..]);
    }
  }

  function PutAdditions(adds: Additions, k: seq<bool>): seq<bool> {
    PutNormallySmall(|adds| - 1, Flags(PresenceOf(adds), PutOpenTypes(adds, k)))
  }

  /** Skipping a well-formed additions block consumes exactly the block. */
  lemma AdditionsInvert(adds: Additions, k: seq<bool>)
    ensures SkipSequenceExtensions(PutAdditions(adds, k)) == Got((), k)
  {
    hide PutNormallySmall, ReadNormallySmall, Flags, ReadPresence, SkipOpenTypes, PutOpenTypes;
    OpenTypesInvert(adds, k);
  }

  /** The additions block skipped after the root fields when the extension bit
      was set */
  function SkipIf(s: seq<bool>, ext: bool): Parsed<()> {
    if ext then SkipSequenceExtensions(s) else Got((), s)
  }

  datatype Ext = NoExt | HasExt(additions: Additions)

  function PutExtBit(e: Ext, k: seq<bool>): (r: seq<bool>)
    ensures ReadBit(r) == Got(e.HasExt?, k)
  {
    PutBool(e.HasExt?, k)
  }

  function PutExt(e: Ext, k: seq<bool>): (r: seq<bool>)
    ensures SkipIf(r, e.HasExt?) == Got((), k)
    ensures e.NoExt? ==> r == k
  {
    if e.HasExt? then
      AdditionsInvert(e.additions, k);
      PutAdditions(e.additions, k)
    else k
  }
}
