/** 5G-GUTI and NSSAI information elements. */
module NasIe {
  import opened Wrappers
  import opened Machine
  import opened Bits

  // ---- MCC / MNC ----------------------------------------------------------

  predicate IsDigit(c: char) {
    '0' <= c <= '9'
  }

  /** bcd: anything but a decimal digit counts as zero */
  function Bcd(c: char): (n: nat)
    ensures n <= 9
  {
    if IsDigit(c) then (c - '0') as int else 0
  }

  /** `%d` of a nibble: one character up to nine, two above */
  function Decimal(n: nat): string
    requires n < 16
  {
    if n < 10 then ['0' + n as char] else ['1', '0' + (n - 10) as char]
  }

  /** The characters the encoder indexes are there. */
  predicate PlmnIndexed(mcc: string, mnc: string) {
    |mcc| == 3 ==> |mnc| >= 2
  }

  function PutPlmn(mcc: string, mnc: string): (b: seq<Byte>)
    requires PlmnIndexed(mcc, mnc)
    ensures |b| == 3
  {
    if |mcc| != 3 then [0, 0, 0]
    else
      var mncD3 := if |mnc| == 3 then Bcd(mnc[2]) else 0xF;
      [Bcd(mcc[1]) * 16 + Bcd(mcc[0]), mncD3 * 16 + Bcd(mcc[2]), Bcd(mnc[1]) * 16 + Bcd(mnc[0])]
  }

  /** None is the index panic on a network code of fewer than two characters. */
  function EncodeMCCMNC(mcc: string, mnc: string): Option<seq<Byte>> {
    if PlmnIndexed(mcc, mnc) then Some(PutPlmn(mcc, mnc)) else None
  }

  function DecodeMCCMNC(b: seq<Byte>): (string, string)
    requires |b| == 3
  {
    var mcc := Decimal(b[0] % 16) + Decimal(b[0] / 16) + Decimal(b[1] % 16);
    var mncD3 := b[1] / 16;
    var mnc := Decimal(b[2] % 16) + Decimal(b[2] / 16);
    (mcc, if mncD3 == 0xF then mnc else mnc + Decimal(mncD3))
  }

  predicate PlmnOk(mcc: string, mnc: string) {
    && |mcc| == 3 && 2 <= |mnc| <= 3
    && (forall i | 0 <= i < |mcc| :: IsDigit(mcc[i]))
    && (forall i | 0 <= i < |mnc| :: IsDigit(mnc[i]))
  }

  /** What a PLMN identity is worth after the wire: non-digits become zero and a
      missing or overlong MNC is cut to what the three octets hold. */
  function CarriedPlmn(mcc: string, mnc: string): (string, string)
    requires PlmnIndexed(mcc, mnc)
  {
    if |mcc| != 3 then ("000", "000")
    else
      var two := Decimal(Bcd(mnc[0])) + Decimal(Bcd(mnc[1]));
      (Decimal(Bcd(mcc[0])) + Decimal(Bcd(mcc[1])) + Decimal(Bcd(mcc[2])),
       if |mnc| == 3 then two + Decimal(Bcd(mnc[2])) else two)
  }

  lemma Nibbles(hi: nat, lo: nat)
    requires hi < 16 && lo < 16
    ensures (hi * 16 + lo) % 16 == lo && (hi * 16 + lo) / 16 == hi
  {
  }

  /** The encoder panics exactly on a 3-character country code with a network code
      of fewer than two; otherwise the decoder reads the carried form. */
  lemma PlmnInverts(mcc: string, mnc: string)
    ensures EncodeMCCMNC(mcc, mnc).None? <==> |mcc| == 3 && |mnc| < 2
    ensures EncodeMCCMNC(mcc, mnc).Some? ==>
              DecodeMCCMNC(EncodeMCCMNC(mcc, mnc).value) == CarriedPlmn(mcc, mnc)
  {
    if |mcc| == 3 && |mnc| >= 2 {
      var mncD3 := if |mnc| == 3 then Bcd(mnc[2]) else 0xF;
      Nibbles(Bcd(mcc[1]), Bcd(mcc[0]));
      Nibbles(mncD3, Bcd(mcc[2]));
      Nibbles(Bcd(mnc[1]), Bcd(mnc[0]));
    } else if |mcc| != 3 {
      assert Decimal(0) + Decimal(0) + Decimal(0) == "000";
    }
  }

  lemma DecimalBcd(c: char)
    ensures |Decimal(Bcd(c))| == 1 && IsDigit(Decimal(Bcd(c))[0])
    ensures Decimal(Bcd(c))[0] == c <==> IsDigit(c)
  {
  }

  lemma CarriedPlmnOk(mcc: string, mnc: string)
    ensures PlmnIndexed(mcc, mnc) && CarriedPlmn(mcc, mnc) == (mcc, mnc) <==> PlmnOk(mcc, mnc)
  {
    hide Decimal, Bcd, IsDigit;
    if |mcc| == 3 && |mnc| >= 2 {
      DecimalBcd(mcc[0]);
      DecimalBcd(mcc[1]);
      DecimalBcd(mcc[2]);
      DecimalBcd(mnc[0]);
      DecimalBcd(mnc[1]);
      if |mnc| >= 3 { DecimalBcd(mnc[2]); }
      var (mcc', mnc') := CarriedPlmn(mcc, mnc);
      assert mcc' == [Decimal(Bcd(mcc[0]))[0], Decimal(Bcd(mcc[1]))[0], Decimal(Bcd(mcc[2]))[0]];
      assert mnc'[0] == Decimal(Bcd(mnc[0]))[0] && mnc'[1] == Decimal(Bcd(mnc[1]))[0];
      assert |mnc'| == (if |mnc| == 3 then 3 else 2) && (|mnc| == 3 ==> mnc'[2] == Decimal(Bcd(mnc[2]))[0]);
      assert mcc' == mcc <==> forall i | 0 <= i < 3 :: IsDigit(mcc[i]);
      assert mnc' == mnc <==> |mnc| <= 3 && forall i | 0 <= i < |mnc| :: IsDigit(mnc[i]);
    }
  }

  // ---- 5G-GUTI ------------------------------------------------------------

  datatype Guti = Guti(mcc: string, mnc: string, amfRegionId: Byte, amfSetId: U16, amfId: Byte, tmsi: U32)

  /** Big endian, high half first */
  function U32Octets(x: U32): (b: seq<Byte>)
    ensures |b| == 4
  {
    var hi, lo := x / 0x1_0000, x % 0x1_0000;
    [hi / 256, hi % 256, lo / 256, lo % 256]
  }

  function OctetsU32(b: seq<Byte>): U32
    requires |b| == 4
  {
    BE16(b[0], b[1]) * 0x1_0000 + BE16(b[2], b[3])
  }

  lemma U32RoundTrip(x: U32)
    ensures OctetsU32(U32Octets(x)) == x
  {
    var hi, lo := x / 0x1_0000, x % 0x1_0000;
    assert BE16(hi / 256, hi % 256) == hi && BE16(lo / 256, lo % 256) == lo;
  }

  /** AMF Set ID (10 bits) and AMF ID (6 bits) */
  function AmfRef(g: Guti): (r: U16)
    ensures r / 64 == g.amfSetId % 1024 && r % 64 == g.amfId % 64
  {
    g.amfSetId % 1024 * 64 + g.amfId as int % 64
  }

  function PutGuti(g: Guti): (b: seq<Byte>)
    requires PlmnIndexed(g.mcc, g.mnc)
    ensures |b| == 11
  {
    [0xF2] + PutPlmn(g.mcc, g.mnc) + [g.amfRegionId, AmfRef(g) / 256, AmfRef(g) % 256] + U32Octets(g.tmsi)
  }

  /** None is the index panic of the PLMN encoder. */
  function Encode5GGUTI(g: Guti): Option<seq<Byte>> {
    if PlmnIndexed(g.mcc, g.mnc) then Some(PutGuti(g)) else None
  }

  /** The other identity kinds are kept as their octets. */
  datatype MobileIdentity = GutiIdentity(guti: Guti) | OtherIdentity(kind: Byte, octets: seq<Byte>)

  function DecodeGuti(b: seq<Byte>): Guti
    requires |b| >= 11
  {
    var (mcc, mnc) := DecodeMCCMNC(b[1..4]);
    var amfRef := BE16(b[5], b[6]);
    Guti(mcc, mnc, b[4], amfRef / 64, amfRef % 64, OctetsU32(b[7..11]))
  }

  function DecodeMobileIdentity(b: seq<Byte>): Option<MobileIdentity> {
    if |b| < 1 then None
    else
      match b[0] % 8
      case 1 => if |b| < 8 then None else Some(OtherIdentity(1, b))
      case 2 => if |b| < 11 then None else Some(GutiIdentity(DecodeGuti(b)))
      case kind => Some(OtherIdentity(kind, b))
  }

  /** Which identities are refused, and what any other octets are read as: the kind
      is in the low three bits, and a 5G-GUTI has its fields at fixed octets */
  lemma IdentityOutcome(b: seq<Byte>)
    ensures DecodeMobileIdentity(b).None? <==> b == [] || (b[0] % 8 == 1 && |b| < 8) || (b[0] % 8 == 2 && |b| < 11)
    ensures DecodeMobileIdentity(b).Some? && b[0] % 8 != 2 ==>
              DecodeMobileIdentity(b).value == OtherIdentity(b[0] % 8, b)
    ensures DecodeMobileIdentity(b).Some? && b[0] % 8 == 2 ==>
              && DecodeMobileIdentity(b).value.GutiIdentity?
              && var g := DecodeMobileIdentity(b).value.guti;
              && g.amfRegionId == b[4]
              && g.amfSetId * 64 + g.amfId as int == b[5] as int * 256 + b[6] as int && g.amfId < 64
              && g.tmsi == b[7] as int * 0x100_0000 + b[8] as int * 0x1_0000 + b[9] as int * 0x100 + b[10] as int
  {
    hide DecodeMCCMNC;
    if |b| >= 11 { assert b[7..11] == [b[7], b[8], b[9], b[10]]; }
  }

  function CarriedGuti(g: Guti): Guti
    requires PlmnIndexed(g.mcc, g.mnc)
  {
    var (mcc, mnc) := CarriedPlmn(g.mcc, g.mnc);
    g.(mcc := mcc, mnc := mnc, amfSetId := g.amfSetId % 1024, amfId := g.amfId % 64)
  }

  predicate GutiOk(g: Guti) {
    PlmnOk(g.mcc, g.mnc) && g.amfSetId < 1024 && g.amfId < 64
  }

  lemma GutiInverts(g: Guti)
    ensures Encode5GGUTI(g).None? <==> |g.mcc| == 3 && |g.mnc| < 2
    ensures Encode5GGUTI(g).Some? ==>
              DecodeMobileIdentity(Encode5GGUTI(g).value) == Some(GutiIdentity(CarriedGuti(g)))
    ensures PlmnIndexed(g.mcc, g.mnc) && CarriedGuti(g) == g <==> GutiOk(g)
  {
    CarriedPlmnOk(g.mcc, g.mnc);
    PlmnInverts(g.mcc, g.mnc);
    if PlmnIndexed(g.mcc, g.mnc) {
      hide PutPlmn, DecodeMCCMNC, CarriedPlmn, U32Octets, OctetsU32, AmfRef, PlmnOk;
      var b := PutGuti(g);
      assert b[1..4] == PutPlmn(g.mcc, g.mnc);
      assert b[7..11] == U32Octets(g.tmsi);
      assert b[0] % 8 == 2;
      U32RoundTrip(g.tmsi);
      assert BE16(b[5], b[6]) == AmfRef(g);
    }
  }

  /** The octets of a 5G-GUTI in range, field by field: identity type, two digits an
      octet with the earlier one in the low nibble and ones for a missing third
      network digit, region, set and pointer in ten and six bits, and the TMSI */
  lemma GutiLayout(g: Guti)
    requires GutiOk(g)
    ensures var b := PutGuti(g);
            && b[0] == 0xF2
            && b[1] as int == (g.mcc[1] - '0') as int * 16 + (g.mcc[0] - '0') as int
            && b[2] as int == (if |g.mnc| == 3 then (g.mnc[2] - '0') as int else 15) * 16 + (g.mcc[2] - '0') as int
            && b[3] as int == (g.mnc[1] - '0') as int * 16 + (g.mnc[0] - '0') as int
            && b[4] == g.amfRegionId
            && b[5] as int * 256 + b[6] as int == g.amfSetId * 64 + g.amfId as int
            && b[7] as int * 0x100_0000 + b[8] as int * 0x1_0000 + b[9] as int * 0x100 + b[10] as int == g.tmsi
  {
    var b, r := PutGuti(g), AmfRef(g);
    assert b[1..4] == PutPlmn(g.mcc, g.mnc) && b[7..11] == U32Octets(g.tmsi);
    assert forall i | 0 <= i < 3 :: IsDigit(g.mcc[i]);
    assert forall i | 0 <= i < |g.mnc| :: IsDigit(g.mnc[i]);
    assert r == g.amfSetId * 64 + g.amfId as int;
    BigEndian(g.tmsi);
  }

  lemma BigEndian(x: U32)
    ensures var b := U32Octets(x);
            b[0] as int * 0x100_0000 + b[1] as int * 0x1_0000 + b[2] as int * 0x100 + b[3] as int == x
  {
  }

  // ---- NSSAI --------------------------------------------------------------

  const SD_NOT_PRESENT: U32 := 0xFF_FFFF

  datatype SNSSAI = SNSSAI(sst: Byte, sd: U32)

  function EncodeSNSSAI(s: SNSSAI): seq<Byte> {
    if s.sd == SD_NOT_PRESENT then [1, s.sst]
    else [4, s.sst, s.sd / 0x1_0000 % 0x100, s.sd / 0x100 % 0x100, s.sd % 0x100]
  }

  /** The octets of an entry: its length, the slice type, and the differentiator in
      three octets unless it is the value that stands for none */
  lemma SnssaiLayout(s: SNSSAI)
    ensures s.sd == 0xFF_FFFF ==> EncodeSNSSAI(s) == [1, s.sst]
    ensures s.sd != 0xFF_FFFF ==>
              var b := EncodeSNSSAI(s);
              && |b| == 5 && b[0] == 4 && b[1] == s.sst
              && b[2] as int * 0x1_0000 + b[3] as int * 0x100 + b[4] as int == s.sd % 0x100_0000
  {
    SdOctets(s.sd);
  }

  function NssaiOctets(n: seq<SNSSAI>): seq<Byte> {
    if n == [] then [] else EncodeSNSSAI(n[0]) + NssaiOctets(n[1..])
  }

  /** Panic is Go's index-out-of-range: a zero-length entry at the very end.
      A truncated list keeps the entries read before the truncation. */
  datatype NssaiOutcome = Panic | Read(list: seq<SNSSAI>, truncated: bool)

  function ReadNssai(list: seq<SNSSAI>, b: seq<Byte>): NssaiOutcome
    decreases |b|
  {
    if b == [] then Read(list, false)
    else
      var length, t := b[0], b[1..];
      if length > |t| then Read(list, true)
      else if t == [] then Panic
      else
        var sd := if length == 4 then t[1] as int * 0x1_0000 + t[2] as int * 0x100 + t[3] as int else SD_NOT_PRESENT;
        ReadNssai(list + [SNSSAI(t[0], sd)], t[length..])
  }

  function CarriedSd(s: SNSSAI): SNSSAI {
    s.(sd := s.sd % 0x100_0000)
  }

  function CarriedNssai(n: seq<SNSSAI>): seq<SNSSAI> {
    seq(|n|, i requires 0 <= i < |n| => CarriedSd(n[i]))
  }

  predicate NssaiOk(n: seq<SNSSAI>) {
    forall i | 0 <= i < |n| :: n[i].sd <= 0xFF_FFFF
  }

  lemma SdOctets(sd: U32)
    ensures (sd / 0x1_0000 % 0x100) * 0x1_0000 + (sd / 0x100 % 0x100) * 0x100 + sd % 0x100 == sd % 0x100_0000
  {
    var a := sd / 0x100;
    assert sd == a * 0x100 + sd % 0x100 && sd / 0x1_0000 == a / 0x100;
    assert a % 0x1_0000 == (a / 0x100 % 0x100) * 0x100 + a % 0x100;
  }

  lemma ReadOneSnssai(list: seq<SNSSAI>, s: SNSSAI, k: seq<Byte>)
    ensures ReadNssai(list, EncodeSNSSAI(s) + k) == ReadNssai(list + [CarriedSd(s)], k)
  {
    var b := EncodeSNSSAI(s) + k;
    SdOctets(s.sd);
    if s.sd == SD_NOT_PRESENT {
      assert b[1..][1..] == k;
    } else {
      assert b[1..][4..] == k;
    }
  }

  lemma {:induction false} NssaiInverts(list: seq<SNSSAI>, n: seq<SNSSAI>)
    ensures ReadNssai(list, NssaiOctets(n)) == Read(list + CarriedNssai(n), false)
    decreases |n|
  {
    hide EncodeSNSSAI, CarriedSd;
    if n == [] {
      assert list + CarriedNssai(n) == list;
    } else {
      ReadOneSnssai(list, n[0], NssaiOctets(n[1..]));
      NssaiInverts(list + [CarriedSd(n[0])], n[1..]);
      assert list + [CarriedSd(n[0])] + CarriedNssai(n[1..]) == list + CarriedNssai(n);
    }
  }

  lemma CarriedNssaiOk(n: seq<SNSSAI>)
    ensures CarriedNssai(n) == n <==> NssaiOk(n)
  {
    if NssaiOk(n) {
      assert forall i | 0 <= i < |n| :: CarriedNssai(n)[i] == n[i];
    }
    if CarriedNssai(n) == n {
      forall i | 0 <= i < |n| ensures n[i].sd <= 0xFF_FFFF {
        assert CarriedNssai(n)[i] == n[i];
      }
    }
  }

  /** A run of complete entries: a length octet, then that many octets */
  predicate WholeEntries(b: seq<Byte>) {
    b == [] || (b[0] as int < |b| && WholeEntries(b[1 + b[0] as int..]))
  }

  /** A zero-length entry at the very end, behind complete ones */
  predicate EndsInZeroEntry(b: seq<Byte>) {
    b != [] && b[|b| - 1] == 0 && WholeEntries(b[..|b| - 1])
  }

  /** Exactly which values make the reader index past the end, and which it
      reports as truncated. */
  lemma {:induction false} NssaiOutcomes(list: seq<SNSSAI>, b: seq<Byte>)
    ensures ReadNssai(list, b).Panic? <==> EndsInZeroEntry(b)
    ensures ReadNssai(list, b).Read? ==> (ReadNssai(list, b).truncated <==> !WholeEntries(b))
    decreases |b|
  {
    if |b| >= 2 && b[0] as int < |b| {
      var rest := b[1 + b[0] as int..];
      EntryRead(list, b);
      EntrySplit(b);
      hide ReadNssai, WholeEntries, EndsInZeroEntry;
      NssaiOutcomes(list + [FirstEntry(b)], rest);
    }
  }

  /** What the reader makes of the first entry; a zero-length one takes its type
      from the next entry's length octet. */
  function FirstEntry(b: seq<Byte>): SNSSAI
    requires |b| >= 2 && b[0] as int < |b|
  {
    SNSSAI(b[1], if b[0] == 4 then b[2] as int * 0x1_0000 + b[3] as int * 0x100 + b[4] as int else SD_NOT_PRESENT)
  }

  lemma EntryRead(list: seq<SNSSAI>, b: seq<Byte>)
    requires |b| >= 2 && b[0] as int < |b|
    ensures ReadNssai(list, b) == ReadNssai(list + [FirstEntry(b)], b[1 + b[0] as int..])
  {
    assert b[1..][b[0] as int..] == b[1 + b[0] as int..];
  }

  lemma EntrySplit(b: seq<Byte>)
    requires |b| >= 2 && b[0] as int < |b|
    ensures var rest := b[1 + b[0] as int..];
            (EndsInZeroEntry(b) <==> EndsInZeroEntry(rest)) && (WholeEntries(b) <==> WholeEntries(rest))
  {
    var front, rest := b[..|b| - 1], b[1 + b[0] as int..];
    if rest != [] {
      assert front[1 + b[0] as int..] == rest[..|rest| - 1];
    }
  }

  /** A cut-off list is read without a panic and comes out shorter. */
  lemma {:induction false} PrefixIsShorter(list: seq<SNSSAI>, n: seq<SNSSAI>, m: nat)
    requires m < |NssaiOctets(n)|
    ensures var r := ReadNssai(list, NssaiOctets(n)[..m]);
            r.Read? && |r.list| < |list| + |n|
    decreases |n|
  {
    var e, rest, b := EncodeSNSSAI(n[0]), NssaiOctets(n[1..]), NssaiOctets(n)[..m];
    if m >= |e| {
      hide EncodeSNSSAI;
      assert b == e + rest[..m - |e|];
      ReadOneSnssai(list, n[0], rest[..m - |e|]);
      PrefixIsShorter(list + [CarriedSd(n[0])], n[1..], m - |e|);
    } else if m > 0 {
      assert b == e[..m] && b[0] == e[0];
    }
  }

  lemma NssaiStep(n: seq<SNSSAI>, i: nat, out: seq<Byte>)
    requires i < |n|
    ensures out + NssaiOctets(n[i..]) == out + EncodeSNSSAI(n[i]) + NssaiOctets(n[i + 1..])
  {
    hide EncodeSNSSAI;
    assert n[i..][1..] == n[i + 1..];
    assert out + (EncodeSNSSAI(n[i]) + NssaiOctets(n[i + 1..])) == out + EncodeSNSSAI(n[i]) + NssaiOctets(n[i + 1..]);
  }

  method EncodeNSSAI(n: seq<SNSSAI>) returns (out: seq<Byte>)
    ensures out == NssaiOctets(n)
  {
    assert NssaiOctets([]) == [] && n[0..] == n && [] + NssaiOctets(n) == NssaiOctets(n);
    hide NssaiOctets;
    out := [];
    for i := 0 to |n|
      invariant out + NssaiOctets(n[i..]) == NssaiOctets(n)
    {
      var s := n[i];
      NssaiStep(n, i, out);
      ghost var before := out;
      if s.sd == SD_NOT_PRESENT {
        out := out + [1, s.sst];
      } else {
        out := out + [4, s.sst];
        out := out + [s.sd / 0x1_0000 % 0x100, s.sd / 0x100 % 0x100, s.sd % 0x100];
      }
      assert out == before + EncodeSNSSAI(s);
    }
    assert n[|n|..] == [] && out + [] == out;
  }

  method DecodeNSSAI(b: seq<Byte>) returns (r: NssaiOutcome)
    ensures r == ReadNssai([], b)
  {
    var n: seq<SNSSAI> := [];
    var i := 0;
    while i < |b|
      invariant 0 <= i <= |b|
      invariant ReadNssai(n, b[i..]) == ReadNssai([], b)
    {
      var length := b[i] as int;
      ghost var t := b[i..][1..];
      assert t == b[i + 1..];
      i := i + 1;
      if i + length > |b| {
        return Read(n, true);
      }
      if i >= |b| {
        return Panic;  // b[i] below is out of range
      }
      var s := SNSSAI(b[i], SD_NOT_PRESENT);
      if length == 4 {
        s := s.(sd := b[i + 1] as int * 0x1_0000 + b[i + 2] as int * 0x100 + b[i + 3] as int);
      }
      n := n + [s];
      assert t[length..] == b[i + length..];
      i := i + length;
    }
    return Read(n, false);
  }
}
