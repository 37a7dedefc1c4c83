/**
 The bits of the messages the builders send, written out: presence bits, choice
 indices and fixed values as literals, every variable field as a number of a fixed
 width.  None of this is defined through the encoding functions; the lemmas say
 that those produce it.
 */
module LppLayout {
  import opened Wrappers
  import opened Machine
  import opened Bits
  import opened Uper
  import opened LppSyntax
  import opened LppWire

  /** The digits of a literal as bits */
  function B(digits: string): (s: seq<bool>)
    ensures |s| == |digits|
  {
    seq(|digits|, i requires 0 <= i < |digits| => digits[i] == '1')
  }

  /** The low n bits of v, most significant first */
  function N(v: nat, n: nat): (s: seq<bool>)
    ensures |s| == n
  {
    seq(n, i requires 0 <= i < n => Bit(v, n - 1 - i))
  }

  /** Presence bits, transaction, end flag, and the index of the message in its
      CHOICEs */
  function HeadBits(txn: TransactionID, endTransaction: bool, c1: nat): seq<bool> {
    B("1001") + TransactionBits(txn) + [endTransaction] + (B("0") + N(c1, 4) + B("000"))
  }

  function TransactionBits(txn: TransactionID): seq<bool> {
    B("0") + B("0") + N(txn.initiator, 1) + N(txn.number, 8)
  }

  /** Only A-GNSS is asked about: the support list, and neither of the other two */
  function RequestCapabilitiesBits(): seq<bool> {
    B("0") + B("01000") + B("0") + B("1") + B("0") + B("0")
  }

  /** One element, or none at all */
  function CapabilitiesBits(gnssSupported: bool): seq<bool> {
    if gnssSupported then B("0") + B("01000") + B("0") + B("1000") + B("0000") + SupportBits()
    else B("0") + B("00000")
  }

  /** GPS, UE-assisted in an eight-bit string, signal L1 C/A, and no more */
  function SupportBits(): seq<bool> {
    B("0") + B("00") + B("00000") + (B("0") + B("111") + B("00100000")) + B("0") + B("10000000") + B("0") + B("0")
  }

  /** Measurements (1), with GPS alone in an eight-bit string and all flags off */
  function RequestLocationBits(): seq<bool> {
    B("0") + B("11000") + (B("0") + B("0000000") + B("0") + B("01"))
    + (B("0") + B("0") + (B("0") + B("0111") + B("10000000")) + B("0000"))
  }

  function LocationBits(loc: ReferenceLocation): seq<bool>
    requires loc.degreesLongitude >= -8388608
  {
    N(loc.latitudeSign, 1) + N(loc.degreesLatitude, 23) + N(loc.degreesLongitude + 8388608, 24)
    + N(loc.altitudeDirection, 1) + N(loc.altitude, 15) + UncertaintyBits(loc)
  }

  function UncertaintyBits(loc: ReferenceLocation): seq<bool> {
    N(loc.uncertaintySemiMajor, 7) + N(loc.uncertaintySemiMinor, 7) + N(loc.orientationMajorAxis, 8)
    + N(loc.uncertaintyAltitude, 7) + N(loc.confidence, 7)
  }

  /** The system time of GPS and its uncertainty */
  function TimeBits(ad: AssistanceData): seq<bool> {
    B("0") + B("10") + (B("0") + B("000") + B("00000") + N(ad.dayNumber, 15) + N(ad.timeOfDay, 17))
    + N(ad.referenceTimeUnc, 7)
  }

  function AssistanceBits(ad: AssistanceData): seq<bool>
    requires ad.referenceLocation.degreesLongitude >= -8388608
  {
    B("0") + B("0100") + B("0") + B("100") + B("0") + B("1100")
    + TimeBits(ad) + B("0") + LocationBits(ad.referenceLocation)
  }

  function SatBits(sv: SatMeas): seq<bool> {
    B("0") + B("0100") + B("0") + N(sv.svId, 6) + N(sv.cNo, 6) + (B("0") + N(sv.mpathDet, 2))
    + N(sv.codePhase, 21) + N(sv.integerCodePhase, 7) + N(sv.codePhaseRMSError, 6)
  }

  function SatsBits(sats: seq<SatMeas>): seq<bool> {
    if sats == [] then [] else SatBits(sats[0]) + SatsBits(sats[1..])
  }

  /** One signal, L1 C/A, and its satellites */
  function SignalBits(sats: seq<SatMeas>): seq<bool>
    requires sats != []
  {
    B("0") + B("0") + B("0") + B("000") + N(|sats| - 1, 6) + SatsBits(sats)
  }

  /** A time of GPS, and one system, GPS, with one signal */
  function MeasurementsBits(m: LocationMeasurements): seq<bool>
    requires m.sats != []
  {
    B("0") + B("01000") + B("0") + B("100") + B("0") + (B("0") + B("000") + N(m.todMsec, 22) + B("00000"))
    + B("0000") + B("0") + B("00000") + B("000") + SignalBits(m.sats)
  }

  /** The target-device causes, with none of the optional ones */
  function ErrorBits(cause: Byte): seq<bool> {
    B("0") + B("01000") + B("0") + B("001") + B("0") + B("1") + B("0") + B("000") + (B("0") + N(cause, 2))
  }

  // ---- primitives ----------------------------------------------------------------

  lemma PutIs(v: nat, n: nat, k: seq<bool>)
    ensures Put(v, n, k) == N(v, n) + k
  {
    hide Put;
    FlagsAreBits(v, N(v, n), k);
  }

  /** A range of more than 2^(n-1) and at most 2^n values takes n bits. */
  lemma WidthIs(count: nat, n: nat)
    requires n >= 1 && count >= 2 && Pow2(n - 1) < count <= Pow2(n)
    ensures BitWidth(count) == n
  {
    hide BitWidth, Pow2;
    var w := BitWidth(count);
    if w < n { Pow2Mono(w, n - 1); }
    if w > n { Pow2Mono(n, w - 1); }
  }

  lemma ConstrainedIs(v: Int64, lb: Int64, ub: Int64, n: nat, k: seq<bool>)
    requires lb <= v <= ub && n >= 1 && 2 <= ub - lb + 1 < TWO64 && Pow2(n - 1) < ub - lb + 1 <= Pow2(n)
    ensures PutConstrained(v, lb, ub, k) == N(v - lb, n) + k
  {
    hide BitWidth, Pow2, Put;
    WidthIs(ub - lb + 1, n);
    PutIs(v - lb, n, k);
  }

  lemma EnumIs(v: nat, rootCount: nat, n: nat, k: seq<bool>)
    requires v < rootCount < TWO64 && n >= 1 && rootCount >= 2 && Pow2(n - 1) < rootCount <= Pow2(n)
    ensures PutEnum(v, rootCount, k) == B("0") + N(v, n) + k
  {
    hide Put, BitWidth, Pow2;
    WidthIs(rootCount, n);
    PutIs(v, n, k);
    assert B("0") == [false];
    assert B("0") + (N(v, n) + k) == B("0") + N(v, n) + k;
  }

  lemma Powers()
    ensures Pow2(0) == 1 && Pow2(1) == 2 && Pow2(2) == 4 && Pow2(3) == 8 && Pow2(4) == 16 && Pow2(5) == 32
    ensures Pow2(6) == 64 && Pow2(7) == 128 && Pow2(8) == 256 && Pow2(14) == 0x4000 && Pow2(15) == 0x8000
    ensures Pow2(16) == 0x1_0000 && Pow2(17) == 0x2_0000 && Pow2(20) == 0x10_0000 && Pow2(21) == 0x20_0000
    ensures Pow2(22) == 0x40_0000 && Pow2(23) == 0x80_0000 && Pow2(24) == 0x100_0000
  {
    Pow2Add(8, 6);
    Pow2Add(8, 7);
    Pow2Add(8, 8);
    Pow2Add(16, 1);
    Pow2Add(16, 4);
    Pow2Add(16, 5);
    Pow2Add(16, 6);
    Pow2Add(16, 7);
    Pow2Add(16, 8);
  }

  /** A one-bit field holds the low bit. */
  lemma OneBit(v: nat)
    ensures Low(v, 1) <= 1 && N(Low(v, 1), 1) == N(v, 1)
  {
    assert Pow2(1) == 2;
    BitLow(v, 1, 0);
  }

  // ---- literals ------------------------------------------------------------------

  lemma ShortLiterals()
    ensures B("0") == [false] && B("1") == [true]
    ensures B("00") == [false, false] && B("10") == [true, false]
    ensures B("000") == [false, false, false] && B("100") == [true, false, false] && B("001") == [false, false, true]
    ensures B("0100") == [false, true, false, false] && B("1000") == [true, false, false, false]
    ensures B("1001") == [true, false, false, true] && B("1100") == [true, true, false, false]
    ensures B("0000") == [false, false, false, false]
  {
  }

  lemma LongLiterals()
    ensures B("00000") == [false, false, false, false, false]
    ensures B("01000") == [false, true, false, false, false]
    ensures B("11000") == [true, true, false, false, false]
    ensures B("0000000") == [false, false, false, false, false, false, false]
  {
  }

  lemma Numbers()
    ensures N(0, 2) == B("00") && N(1, 2) == B("01") && N(0, 3) == B("000") && N(7, 3) == B("111")
    ensures N(0, 4) == B("0000") && N(7, 4) == B("0111") && N(1, 1) == B("1") && N(0, 1) == B("0")
  {
    assert !Bit(0, 0) && !Bit(0, 1) && !Bit(0, 2) && !Bit(0, 3) && Bit(1, 0) && !Bit(1, 1);
    assert Bit(7, 0) && Bit(7, 1) && Bit(7, 2) && !Bit(7, 3);
  }

  lemma Bitmaps8()
    ensures N(0x20, 8) == B("00100000") && N(0x80, 8) == B("10000000")
  {
    assert !Bit(0x20, 7) && !Bit(0x20, 6) && Bit(0x20, 5) && !Bit(0x20, 4);
    assert !Bit(0x20, 3) && !Bit(0x20, 2) && !Bit(0x20, 1) && !Bit(0x20, 0);
    assert Bit(0x80, 7) && !Bit(0x80, 6) && !Bit(0x80, 5) && !Bit(0x80, 4);
    assert !Bit(0x80, 3) && !Bit(0x80, 2) && !Bit(0x80, 1) && !Bit(0x80, 0);
  }

  // ---- regrouping ----------------------------------------------------------------

  lemma Flat2(a: seq<bool>, b: seq<bool>, k: seq<bool>)
    ensures a + (b + k) == a + b + k
  {
  }

  lemma Flat3(a: seq<bool>, b: seq<bool>, c: seq<bool>, k: seq<bool>)
    ensures a + (b + (c + k)) == a + b + c + k
  {
    Flat2(b, c, k);
    Flat2(a, b + c, k);
    Flat2(a, b, c);
  }

  lemma Flat4(a: seq<bool>, b: seq<bool>, c: seq<bool>, d: seq<bool>, k: seq<bool>)
    ensures a + (b + (c + (d + k))) == a + b + c + d + k
  {
    Flat3(a, b, c, d + k);
    Flat2(a + b + c, d, k);
  }

  lemma Flat5(a: seq<bool>, b: seq<bool>, c: seq<bool>, d: seq<bool>, e: seq<bool>, k: seq<bool>)
    ensures a + (b + (c + (d + (e + k)))) == a + b + c + d + e + k
  {
    Flat4(a, b, c, d, e + k);
    Flat2(a + b + c + d, e, k);
  }

  lemma Flat6(a: seq<bool>, b: seq<bool>, c: seq<bool>, d: seq<bool>, e: seq<bool>, f: seq<bool>, k: seq<bool>)
    ensures a + (b + (c + (d + (e + (f + k))))) == a + b + c + d + e + f + k
  {
    Flat5(a, b, c, d, e, f + k);
    Flat2(a + b + c + d + e, f, k);
  }

  // ---- pieces --------------------------------------------------------------------

  lemma TransactionIs(txn: TransactionID, k: seq<bool>)
    ensures PutTxn(Envelope(txn), k) == TransactionBits(txn) + k
  {
    hide Put, PutEnum, Low, N, B;
    ShortLiterals();
    OneBit(txn.initiator);
    assert Pow2(0) == 1 && Pow2(1) == 2;
    PutIs(txn.number, 8, k);
    EnumIs(Low(txn.initiator, 1), 2, 1, N(txn.number, 8) + k);
    Flat2(B("0"), N(txn.initiator, 1), N(txn.number, 8) + k);
    Flat4(B("0"), B("0"), N(txn.initiator, 1), N(txn.number, 8), k);
  }

  lemma ChoicesAre(c1: nat, k: seq<bool>)
    ensures PutChoices(c1, k) == B("0") + N(c1, 4) + B("000") + k
  {
    hide Put, N, B;
    ShortLiterals();
    Numbers();
    PutIs(0, 2, k);
    PutIs(c1, 4, PutBool(false, Put(0, 2, k)));
    assert B("0") + (B("00") + k) == B("000") + k by { Flat2(B("0"), B("00"), k); }
    Flat3(B("0"), N(c1, 4), B("000"), k);
  }

  lemma HeadIs(txn: TransactionID, endTransaction: bool, c1: nat, k: seq<bool>)
    ensures PutHead(Some(Envelope(txn)), endTransaction, None, None, c1, k) == HeadBits(txn, endTransaction, c1) + k
  {
    hide Put, PutTxn, PutChoices, N, B, TransactionBits;
    ShortLiterals();
    var c := B("0") + N(c1, 4) + B("000");
    ChoicesAre(c1, k);
    TransactionIs(txn, [endTransaction] + (c + k));
    Flat4(B("1001"), TransactionBits(txn), [endTransaction], c, k);
  }

  lemma GpsIs(k: seq<bool>)
    ensures PutGnssId(GPS, k) == B("00000") + k
  {
    hide PutEnum, Put, N, B;
    ShortLiterals();
    LongLiterals();
    Numbers();
    assert Pow2(2) == 4 && Pow2(3) == 8;
    EnumIs(0, 5, 3, k);
    assert [false] + ([false] + [false, false, false] + k) == [false, false, false, false, false] + k;
  }

  /** A bit string of eight bits whose length is coded in its range */
  lemma OctetStringIs(w: WBitString, max: nat, n: nat, k: seq<bool>)
    requires w.ext == NoExt && w.len == 8 && w.Wf(max) && n >= 1 && Pow2(n - 1) < max <= Pow2(n)
    ensures PutBitString(w, max, k) == B("0") + N(7, n) + N(w.bits, 8) + k
  {
    hide Put, PutConstrained, ReadConstrained, N, B, Pow2;
    ShortLiterals();
    PutIs(w.bits, 8, k);
    ConstrainedIs(8, 1, max, n, N(w.bits, 8) + k);
    Flat3(B("0"), N(7, n), N(w.bits, 8), k);
  }

  // ---- message bodies ------------------------------------------------------------

  lemma RequestCapabilitiesIs(k: seq<bool>)
    ensures PutBody(REQUEST_CAPABILITIES_BODY, k) == RequestCapabilitiesBits() + k
  {
    hide B;
    ShortLiterals();
    LongLiterals();
    Flat6(B("0"), B("01000"), B("0"), B("1"), B("0"), B("0"), k);
  }

  lemma SupportIs(k: seq<bool>)
    ensures GPS_SUPPORT.Wf() && PutSupport(GPS_SUPPORT, k) == SupportBits() + k
  {
    hide Put, PutConstrained, ReadConstrained, PutGnssId, PutBitString, B, N;
    GpsSupportWf();
    ShortLiterals();
    Numbers();
    Bitmaps8();
    assert Pow2(2) == 4 && Pow2(3) == 8;
    var s := B("0") + (B("10000000") + (B("0") + (B("0") + k)));
    PutIs(0x80, 8, [false] + ([false] + k));
    OctetStringIs(GPS_SUPPORT.modes, 8, 3, s);
    var modes := B("0") + B("111") + B("00100000");
    GpsIs(modes + s);
    Flat4(B("0"), B("00"), B("00000"), modes, s);
    Flat5(B("0") + B("00") + B("00000") + modes, B("0"), B("10000000"), B("0"), B("0"), k);
  }

  lemma SupportListIs(k: seq<bool>)
    ensures WProvCaps(NoExt, [GPS_SUPPORT]).Wf()
    ensures PutSupportList(WProvCaps(NoExt, [GPS_SUPPORT]), k) == B("0") + B("1000") + B("0000") + SupportBits() + k
  {
    hide Put, PutConstrained, ReadConstrained, PutSupport, B, N, SupportBits;
    GpsSupportWf();
    ShortLiterals();
    Numbers();
    SupportIs(k);
    assert [GPS_SUPPORT][1..] == [] && PutSupports([GPS_SUPPORT], k) == SupportBits() + k;
    assert Pow2(3) == 8 && Pow2(4) == 16;
    ConstrainedIs(1, 1, 16, 4, SupportBits() + k);
    Flat4(B("0"), B("1000"), B("0000"), SupportBits(), k);
  }

  lemma CapabilitiesIs(gnssSupported: bool, k: seq<bool>)
    ensures CapabilitiesBody(gnssSupported).Wf()
    ensures PutBody(CapabilitiesBody(gnssSupported), k) == CapabilitiesBits(gnssSupported) + k
  {
    hide PutSupportList, B, N, SupportBits;
    ShortLiterals();
    LongLiterals();
    SupportListIs(k);
    if gnssSupported {
      Flat6(B("0"), B("01000"), B("0"), B("1000"), B("0000"), SupportBits(), k);
      Flat4(B("0"), B("1000"), B("0000"), SupportBits(), k);
    } else {
      Flat2(B("0"), B("00000"), k);
    }
  }

  lemma RequestLocationIs(k: seq<bool>)
    ensures REQUEST_LOCATION_BODY.Wf() && PutBody(REQUEST_LOCATION_BODY, k) == RequestLocationBits() + k
  {
    hide Put, PutCommonReq, PutPosInstr, B;
    RequestLocationWf();
    ShortLiterals();
    LongLiterals();
    var c := B("0") + B("0000000") + B("0") + B("01");
    var p := B("0") + B("0") + (B("0") + B("0111") + B("10000000")) + B("0000");
    PosInstrIs(k);
    CommonReqIs(p + k);
    Flat4(B("0"), B("11000"), c, p, k);
  }

  lemma CommonReqIs(k: seq<bool>)
    ensures PutCommonReq(REQUEST_LOCATION_BODY.common, k) == B("0") + B("0000000") + B("0") + B("01") + k
  {
    hide Put, PutEnum, B, N;
    ShortLiterals();
    LongLiterals();
    Numbers();
    assert Pow2(1) == 2 && Pow2(2) == 4;
    EnumIs(1, 4, 2, k);
    Flat2(B("0"), B("01"), k);
    Flat4(B("0"), B("0000000"), B("0"), B("01"), k);
  }

  lemma PosInstrIs(k: seq<bool>)
    ensures REQUEST_LOCATION_BODY.Wf()
    ensures PutPosInstr(REQUEST_LOCATION_BODY.posInstr, k)
         == B("0") + B("0") + (B("0") + B("0111") + B("10000000")) + B("0000") + k
  {
    hide Put, PutBitString, B, N;
    RequestLocationWf();
    ShortLiterals();
    Numbers();
    Bitmaps8();
    assert Pow2(3) == 8 && Pow2(4) == 16;
    OctetStringIs(REQUEST_LOCATION_BODY.posInstr.value.methods, 16, 4, B("0000") + k);
    Flat4(B("0"), B("0"), B("0") + B("0111") + B("10000000"), B("0000"), k);
  }

  lemma ErrorIs(cause: Byte, k: seq<bool>)
    requires cause < 4
    ensures PutBody(ErrorBody(cause), k) == ErrorBits(cause) + k
  {
    hide Put, PutEnum, B, N;
    ShortLiterals();
    LongLiterals();
    Numbers();
    assert Pow2(1) == 2 && Pow2(2) == 4;
    var e := B("0") + N(cause, 2);
    EnumIs(cause, 4, 2, k);
    PutIs(1, 1, B("0") + (B("000") + (e + k)));
    Flat5(B("0"), B("01000"), B("0"), B("001"), B("0"), B("1") + (B("0") + (B("000") + (e + k))));
    Flat4(B("0") + B("01000") + B("0") + B("001") + B("0"), B("1"), B("0"), B("000"), e + k);
    Flat2(B("0") + B("01000") + B("0") + B("001") + B("0") + B("1") + B("0") + B("000"), e, k);
  }

  // ---- assistance data -----------------------------------------------------------

  lemma UncertaintyIs(loc: ReferenceLocation, k: seq<bool>)
    requires LocationFits(loc) && WireLocation(loc).Wf()
    ensures PutUncertainty(WireLocation(loc), k) == UncertaintyBits(loc) + k
  {
    hide PutConstrained, ReadConstrained, N;
    Powers();
    hide Pow2;
    var k4 := N(loc.confidence, 7) + k;
    var k3 := N(loc.uncertaintyAltitude, 7) + k4;
    var k2 := N(loc.orientationMajorAxis, 8) + k3;
    var k1 := N(loc.uncertaintySemiMinor, 7) + k2;
    ConstrainedIs(loc.confidence, 0, 100, 7, k);
    ConstrainedIs(loc.uncertaintyAltitude, 0, 127, 7, k4);
    ConstrainedIs(loc.orientationMajorAxis, 0, 179, 8, k3);
    ConstrainedIs(loc.uncertaintySemiMinor, 0, 127, 7, k2);
    ConstrainedIs(loc.uncertaintySemiMajor, 0, 127, 7, k1);
    Flat5(N(loc.uncertaintySemiMajor, 7), N(loc.uncertaintySemiMinor, 7), N(loc.orientationMajorAxis, 8),
          N(loc.uncertaintyAltitude, 7), N(loc.confidence, 7), k);
  }

  lemma WireWf(ad: AssistanceData)
    requires AssistanceFits(ad)
    ensures WireLocation(ad.referenceLocation).Wf() && WireAssist(ad).Wf()
  {
    hide Low;
    OneBit(ad.referenceLocation.latitudeSign);
    OneBit(ad.referenceLocation.altitudeDirection);
  }

  /** The sign, whose field takes only its low bit, and the degrees */
  lemma DegreesAre(loc: ReferenceLocation, k: seq<bool>)
    requires LocationFits(loc) && Low(loc.latitudeSign, 1) <= 1
    ensures PutConstrained(Low(loc.latitudeSign, 1), 0, 1, PutConstrained(loc.degreesLatitude, 0, 8388607,
              PutConstrained(loc.degreesLongitude, -8388608, 8388607, k)))
         == N(loc.latitudeSign, 1) + N(loc.degreesLatitude, 23) + N(loc.degreesLongitude + 8388608, 24) + k
  {
    hide PutConstrained, ReadConstrained, N, Low;
    OneBit(loc.latitudeSign);
    Powers();
    hide Pow2;
    var k2 := N(loc.degreesLongitude + 8388608, 24) + k;
    var k1 := N(loc.degreesLatitude, 23) + k2;
    ConstrainedIs(loc.degreesLongitude, -8388608, 8388607, 24, k);
    ConstrainedIs(loc.degreesLatitude, 0, 8388607, 23, k2);
    ConstrainedIs(Low(loc.latitudeSign, 1), 0, 1, 1, k1);
    Flat3(N(loc.latitudeSign, 1), N(loc.degreesLatitude, 23), N(loc.degreesLongitude + 8388608, 24), k);
  }

  lemma AltitudeIs(loc: ReferenceLocation, k: seq<bool>)
    requires LocationFits(loc) && Low(loc.altitudeDirection, 1) <= 1
    ensures PutConstrained(Low(loc.altitudeDirection, 1), 0, 1, PutConstrained(loc.altitude, 0, 32767, k))
         == N(loc.altitudeDirection, 1) + N(loc.altitude, 15) + k
  {
    hide PutConstrained, ReadConstrained, N, Low;
    OneBit(loc.altitudeDirection);
    Powers();
    hide Pow2;
    ConstrainedIs(loc.altitude, 0, 32767, 15, k);
    ConstrainedIs(Low(loc.altitudeDirection, 1), 0, 1, 1, N(loc.altitude, 15) + k);
    Flat2(N(loc.altitudeDirection, 1), N(loc.altitude, 15), k);
  }

  lemma LocationIs(loc: ReferenceLocation, k: seq<bool>)
    requires LocationFits(loc) && WireLocation(loc).Wf()
    ensures PutLocation(WireLocation(loc), k) == LocationBits(loc) + k
  {
    hide PutConstrained, ReadConstrained, N, Low, PutUncertainty, UncertaintyBits;
    UncertaintyIs(loc, k);
    var u, a := UncertaintyBits(loc), N(loc.altitudeDirection, 1) + N(loc.altitude, 15);
    AltitudeIs(loc, u + k);
    DegreesAre(loc, a + (u + k));
    var d := N(loc.latitudeSign, 1) + N(loc.degreesLatitude, 23) + N(loc.degreesLongitude + 8388608, 24);
    Flat3(d, a, u, k);
    Flat2(d, N(loc.altitudeDirection, 1), N(loc.altitude, 15));
  }

  lemma SystemTimeIs(ad: AssistanceData, k: seq<bool>)
    requires AssistanceFits(ad) && WireAssist(ad).Wf()
    ensures PutSystemTime(WireAssist(ad), k)
         == B("0") + B("000") + B("00000") + N(ad.dayNumber, 15) + N(ad.timeOfDay, 17) + k
  {
    hide PutConstrained, ReadConstrained, PutGnssId, N, B, WireLocation;
    ShortLiterals();
    Powers();
    hide Pow2;
    var t := N(ad.timeOfDay, 17) + k;
    ConstrainedIs(ad.timeOfDay, 0, 86399, 17, k);
    ConstrainedIs(ad.dayNumber, 0, 32767, 15, t);
    GpsIs(N(ad.dayNumber, 15) + t);
    Flat5(B("0"), B("000"), B("00000"), N(ad.dayNumber, 15), N(ad.timeOfDay, 17), k);
  }

  lemma TimeIs(ad: AssistanceData, k: seq<bool>)
    requires AssistanceFits(ad) && WireAssist(ad).Wf()
    ensures PutReferenceTime(WireAssist(ad), k) == TimeBits(ad) + k
  {
    hide PutConstrained, ReadConstrained, PutSystemTime, N, B, WireLocation;
    ShortLiterals();
    assert Pow2(6) == 64 && Pow2(7) == 128;
    var u := N(ad.referenceTimeUnc, 7) + k;
    ConstrainedIs(ad.referenceTimeUnc, 0, 127, 7, k);
    SystemTimeIs(ad, u);
    var system := B("0") + B("000") + B("00000") + N(ad.dayNumber, 15) + N(ad.timeOfDay, 17);
    Flat4(B("0"), B("10"), system, N(ad.referenceTimeUnc, 7), k);
  }

  lemma AssistanceIs(ad: AssistanceData, k: seq<bool>)
    requires AssistanceFits(ad)
    ensures WireAssist(ad).Wf()
    ensures PutAssist(NoExt, WireAssist(ad), k) == AssistanceBits(ad) + k
  {
    hide PutLocation, PutReferenceTime, B, WireLocation, TimeBits, LocationBits;
    ShortLiterals();
    WireWf(ad);
    var l := LocationBits(ad.referenceLocation);
    LocationIs(ad.referenceLocation, k);
    TimeIs(ad, B("0") + (l + k));
    var front := B("0") + B("0100") + B("0") + B("100") + B("0") + B("1100");
    Flat6(B("0"), B("0100"), B("0"), B("100"), B("0"), B("1100"), TimeBits(ad) + (B("0") + (l + k)));
    Flat4(front, TimeBits(ad), B("0"), l, k);
  }

  // ---- measurements --------------------------------------------------------------

  lemma SatIs(sv: SatMeas, k: seq<bool>)
    requires SatFits(sv)
    ensures PutSat(WireSat(sv), k) == SatBits(sv) + k
  {
    hide PutConstrained, ReadConstrained, PutEnum, N, B;
    ShortLiterals();
    Powers();
    hide Pow2;
    var k3 := N(sv.codePhaseRMSError, 6) + k;
    var k2 := N(sv.integerCodePhase, 7) + k3;
    var k1 := N(sv.codePhase, 21) + k2;
    var m := B("0") + N(sv.mpathDet, 2);
    ConstrainedIs(sv.codePhaseRMSError, 0, 63, 6, k);
    ConstrainedIs(sv.integerCodePhase, 0, 127, 7, k3);
    ConstrainedIs(sv.codePhase, 0, 2097151, 21, k2);
    EnumIs(sv.mpathDet, 4, 2, k1);
    ConstrainedIs(sv.cNo, 0, 63, 6, m + k1);
    ConstrainedIs(sv.svId, 0, 63, 6, N(sv.cNo, 6) + (m + k1));
    var front := B("0") + B("0100") + B("0") + N(sv.svId, 6) + N(sv.cNo, 6) + m;
    Flat6(B("0"), B("0100"), B("0"), N(sv.svId, 6), N(sv.cNo, 6), m, k1);
    Flat4(front, N(sv.codePhase, 21), N(sv.integerCodePhase, 7), N(sv.codePhaseRMSError, 6), k);
  }

  lemma {:induction false} SatsAre(sats: seq<SatMeas>, k: seq<bool>)
    requires forall i | 0 <= i < |sats| :: SatFits(sats[i])
    ensures forall i | 0 <= i < |sats| :: WireSats(sats)[i].Wf()
    ensures PutSats(WireSats(sats), k) == SatsBits(sats) + k
  {
    hide PutSat, SatBits;
    if sats == [] {
      assert WireSats(sats) == [] && [] + k == k;
    } else {
      SatsAre(sats[1..], k);
      assert WireSats(sats)[1..] == WireSats(sats[1..]);
      SatIs(sats[0], SatsBits(sats[1..]) + k);
      Flat2(SatBits(sats[0]), SatsBits(sats[1..]), k);
    }
  }

  lemma SignalIs(m: LocationMeasurements, k: seq<bool>)
    requires MeasurementsFit(m)
    ensures WireMeas(m).Wf()
    ensures PutElement(WireMeas(m), k) == SignalBits(m.sats) + k
  {
    hide PutConstrained, ReadConstrained, PutSats, N, B, SatsBits;
    ShortLiterals();
    Numbers();
    SatsAre(m.sats, k);
    Powers();
    hide Pow2;
    var t := SatsBits(m.sats) + k;
    ConstrainedIs(|m.sats|, 1, 64, 6, t);
    ConstrainedIs(0, 0, 7, 3, N(|m.sats| - 1, 6) + t);
    Flat6(B("0"), B("0"), B("0"), B("000"), N(|m.sats| - 1, 6), SatsBits(m.sats), k);
  }

  lemma MeasTimeIs(m: LocationMeasurements, k: seq<bool>)
    requires MeasurementsFit(m) && WireMeas(m).Wf()
    ensures PutMeasTime(WireMeas(m), k) == B("0") + B("000") + N(m.todMsec, 22) + B("00000") + k
  {
    hide PutConstrained, ReadConstrained, PutGnssId, N, B, WireSats;
    ShortLiterals();
    Powers();
    hide Pow2;
    GpsIs(k);
    ConstrainedIs(m.todMsec, 0, 3599999, 22, B("00000") + k);
    Flat4(B("0"), B("000"), N(m.todMsec, 22), B("00000"), k);
  }

  lemma MeasIs(m: LocationMeasurements, k: seq<bool>)
    requires MeasurementsFit(m)
    ensures WireMeas(m).Wf()
    ensures PutMeas(WireMeas(m), k)
         == B("0") + (B("0") + B("000") + N(m.todMsec, 22) + B("00000"))
            + B("0000") + B("0") + B("00000") + B("000") + SignalBits(m.sats) + k
  {
    hide PutConstrained, ReadConstrained, PutGnssId, PutMeasTime, PutElement, N, B, SignalBits, WireSats;
    ShortLiterals();
    Numbers();
    SignalIs(m, k);
    Powers();
    hide Pow2;
    var s, time := SignalBits(m.sats), B("0") + B("000") + N(m.todMsec, 22) + B("00000");
    ConstrainedIs(1, 1, 8, 3, s + k);
    GpsIs(B("000") + (s + k));
    var t := B("0") + (B("00000") + (B("000") + (s + k)));
    ConstrainedIs(1, 1, 16, 4, t);
    MeasTimeIs(m, B("0000") + t);
    Flat3(B("0"), time, B("0000"), t);
    Flat4(B("0") + time + B("0000"), B("0"), B("00000"), B("000"), s + k);
    Flat2(B("0") + time + B("0000") + B("0") + B("00000") + B("000"), s, k);
  }

  lemma MeasurementsAre(m: LocationMeasurements, k: seq<bool>)
    requires MeasurementsFit(m)
    ensures MeasurementsBody(m).Wf()
    ensures PutBody(MeasurementsBody(m), k) == MeasurementsBits(m) + k
  {
    hide PutMeas, N, B, SignalBits, WireMeas;
    ShortLiterals();
    LongLiterals();
    MeasIs(m, k);
    var s, time := SignalBits(m.sats), B("0") + B("000") + N(m.todMsec, 22) + B("00000");
    var front := B("0") + B("01000") + B("0") + B("100");
    var t := B("0000") + (B("0") + (B("00000") + (B("000") + (s + k))));
    Flat6(B("0") + time, B("0000"), B("0"), B("00000"), B("000"), s, k);
    Flat2(B("0"), time, t);
    Flat6(B("0"), B("01000"), B("0"), B("100"), B("0"), time, t);
    Flat6(front + B("0") + time, B("0000"), B("0"), B("00000"), B("000"), s, k);
  }

  // ---- messages ------------------------------------------------------------------

  /** A whole message, from the bits of its body */
  lemma MessageIs(txn: TransactionID, endTransaction: bool, body: WBody, bits: seq<bool>)
    requires Wire(txn, endTransaction, body).Wf() && PutBody(body, []) == bits
    ensures PutMessage(Wire(txn, endTransaction, body), []) == HeadBits(txn, endTransaction, body.Index()) + bits
  {
    hide PutHead, PutBody, HeadBits;
    HeadIs(txn, endTransaction, body.Index(), bits);
  }
}
