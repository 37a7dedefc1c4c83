/** The LPP message builders, on the mutable bit writer, and their round trips. */
module LppCodec {
  import opened Wrappers
  import opened Machine
  import opened Bits
  import opened Uper
  import opened BitStreams
  import opened LppSyntax
  import opened LppParse
  import opened LppWire
  import opened LppLayout

  /** `b` holds exactly the message w, zero-padded to whole octets. */
  ghost predicate Encodes(b: seq<Byte>, w: WMessage) {
    w.Wf() && exists n: nat | n < 8 :: StreamBits(b) == PutMessage(w, Zeros(n))
  }

  /** The decoder accepts `b` as `pdu`. */
  ghost predicate Decodes(b: seq<Byte>, pdu: PDU) {
    var r := ParseMessage(StreamBits(b));
    r.Got? && r.value == pdu
  }

  lemma EncodedDecodes(b: seq<Byte>, w: WMessage)
    requires Encodes(b, w)
    ensures Decodes(b, View(w))
  {
    hide PutMessage, ParseMessage;
    var n: nat :| n < 8 && StreamBits(b) == PutMessage(w, Zeros(n));
    MessageInverts(w, Zeros(n));
  }

  // ---- builders -----------------------------------------------------------

  /** The n low bits of a bitmap constant, most significant first */
  function Bitmap(v: nat, n: nat): (fs: seq<bool>)
    ensures |fs| == n && forall i | 0 <= i < n :: fs[i] == Bit(v, n - 1 - i)
  {
    if n == 0 then [] else [Bit(v, n - 1)] + Bitmap(v, n - 1)
  }

  /** The presence bitmaps the builders write as numbers */
  lemma Bitmaps()
    ensures Bitmap(0x0, 1) == [false]
    ensures Bitmap(0x2, 2) == [true, false]
    ensures Bitmap(0x0, 2) == [false, false]
    ensures Bitmap(0x1, 3) == [false, false, true]
    ensures Bitmap(0x4, 3) == [true, false, false]
    ensures Bitmap(0x0, 3) == [false, false, false]
    ensures Bitmap(0x9, 4) == [true, false, false, true]
    ensures Bitmap(0xC, 4) == [true, true, false, false]
    ensures Bitmap(0x4, 4) == [false, true, false, false]
    ensures Bitmap(0x8, 4) == [true, false, false, false]
    ensures Bitmap(0x18, 5) == [true, true, false, false, false]
    ensures Bitmap(0x8, 5) == [false, true, false, false, false]
    ensures Bitmap(0x0, 5) == [false, false, false, false, false]
    ensures Bitmap(0x0, 7) == [false, false, false, false, false, false, false]
  {
  }

  lemma FlagsConst(v: nat, fs: seq<bool>)
    requires fs == Bitmap(v, |fs|)
    ensures forall k {:trigger Flags(fs, k)} :: Flags(fs, k) == Put(v, |fs|, k)
  {
    forall k ensures Flags(fs, k) == Put(v, |fs|, k) { FlagsAreBits(v, fs, k); }
  }

  /** The root index is truncated to its width. */
  lemma EnumTruncates(v: nat, rootCount: nat, w: nat)
    requires w == BitWidth(rootCount) && rootCount < TWO64
    ensures forall k {:trigger PutEnumRoot(Low(v, w), rootCount, k)} ::
              PutEnumRoot(Low(v, w), rootCount, k) == PutEnumRoot(v, rootCount, k)
  {
    forall k ensures PutEnumRoot(Low(v, w), rootCount, k) == PutEnumRoot(v, rootCount, k) {
      LowBitsOnly(v, w, k);
    }
  }

  lemma LowBitsOnly(v: nat, n: nat, k: seq<bool>)
    ensures Put(Low(v, n), n, k) == Put(v, n, k)
  {
    forall i: nat | i < n ensures Bit(v, i) == Bit(Low(v, n), i) { BitLow(v, n, i); }
    PutRawLow(v, Low(v, n), n, k);
  }

  method WriteTransaction(w: BitWriter, txn: TransactionID)
    requires w.Valid()
    modifies w
    ensures w.Valid()
    ensures forall k {:trigger PutTxn(Envelope(txn), k)} ::
              w.Contents() + k == old(w.Contents()) + PutTxn(Envelope(txn), k)
  {
    hide Put, PutBool, PutEnumRoot, Low, StreamBits, ReadBits;
    assert BitWidth(2) == 1;
    EnumTruncates(txn.initiator, 2, 1);
    w.WriteBit(false);
    w.WriteEnumExt(txn.initiator, 2);
    w.WriteBits(txn.number, 8);
  }

  method WriteChoices(w: BitWriter, c1: nat)
    requires w.Valid()
    modifies w
    ensures w.Valid()
    ensures forall k {:trigger PutChoices(c1, k)} :: w.Contents() + k == old(w.Contents()) + PutChoices(c1, k)
  {
    hide Put, PutBool, StreamBits, ReadBits;
    assert BitWidth(16) == 4;
    w.WriteBit(false);
    w.WriteBits(c1, BitWidth(16));
    w.WriteBit(false);
    w.WriteBits(0, 2);
  }

  method WriteEnvelope(w: BitWriter, txn: TransactionID, endTransaction: bool, c1: nat)
    requires w.Valid()
    modifies w
    ensures w.Valid()
    ensures forall k {:trigger PutHead(Some(Envelope(txn)), endTransaction, None, None, c1, k)} ::
              w.Contents() + k == old(w.Contents()) + PutHead(Some(Envelope(txn)), endTransaction, None, None, c1, k)
  {
    hide Put, PutBool, Flags, StreamBits, ReadBits, PutTxn, PutChoices;
    Bitmaps();
    FlagsConst(0x9, [true, false, false, true]);
    w.WriteBits(0x9, 4);
    WriteTransaction(w, txn);
    w.WriteBool(endTransaction);
    WriteChoices(w, c1);
  }

  /** Octets of a finished writer whose contents are the message w */
  lemma Finished(b: seq<Byte>, bits: seq<bool>, w: WMessage)
    requires w.Wf() && Packs(b, bits)
    requires forall k {:trigger PutMessage(w, k)} :: bits + k == PutMessage(w, k)
    ensures Encodes(b, w)
  {
    hide PutMessage;
    var n := 8 * |b| - |bits|;
    assert StreamBits(b) == bits + Zeros(n) == PutMessage(w, Zeros(n));
  }

  /** The same octets, bit by bit */
  lemma FinishedBits(b: seq<Byte>, bits: seq<bool>, w: WMessage, expected: seq<bool>)
    requires w.Wf() && Packs(b, bits) && PutMessage(w, []) == expected
    requires forall k {:trigger PutMessage(w, k)} :: bits + k == PutMessage(w, k)
    ensures Packs(b, expected)
  {
    hide PutMessage, Packs;
    assert bits + [] == bits;
  }

  method WriteRequestCapabilities(w: BitWriter)
    requires w.Valid()
    modifies w
    ensures w.Valid()
    ensures forall k {:trigger PutBody(REQUEST_CAPABILITIES_BODY, k)} ::
              w.Contents() + k == old(w.Contents()) + PutBody(REQUEST_CAPABILITIES_BODY, k)
  {
    hide Put, PutBool, Flags, StreamBits;
    Bitmaps();
    FlagsConst(0x8, [false, true, false, false, false]);
    w.WriteBit(false);
    w.WriteBits(0x8, 5);
    w.WriteBit(false);
    w.WriteBool(true);
    w.WriteBool(false);
    w.WriteBool(false);
  }

  method BuildRequestCapabilities(txn: TransactionID) returns (r: Result<seq<Byte>>)
    ensures r.Ok? && Encodes(r.value, Wire(txn, false, REQUEST_CAPABILITIES_BODY))
    ensures Decodes(r.value, PDU(Some(txn), false, RequestCapabilities)) <==> txn.initiator < 2
    ensures Packs(r.value, HeadBits(txn, false, 0) + RequestCapabilitiesBits())
  {
    hide PutHead, PutBody, StreamBits, Low, Encodes, Decodes, HeadBits, RequestCapabilitiesBits;
    var w := new BitWriter();
    WriteEnvelope(w, txn, false, 0);
    WriteRequestCapabilities(w);
    var b := w.Bytes();
    Finished(b, w.Contents(), Wire(txn, false, REQUEST_CAPABILITIES_BODY));
    RequestCapabilitiesIs([]);
    ghost var bits := RequestCapabilitiesBits() + [];
    assert bits == RequestCapabilitiesBits();
    MessageIs(txn, false, REQUEST_CAPABILITIES_BODY, bits);
    FinishedBits(b, w.Contents(), Wire(txn, false, REQUEST_CAPABILITIES_BODY), HeadBits(txn, false, 0) + bits);
    RequestCapabilitiesRoundTrip(b, txn);
    return Ok(b);
  }

  method WriteGnssId(w: BitWriter, id: nat)
    requires w.Valid() && id < 5
    modifies w
    ensures w.Valid()
    ensures forall k {:trigger PutGnssId(WGnssId(NoExt, id), k)} ::
              w.Contents() + k == old(w.Contents()) + PutGnssId(WGnssId(NoExt, id), k)
  {
    hide Put, PutBool, PutEnumRoot, StreamBits;
    w.WriteBit(false);
    w.WriteEnumExt(id, 5);
  }

  method WriteSupport(w: BitWriter)
    requires w.Valid()
    modifies w
    ensures w.Valid() && GPS_SUPPORT.Wf()
    ensures forall k {:trigger PutSupport(GPS_SUPPORT, k)} ::
              w.Contents() + k == old(w.Contents()) + PutSupport(GPS_SUPPORT, k)
  {
    hide Put, PutBool, PutEnumRoot, Flags, StreamBits, PutConstrained, PutGnssId;
    GpsSupportWf();
    Bitmaps();
    FlagsConst(0x0, [false, false]);
    w.WriteBit(false);
    w.WriteBits(0x0, 2);
    WriteGnssId(w, 0);
    w.WriteBit(false);
    var _ := w.WriteConstrained(8, 1, 8);
    w.WriteBits(0x20, 8);
    w.WriteBit(false);
    w.WriteBits(0x80, 8);
    w.WriteBool(false);
    w.WriteBool(false);
  }

  method WriteSupportList(w: BitWriter)
    requires w.Valid()
    modifies w
    ensures w.Valid() && WProvCaps(NoExt, [GPS_SUPPORT]).Wf()
    ensures forall k {:trigger PutSupportList(WProvCaps(NoExt, [GPS_SUPPORT]), k)} ::
              w.Contents() + k == old(w.Contents()) + PutSupportList(WProvCaps(NoExt, [GPS_SUPPORT]), k)
  {
    hide Put, PutBool, Flags, StreamBits, PutConstrained, PutSupport;
    GpsSupportWf();
    Bitmaps();
    FlagsConst(0x8, [true, false, false, false]);
    w.WriteBit(false);
    w.WriteBits(0x8, 4);
    var _ := w.WriteConstrained(1, 1, 16);
    WriteSupport(w);
    assert forall k {:trigger PutSupports([GPS_SUPPORT], k)} ::
        PutSupports([GPS_SUPPORT], k) == PutSupport(GPS_SUPPORT, k);
  }

  method WriteCapabilities(w: BitWriter, gnssSupported: bool)
    requires w.Valid()
    modifies w
    ensures w.Valid() && CapabilitiesBody(gnssSupported).Wf()
    ensures forall k {:trigger PutBody(CapabilitiesBody(gnssSupported), k)} ::
              w.Contents() + k == old(w.Contents()) + PutBody(CapabilitiesBody(gnssSupported), k)
  {
    hide Put, PutBool, Flags, StreamBits, PutSupportList;
    Bitmaps();
    FlagsConst(0x0, [false, false, false, false, false]);
    FlagsConst(0x8, [false, true, false, false, false]);
    w.WriteBit(false);
    if !gnssSupported {
      w.WriteBits(0x0, 5);
      return;
    }
    w.WriteBits(0x8, 5);
    WriteSupportList(w);
  }

  method BuildProvideCapabilities(txn: TransactionID, gnssSupported: bool) returns (r: Result<seq<Byte>>)
    ensures r.Ok? && Encodes(r.value, Wire(txn, true, CapabilitiesBody(gnssSupported)))
    ensures Decodes(r.value, PDU(Some(txn), true, ProvideCapabilities(Advertised(gnssSupported))))
       <==> txn.initiator < 2
    ensures Packs(r.value, HeadBits(txn, true, 1) + CapabilitiesBits(gnssSupported))
  {
    hide PutHead, PutBody, StreamBits, Low, Encodes, Decodes, HeadBits, CapabilitiesBits;
    var w := new BitWriter();
    WriteEnvelope(w, txn, true, 1);
    WriteCapabilities(w, gnssSupported);
    var b := w.Bytes();
    Finished(b, w.Contents(), Wire(txn, true, CapabilitiesBody(gnssSupported)));
    CapabilitiesIs(gnssSupported, []);
    ghost var bits := CapabilitiesBits(gnssSupported) + [];
    assert bits == CapabilitiesBits(gnssSupported);
    MessageIs(txn, true, CapabilitiesBody(gnssSupported), bits);
    FinishedBits(b, w.Contents(), Wire(txn, true, CapabilitiesBody(gnssSupported)), HeadBits(txn, true, 1) + bits);
    ProvideCapabilitiesRoundTrip(b, txn, gnssSupported);
    return Ok(b);
  }

  // ---- ProvideAssistanceData ----------------------------------------------

  lemma LowBit(v: nat)
    ensures Low(v, 1) == v % 2
    ensures forall k {:trigger PutConstrained(Low(v, 1), 0, 1, k)} :: PutConstrained(Low(v, 1), 0, 1, k) == Put(v, 1, k)
  {
    assert BitWidth(RangeSize(0, 1)) == 1;
    assert Low(v, 1) == v % 2 + 2 * Low(v / 2, 0);
    forall k ensures PutConstrained(Low(v, 1), 0, 1, k) == Put(v, 1, k) { LowBitsOnly(v, 1, k); }
  }

  method WriteLocation(w: BitWriter, loc: ReferenceLocation) returns (ok: bool)
    requires w.Valid()
    modifies w
    ensures w.Valid()
    ensures ok == LocationFits(loc)
    ensures ok ==> WireLocation(loc).Wf()
    ensures ok ==> forall k {:trigger PutLocation(WireLocation(loc), k)} ::
                     w.Contents() + k == old(w.Contents()) + PutLocation(WireLocation(loc), k)
  {
    hide Put, PutConstrained, StreamBits, Low;
    LowBit(loc.latitudeSign);
    LowBit(loc.altitudeDirection);
    w.WriteBits(loc.latitudeSign, 1);
    ok := w.WriteConstrained(loc.degreesLatitude, 0, 8388607);
    if !ok { return; }
    ok := w.WriteConstrained(loc.degreesLongitude, -8388608, 8388607);
    if !ok { return; }
    w.WriteBits(loc.altitudeDirection, 1);
    ok := w.WriteConstrained(loc.altitude, 0, 32767);
    if !ok { return; }
    ok := w.WriteConstrained(loc.uncertaintySemiMajor, 0, 127);
    if !ok { return; }
    ok := w.WriteConstrained(loc.uncertaintySemiMinor, 0, 127);
    if !ok { return; }
    ok := w.WriteConstrained(loc.orientationMajorAxis, 0, 179);
    if !ok { return; }
    ok := w.WriteConstrained(loc.uncertaintyAltitude, 0, 127);
    if !ok { return; }
    ok := w.WriteConstrained(loc.confidence, 0, 100);
  }

  method WriteReferenceTime(w: BitWriter, ad: AssistanceData) returns (ok: bool)
    requires w.Valid()
    modifies w
    ensures w.Valid()
    ensures ok == (ad.dayNumber <= 32767 && ad.timeOfDay <= 86399 && ad.referenceTimeUnc <= 127)
    ensures ok && WireAssist(ad).Wf() ==>
              forall k {:trigger PutReferenceTime(WireAssist(ad), k)} ::
                w.Contents() + k == old(w.Contents()) + PutReferenceTime(WireAssist(ad), k)
  {
    hide Put, PutBool, PutConstrained, Flags, StreamBits, PutGnssId, WireLocation;
    Bitmaps();
    FlagsConst(0x2, [true, false]);
    FlagsConst(0x0, [false, false, false]);
    w.WriteBit(false);
    w.WriteBits(0x2, 2);
    w.WriteBit(false);
    w.WriteBits(0x0, 3);
    WriteGnssId(w, 0);
    ok := w.WriteConstrained(ad.dayNumber, 0, 32767);
    if !ok { return; }
    ok := w.WriteConstrained(ad.timeOfDay, 0, 86399);
    if !ok { return; }
    ok := w.WriteConstrained(ad.referenceTimeUnc, 0, 127);
  }

  method WriteAssistance(w: BitWriter, ad: AssistanceData) returns (ok: bool)
    requires w.Valid()
    modifies w
    ensures w.Valid()
    ensures ok == AssistanceFits(ad)
    ensures ok ==> WireAssist(ad).Wf()
    ensures ok ==> forall k {:trigger PutAssist(NoExt, WireAssist(ad), k)} ::
                     w.Contents() + k == old(w.Contents()) + PutAssist(NoExt, WireAssist(ad), k)
  {
    hide Put, PutBool, Flags, StreamBits, PutLocation, PutReferenceTime, WireLocation, LocationFits;
    Bitmaps();
    FlagsConst(0x4, [false, true, false, false]);
    FlagsConst(0x4, [true, false, false]);
    FlagsConst(0xC, [true, true, false, false]);
    w.WriteBit(false);
    w.WriteBits(0x4, 4);
    w.WriteBit(false);
    w.WriteBits(0x4, 3);
    w.WriteBit(false);
    w.WriteBits(0xC, 4);
    ok := WriteReferenceTime(w, ad);
    if !ok { return; }
    w.WriteBit(false);
    ok := WriteLocation(w, ad.referenceLocation);
  }

  lemma AssistanceLayout(txn: TransactionID, ad: AssistanceData) returns (bits: seq<bool>)
    requires AssistanceFits(ad)
    ensures LocationFits(ad.referenceLocation) && bits == HeadBits(txn, true, 3) + AssistanceBits(ad)
    ensures var w := Wire(txn, true, WProvideAssistanceData(NoExt, WireAssist(ad)));
            w.Wf() && PutMessage(w, []) == bits
  {
    hide PutAssist, WireAssist, HeadBits, AssistanceBits, Low, PutHead;
    bits := HeadBits(txn, true, 3) + AssistanceBits(ad);
    AssistanceIs(ad, []);
    assert AssistanceBits(ad) + [] == AssistanceBits(ad);
    var body := WProvideAssistanceData(NoExt, WireAssist(ad));
    assert Wire(txn, true, body).Wf() by { LowBit(txn.initiator); }
    MessageIs(txn, true, body, AssistanceBits(ad));
  }

  method BuildProvideAssistanceData(txn: TransactionID, ad: AssistanceData) returns (r: Result<seq<Byte>>)
    ensures r.Ok? == AssistanceFits(ad)
    ensures r.Ok? ==> Encodes(r.value, Wire(txn, true, WProvideAssistanceData(NoExt, WireAssist(ad))))
    ensures r.Ok? ==>
              (Decodes(r.value, PDU(Some(txn), true, ProvideAssistanceData(ad)))
               <==> txn.initiator < 2 && OneBitFields(ad))
    ensures r.Ok? ==> LocationFits(ad.referenceLocation) && Packs(r.value, HeadBits(txn, true, 3) + AssistanceBits(ad))
  {
    hide PutHead, PutAssist, StreamBits, Low, WireAssist, AssistanceFits, OneBitFields, Encodes, Decodes, HeadBits;
    var w := new BitWriter();
    WriteEnvelope(w, txn, true, 3);
    var ok := WriteAssistance(w, ad);
    if !ok {
      return Err;
    }
    var b := w.Bytes();
    Finished(b, w.Contents(), Wire(txn, true, WProvideAssistanceData(NoExt, WireAssist(ad))));
    ghost var bits := AssistanceLayout(txn, ad);
    FinishedBits(b, w.Contents(), Wire(txn, true, WProvideAssistanceData(NoExt, WireAssist(ad))), bits);
    AssistanceRoundTrip(b, txn, ad);
    return Ok(b);
  }

  // ---- RequestLocationInformation -----------------------------------------

  method WritePosInstr(w: BitWriter)
    requires w.Valid() && REQUEST_LOCATION_BODY.Wf()
    modifies w
    ensures w.Valid()
    ensures forall k {:trigger PutPosInstr(REQUEST_LOCATION_BODY.posInstr, k)} ::
              w.Contents() + k == old(w.Contents()) + PutPosInstr(REQUEST_LOCATION_BODY.posInstr, k)
  {
    hide Put, PutBool, Flags, StreamBits, PutConstrained;
    w.WriteBit(false);
    w.WriteBit(false);
    w.WriteBit(false);
    var _ := w.WriteConstrained(8, 1, 16);
    w.WriteBits(0x80, 8);
    w.WriteBool(false);
    w.WriteBool(false);
    w.WriteBool(false);
    w.WriteBool(false);
    FourFalse();
  }

  method WriteRequestLocation(w: BitWriter)
    requires w.Valid() && REQUEST_LOCATION_BODY.Wf()
    modifies w
    ensures w.Valid()
    ensures forall k {:trigger PutBody(REQUEST_LOCATION_BODY, k)} ::
              w.Contents() + k == old(w.Contents()) + PutBody(REQUEST_LOCATION_BODY, k)
  {
    hide Put, PutBool, Flags, StreamBits, PutEnumRoot, PutPosInstr;
    Bitmaps();
    FlagsConst(0x18, [true, true, false, false, false]);
    FlagsConst(0x0, [false, false, false, false, false, false, false]);
    w.WriteBit(false);
    w.WriteBits(0x18, 5);
    w.WriteBit(false);
    w.WriteBits(0x0, 7);
    w.WriteEnumExt(1, 4);
    WritePosInstr(w);
  }

  method BuildRequestLocationInformation(txn: TransactionID) returns (r: Result<seq<Byte>>)
    ensures r.Ok? && Encodes(r.value, Wire(txn, false, REQUEST_LOCATION_BODY))
    ensures Decodes(r.value, PDU(Some(txn), false, RequestLocationInformation)) <==> txn.initiator < 2
    ensures Packs(r.value, HeadBits(txn, false, 4) + RequestLocationBits())
  {
    hide PutHead, PutBody, StreamBits, Low, Encodes, Decodes, HeadBits, RequestLocationBits;
    RequestLocationWf();
    var w := new BitWriter();
    WriteEnvelope(w, txn, false, 4);
    WriteRequestLocation(w);
    var b := w.Bytes();
    Finished(b, w.Contents(), Wire(txn, false, REQUEST_LOCATION_BODY));
    RequestLocationIs([]);
    ghost var bits := RequestLocationBits() + [];
    assert bits == RequestLocationBits();
    MessageIs(txn, false, REQUEST_LOCATION_BODY, bits);
    FinishedBits(b, w.Contents(), Wire(txn, false, REQUEST_LOCATION_BODY), HeadBits(txn, false, 4) + bits);
    RequestLocationRoundTrip(b, txn);
    return Ok(b);
  }

  lemma FourFalse()
    ensures forall k {:trigger Flags([false, false, false, false], k)} ::
              Flags([false, false, false, false], k)
              == PutBool(false, PutBool(false, PutBool(false, PutBool(false, k))))
  {
  }

  // ---- ProvideLocationInformation -----------------------------------------

  method WriteSat(w: BitWriter, sv: SatMeas) returns (ok: bool)
    requires w.Valid()
    modifies w
    ensures w.Valid()
    ensures ok == SatFits(sv)
    ensures ok ==> forall k {:trigger PutSat(WireSat(sv), k)} ::
                     w.Contents() + k == old(w.Contents()) + PutSat(WireSat(sv), k)
  {
    hide Put, PutBool, PutConstrained, Flags, StreamBits, PutEnumRoot;
    Bitmaps();
    FlagsConst(0x4, [false, true, false, false]);
    w.WriteBit(false);
    w.WriteBits(0x4, 4);
    w.WriteBit(false);
    ok := w.WriteConstrained(sv.svId, 0, 63);
    if !ok { return; }
    ok := w.WriteConstrained(sv.cNo, 0, 63);
    if !ok { return; }
    if sv.mpathDet >= 4 {
      return false;
    }
    w.WriteEnumExt(sv.mpathDet, 4);
    ok := w.WriteConstrained(sv.codePhase, 0, 2097151);
    if !ok { return; }
    ok := w.WriteConstrained(sv.integerCodePhase, 0, 127);
    if !ok { return; }
    ok := w.WriteConstrained(sv.codePhaseRMSError, 0, 63);
  }

  lemma {:induction false} PutSatsSnoc(ws: seq<WSat>, last: WSat, k: seq<bool>)
    requires (forall i | 0 <= i < |ws| :: ws[i].Wf()) && last.Wf()
    ensures PutSats(ws + [last], k) == PutSats(ws, PutSat(last, k))
  {
    hide PutSat;
    if ws == [] {
      assert ws + [last] == [last];
    } else {
      PutSatsSnoc(ws[1..], last, k);
      assert (ws + [last])[1..] == ws[1..] + [last];
    }
  }

  method WriteSats(w: BitWriter, sats: seq<SatMeas>) returns (ok: bool)
    requires w.Valid()
    modifies w
    ensures w.Valid()
    ensures ok == forall i | 0 <= i < |sats| :: SatFits(sats[i])
    ensures ok ==> forall k {:trigger PutSats(WireSats(sats), k)} ::
                     w.Contents() + k == old(w.Contents()) + PutSats(WireSats(sats), k)
  {
    hide PutSat, StreamBits;
    ghost var start := w.Contents();
    var i := 0;
    while i < |sats|
      invariant 0 <= i <= |sats|
      invariant w.Valid()
      invariant forall j | 0 <= j < i :: SatFits(sats[j])
      invariant forall k {:trigger PutSats(WireSats(sats[..i]), k)} ::
                  w.Contents() + k == start + PutSats(WireSats(sats[..i]), k)
    {
      ok := WriteSat(w, sats[i]);
      if !ok {
        return;
      }
      assert WireSats(sats[..i + 1]) == WireSats(sats[..i]) + [WireSat(sats[i])];
      forall k ensures w.Contents() + k == start + PutSats(WireSats(sats[..i + 1]), k) {
        PutSatsSnoc(WireSats(sats[..i]), WireSat(sats[i]), k);
        var t := PutSats(WireSats(sats[..i]), PutSat(WireSat(sats[i]), k));
      }
      i := i + 1;
    }
    assert sats[..i] == sats;
    return true;
  }

  method WriteElement(w: BitWriter, m: LocationMeasurements) returns (ok: bool)
    requires w.Valid() && 1 <= |m.sats| <= 64 && m.todMsec <= 3599999
    modifies w
    ensures w.Valid()
    ensures ok == MeasurementsFit(m)
    ensures ok ==> WireMeas(m).Wf()
    ensures ok ==> forall k {:trigger PutElement(WireMeas(m), k)} ::
                     w.Contents() + k == old(w.Contents()) + PutElement(WireMeas(m), k)
  {
    hide Put, PutBool, PutConstrained, Flags, StreamBits, PutSats;
    Bitmaps();
    FlagsConst(0x0, [false]);
    SignalIdField();
    w.WriteBit(false);
    w.WriteBits(0x0, 1);
    w.WriteBit(false);
    w.WriteBits(0, 3);
    ok := w.WriteConstrained(|m.sats|, 1, 64);
    if !ok { return; }
    ok := WriteSats(w, m.sats);
  }

  method WriteMeasurements(w: BitWriter, m: LocationMeasurements) returns (ok: bool)
    requires w.Valid() && 1 <= |m.sats| <= 64
    modifies w
    ensures w.Valid()
    ensures ok == MeasurementsFit(m)
    ensures ok ==> WireMeas(m).Wf()
    ensures ok ==> forall k {:trigger PutMeas(WireMeas(m), k)} ::
                     w.Contents() + k == old(w.Contents()) + PutMeas(WireMeas(m), k)
  {
    hide Put, PutBool, PutConstrained, Flags, StreamBits, PutGnssId, PutElement, WireSats;
    Bitmaps();
    FlagsConst(0x0, [false, false, false]);
    w.WriteBit(false);
    w.WriteBit(false);
    w.WriteBits(0x0, 3);
    ok := w.WriteConstrained(m.todMsec, 0, 3599999);
    if !ok { return; }
    WriteGnssId(w, 0);
    ok := w.WriteConstrained(1, 1, 16);
    if !ok { return; }
    w.WriteBit(false);
    WriteGnssId(w, 0);
    ok := w.WriteConstrained(1, 1, 8);
    if !ok { return; }
    ok := WriteElement(w, m);
  }

  /** The fixed gnss-SignalID is written as three plain bits. */
  lemma SignalIdField()
    ensures forall k {:trigger PutConstrained(0, 0, 7, k)} :: PutConstrained(0, 0, 7, k) == Put(0, 3, k)
  {
    assert BitWidth(RangeSize(0, 7)) == 3;
  }

  method WriteLocationInformation(w: BitWriter, m: LocationMeasurements) returns (ok: bool)
    requires w.Valid() && 1 <= |m.sats| <= 64
    modifies w
    ensures w.Valid()
    ensures ok == MeasurementsFit(m)
    ensures ok ==> MeasurementsBody(m).Wf()
    ensures ok ==> forall k {:trigger PutBody(MeasurementsBody(m), k)} ::
                     w.Contents() + k == old(w.Contents()) + PutBody(MeasurementsBody(m), k)
  {
    hide Put, PutBool, Flags, StreamBits, PutMeas, WireMeas, MeasurementsFit;
    Bitmaps();
    FlagsConst(0x8, [false, true, false, false, false]);
    FlagsConst(0x4, [true, false, false]);
    w.WriteBit(false);
    w.WriteBits(0x8, 5);
    w.WriteBit(false);
    w.WriteBits(0x4, 3);
    ok := WriteMeasurements(w, m);
  }

  method BuildProvideLocationInformation(txn: TransactionID, m: LocationMeasurements) returns (r: Result<seq<Byte>>)
    ensures r.Ok? == MeasurementsFit(m)
    ensures r.Ok? ==> Encodes(r.value, Wire(txn, true, MeasurementsBody(m)))
    ensures r.Ok? ==>
              (Decodes(r.value, PDU(Some(txn), true, ProvideLocationInformation(Some(m), None))) <==> txn.initiator < 2)
    ensures r.Ok? ==> Packs(r.value, HeadBits(txn, true, 5) + MeasurementsBits(m))
  {
    hide PutHead, PutBody, StreamBits, Low, WireMeas, Encodes, Decodes, HeadBits, MeasurementsBits;
    if |m.sats| == 0 || |m.sats| > 64 {
      return Err;
    }
    var w := new BitWriter();
    WriteEnvelope(w, txn, true, 5);
    var ok := WriteLocationInformation(w, m);
    if !ok {
      return Err;
    }
    var b := w.Bytes();
    Finished(b, w.Contents(), Wire(txn, true, MeasurementsBody(m)));
    MeasurementsAre(m, []);
    ghost var bits := MeasurementsBits(m) + [];
    assert bits == MeasurementsBits(m);
    MessageIs(txn, true, MeasurementsBody(m), bits);
    FinishedBits(b, w.Contents(), Wire(txn, true, MeasurementsBody(m)), HeadBits(txn, true, 5) + bits);
    MeasurementsRoundTrip(b, txn, m);
    return Ok(b);
  }

  method WriteError(w: BitWriter, cause: Byte)
    requires w.Valid() && cause < 4
    modifies w
    ensures w.Valid()
    ensures forall k {:trigger PutBody(ErrorBody(cause), k)} ::
              w.Contents() + k == old(w.Contents()) + PutBody(ErrorBody(cause), k)
  {
    hide Put, PutBool, Flags, StreamBits, PutEnumRoot;
    Bitmaps();
    FlagsConst(0x8, [false, true, false, false, false]);
    FlagsConst(0x1, [false, false, true]);
    FlagsConst(0x0, [false, false, false]);
    w.WriteBit(false);
    w.WriteBits(0x8, 5);
    w.WriteBit(false);
    w.WriteBits(0x1, 3);
    w.WriteBit(false);
    w.WriteBits(1, 1);
    w.WriteBit(false);
    w.WriteBits(0x0, 3);
    w.WriteEnumExt(cause, 4);
  }

  method BuildProvideLocationInformationError(txn: TransactionID, cause: Byte) returns (r: Result<seq<Byte>>)
    ensures r.Ok? == (cause < 4)
    ensures r.Ok? ==> Encodes(r.value, Wire(txn, true, ErrorBody(cause)))
    ensures r.Ok? ==>
              (Decodes(r.value, PDU(Some(txn), true, ProvideLocationInformation(None, Some(cause))))
               <==> txn.initiator < 2)
    ensures r.Ok? ==> Packs(r.value, HeadBits(txn, true, 5) + ErrorBits(cause))
  {
    hide PutHead, PutBody, StreamBits, Low, Encodes, Decodes, HeadBits, ErrorBits;
    if cause >= 4 {
      return Err;
    }
    var w := new BitWriter();
    WriteEnvelope(w, txn, true, 5);
    WriteError(w, cause);
    var b := w.Bytes();
    Finished(b, w.Contents(), Wire(txn, true, ErrorBody(cause)));
    ErrorIs(cause, []);
    ghost var bits := ErrorBits(cause) + [];
    assert bits == ErrorBits(cause);
    MessageIs(txn, true, ErrorBody(cause), bits);
    FinishedBits(b, w.Contents(), Wire(txn, true, ErrorBody(cause)), HeadBits(txn, true, 5) + bits);
    ErrorRoundTrip(b, txn, cause);
    return Ok(b);
  }

  // ---- round trips --------------------------------------------------------

  /** The transaction identity as it survives the one-bit initiator field */
  function Carried(txn: TransactionID): TransactionID {
    txn.(initiator := txn.initiator % 2)
  }

  lemma WireShows(txn: TransactionID, endTransaction: bool, body: WBody)
    ensures View(Wire(txn, endTransaction, body)) == PDU(Some(Carried(txn)), endTransaction, ViewBody(body))
    ensures Carried(txn) == txn <==> txn.initiator < 2
  {
    LowBit(txn.initiator);
  }

  lemma RequestCapabilitiesRoundTrip(b: seq<Byte>, txn: TransactionID)
    ensures Encodes(b, Wire(txn, false, REQUEST_CAPABILITIES_BODY)) ==>
              (Decodes(b, PDU(Some(txn), false, RequestCapabilities)) <==> txn.initiator < 2)
  {
    hide ParseMessage, PutMessage;
    if Encodes(b, Wire(txn, false, REQUEST_CAPABILITIES_BODY)) {
      EncodedDecodes(b, Wire(txn, false, REQUEST_CAPABILITIES_BODY));
      WireShows(txn, false, REQUEST_CAPABILITIES_BODY);
    }
  }

  /** What the capabilities message says: GPS, UE-assisted, or nothing */
  function Advertised(gnssSupported: bool): Capabilities {
    if gnssSupported then Capabilities(true, true, [0]) else Capabilities(false, false, [])
  }

  lemma ProvideCapabilitiesRoundTrip(b: seq<Byte>, txn: TransactionID, gnssSupported: bool)
    ensures Encodes(b, Wire(txn, true, CapabilitiesBody(gnssSupported))) ==>
              (Decodes(b, PDU(Some(txn), true, ProvideCapabilities(Advertised(gnssSupported)))) <==> txn.initiator < 2)
  {
    hide ParseMessage, PutMessage;
    if Encodes(b, Wire(txn, true, CapabilitiesBody(gnssSupported))) {
      EncodedDecodes(b, Wire(txn, true, CapabilitiesBody(gnssSupported)));
      WireShows(txn, true, CapabilitiesBody(gnssSupported));
      if gnssSupported {
        assert UeAssisted([GPS_SUPPORT][0]) by { assert Bit(0x20, 5); }
        assert ViewSupports([GPS_SUPPORT]) == Capabilities(true, true, [0]);
      } else {
        assert ViewSupports([]) == Capabilities(false, false, []);
      }
    }
  }

  lemma RequestLocationRoundTrip(b: seq<Byte>, txn: TransactionID)
    ensures Encodes(b, Wire(txn, false, REQUEST_LOCATION_BODY)) ==>
              (Decodes(b, PDU(Some(txn), false, RequestLocationInformation)) <==> txn.initiator < 2)
  {
    hide ParseMessage, PutMessage;
    if Encodes(b, Wire(txn, false, REQUEST_LOCATION_BODY)) {
      EncodedDecodes(b, Wire(txn, false, REQUEST_LOCATION_BODY));
      WireShows(txn, false, REQUEST_LOCATION_BODY);
    }
  }

  lemma AssistShows(ad: AssistanceData)
    requires AssistanceFits(ad)
    ensures ViewBody(WProvideAssistanceData(NoExt, WireAssist(ad))) == ProvideAssistanceData(ad) <==> OneBitFields(ad)
  {
    hide Low, Bit;
    LowBit(ad.referenceLocation.latitudeSign);
    LowBit(ad.referenceLocation.altitudeDirection);
  }

  /** All thirteen fields come back exactly when the three unchecked one-bit
      fields hold one-bit values. */
  lemma AssistanceRoundTrip(b: seq<Byte>, txn: TransactionID, ad: AssistanceData)
    requires AssistanceFits(ad)
    ensures Encodes(b, Wire(txn, true, WProvideAssistanceData(NoExt, WireAssist(ad)))) ==>
              (Decodes(b, PDU(Some(txn), true, ProvideAssistanceData(ad))) <==> txn.initiator < 2 && OneBitFields(ad))
  {
    hide ParseMessage, PutMessage, WireAssist, ViewBody, OneBitFields, View, Encodes;
    var body := WProvideAssistanceData(NoExt, WireAssist(ad));
    if Encodes(b, Wire(txn, true, body)) {
      EncodedDecodes(b, Wire(txn, true, body));
      WireShows(txn, true, body);
      AssistShows(ad);
    }
  }

  /** Every field of every satellite comes back, in order, for 1 to 64 satellites. */
  lemma MeasurementsRoundTrip(b: seq<Byte>, txn: TransactionID, m: LocationMeasurements)
    requires MeasurementsFit(m)
    ensures Encodes(b, Wire(txn, true, MeasurementsBody(m))) ==>
              (Decodes(b, PDU(Some(txn), true, ProvideLocationInformation(Some(m), None))) <==> txn.initiator < 2)
  {
    hide ParseMessage, PutMessage;
    if Encodes(b, Wire(txn, true, MeasurementsBody(m))) {
      EncodedDecodes(b, Wire(txn, true, MeasurementsBody(m)));
      WireShows(txn, true, MeasurementsBody(m));
      assert ViewSats(WireSats(m.sats)) == m.sats;
    }
  }

  lemma ErrorRoundTrip(b: seq<Byte>, txn: TransactionID, cause: Byte)
    ensures Encodes(b, Wire(txn, true, ErrorBody(cause))) ==>
              (Decodes(b, PDU(Some(txn), true, ProvideLocationInformation(None, Some(cause)))) <==> txn.initiator < 2)
  {
    hide ParseMessage, PutMessage;
    if Encodes(b, Wire(txn, true, ErrorBody(cause))) {
      EncodedDecodes(b, Wire(txn, true, ErrorBody(cause)));
      WireShows(txn, true, ErrorBody(cause));
    }
  }
}
