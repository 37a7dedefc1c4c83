/**
 LPP messages (TS 37.355, A-GNSS subset) in three forms: the values the Go API
 exchanges, an abstract syntax of everything a peer may put on the wire for this
 subset, and the unaligned-PER encoding of that syntax.

 A node of the abstract syntax carries, next to its root fields, the extension
 additions (`ext`) a future peer may have added to that SEQUENCE and the OPTIONAL
 root fields the decoder consumes and ignores.
 */
module LppSyntax {
  import opened Wrappers
  import opened Machine
  import opened Bits
  import opened Uper

  // ---- API values ---------------------------------------------------------

  datatype TransactionID = TransactionID(initiator: Byte, number: Byte)

  datatype ReferenceLocation = ReferenceLocation(
    latitudeSign: Byte, degreesLatitude: U32, degreesLongitude: I32,
    altitudeDirection: Byte, altitude: U16,
    uncertaintySemiMajor: Byte, uncertaintySemiMinor: Byte, orientationMajorAxis: Byte,
    uncertaintyAltitude: Byte, confidence: Byte)

  datatype AssistanceData = AssistanceData(
    dayNumber: U16, timeOfDay: U32, referenceTimeUnc: Byte, referenceLocation: ReferenceLocation)

  datatype SatMeas = SatMeas(
    svId: Byte, cNo: Byte, mpathDet: Byte, codePhase: U32, integerCodePhase: Byte, codePhaseRMSError: Byte)

  datatype LocationMeasurements = LocationMeasurements(todMsec: U32, sats: seq<SatMeas>)

  datatype Capabilities = Capabilities(agnssSupported: bool, gpsUeAssisted: bool, supportedGnss: seq<Byte>)

  datatype Payload =
    | RequestCapabilities
    | ProvideCapabilities(caps: Capabilities)
    | ProvideAssistanceData(assist: AssistanceData)
    | RequestLocationInformation
    | ProvideLocationInformation(meas: Option<LocationMeasurements>, errorCause: Option<Byte>)

  /** A decoded LPP-Message; `txn` is None when the transactionID was absent. */
  datatype PDU = PDU(txn: Option<TransactionID>, endTransaction: bool, payload: Payload)

  // Go integer conversions
  function U8(x: int): Byte { x % 0x100 }
  function ToU16(x: int): U16 { x % 0x1_0000 }
  function ToU32(x: int): U32 { x % 0x1_0000_0000 }
  function ToI32(x: int): I32 {
    var m := x % 0x1_0000_0000;
    if m < 0x8000_0000 then m else m - 0x1_0000_0000
  }

  // ---- abstract syntax ----------------------------------------------------

  datatype WTxn = WTxn(ext: Ext, initiator: nat, number: Byte) {
    predicate Wf() { initiator < 66 }
  }

  datatype WAck = WAck(requested: bool, indicator: Option<Byte>)

  /** The index has three bits for five root values: `spare` marks an index of 5
      to 7 written as a root value, where it reads like an addition. */
  datatype WGnssId = WGnssId(ext: Ext, id: nat, spare: bool := false) {
    predicate Wf() { id < 69 && (spare ==> 5 <= id < 8) }
  }

  datatype WBitString = WBitString(ext: Ext, len: nat, bits: nat) {
    predicate Wf(max: nat) { 1 <= len <= max <= 16 && bits < Pow2(len) }
  }

  datatype WReqCaps = WReqCaps(ext: Ext, supportList: bool, assistanceSupport: bool, velocityTypes: bool)

  datatype WSupport = WSupport(
    ext: Ext, gnssId: WGnssId, sbas: Option<WBitString>, modes: WBitString,
    signalsExt: Ext, signals: Byte, adr: bool, velocity: bool)
  {
    predicate Wf() {
      gnssId.Wf() && modes.Wf(8) && (sbas.Some? ==> sbas.value.Wf(8))
    }
  }

  datatype WProvCaps = WProvCaps(ext: Ext, supports: seq<WSupport>) {
    /** An absent gnss-SupportList is the empty sequence. */
    predicate Wf() {
      |supports| <= 16 && forall i | 0 <= i < |supports| :: supports[i].Wf()
    }
  }

  datatype WLocation = WLocation(
    latitudeSign: nat, degreesLatitude: nat, degreesLongitude: int,
    altitudeDirection: nat, altitude: nat,
    uncertaintySemiMajor: nat, uncertaintySemiMinor: nat, orientationMajorAxis: nat,
    uncertaintyAltitude: nat, confidence: nat)
  {
    predicate Wf() {
      && latitudeSign <= 1 && degreesLatitude <= 8388607 && -8388608 <= degreesLongitude <= 8388607
      && altitudeDirection <= 1 && altitude <= 32767
      && uncertaintySemiMajor <= 127 && uncertaintySemiMinor <= 127 && orientationMajorAxis <= 179
      && uncertaintyAltitude <= 127 && confidence <= 100
    }
  }

  datatype WAssist = WAssist(
    agnssExt: Ext, commonExt: Ext, refTimeExt: Ext,
    sysTimeExt: Ext, timeId: WGnssId, dayNumber: nat, timeOfDay: nat,
    fracMsec: Option<Int64>, leap: Option<nat>,
    unc: Option<Int64>, refLocExt: Ext, location: WLocation)
  {
    predicate Wf() {
      && timeId.Wf() && dayNumber <= 32767 && timeOfDay <= 86399
      && InRange(fracMsec, 0, 999) && (leap.Some? ==> leap.value <= 3)
      && InRange(unc, 0, 127) && location.Wf()
    }
  }

  datatype WCommonReq = WCommonReq(ext: Ext, infoType: nat) {
    predicate Wf() { infoType < 68 }
  }

  datatype WPosInstr = WPosInstr(agnssExt: Ext, ext: Ext, methods: WBitString, flags: seq<bool>) {
    predicate Wf() { methods.Wf(16) && |flags| == 4 }
  }

  datatype WSat = WSat(
    ext: Ext, svExt: Ext, svId: nat, cNo: nat, mpathDet: nat, carrierQuality: Option<Int64>,
    codePhase: nat, integerCodePhase: Option<Int64>, codePhaseRMSError: nat,
    doppler: Option<Int64>, adr: Option<Int64>)
  {
    predicate Wf() {
      && svId <= 63 && cNo <= 63 && mpathDet < 68 && InRange(carrierQuality, 0, 3)
      && codePhase <= 2097151 && InRange(integerCodePhase, 0, 127) && codePhaseRMSError <= 63
      && InRange(doppler, -32768, 32767) && InRange(adr, 0, 33554431)
    }
  }

  datatype WMeas = WMeas(
    ext: Ext, timeExt: Ext, todMsec: nat, todFrac: Option<Int64>, todUnc: Option<Int64>, timeId: WGnssId,
    oneGnssExt: Ext, gnssId: WGnssId, elementExt: Ext, signalIdExt: Ext, signalId: nat,
    ambiguity: Option<Int64>, sats: seq<WSat>)
  {
    predicate Wf() {
      && todMsec <= 3599999 && InRange(todFrac, 0, 3999) && InRange(todUnc, 0, 127)
      && timeId.Wf() && gnssId.Wf() && signalId <= 7 && InRange(ambiguity, 0, 127)
      && 1 <= |sats| <= 64 && forall i | 0 <= i < |sats| :: sats[i].Wf()
    }
  }

  datatype WError = WError(ext: Ext, nulls: seq<bool>, cause: nat) {
    predicate Wf() { |nulls| == 3 && cause < 68 }
  }

  datatype WBody =
    | WRequestCapabilities(ext: Ext, reqCaps: Option<WReqCaps>)
    | WProvideCapabilities(ext: Ext, provCaps: Option<WProvCaps>)
    | WProvideAssistanceData(ext: Ext, assist: WAssist)
    | WRequestLocationInformation(ext: Ext, common: Option<WCommonReq>, posInstr: Option<WPosInstr>)
    | WProvideLocationInformation(ext: Ext, agnssExt: Ext, meas: Option<WMeas>, error: Option<WError>)
  {
    predicate Wf() {
      match this
      case WRequestCapabilities(_, a) => true
      case WProvideCapabilities(_, a) => a.Some? ==> a.value.Wf()
      case WProvideAssistanceData(_, a) => a.Wf()
      case WRequestLocationInformation(_, c, p) => (c.Some? ==> c.value.Wf()) && (p.Some? ==> p.value.Wf())
      case WProvideLocationInformation(_, _, m, e) =>
        (m.Some? || e.Some?) && (m.Some? ==> m.value.Wf()) && (e.Some? ==> e.value.Wf())
    }

    /** LPP-MessageBody.c1 alternative */
    function Index(): nat {
      match this
      case WRequestCapabilities(_, _) => 0
      case WProvideCapabilities(_, _) => 1
      case WProvideAssistanceData(_, _) => 3
      case WRequestLocationInformation(_, _, _) => 4
      case WProvideLocationInformation(_, _, _, _) => 5
    }
  }

  datatype WMessage = WMessage(
    txn: Option<WTxn>, endTransaction: bool, sequenceNumber: Option<Int64>, ack: Option<WAck>, body: WBody)
  {
    predicate Wf() {
      (txn.Some? ==> txn.value.Wf()) && InRange(sequenceNumber, 0, 255) && body.Wf()
    }
  }

  predicate InRange(o: Option<Int64>, lb: Int64, ub: Int64) {
    o.Some? ==> lb <= o.value <= ub
  }

  // ---- what the API shows of a message ------------------------------------

  function OrZero(o: Option<Int64>): Int64 {
    match o case None => 0 case Some(v) => v
  }

  function UeAssisted(w: WSupport): bool {
    w.modes.len >= 3 && Bit(w.modes.bits, w.modes.len - 3)
  }

  function ViewSupports(ws: seq<WSupport>): Capabilities {
    Capabilities(
      ws != [],
      exists i | 0 <= i < |ws| :: U8(ws[i].gnssId.id) == 0 && UeAssisted(ws[i]),
      seq(|ws|, i requires 0 <= i < |ws| => U8(ws[i].gnssId.id)))
  }

  function ViewLocation(w: WLocation): ReferenceLocation {
    ReferenceLocation(
      U8(w.latitudeSign), ToU32(w.degreesLatitude), ToI32(w.degreesLongitude),
      U8(w.altitudeDirection), ToU16(w.altitude),
      U8(w.uncertaintySemiMajor), U8(w.uncertaintySemiMinor), U8(w.orientationMajorAxis),
      U8(w.uncertaintyAltitude), U8(w.confidence))
  }

  function ViewSat(w: WSat): SatMeas {
    SatMeas(U8(w.svId), U8(w.cNo), U8(w.mpathDet), ToU32(w.codePhase),
            U8(OrZero(w.integerCodePhase)), U8(w.codePhaseRMSError))
  }

  function ViewSats(ws: seq<WSat>): seq<SatMeas> {
    seq(|ws|, i requires 0 <= i < |ws| => ViewSat(ws[i]))
  }

  function ViewAssist(a: WAssist): AssistanceData {
    AssistanceData(ToU16(a.dayNumber), ToU32(a.timeOfDay), U8(OrZero(a.unc)), ViewLocation(a.location))
  }

  function ViewMeas(m: Option<WMeas>): Option<LocationMeasurements> {
    match m case None => None case Some(w) => Some(LocationMeasurements(ToU32(w.todMsec), ViewSats(w.sats)))
  }

  function ViewError(e: Option<WError>): Option<Byte> {
    match e case None => None case Some(w) => Some(U8(w.cause))
  }

  function ViewLoc(m: Option<WMeas>, e: Option<WError>): Payload {
    ProvideLocationInformation(ViewMeas(m), ViewError(e))
  }

  function ViewBody(b: WBody): Payload {
    match b
    case WRequestCapabilities(_, _) => RequestCapabilities
    case WProvideCapabilities(_, a) =>
      ProvideCapabilities(ViewSupports(if a.Some? then a.value.supports else []))
    case WProvideAssistanceData(_, a) => ProvideAssistanceData(ViewAssist(a))
    case WRequestLocationInformation(_, _, _) => RequestLocationInformation
    case WProvideLocationInformation(_, _, m, e) => ViewLoc(m, e)
  }

  function View(w: WMessage): PDU {
    PDU(if w.txn.Some? then Some(TransactionID(U8(w.txn.value.initiator), w.txn.value.number)) else None,
        w.endTransaction, ViewBody(w.body))
  }

  // ---- encoding -----------------------------------------------------------

  function PutIf(o: Option<Int64>, lb: Int64, ub: Int64, k: seq<bool>): seq<bool>
    requires lb <= ub && InRange(o, lb, ub)
  {
    match o case None => k case Some(v) => PutConstrained(v, lb, ub, k)
  }

  function PutTxn(w: WTxn, k: seq<bool>): seq<bool>
    requires w.Wf()
  {
    PutExtBit(w.ext, PutEnum(w.initiator, 2, PutOctet(w.number, PutExt(w.ext, k))))
  }

  function PutGnssId(w: WGnssId, k: seq<bool>): seq<bool>
    requires w.Wf()
  {
    PutExtBit(w.ext, PutIndex(w.id, w.spare, PutExt(w.ext, k)))
  }

  function PutIndex(id: nat, spare: bool, k: seq<bool>): (r: seq<bool>)
    requires WGnssId(NoExt, id, spare).Wf()
    ensures ReadEnumExt(r, 5) == Got(id, k)
  {
    assert Pow2(3) == 8 && BitWidth(5) == 3;
    if spare then PutBool(false, Put(id, 3, k)) else PutEnum(id, 5, k)
  }

  function PutBitString(w: WBitString, max: nat, k: seq<bool>): seq<bool>
    requires w.Wf(max)
  {
    PutExtBit(w.ext, PutConstrained(w.len, 1, max, Put(w.bits, w.len, PutExt(w.ext, k))))
  }

  function PutReqCapsFlags(w: WReqCaps, k: seq<bool>): seq<bool> {
    PutExtBit(w.ext, PutBool(w.supportList, PutBool(w.assistanceSupport, PutBool(w.velocityTypes, PutExt(w.ext, k)))))
  }

  function PutReqCaps(ext: Ext, a: Option<WReqCaps>, k: seq<bool>): seq<bool> {
    PutExtBit(ext, Flags([false, a.Some?, false, false, false],
      if a.Some? then PutReqCapsFlags(a.value, PutExt(ext, k)) else PutExt(ext, k)))
  }

  function PutSignals(ext: Ext, signals: Byte, k: seq<bool>): seq<bool> {
    PutExtBit(ext, PutOctet(signals, PutExt(ext, k)))
  }

  function PutSupport(w: WSupport, k: seq<bool>): seq<bool>
    requires w.Wf()
  {
    PutExtBit(w.ext, Flags([w.sbas.Some?, false], PutGnssId(w.gnssId, PutSbas(w.sbas,
      PutBitString(w.modes, 8, PutSignals(w.signalsExt, w.signals,
      PutBool(w.adr, PutBool(w.velocity, PutExt(w.ext, k)))))))))
  }

  function PutSbas(o: Option<WBitString>, k: seq<bool>): seq<bool>
    requires o.Some? ==> o.value.Wf(8)
  {
    match o case None => k case Some(w) => PutBitString(w, 8, k)
  }

  function PutSupports(ws: seq<WSupport>, k: seq<bool>): seq<bool>
    requires forall i | 0 <= i < |ws| :: ws[i].Wf()
  {
    if ws == [] then k else PutSupport(ws[0], PutSupports(ws[1..], k))
  }

  function PutProvCaps(ext: Ext, a: Option<WProvCaps>, k: seq<bool>): seq<bool>
    requires a.Some? ==> a.value.Wf()
  {
    PutExtBit(ext, Flags([false, a.Some?, false, false, false],
      if a.Some? then PutSupportList(a.value, PutExt(ext, k)) else PutExt(ext, k)))
  }

  function PutSupportList(w: WProvCaps, k: seq<bool>): seq<bool>
    requires w.Wf()
  {
    PutExtBit(w.ext, Flags([w.supports != [], false, false, false],
      if w.supports == [] then PutExt(w.ext, k)
      else PutConstrained(|w.supports|, 1, 16, PutSupports(w.supports, PutExt(w.ext, k)))))
  }

  function PutUncertainty(w: WLocation, k: seq<bool>): seq<bool>
    requires w.Wf()
  {
    hide PutConstrained, ReadConstrained;
    PutConstrained(w.uncertaintySemiMajor, 0, 127, PutConstrained(w.uncertaintySemiMinor, 0, 127,
    PutConstrained(w.orientationMajorAxis, 0, 179, PutConstrained(w.uncertaintyAltitude, 0, 127,
    PutConstrained(w.confidence, 0, 100, k)))))
  }

  function PutLocation(w: WLocation, k: seq<bool>): seq<bool>
    requires w.Wf()
  {
    hide PutConstrained, ReadConstrained;
    PutConstrained(w.latitudeSign, 0, 1, PutConstrained(w.degreesLatitude, 0, 8388607,
    PutConstrained(w.degreesLongitude, -8388608, 8388607, PutConstrained(w.altitudeDirection, 0, 1,
    PutConstrained(w.altitude, 0, 32767, PutUncertainty(w, k))))))
  }

  function PutLeap(o: Option<nat>, k: seq<bool>): seq<bool> {
    match o case None => k case Some(v) => Put(v, 2, k)
  }

  function PutSystemTime(w: WAssist, k: seq<bool>): seq<bool>
    requires w.Wf()
  {
    hide PutConstrained, ReadConstrained;
    PutExtBit(w.sysTimeExt, Flags([w.fracMsec.Some?, w.leap.Some?, false], PutGnssId(w.timeId,
      PutConstrained(w.dayNumber, 0, 32767, PutConstrained(w.timeOfDay, 0, 86399,
      PutIf(w.fracMsec, 0, 999, PutLeap(w.leap, PutExt(w.sysTimeExt, k))))))))
  }

  function PutReferenceTime(w: WAssist, k: seq<bool>): seq<bool>
    requires w.Wf()
  {
    PutExtBit(w.refTimeExt, Flags([w.unc.Some?, false],
      PutSystemTime(w, PutIf(w.unc, 0, 127, PutExt(w.refTimeExt, k)))))
  }

  function PutReferenceLocation(w: WAssist, k: seq<bool>): seq<bool>
    requires w.Wf()
  {
    PutExtBit(w.refLocExt, PutLocation(w.location, PutExt(w.refLocExt, k)))
  }

  function PutCommonAssist(w: WAssist, k: seq<bool>): seq<bool>
    requires w.Wf()
  {
    PutExtBit(w.commonExt, Flags([true, true, false, false],
      PutReferenceTime(w, PutReferenceLocation(w, PutExt(w.commonExt, k)))))
  }

  function PutAGnssAssist(w: WAssist, k: seq<bool>): seq<bool>
    requires w.Wf()
  {
    PutExtBit(w.agnssExt, Flags([true, false, false], PutCommonAssist(w, PutExt(w.agnssExt, k))))
  }

  function PutAssist(ext: Ext, w: WAssist, k: seq<bool>): seq<bool>
    requires w.Wf()
  {
    PutExtBit(ext, Flags([false, true, false, false], PutAGnssAssist(w, PutExt(ext, k))))
  }

  function PutCommonReq(o: Option<WCommonReq>, k: seq<bool>): seq<bool>
    requires o.Some? ==> o.value.Wf()
  {
    match o
    case None => k
    case Some(w) =>
      PutExtBit(w.ext, Flags([false, false, false, false, false, false, false],
        PutEnum(w.infoType, 4, PutExt(w.ext, k))))
  }

  function PutPosInstr(o: Option<WPosInstr>, k: seq<bool>): seq<bool>
    requires o.Some? ==> o.value.Wf()
  {
    match o
    case None => k
    case Some(w) =>
      PutExtBit(w.agnssExt, PutExtBit(w.ext, PutBitString(w.methods, 16,
        Flags(w.flags, PutExt(w.ext, PutExt(w.agnssExt, k))))))
  }

  function PutReqLoc(ext: Ext, c: Option<WCommonReq>, p: Option<WPosInstr>, k: seq<bool>): seq<bool>
    requires (c.Some? ==> c.value.Wf()) && (p.Some? ==> p.value.Wf())
  {
    PutExtBit(ext, Flags([c.Some?, p.Some?, false, false, false],
      PutCommonReq(c, PutPosInstr(p, PutExt(ext, k)))))
  }

  function PutSvId(ext: Ext, svId: nat, k: seq<bool>): seq<bool>
    requires svId <= 63
  {
    PutExtBit(ext, PutConstrained(svId, 0, 63, PutExt(ext, k)))
  }

  function PutPhase(w: WSat, k: seq<bool>): seq<bool>
    requires w.Wf()
  {
    hide PutConstrained, ReadConstrained;
    PutConstrained(w.codePhase, 0, 2097151, PutIf(w.integerCodePhase, 0, 127,
      PutConstrained(w.codePhaseRMSError, 0, 63, k)))
  }

  function PutSat(w: WSat, k: seq<bool>): seq<bool>
    requires w.Wf()
  {
    hide PutConstrained, ReadConstrained;
    PutExtBit(w.ext,
      Flags([w.carrierQuality.Some?, w.integerCodePhase.Some?, w.doppler.Some?, w.adr.Some?],
      PutSvId(w.svExt, w.svId, PutConstrained(w.cNo, 0, 63,
      PutEnum(w.mpathDet, 4, PutIf(w.carrierQuality, 0, 3, PutPhase(w,
      PutIf(w.doppler, -32768, 32767, PutIf(w.adr, 0, 33554431, PutExt(w.ext, k))))))))))
  }

  function PutSats(ws: seq<WSat>, k: seq<bool>): seq<bool>
    requires forall i | 0 <= i < |ws| :: ws[i].Wf()
  {
    if ws == [] then k else PutSat(ws[0], PutSats(ws[1..], k))
  }

  function PutMeasTime(w: WMeas, k: seq<bool>): seq<bool>
    requires w.Wf()
  {
    hide PutConstrained, ReadConstrained;
    PutExtBit(w.timeExt, Flags([w.todFrac.Some?, w.todUnc.Some?, false],
      PutConstrained(w.todMsec, 0, 3599999, PutIf(w.todFrac, 0, 3999, PutIf(w.todUnc, 0, 127,
      PutGnssId(w.timeId, PutExt(w.timeExt, k)))))))
  }

  function PutElement(w: WMeas, k: seq<bool>): seq<bool>
    requires w.Wf()
  {
    hide PutConstrained, ReadConstrained;
    PutExtBit(w.elementExt, Flags([w.ambiguity.Some?],
      PutExtBit(w.signalIdExt, PutConstrained(w.signalId, 0, 7, PutExt(w.signalIdExt,
      PutIf(w.ambiguity, 0, 127, PutConstrained(|w.sats|, 1, 64,
      PutSats(w.sats, PutExt(w.elementExt, k)))))))))
  }

  function PutMeas(w: WMeas, k: seq<bool>): seq<bool>
    requires w.Wf()
  {
    hide PutConstrained, ReadConstrained;
    PutExtBit(w.ext, PutMeasTime(w, PutConstrained(1, 1, 16,
      PutExtBit(w.oneGnssExt, PutGnssId(w.gnssId, PutConstrained(1, 1, 8,
      PutElement(w, PutExt(w.oneGnssExt, PutExt(w.ext, k)))))))))
  }

  function PutError(w: WError, k: seq<bool>): seq<bool>
    requires w.Wf()
  {
    PutBool(false, Put(1, 1, PutExtBit(w.ext, Flags(w.nulls, PutEnum(w.cause, 4, PutExt(w.ext, k))))))
  }

  function PutErrorIf(e: Option<WError>, k: seq<bool>): seq<bool>
    requires e.Some? ==> e.value.Wf()
  {
    match e case None => k case Some(w) => PutError(w, k)
  }

  function PutMeasIf(m: Option<WMeas>, k: seq<bool>): seq<bool>
    requires m.Some? ==> m.value.Wf()
  {
    match m case None => k case Some(w) => PutMeas(w, k)
  }

  function PutAGnssLoc(ext: Ext, m: Option<WMeas>, e: Option<WError>, k: seq<bool>): seq<bool>
    requires (m.Some? ==> m.value.Wf()) && (e.Some? ==> e.value.Wf())
  {
    PutExtBit(ext, Flags([m.Some?, false, e.Some?], PutMeasIf(m, PutErrorIf(e, PutExt(ext, k)))))
  }

  function PutProvLoc(ext: Ext, agnssExt: Ext, m: Option<WMeas>, e: Option<WError>, k: seq<bool>): seq<bool>
    requires (m.Some? ==> m.value.Wf()) && (e.Some? ==> e.value.Wf())
  {
    PutExtBit(ext, Flags([false, true, false, false, false], PutAGnssLoc(agnssExt, m, e, PutExt(ext, k))))
  }

  function PutBody(b: WBody, k: seq<bool>): seq<bool>
    requires b.Wf()
  {
    match b
    case WRequestCapabilities(ext, a) => PutReqCaps(ext, a, k)
    case WProvideCapabilities(ext, a) => PutProvCaps(ext, a, k)
    case WProvideAssistanceData(ext, a) => PutAssist(ext, a, k)
    case WRequestLocationInformation(ext, c, p) => PutReqLoc(ext, c, p, k)
    case WProvideLocationInformation(ext, agnssExt, m, e) => PutProvLoc(ext, agnssExt, m, e, k)
  }

  function PutAck(o: Option<WAck>, k: seq<bool>): seq<bool> {
    match o
    case None => k
    case Some(a) =>
      Flags([a.indicator.Some?], PutBool(a.requested,
        if a.indicator.Some? then PutConstrained(a.indicator.value, 0, 255, k) else k))
  }

  /** LPP-MessageBody and c1 CHOICE indices, criticalExtensions wrapper */
  function PutChoices(index: nat, k: seq<bool>): seq<bool> {
    PutBool(false, Put(index, 4, PutBool(false, Put(0, 2, k))))
  }

  /** Everything before the message-specific IEs */
  function PutHead(txn: Option<WTxn>, endTransaction: bool, sequenceNumber: Option<Int64>, ack: Option<WAck>,
                   index: nat, k: seq<bool>): seq<bool>
    requires (txn.Some? ==> txn.value.Wf()) && InRange(sequenceNumber, 0, 255)
  {
    var t := PutBool(endTransaction, PutIf(sequenceNumber, 0, 255, PutAck(ack, PutChoices(index, k))));
    Flags([txn.Some?, sequenceNumber.Some?, ack.Some?, true],
      if txn.Some? then PutTxn(txn.value, t) else t)
  }

  function PutMessage(w: WMessage, k: seq<bool>): seq<bool>
    requires w.Wf()
  {
    PutHead(w.txn, w.endTransaction, w.sequenceNumber, w.ack, w.body.Index(), PutBody(w.body, k))
  }
}
