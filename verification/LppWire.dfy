/** The wire message each builder sends, in the abstract syntax, and what it accepts. */
module LppWire {
  import opened Wrappers
  import opened Machine
  import opened Bits
  import opened Uper
  import opened LppSyntax

  function Envelope(txn: TransactionID): WTxn {
    WTxn(NoExt, Low(txn.initiator, 1), txn.number)
  }

  function Wire(txn: TransactionID, endTransaction: bool, body: WBody): WMessage {
    WMessage(Some(Envelope(txn)), endTransaction, None, None, body)
  }

  const GPS := WGnssId(NoExt, 0)

  const REQUEST_CAPABILITIES_BODY := WRequestCapabilities(NoExt, Some(WReqCaps(NoExt, true, false, false)))

  const GPS_SUPPORT := WSupport(NoExt, GPS, None, WBitString(NoExt, 8, 0x20), NoExt, 0x80, false, false)

  function CapabilitiesBody(gnssSupported: bool): WBody {
    WProvideCapabilities(NoExt, if gnssSupported then Some(WProvCaps(NoExt, [GPS_SUPPORT])) else None)
  }

  lemma GpsSupportWf()
    ensures GPS_SUPPORT.Wf()
  {
    assert Pow2(8) == 256;
  }

  // ---- ProvideAssistanceData ----------------------------------------------

  predicate LocationFits(loc: ReferenceLocation) {
    && loc.degreesLatitude <= 8388607 && -8388608 <= loc.degreesLongitude <= 8388607
    && loc.altitude <= 32767 && loc.uncertaintySemiMajor <= 127 && loc.uncertaintySemiMinor <= 127
    && loc.orientationMajorAxis <= 179 && loc.uncertaintyAltitude <= 127 && loc.confidence <= 100
  }

  /** The one-bit fields the builder writes unchecked */
  predicate OneBitFields(ad: AssistanceData) {
    ad.referenceLocation.latitudeSign < 2 && ad.referenceLocation.altitudeDirection < 2
  }

  predicate AssistanceFits(ad: AssistanceData) {
    ad.dayNumber <= 32767 && ad.timeOfDay <= 86399 && ad.referenceTimeUnc <= 127 && LocationFits(ad.referenceLocation)
  }

  /** The two one-bit fields are written without a range check and truncated. */
  function WireLocation(loc: ReferenceLocation): WLocation {
    WLocation(
      Low(loc.latitudeSign, 1), loc.degreesLatitude, loc.degreesLongitude,
      Low(loc.altitudeDirection, 1), loc.altitude, loc.uncertaintySemiMajor, loc.uncertaintySemiMinor,
      loc.orientationMajorAxis, loc.uncertaintyAltitude, loc.confidence)
  }

  function WireAssist(ad: AssistanceData): WAssist {
    WAssist(NoExt, NoExt, NoExt, NoExt, GPS, ad.dayNumber, ad.timeOfDay, None, None,
            Some(ad.referenceTimeUnc), NoExt, WireLocation(ad.referenceLocation))
  }

  // ---- RequestLocationInformation -----------------------------------------

  const REQUEST_LOCATION_BODY := WRequestLocationInformation(
    NoExt, Some(WCommonReq(NoExt, 1)),
    Some(WPosInstr(NoExt, NoExt, WBitString(NoExt, 8, 0x80), [false, false, false, false])))

  lemma RequestLocationWf()
    ensures REQUEST_LOCATION_BODY.Wf()
  {
    assert Pow2(8) == 256;
  }

  // ---- ProvideLocationInformation -----------------------------------------

  predicate SatFits(sv: SatMeas) {
    && sv.svId <= 63 && sv.cNo <= 63 && sv.mpathDet < 4 && sv.codePhase <= 2097151
    && sv.integerCodePhase <= 127 && sv.codePhaseRMSError <= 63
  }

  predicate MeasurementsFit(m: LocationMeasurements) {
    && 1 <= |m.sats| <= 64 && m.todMsec <= 3599999
    && forall i | 0 <= i < |m.sats| :: SatFits(m.sats[i])
  }

  function WireSat(sv: SatMeas): WSat {
    WSat(NoExt, NoExt, sv.svId, sv.cNo, sv.mpathDet, None, sv.codePhase, Some(sv.integerCodePhase),
         sv.codePhaseRMSError, None, None)
  }

  function WireSats(sats: seq<SatMeas>): (ws: seq<WSat>)
    ensures |ws| == |sats|
  {
    seq(|sats|, i requires 0 <= i < |sats| => WireSat(sats[i]))
  }

  function WireMeas(m: LocationMeasurements): WMeas {
    WMeas(NoExt, NoExt, m.todMsec, None, None, GPS, NoExt, GPS, NoExt, NoExt, 0, None, WireSats(m.sats))
  }

  function MeasurementsBody(m: LocationMeasurements): WBody {
    WProvideLocationInformation(NoExt, NoExt, Some(WireMeas(m)), None)
  }

  function ErrorBody(cause: Byte): WBody {
    WProvideLocationInformation(NoExt, NoExt, None, Some(WError(NoExt, [false, false, false], cause)))
  }
}
