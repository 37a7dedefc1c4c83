/**
 The LPP decoder as a function of the bit string, and the proof that it inverts
 the encoding of every well-formed message of the subset, extended or not.
 */
module LppParse {
  import opened Wrappers
  import opened Machine
  import opened Bits
  import opened Uper
  import opened LppSyntax

  function ReadIf(s: seq<bool>, present: bool, lb: Int64, ub: Int64): Parsed<Option<Int64>>
    requires lb <= ub
  {
    if !present then Got(None, s)
    else
      var (v, t) :- ReadConstrained(s, lb, ub);
      Got(Some(v), t)
  }

  function ParseTxn(s: seq<bool>): Parsed<TransactionID> {
    var (ext, s) :- ReadBit(s);
    var (init, s) :- ReadEnumExt(s, 2);
    var (num, s) :- ReadBits(s, 8);
    var (_, s) :- SkipIf(s, ext);
    Got(TransactionID(U8(init), U8(num)), s)
  }

  function ParseGnssId(s: seq<bool>): Parsed<Byte> {
    var (ext, s) :- ReadBit(s);
    var (v, s) :- ReadEnumExt(s, 5);
    var (_, s) :- SkipIf(s, ext);
    Got(U8(v), s)
  }

  /** Length and value of a BIT STRING (SIZE(1..max)) in an extensible SEQUENCE */
  function ParseBitString(s: seq<bool>, max: nat): Parsed<(nat, nat)>
    requires 1 <= max <= 16
  {
    var (ext, s) :- ReadBit(s);
    var (n, s) :- ReadConstrained(s, 1, max);
    var (v, s) :- ReadBits(s, n);
    var (_, s) :- SkipIf(s, ext);
    Got((n, v), s)
  }

  function ParseReqCapsFlags(s: seq<bool>): Parsed<()> {
    var (ext, s) :- ReadBit(s);
    var (_, s) :- ReadBit(s);
    var (_, s) :- ReadBit(s);
    var (_, s) :- ReadBit(s);
    SkipIf(s, ext)
  }

  function ParseReqCaps(s: seq<bool>): Parsed<()> {
    var (ext, s) :- ReadBit(s);
    var (p, s) :- ReadPresence(s, 5);
    if p[0] || p[2] || p[3] || p[4] then Fail
    else if p[1] then
      var (_, s) :- ParseReqCapsFlags(s);
      SkipIf(s, ext)
    else SkipIf(s, ext)
  }

  // ---- ProvideCapabilities ------------------------------------------------

  function ParseSbas(s: seq<bool>, present: bool): Parsed<()> {
    if !present then Got((), s)
    else
      var (_, s) :- ParseBitString(s, 8);
      Got((), s)
  }

  function ParseSignals(s: seq<bool>): Parsed<()> {
    var (ext, s) :- ReadBit(s);
    var (_, s) :- ReadBits(s, 8);
    SkipIf(s, ext)
  }

  /** gnss-id of one GNSS-SupportElement, and whether its ue-assisted bit is set */
  function ParseSupport(s: seq<bool>): Parsed<(Byte, bool)> {
    var (ext, s) :- ReadBit(s);
    var (p, s) :- ReadPresence(s, 2);
    var (id, s) :- ParseGnssId(s);
    var (_, s) :- ParseSbas(s, p[0]);
    var (modes, s) :- ParseBitString(s, 8);
    var (_, s) :- ParseSignals(s);
    if p[1] then Fail else
      var (_, s) :- ReadBit(s);
      var (_, s) :- ReadBit(s);
      var (_, s) :- SkipIf(s, ext);
      Got((id, modes.0 >= 3 && Bit(modes.1, modes.0 - 3)), s)
  }

  function ParseSupports(s: seq<bool>, n: nat, gps: bool, ids: seq<Byte>): Parsed<(bool, seq<Byte>)>
    decreases n
  {
    if n == 0 then Got((gps, ids), s)
    else
      var (e, s) :- ParseSupport(s);
      ParseSupports(s, n - 1, gps || (e.0 == 0 && e.1), ids + [e.0])
  }

  function ParseSupportList(s: seq<bool>): Parsed<Capabilities> {
    var (ext, s) :- ReadBit(s);
    var (p, s) :- ReadPresence(s, 4);
    if p[1] || p[2] || p[3] then Fail
    else if p[0] then
      var (count, s) :- ReadConstrained(s, 1, 16);
      var (info, s) :- ParseSupports(s, count, false, []);
      var (_, s) :- SkipIf(s, ext);
      Got(Capabilities(|info.1| > 0, info.0, info.1), s)
    else
      var (_, s) :- SkipIf(s, ext);
      Got(Capabilities(false, false, []), s)
  }

  function ParseProvCaps(s: seq<bool>): Parsed<Capabilities> {
    var (ext, s) :- ReadBit(s);
    var (p, s) :- ReadPresence(s, 5);
    if p[0] || p[2] || p[3] || p[4] then Fail
    else if !p[1] then
      var (_, s) :- SkipIf(s, ext);
      Got(Capabilities(false, false, []), s)
    else
      var (info, s) :- ParseSupportList(s);
      var (_, s) :- SkipIf(s, ext);
      Got(info, s)
  }

  // ---- ProvideAssistanceData ----------------------------------------------

  function ParseLeap(s: seq<bool>, present: bool): Parsed<()> {
    if !present then Got((), s)
    else
      var (_, s) :- ReadBits(s, 2);
      Got((), s)
  }

  /** gnss-DayNumber and gnss-TimeOfDay */
  function ParseSystemTime(s: seq<bool>): Parsed<(U16, U32)> {
    hide ReadConstrained;
    var (ext, s) :- ReadBit(s);
    var (p, s) :- ReadPresence(s, 3);
    if p[2] then Fail else
      var (_, s) :- ParseGnssId(s);
      var (day, s) :- ReadConstrained(s, 0, 32767);
      var (tod, s) :- ReadConstrained(s, 0, 86399);
      var (_, s) :- ReadIf(s, p[0], 0, 999);
      var (_, s) :- ParseLeap(s, p[1]);
      var (_, s) :- SkipIf(s, ext);
      Got((ToU16(day), ToU32(tod)), s)
  }

  function ParseReferenceTime(s: seq<bool>): Parsed<(U16, U32, Byte)> {
    var (ext, s) :- ReadBit(s);
    var (p, s) :- ReadPresence(s, 2);
    if p[1] then Fail else
      var (t, s) :- ParseSystemTime(s);
      var (unc, s) :- ReadIf(s, p[0], 0, 127);
      var (_, s) :- SkipIf(s, ext);
      Got((t.0, t.1, U8(OrZero(unc))), s)
  }

  function ParseUncertainty(s: seq<bool>): Parsed<(Byte, Byte, Byte, Byte, Byte)> {
    hide ReadConstrained;
    var (semiMajor, s) :- ReadConstrained(s, 0, 127);
    var (semiMinor, s) :- ReadConstrained(s, 0, 127);
    var (orientation, s) :- ReadConstrained(s, 0, 179);
    var (altitude, s) :- ReadConstrained(s, 0, 127);
    var (confidence, s) :- ReadConstrained(s, 0, 100);
    Got((U8(semiMajor), U8(semiMinor), U8(orientation), U8(altitude), U8(confidence)), s)
  }

  function ParseLocation(s: seq<bool>): Parsed<ReferenceLocation> {
    hide ReadConstrained;
    var (latitudeSign, s) :- ReadConstrained(s, 0, 1);
    var (degreesLatitude, s) :- ReadConstrained(s, 0, 8388607);
    var (degreesLongitude, s) :- ReadConstrained(s, -8388608, 8388607);
    var (altitudeDirection, s) :- ReadConstrained(s, 0, 1);
    var (altitude, s) :- ReadConstrained(s, 0, 32767);
    var (unc, s) :- ParseUncertainty(s);
    Got(ReferenceLocation(
          U8(latitudeSign), ToU32(degreesLatitude), ToI32(degreesLongitude),
          U8(altitudeDirection), ToU16(altitude), unc.0, unc.1, unc.2, unc.3, unc.4), s)
  }

  function ParseReferenceLocation(s: seq<bool>): Parsed<ReferenceLocation> {
    var (ext, s) :- ReadBit(s);
    var (loc, s) :- ParseLocation(s);
    var (_, s) :- SkipIf(s, ext);
    Got(loc, s)
  }

  function ParseCommonAssist(s: seq<bool>): Parsed<AssistanceData> {
    var (ext, s) :- ReadBit(s);
    var (p, s) :- ReadPresence(s, 4);
    if p[2] || p[3] || !p[0] || !p[1] then Fail else
      var (t, s) :- ParseReferenceTime(s);
      var (loc, s) :- ParseReferenceLocation(s);
      var (_, s) :- SkipIf(s, ext);
      Got(AssistanceData(t.0, t.1, t.2, loc), s)
  }

  function ParseAGnssAssist(s: seq<bool>): Parsed<AssistanceData> {
    var (ext, s) :- ReadBit(s);
    var (p, s) :- ReadPresence(s, 3);
    if p[1] || p[2] || !p[0] then Fail else
      var (ad, s) :- ParseCommonAssist(s);
      var (_, s) :- SkipIf(s, ext);
      Got(ad, s)
  }

  function ParseAssist(s: seq<bool>): Parsed<AssistanceData> {
    var (ext, s) :- ReadBit(s);
    var (p, s) :- ReadPresence(s, 4);
    if p[0] || p[2] || p[3] || !p[1] then Fail else
      var (ad, s) :- ParseAGnssAssist(s);
      var (_, s) :- SkipIf(s, ext);
      Got(ad, s)
  }

  // ---- RequestLocationInformation -----------------------------------------

  function ParseCommonReq(s: seq<bool>, present: bool): Parsed<()> {
    if !present then Got((), s)
    else
      var (ext, s) :- ReadBit(s);
      var (p, s) :- ReadPresence(s, 7);
      if true in p then Fail else
        var (_, s) :- ReadEnumExt(s, 4);
        SkipIf(s, ext)
  }

  function ParsePosInstr(s: seq<bool>, present: bool): Parsed<()> {
    if !present then Got((), s)
    else
      var (aExt, s) :- ReadBit(s);
      var (ext, s) :- ReadBit(s);
      var (_, s) :- ParseBitString(s, 16);
      var (_, s) :- ReadPresence(s, 4);
      var (_, s) :- SkipIf(s, ext);
      SkipIf(s, aExt)
  }

  function ParseReqLoc(s: seq<bool>): Parsed<()> {
    var (ext, s) :- ReadBit(s);
    var (p, s) :- ReadPresence(s, 5);
    if p[2] || p[3] || p[4] then Fail else
      var (_, s) :- ParseCommonReq(s, p[0]);
      var (_, s) :- ParsePosInstr(s, p[1]);
      SkipIf(s, ext)
  }

  // ---- ProvideLocationInformation -----------------------------------------

  function ParseSvId(s: seq<bool>): Parsed<Byte> {
    var (ext, s) :- ReadBit(s);
    var (id, s) :- ReadConstrained(s, 0, 63);
    var (_, s) :- SkipIf(s, ext);
    Got(U8(id), s)
  }

  /** codePhase, integerCodePhase (zero when absent) and codePhaseRMSError */
  function ParsePhase(s: seq<bool>, present: bool): Parsed<(U32, Byte, Byte)> {
    var (cp, s) :- ReadConstrained(s, 0, 2097151);
    var (icp, s) :- ReadIf(s, present, 0, 127);
    var (rms, s) :- ReadConstrained(s, 0, 63);
    Got((ToU32(cp), U8(OrZero(icp)), U8(rms)), s)
  }

  function ParseSat(s: seq<bool>): Parsed<SatMeas> {
    var (ext, s) :- ReadBit(s);
    var (p, s) :- ReadPresence(s, 4);
    var (svId, s) :- ParseSvId(s);
    var (cNo, s) :- ReadConstrained(s, 0, 63);
    var (mpath, s) :- ReadEnumExt(s, 4);
    var (_, s) :- ReadIf(s, p[0], 0, 3);
    var (phase, s) :- ParsePhase(s, p[1]);
    var (_, s) :- ReadIf(s, p[2], -32768, 32767);
    var (_, s) :- ReadIf(s, p[3], 0, 33554431);
    var (_, s) :- SkipIf(s, ext);
    Got(SatMeas(svId, U8(cNo), U8(mpath), phase.0, phase.1, phase.2), s)
  }

  function ParseSats(s: seq<bool>, n: nat, sats: seq<SatMeas>): Parsed<seq<SatMeas>>
    decreases n
  {
    if n == 0 then Got(sats, s)
    else
      var (sv, s) :- ParseSat(s);
      ParseSats(s, n - 1, sats + [sv])
  }

  function ParseMeasTime(s: seq<bool>): Parsed<U32> {
    hide ReadConstrained;
    var (ext, s) :- ReadBit(s);
    var (p, s) :- ReadPresence(s, 3);
    if p[2] then Fail else
      var (tod, s) :- ReadConstrained(s, 0, 3599999);
      var (_, s) :- ReadIf(s, p[0], 0, 3999);
      var (_, s) :- ReadIf(s, p[1], 0, 127);
      var (_, s) :- ParseGnssId(s);
      var (_, s) :- SkipIf(s, ext);
      Got(ToU32(tod), s)
  }

  function ParseSignalId(s: seq<bool>): Parsed<()> {
    var (ext, s) :- ReadBit(s);
    var (_, s) :- ReadConstrained(s, 0, 7);
    SkipIf(s, ext)
  }

  function ParseElement(s: seq<bool>): Parsed<seq<SatMeas>> {
    var (ext, s) :- ReadBit(s);
    var (p, s) :- ReadPresence(s, 1);
    var (_, s) :- ParseSignalId(s);
    var (_, s) :- ReadIf(s, p[0], 0, 127);
    var (count, s) :- ReadConstrained(s, 1, 64);
    var (sats, s) :- ParseSats(s, count, []);
    var (_, s) :- SkipIf(s, ext);
    Got(sats, s)
  }

  function ParseMeas(s: seq<bool>): Parsed<LocationMeasurements> {
    var (ext, s) :- ReadBit(s);
    var (tod, s) :- ParseMeasTime(s);
    var (listCount, s) :- ReadConstrained(s, 1, 16);
    if listCount != 1 then Fail else
      var (mExt, s) :- ReadBit(s);
      var (_, s) :- ParseGnssId(s);
      var (sgnCount, s) :- ReadConstrained(s, 1, 8);
      if sgnCount != 1 then Fail else
        var (sats, s) :- ParseElement(s);
        var (_, s) :- SkipIf(s, mExt);
        var (_, s) :- SkipIf(s, ext);
        Got(LocationMeasurements(tod, sats), s)
  }

  function ParseMeasIf(s: seq<bool>, present: bool): Parsed<Option<LocationMeasurements>> {
    if !present then Got(None, s)
    else
      var (m, s) :- ParseMeas(s);
      Got(Some(m), s)
  }

  function ParseError(s: seq<bool>): Parsed<Byte> {
    var (choiceExt, s) :- ReadBit(s);
    if choiceExt then Fail else
      var (alt, s) :- ReadBits(s, 1);
      if alt != 1 then Fail else
        var (ext, s) :- ReadBit(s);
        var (_, s) :- ReadPresence(s, 3);
        var (cause, s) :- ReadEnumExt(s, 4);
        var (_, s) :- SkipIf(s, ext);
        Got(U8(cause), s)
  }

  function ParseErrorIf(s: seq<bool>, present: bool): Parsed<Option<Byte>> {
    if !present then Got(None, s)
    else
      var (c, s) :- ParseError(s);
      Got(Some(c), s)
  }

  function ParseAGnssLoc(s: seq<bool>): Parsed<Payload> {
    var (ext, s) :- ReadBit(s);
    var (p, s) :- ReadPresence(s, 3);
    if p[1] then Fail else
      var (meas, s) :- ParseMeasIf(s, p[0]);
      var (cause, s) :- ParseErrorIf(s, p[2]);
      var (_, s) :- SkipIf(s, ext);
      Got(ProvideLocationInformation(meas, cause), s)
  }

  function ParseProvLoc(s: seq<bool>): Parsed<Payload> {
    var (ext, s) :- ReadBit(s);
    var (p, s) :- ReadPresence(s, 5);
    if p[0] || p[2] || p[3] || p[4] || !p[1] then Fail else
      var (payload, s) :- ParseAGnssLoc(s);
      var (_, s) :- SkipIf(s, ext);
      if payload == ProvideLocationInformation(None, None) then Fail else Got(payload, s)
  }

  // ---- envelope -----------------------------------------------------------

  function ParseCriticalExtensions(s: seq<bool>): Parsed<()> {
    var (choice, s) :- ReadBit(s);
    if choice then Fail else
      var (c1, s) :- ReadBits(s, 2);
      if c1 != 0 then Fail else Got((), s)
  }

  function ParseBody(s: seq<bool>, c1: nat): Parsed<Payload> {
    match c1
    case 0 =>
      var (_, s) :- ParseReqCaps(s);
      Got(RequestCapabilities, s)
    case 1 =>
      var (caps, s) :- ParseProvCaps(s);
      Got(ProvideCapabilities(caps), s)
    case 3 =>
      var (assist, s) :- ParseAssist(s);
      Got(ProvideAssistanceData(assist), s)
    case 4 =>
      var (_, s) :- ParseReqLoc(s);
      Got(RequestLocationInformation, s)
    case 5 => ParseProvLoc(s)
    case _ => Fail
  }

  function ParseTxnIf(s: seq<bool>, present: bool): Parsed<Option<TransactionID>> {
    if !present then Got(None, s)
    else
      var (txn, s) :- ParseTxn(s);
      Got(Some(txn), s)
  }

  function ParseAckIf(s: seq<bool>, present: bool): Parsed<()> {
    if !present then Got((), s)
    else
      var (p, s) :- ReadPresence(s, 1);
      var (_, s) :- ReadBit(s);
      var (_, s) :- ReadIf(s, p[0], 0, 255);
      Got((), s)
  }

  function ParseMessage(s: seq<bool>): Parsed<PDU> {
    var (p, s) :- ReadPresence(s, 4);
    var (txn, s) :- ParseTxnIf(s, p[0]);
    var (endTx, s) :- ReadBit(s);
    var (_, s) :- ReadIf(s, p[1], 0, 255);
    var (_, s) :- ParseAckIf(s, p[2]);
    if !p[3] then Fail else
      var (bodyChoice, s) :- ReadBit(s);
      if bodyChoice then Fail else
        var (c1, s) :- ReadBits(s, BitWidth(16));
        var (_, s) :- ParseCriticalExtensions(s);
        var (payload, s) :- ParseBody(s, c1);
        Got(PDU(txn, endTx, payload), s)
  }

  // ---- decoding inverts encoding ------------------------------------------

  lemma IfInverts(o: Option<Int64>, lb: Int64, ub: Int64, k: seq<bool>)
    requires lb <= ub && InRange(o, lb, ub) && Representable(lb, ub)
    ensures ReadIf(PutIf(o, lb, ub, k), o.Some?, lb, ub) == Got(o, k)
  {
  }

  lemma TxnInverts(w: WTxn, k: seq<bool>)
    requires w.Wf()
    ensures ParseTxn(PutTxn(w, k)) == Got(TransactionID(U8(w.initiator), w.number), k)
  {
    hide Put, PutOctet, ReadBits, ReadConstrained, PutConstrained, ReadEnumExt, PutEnum, SkipIf, PutExt, ReadPresence,
         Flags, ReadBit, PutExtBit, PutBool;
  }

  lemma GnssIdInverts(w: WGnssId, k: seq<bool>)
    requires w.Wf()
    ensures ParseGnssId(PutGnssId(w, k)) == Got(U8(w.id), k)
  {
  }

  lemma BitStringInverts(w: WBitString, max: nat, k: seq<bool>)
    requires w.Wf(max)
    ensures ParseBitString(PutBitString(w, max, k), max) == Got((w.len, w.bits), k)
  {
  }

  lemma ReqCapsFlagsInvert(w: WReqCaps, k: seq<bool>)
    ensures ParseReqCapsFlags(PutReqCapsFlags(w, k)) == Got((), k)
  {
    hide PutBool, ReadBit, SkipIf, PutExt, PutExtBit;
  }

  lemma ReqCapsInverts(ext: Ext, a: Option<WReqCaps>, k: seq<bool>)
    ensures ParseReqCaps(PutReqCaps(ext, a, k)) == Got((), k)
  {
    hide Put, PutOctet, ReadBits, ReadConstrained, PutConstrained, ReadEnumExt, PutEnum, SkipIf, PutExt, ReadPresence,
         Flags, ReadBit, PutExtBit, PutBool;
    hide ParseReqCapsFlags, PutReqCapsFlags;
    if a.Some? { ReqCapsFlagsInvert(a.value, PutExt(ext, k)); }
  }

  lemma SignalsInvert(ext: Ext, signals: Byte, k: seq<bool>)
    ensures ParseSignals(PutSignals(ext, signals, k)) == Got((), k)
  {
    hide PutOctet, ReadBits, ReadBit, SkipIf, PutExt, PutExtBit;
  }

  lemma SupportInverts(w: WSupport, k: seq<bool>)
    requires w.Wf()
    ensures ParseSupport(PutSupport(w, k)) == Got((U8(w.gnssId.id), UeAssisted(w)), k)
  {
    hide Put, PutOctet, ReadBits, ReadConstrained, PutConstrained, ReadEnumExt, PutEnum, SkipIf, PutExt, ReadPresence,
         Flags, ReadBit, PutExtBit, PutBool;
    hide ParseSignals, PutSignals, ParseBitString, PutBitString, ParseGnssId, PutGnssId, U8;
    var k1 := PutBool(w.adr, PutBool(w.velocity, PutExt(w.ext, k)));
    SignalsInvert(w.signalsExt, w.signals, k1);
    var k2 := PutSignals(w.signalsExt, w.signals, k1);
    BitStringInverts(w.modes, 8, k2);
    var k3 := PutBitString(w.modes, 8, k2);
    if w.sbas.Some? { BitStringInverts(w.sbas.value, 8, k3); }
    GnssIdInverts(w.gnssId, PutSbas(w.sbas, k3));
  }

  lemma {:induction false} SupportsInvert(ws: seq<WSupport>, gps: bool, ids: seq<Byte>, k: seq<bool>)
    requires forall i | 0 <= i < |ws| :: ws[i].Wf()
    ensures ParseSupports(PutSupports(ws, k), |ws|, gps, ids)
         == Got((gps || ViewSupports(ws).gpsUeAssisted, ids + ViewSupports(ws).supportedGnss), k)
    decreases |ws|
  {
    hide ParseSupport, PutSupport;
    if ws == [] {
      assert ids + ViewSupports(ws).supportedGnss == ids;
    } else {
      var id, ue := U8(ws[0].gnssId.id), UeAssisted(ws[0]);
      SupportInverts(ws[0], PutSupports(ws[1..], k));
      SupportsInvert(ws[1..], gps || (id == 0 && ue), ids + [id], k);
      var v, v' := ViewSupports(ws), ViewSupports(ws[1..]);
      assert v.supportedGnss == [id] + v'.supportedGnss;
      assert ids + [id] + v'.supportedGnss == ids + v.supportedGnss;
      assert v.gpsUeAssisted == ((id == 0 && ue) || v'.gpsUeAssisted) by {
        if v.gpsUeAssisted {
          var i :| 0 <= i < |ws| && U8(ws[i].gnssId.id) == 0 && UeAssisted(ws[i]);
          assert i > 0 ==> ws[1..][i - 1] == ws[i];
        }
        if v'.gpsUeAssisted {
          var i :| 0 <= i < |ws[1..]| && U8(ws[1..][i].gnssId.id) == 0 && UeAssisted(ws[1..][i]);
          assert ws[i + 1] == ws[1..][i];
        }
      }
    }
  }

  lemma SupportListInverts(w: WProvCaps, k: seq<bool>)
    requires w.Wf()
    ensures ParseSupportList(PutSupportList(w, k)) == Got(ViewSupports(w.supports), k)
  {
    hide Put, PutOctet, ReadBits, ReadConstrained, PutConstrained, ReadEnumExt, PutEnum, SkipIf, PutExt, ReadPresence,
         Flags, ReadBit, PutExtBit, PutBool;
    hide ParseSupport, PutSupport;
    SupportsInvert(w.supports, false, [], PutExt(w.ext, k));
    assert [] + ViewSupports(w.supports).supportedGnss == ViewSupports(w.supports).supportedGnss;
  }

  lemma ProvCapsInverts(ext: Ext, a: Option<WProvCaps>, k: seq<bool>)
    requires a.Some? ==> a.value.Wf()
    ensures ParseProvCaps(PutProvCaps(ext, a, k))
         == Got(ViewSupports(if a.Some? then a.value.supports else []), k)
  {
    hide Put, PutOctet, ReadBits, ReadConstrained, PutConstrained, ReadEnumExt, PutEnum, SkipIf, PutExt, ReadPresence,
         Flags, ReadBit, PutExtBit, PutBool;
    hide ParseSupportList, PutSupportList;
    if a.Some? { SupportListInverts(a.value, PutExt(ext, k)); }
    assert ViewSupports([]) == Capabilities(false, false, []);
  }

  lemma SystemTimeInverts(w: WAssist, k: seq<bool>)
    requires w.Wf()
    ensures ParseSystemTime(PutSystemTime(w, k)) == Got((ToU16(w.dayNumber), ToU32(w.timeOfDay)), k)
  {
    hide Put, PutOctet, ReadBits, ReadConstrained, PutConstrained, ReadEnumExt, PutEnum, SkipIf, PutExt, ReadPresence,
         Flags, ReadBit, PutExtBit, PutBool;
    var k1 := PutExt(w.sysTimeExt, k);
    var k2 := PutLeap(w.leap, k1);
    assert ParseLeap(k2, w.leap.Some?) == Got((), k1);
    IfInverts(w.fracMsec, 0, 999, k2);
    GnssIdInverts(w.timeId, PutConstrained(w.dayNumber, 0, 32767, PutConstrained(w.timeOfDay, 0, 86399,
      PutIf(w.fracMsec, 0, 999, k2))));
  }

  lemma ReferenceTimeInverts(w: WAssist, k: seq<bool>)
    requires w.Wf()
    ensures ParseReferenceTime(PutReferenceTime(w, k))
         == Got((ToU16(w.dayNumber), ToU32(w.timeOfDay), U8(OrZero(w.unc))), k)
  {
    hide Put, PutOctet, ReadBits, ReadConstrained, PutConstrained, ReadEnumExt, PutEnum, SkipIf, PutExt, ReadPresence,
         Flags, ReadBit, PutExtBit, PutBool;
    var k1 := PutExt(w.refTimeExt, k);
    IfInverts(w.unc, 0, 127, k1);
    SystemTimeInverts(w, PutIf(w.unc, 0, 127, k1));
  }

  lemma LocationInverts(w: WLocation, k: seq<bool>)
    requires w.Wf()
    ensures ParseLocation(PutLocation(w, k)) == Got(ViewLocation(w), k)
  {
    hide Put, PutOctet, ReadBits, ReadConstrained, PutConstrained, ReadEnumExt, PutEnum, SkipIf, PutExt, ReadPresence,
         Flags, ReadBit, PutExtBit, PutBool;
  }

  lemma ReferenceLocationInverts(w: WAssist, k: seq<bool>)
    requires w.Wf()
    ensures ParseReferenceLocation(PutReferenceLocation(w, k)) == Got(ViewLocation(w.location), k)
  {
    hide ParseLocation, PutLocation, ViewLocation, SkipIf, PutExt, ReadBit, PutExtBit;
    LocationInverts(w.location, PutExt(w.refLocExt, k));
  }

  lemma CommonAssistInverts(w: WAssist, k: seq<bool>)
    requires w.Wf()
    ensures ParseCommonAssist(PutCommonAssist(w, k)) == Got(ViewAssist(w), k)
  {
    hide Put, PutOctet, ReadBits, ReadConstrained, PutConstrained, ReadEnumExt, PutEnum, SkipIf, PutExt, ReadPresence,
         Flags, ReadBit, PutExtBit, PutBool;
    hide ParseReferenceTime, PutReferenceTime, ParseReferenceLocation, PutReferenceLocation, ViewLocation, ToU16,
         ToU32, U8;
    ReferenceLocationInverts(w, PutExt(w.commonExt, k));
    ReferenceTimeInverts(w, PutReferenceLocation(w, PutExt(w.commonExt, k)));
  }

  lemma AssistInverts(ext: Ext, w: WAssist, k: seq<bool>)
    requires w.Wf()
    ensures ParseAssist(PutAssist(ext, w, k)) == Got(ViewAssist(w), k)
  {
    hide Put, PutOctet, ReadBits, ReadConstrained, PutConstrained, ReadEnumExt, PutEnum, SkipIf, PutExt, ReadPresence,
         Flags, ReadBit, PutExtBit, PutBool;
    hide ParseCommonAssist, PutCommonAssist, ViewAssist;
    CommonAssistInverts(w, PutExt(w.agnssExt, PutExt(ext, k)));
  }

  lemma CommonReqInverts(o: Option<WCommonReq>, k: seq<bool>)
    requires o.Some? ==> o.value.Wf()
    ensures ParseCommonReq(PutCommonReq(o, k), o.Some?) == Got((), k)
  {
    hide Put, PutOctet, ReadBits, ReadConstrained, PutConstrained, ReadEnumExt, PutEnum, SkipIf, PutExt, ReadPresence,
         Flags, ReadBit, PutExtBit, PutBool;
  }

  lemma PosInstrInverts(o: Option<WPosInstr>, k: seq<bool>)
    requires o.Some? ==> o.value.Wf()
    ensures ParsePosInstr(PutPosInstr(o, k), o.Some?) == Got((), k)
  {
    hide Put, PutOctet, ReadBits, ReadConstrained, PutConstrained, ReadEnumExt, PutEnum, SkipIf, PutExt, ReadPresence,
         Flags, ReadBit, PutExtBit, PutBool;
    if o.Some? {
      var w := o.value;
      BitStringInverts(w.methods, 16, Flags(w.flags, PutExt(w.ext, PutExt(w.agnssExt, k))));
    }
  }

  lemma ReqLocInverts(ext: Ext, c: Option<WCommonReq>, p: Option<WPosInstr>, k: seq<bool>)
    requires (c.Some? ==> c.value.Wf()) && (p.Some? ==> p.value.Wf())
    ensures ParseReqLoc(PutReqLoc(ext, c, p, k)) == Got((), k)
  {
    hide Put, PutOctet, ReadBits, ReadConstrained, PutConstrained, ReadEnumExt, PutEnum, SkipIf, PutExt, ReadPresence,
         Flags, ReadBit, PutExtBit, PutBool;
    var k1 := PutExt(ext, k);
    PosInstrInverts(p, k1);
    CommonReqInverts(c, PutPosInstr(p, k1));
  }

  lemma SvIdInverts(ext: Ext, svId: nat, k: seq<bool>)
    requires svId <= 63
    ensures ParseSvId(PutSvId(ext, svId, k)) == Got(U8(svId), k)
  {
    hide PutConstrained, ReadConstrained, ReadBit, SkipIf, PutExt, PutExtBit;
  }

  lemma PhaseInverts(w: WSat, k: seq<bool>)
    requires w.Wf()
    ensures ParsePhase(PutPhase(w, k), w.integerCodePhase.Some?)
         == Got((ToU32(w.codePhase), U8(OrZero(w.integerCodePhase)), U8(w.codePhaseRMSError)), k)
  {
    hide PutConstrained, ReadConstrained, ReadIf, PutIf;
    IfInverts(w.integerCodePhase, 0, 127, PutConstrained(w.codePhaseRMSError, 0, 63, k));
  }

  lemma SatInverts(w: WSat, k: seq<bool>)
    requires w.Wf()
    ensures ParseSat(PutSat(w, k)) == Got(ViewSat(w), k)
  {
    hide Put, PutOctet, ReadBits, ReadConstrained, PutConstrained, ReadEnumExt, PutEnum, SkipIf, PutExt, ReadPresence,
         Flags, ReadBit, PutExtBit, PutBool;
    hide ParseSvId, PutSvId, ParsePhase, PutPhase, ReadIf, PutIf, U8, ToU32;
    var k1 := PutExt(w.ext, k);
    IfInverts(w.adr, 0, 33554431, k1);
    var k2 := PutIf(w.adr, 0, 33554431, k1);
    IfInverts(w.doppler, -32768, 32767, k2);
    var k3 := PutIf(w.doppler, -32768, 32767, k2);
    PhaseInverts(w, k3);
    IfInverts(w.carrierQuality, 0, 3, PutPhase(w, k3));
    var k4 := PutConstrained(w.cNo, 0, 63, PutEnum(w.mpathDet, 4, PutIf(w.carrierQuality, 0, 3, PutPhase(w, k3))));
    SvIdInverts(w.svExt, w.svId, k4);
  }

  lemma {:induction false} SatsInvert(ws: seq<WSat>, sats: seq<SatMeas>, k: seq<bool>)
    requires forall i | 0 <= i < |ws| :: ws[i].Wf()
    ensures ParseSats(PutSats(ws, k), |ws|, sats) == Got(sats + ViewSats(ws), k)
    decreases |ws|
  {
    hide ParseSat, PutSat, ViewSat;
    if ws == [] {
      assert sats + ViewSats(ws) == sats;
    } else {
      SatInverts(ws[0], PutSats(ws[1..], k));
      SatsInvert(ws[1..], sats + [ViewSat(ws[0])], k);
      assert sats + [ViewSat(ws[0])] + ViewSats(ws[1..]) == sats + ViewSats(ws);
    }
  }

  lemma MeasTimeInverts(w: WMeas, k: seq<bool>)
    requires w.Wf()
    ensures ParseMeasTime(PutMeasTime(w, k)) == Got(ToU32(w.todMsec), k)
  {
    hide Put, PutOctet, ReadBits, ReadConstrained, PutConstrained, ReadEnumExt, PutEnum, SkipIf, PutExt, ReadPresence,
         Flags, ReadBit, PutExtBit, PutBool;
    var k1 := PutGnssId(w.timeId, PutExt(w.timeExt, k));
    GnssIdInverts(w.timeId, PutExt(w.timeExt, k));
    IfInverts(w.todUnc, 0, 127, k1);
    IfInverts(w.todFrac, 0, 3999, PutIf(w.todUnc, 0, 127, k1));
  }

  lemma ElementInverts(w: WMeas, k: seq<bool>)
    requires w.Wf()
    ensures ParseElement(PutElement(w, k)) == Got(ViewSats(w.sats), k)
  {
    hide Put, PutOctet, ReadBits, ReadConstrained, PutConstrained, ReadEnumExt, PutEnum, SkipIf, PutExt, ReadPresence,
         Flags, ReadBit, PutExtBit, PutBool;
    var k1 := PutExt(w.elementExt, k);
    SatsInvert(w.sats, [], k1);
    assert [] + ViewSats(w.sats) == ViewSats(w.sats);
    var k2 := PutConstrained(|w.sats|, 1, 64, PutSats(w.sats, k1));
    IfInverts(w.ambiguity, 0, 127, k2);
    var k3 := PutIf(w.ambiguity, 0, 127, k2);
    var k4 := PutExtBit(w.signalIdExt, PutConstrained(w.signalId, 0, 7, PutExt(w.signalIdExt, k3)));
    assert ParseSignalId(k4) == Got((), k3);
  }

  lemma MeasInverts(w: WMeas, k: seq<bool>)
    requires w.Wf()
    ensures ParseMeas(PutMeas(w, k)) == Got(LocationMeasurements(ToU32(w.todMsec), ViewSats(w.sats)), k)
  {
    hide Put, PutOctet, ReadBits, ReadConstrained, PutConstrained, ReadEnumExt, PutEnum, SkipIf, PutExt, ReadPresence,
         Flags, ReadBit, PutExtBit, PutBool;
    var k1 := PutExt(w.oneGnssExt, PutExt(w.ext, k));
    ElementInverts(w, k1);
    var k2 := PutConstrained(1, 1, 8, PutElement(w, k1));
    GnssIdInverts(w.gnssId, k2);
    MeasTimeInverts(w, PutConstrained(1, 1, 16, PutExtBit(w.oneGnssExt, PutGnssId(w.gnssId, k2))));
  }

  lemma ErrorInverts(w: WError, k: seq<bool>)
    requires w.Wf()
    ensures ParseError(PutError(w, k)) == Got(U8(w.cause), k)
  {
    assert Pow2(1) == 2;
  }

  lemma AGnssLocInverts(ext: Ext, m: Option<WMeas>, e: Option<WError>, k: seq<bool>)
    requires (m.Some? ==> m.value.Wf()) && (e.Some? ==> e.value.Wf())
    ensures ParseAGnssLoc(PutAGnssLoc(ext, m, e, k)) == Got(ViewLoc(m, e), k)
  {
    hide Put, PutOctet, ReadBits, ReadConstrained, PutConstrained, ReadEnumExt, PutEnum, SkipIf, PutExt, ReadPresence,
         Flags, ReadBit, PutExtBit, PutBool;
    hide ParseMeas, PutMeas, ParseError, PutError;
    var t := PutExt(ext, k);
    if e.Some? { ErrorInverts(e.value, t); }
    assert ParseErrorIf(PutErrorIf(e, t), e.Some?) == Got(ViewError(e), t);
    var u := PutErrorIf(e, t);
    if m.Some? { MeasInverts(m.value, u); }
    assert ParseMeasIf(PutMeasIf(m, u), m.Some?) == Got(ViewMeas(m), u);
  }

  lemma ProvLocInverts(ext: Ext, agnssExt: Ext, m: Option<WMeas>, e: Option<WError>, k: seq<bool>)
    requires WProvideLocationInformation(ext, agnssExt, m, e).Wf()
    ensures ParseProvLoc(PutProvLoc(ext, agnssExt, m, e, k)) == Got(ViewLoc(m, e), k)
  {
    hide Put, PutOctet, ReadBits, ReadConstrained, PutConstrained, ReadEnumExt, PutEnum, SkipIf, PutExt, ReadPresence,
         Flags, ReadBit, PutExtBit, PutBool;
    hide ParseAGnssLoc, PutAGnssLoc;
    AGnssLocInverts(agnssExt, m, e, PutExt(ext, k));
  }

  lemma BodyInverts(b: WBody, k: seq<bool>)
    requires b.Wf()
    ensures ParseBody(PutBody(b, k), b.Index()) == Got(ViewBody(b), k)
  {
    hide ParseReqCaps, PutReqCaps, ParseProvCaps, PutProvCaps, ParseAssist, PutAssist, ParseReqLoc, PutReqLoc,
         ParseProvLoc, PutProvLoc;
    match b
    case WRequestCapabilities(ext, a) => ReqCapsInverts(ext, a, k);
    case WProvideCapabilities(ext, a) => ProvCapsInverts(ext, a, k);
    case WProvideAssistanceData(ext, a) => AssistInverts(ext, a, k);
    case WRequestLocationInformation(ext, c, p) => ReqLocInverts(ext, c, p, k);
    case WProvideLocationInformation(ext, agnssExt, m, e) => ProvLocInverts(ext, agnssExt, m, e, k);
  }

  lemma AckInverts(o: Option<WAck>, k: seq<bool>)
    ensures ParseAckIf(PutAck(o, k), o.Some?) == Got((), k)
  {
  }

  lemma ChoicesInvert(index: nat, k: seq<bool>)
    requires index < 16
    ensures var s := PutChoices(index, k);
            && ReadBit(s).Got? && !ReadBit(s).value
            && ReadBits(ReadBit(s).rest, BitWidth(16)).Got?
            && ReadBits(ReadBit(s).rest, BitWidth(16)).value == index
            && ParseCriticalExtensions(ReadBits(ReadBit(s).rest, BitWidth(16)).rest) == Got((), k)
  {
    hide Put, ReadBits, ReadBit, PutBool;
    assert BitWidth(16) == 4 && Pow2(4) == 16;
  }

  /** Decoding the encoding of any well-formed message, with any extension
      additions and ignored fields, and any bits after it, shows the message and
      stops exactly at its end. */
  lemma MessageInverts(w: WMessage, k: seq<bool>)
    requires w.Wf()
    ensures ParseMessage(PutMessage(w, k)) == Got(View(w), k)
  {
    hide Put, PutOctet, ReadBits, ReadConstrained, PutConstrained, ReadEnumExt, PutEnum, SkipIf, PutExt, ReadPresence,
         Flags, ReadBit, PutExtBit, PutBool;
    hide ParseBody, PutBody, ViewBody, ParseTxn, PutTxn, PutChoices, ParseCriticalExtensions, PutAck, ParseAckIf,
         PutIf, ReadIf, BitWidth;
    BodyInverts(w.body, k);
    var k0 := PutBody(w.body, k);
    ChoicesInvert(w.body.Index(), k0);
    var k1 := PutChoices(w.body.Index(), k0);
    AckInverts(w.ack, k1);
    var k2 := PutAck(w.ack, k1);
    IfInverts(w.sequenceNumber, 0, 255, k2);
    if w.txn.Some? {
      TxnInverts(w.txn.value, PutBool(w.endTransaction, PutIf(w.sequenceNumber, 0, 255, k2)));
    }
  }

  // ---- extension tolerance -------------------------------------------------

  function BareId(w: WGnssId): WGnssId { w.(ext := NoExt, spare := false) }
  function BareBits(w: WBitString): WBitString { w.(ext := NoExt) }

  function BareSupport(w: WSupport): WSupport {
    w.(ext := NoExt, gnssId := BareId(w.gnssId), modes := BareBits(w.modes), signalsExt := NoExt,
       sbas := None)
  }

  function BareSat(w: WSat): WSat {
    w.(ext := NoExt, svExt := NoExt, carrierQuality := None, doppler := None, adr := None)
  }

  function BareMeas(w: WMeas): WMeas {
    w.(ext := NoExt, timeExt := NoExt, timeId := BareId(w.timeId), oneGnssExt := NoExt,
       gnssId := BareId(w.gnssId), elementExt := NoExt, signalIdExt := NoExt,
       todFrac := None, todUnc := None, ambiguity := None,
       sats := seq(|w.sats|, i requires 0 <= i < |w.sats| => BareSat(w.sats[i])))
  }

  function BareAssist(w: WAssist): WAssist {
    w.(agnssExt := NoExt, commonExt := NoExt, refTimeExt := NoExt, sysTimeExt := NoExt,
       timeId := BareId(w.timeId), refLocExt := NoExt, fracMsec := None, leap := None)
  }

  function BareBody(b: WBody): WBody {
    match b
    case WRequestCapabilities(_, _) => WRequestCapabilities(NoExt, None)
    case WProvideCapabilities(_, a) =>
      WProvideCapabilities(NoExt,
        if a.Some? then
          var ws := a.value.supports;
          Some(WProvCaps(NoExt, seq(|ws|, i requires 0 <= i < |ws| => BareSupport(ws[i]))))
        else None)
    case WProvideAssistanceData(_, a) => WProvideAssistanceData(NoExt, BareAssist(a))
    case WRequestLocationInformation(_, _, _) => WRequestLocationInformation(NoExt, None, None)
    case WProvideLocationInformation(_, _, m, e) =>
      WProvideLocationInformation(NoExt, NoExt,
        if m.Some? then Some(BareMeas(m.value)) else None,
        if e.Some? then Some(e.value.(ext := NoExt, nulls := [false, false, false])) else None)
  }

  /** The message with every extension bit clear, every additions block removed
      and every OPTIONAL field absent that the API does not show */
  function Bare(w: WMessage): WMessage {
    w.(txn := if w.txn.Some? then Some(w.txn.value.(ext := NoExt)) else None,
       sequenceNumber := None, ack := None, body := BareBody(w.body))
  }

  lemma BareShowsSame(b: WBody)
    requires b.Wf()
    ensures BareBody(b).Wf() && ViewBody(BareBody(b)) == ViewBody(b)
  {
    match b
    case WProvideCapabilities(_, a) =>
      if a.Some? {
        var ws, bs := a.value.supports, BareBody(b).provCaps.value.supports;
        assert |bs| == |ws| && forall i | 0 <= i < |ws| :: bs[i] == BareSupport(ws[i]);
        assert forall i | 0 <= i < |ws| :: UeAssisted(bs[i]) == UeAssisted(ws[i]);
        var v, v' := ViewSupports(ws), ViewSupports(bs);
        assert v.supportedGnss == v'.supportedGnss;
      }
    case WProvideLocationInformation(_, _, m, _) =>
      if m.Some? {
        assert ViewSats(BareMeas(m.value).sats) == ViewSats(m.value.sats);
      }
    case _ =>
  }

  /** Extension additions on any of the extensible SEQUENCEs, and the OPTIONAL
      fields the decoder consumes and ignores, are invisible: the message decodes
      to what it decodes to without them, and decoding resumes at the first bit
      after it. */
  lemma ExtensionsAreSkipped(w: WMessage, k: seq<bool>)
    requires w.Wf()
    ensures Bare(w).Wf()
    ensures exists pdu :: ParseMessage(PutMessage(w, k)) == Got(pdu, k)
                       && ParseMessage(PutMessage(Bare(w), k)) == Got(pdu, k)
  {
    hide ParseMessage, PutMessage, ViewBody, BareBody;
    BareShowsSame(w.body);
    MessageInverts(w, k);
    MessageInverts(Bare(w), k);
    assert View(w) == View(Bare(w));
  }
}
