/**
 The LPP decoder as it runs: methods that advance a bit reader, each proved to
 accept the same bits, return the same value and stop at the same place as the
 matching function of `LppParse`.
 */
module LppDecoder {
  import opened Wrappers
  import opened Machine
  import opened Bits
  import Uper
  import opened BitStreams
  import opened LppSyntax
  import opened LppParse

  method DecodeIf(r: BitReader, present: bool, lb: Int64, ub: Int64) returns (res: Result<Option<Int64>>)
    requires r.Valid() && lb <= ub
    modifies r
    ensures r.Valid() && r.Agrees(ReadIf(old(r.Rest()), present, lb, ub), res)
  {
    if !present {
      return Ok(None);
    }
    var v :- r.ReadConstrained(lb, ub);
    return Ok(Some(v));
  }

  method DecodeTransactionID(r: BitReader) returns (res: Result<TransactionID>)
    requires r.Valid()
    modifies r
    ensures r.Valid() && r.Agrees(ParseTxn(old(r.Rest())), res)
  {
    hide BitReader.Rest, StreamBits, Uper.ReadBit, Uper.ReadPresence, Uper.ReadBits, Uper.ReadEnumExt, Uper.SkipIf;
    var ext :- r.ReadBit();
    var init :- r.ReadEnumExt(2);
    var num :- r.ReadBits(8);
    var _ :- r.SkipIf(ext);
    return Ok(TransactionID(U8(init), U8(num)));
  }

  method DecodeGnssId(r: BitReader) returns (res: Result<Byte>)
    requires r.Valid()
    modifies r
    ensures r.Valid() && r.Agrees(ParseGnssId(old(r.Rest())), res)
  {
    hide BitReader.Rest, StreamBits, Uper.ReadBit, Uper.ReadPresence, Uper.ReadEnumExt, Uper.SkipIf;
    var ext :- r.ReadBit();
    var v :- r.ReadEnumExt(5);
    var _ :- r.SkipIf(ext);
    return Ok(U8(v));
  }

  method DecodeBitString(r: BitReader, max: nat) returns (res: Result<(nat, nat)>)
    requires r.Valid() && 1 <= max <= 16
    modifies r
    ensures r.Valid() && r.Agrees(ParseBitString(old(r.Rest()), max), res)
  {
    hide BitReader.Rest, StreamBits, Uper.ReadBit, Uper.ReadPresence, Uper.ReadBits, Uper.ReadConstrained,
         Uper.SkipIf;
    var ext :- r.ReadBit();
    var n :- r.ReadConstrained(1, max);
    var v :- r.ReadBits(n);
    var _ :- r.SkipIf(ext);
    return Ok((n, v));
  }

  method DecodeReqCapsFlags(r: BitReader) returns (res: Result<()>)
    requires r.Valid()
    modifies r
    ensures r.Valid() && r.Agrees(ParseReqCapsFlags(old(r.Rest())), res)
  {
    hide BitReader.Rest, StreamBits, Uper.ReadBit, Uper.SkipIf;
    var ext :- r.ReadBit();
    var _ :- r.ReadBool();
    var _ :- r.ReadBool();
    var _ :- r.ReadBool();
    res := r.SkipIf(ext);
  }

  method DecodeSignals(r: BitReader) returns (res: Result<()>)
    requires r.Valid()
    modifies r
    ensures r.Valid() && r.Agrees(ParseSignals(old(r.Rest())), res)
  {
    hide BitReader.Rest, StreamBits, Uper.ReadBit, Uper.ReadBits, Uper.SkipIf;
    var ext :- r.ReadBit();
    var _ :- r.ReadBits(8);
    res := r.SkipIf(ext);
  }

  method DecodeRequestCapabilities(r: BitReader) returns (res: Result<()>)
    requires r.Valid()
    modifies r
    ensures r.Valid() && r.Agrees(ParseReqCaps(old(r.Rest())), res)
  {
    hide BitReader.Rest, StreamBits, Uper.ReadBit, Uper.ReadPresence, Uper.SkipIf, ParseReqCapsFlags;
    var ext :- r.ReadBit();
    var p :- r.ReadPresence(5);
    if p[0] || p[2] || p[3] || p[4] {
      return Err;
    }
    if p[1] {
      var _ :- DecodeReqCapsFlags(r);
    }
    res := r.SkipIf(ext);
  }

  method DecodeSbas(r: BitReader, present: bool) returns (res: Result<()>)
    requires r.Valid()
    modifies r
    ensures r.Valid() && r.Agrees(ParseSbas(old(r.Rest()), present), res)
  {
    hide BitReader.Rest, StreamBits, ParseBitString;
    if present {
      var _ :- DecodeBitString(r, 8);
    }
    return Ok(());
  }

  method DecodeSupportElement(r: BitReader) returns (res: Result<(Byte, bool)>)
    requires r.Valid()
    modifies r
    ensures r.Valid() && r.Agrees(ParseSupport(old(r.Rest())), res)
  {
    hide BitReader.Rest, StreamBits, Uper.ReadBit, Uper.ReadPresence, Uper.SkipIf, ParseGnssId, ParseBitString,
         ParseSbas, ParseSignals, Bit;
    var ext :- r.ReadBit();
    var p :- r.ReadPresence(2);
    var id :- DecodeGnssId(r);
    var _ :- DecodeSbas(r, p[0]);
    var modes :- DecodeBitString(r, 8);
    var _ :- DecodeSignals(r);
    if p[1] {
      return Err;
    }
    var _ :- r.ReadBool();
    var _ :- r.ReadBool();
    var _ :- r.SkipIf(ext);
    return Ok((id, modes.0 >= 3 && Bit(modes.1, modes.0 - 3)));
  }

  method DecodeSupportList(r: BitReader) returns (res: Result<Capabilities>)
    requires r.Valid()
    modifies r
    ensures r.Valid() && r.Agrees(ParseSupportList(old(r.Rest())), res)
  {
    hide BitReader.Rest, StreamBits, Uper.ReadBit, Uper.ReadPresence, Uper.ReadConstrained, Uper.SkipIf, ParseSupport;
    var ext :- r.ReadBit();
    var p :- r.ReadPresence(4);
    if p[1] || p[2] || p[3] {
      return Err;
    }
    var info := Capabilities(false, false, []);
    if p[0] {
      var count :- r.ReadConstrained(1, 16);
      ghost var start := r.Rest();
      var i := 0;
      while i < count
        invariant 0 <= i <= count
        invariant r.Valid()
        invariant ParseSupports(r.Rest(), count - i, info.gpsUeAssisted, info.supportedGnss)
               == ParseSupports(start, count, false, [])
      {
        var e :- DecodeSupportElement(r);
        info := info.(supportedGnss := info.supportedGnss + [e.0],
                      gpsUeAssisted := info.gpsUeAssisted || (e.0 == 0 && e.1));
        i := i + 1;
      }
      info := info.(agnssSupported := |info.supportedGnss| > 0);
    }
    var _ :- r.SkipIf(ext);
    return Ok(info);
  }

  method DecodeProvideCapabilities(r: BitReader) returns (res: Result<Capabilities>)
    requires r.Valid()
    modifies r
    ensures r.Valid() && r.Agrees(ParseProvCaps(old(r.Rest())), res)
  {
    hide BitReader.Rest, StreamBits, Uper.ReadBit, Uper.ReadPresence, Uper.SkipIf, ParseSupportList;
    var info := Capabilities(false, false, []);
    var ext :- r.ReadBit();
    var p :- r.ReadPresence(5);
    if p[0] || p[2] || p[3] || p[4] {
      return Err;
    }
    if p[1] {
      info :- DecodeSupportList(r);
    }
    var _ :- r.SkipIf(ext);
    return Ok(info);
  }

  method DecodeSystemTime(r: BitReader) returns (res: Result<(U16, U32)>)
    requires r.Valid()
    modifies r
    ensures r.Valid() && r.Agrees(ParseSystemTime(old(r.Rest())), res)
  {
    hide BitReader.Rest, StreamBits, Uper.ReadBit, Uper.ReadPresence, Uper.ReadBits, Uper.ReadConstrained,
         Uper.SkipIf, ParseGnssId, ReadIf;
    var ext :- r.ReadBit();
    var p :- r.ReadPresence(3);
    if p[2] {
      return Err;
    }
    var _ :- DecodeGnssId(r);
    var day :- r.ReadConstrained(0, 32767);
    var tod :- r.ReadConstrained(0, 86399);
    var _ :- DecodeIf(r, p[0], 0, 999);
    if p[1] {
      var _ :- r.ReadBits(2);
    }
    var _ :- r.SkipIf(ext);
    return Ok((ToU16(day), ToU32(tod)));
  }

  method DecodeReferenceTime(r: BitReader) returns (res: Result<(U16, U32, Byte)>)
    requires r.Valid()
    modifies r
    ensures r.Valid() && r.Agrees(ParseReferenceTime(old(r.Rest())), res)
  {
    hide BitReader.Rest, StreamBits, Uper.ReadBit, Uper.ReadPresence, Uper.SkipIf, ParseSystemTime, ReadIf;
    var ext :- r.ReadBit();
    var p :- r.ReadPresence(2);
    if p[1] {
      return Err;
    }
    var t :- DecodeSystemTime(r);
    var unc :- DecodeIf(r, p[0], 0, 127);
    var _ :- r.SkipIf(ext);
    return Ok((t.0, t.1, U8(OrZero(unc))));
  }

  method DecodeReferenceLocation(r: BitReader) returns (res: Result<ReferenceLocation>)
    requires r.Valid()
    modifies r
    ensures r.Valid() && r.Agrees(ParseReferenceLocation(old(r.Rest())), res)
  {
    hide BitReader.Rest, StreamBits, Uper.ReadBit, Uper.ReadPresence, Uper.ReadConstrained, Uper.SkipIf, U8, ToU16,
         ToU32, ToI32;
    var ext :- r.ReadBit();
    var latitudeSign :- r.ReadConstrained(0, 1);
    var degreesLatitude :- r.ReadConstrained(0, 8388607);
    var degreesLongitude :- r.ReadConstrained(-8388608, 8388607);
    var altitudeDirection :- r.ReadConstrained(0, 1);
    var altitude :- r.ReadConstrained(0, 32767);
    var semiMajor :- r.ReadConstrained(0, 127);
    var semiMinor :- r.ReadConstrained(0, 127);
    var orientation :- r.ReadConstrained(0, 179);
    var uncAltitude :- r.ReadConstrained(0, 127);
    var confidence :- r.ReadConstrained(0, 100);
    var _ :- r.SkipIf(ext);
    return Ok(ReferenceLocation(
      U8(latitudeSign), ToU32(degreesLatitude), ToI32(degreesLongitude),
      U8(altitudeDirection), ToU16(altitude), U8(semiMajor), U8(semiMinor), U8(orientation),
      U8(uncAltitude), U8(confidence)));
  }

  method DecodeCommonAssist(r: BitReader) returns (res: Result<AssistanceData>)
    requires r.Valid()
    modifies r
    ensures r.Valid() && r.Agrees(ParseCommonAssist(old(r.Rest())), res)
  {
    hide BitReader.Rest, StreamBits, Uper.ReadBit, Uper.ReadPresence, Uper.SkipIf, ParseReferenceTime,
         ParseReferenceLocation;
    var ext :- r.ReadBit();
    var p :- r.ReadPresence(4);
    if p[2] || p[3] || !p[0] || !p[1] {
      return Err;
    }
    var t :- DecodeReferenceTime(r);
    var loc :- DecodeReferenceLocation(r);
    var _ :- r.SkipIf(ext);
    return Ok(AssistanceData(t.0, t.1, t.2, loc));
  }

  method DecodeAGnssAssist(r: BitReader) returns (res: Result<AssistanceData>)
    requires r.Valid()
    modifies r
    ensures r.Valid() && r.Agrees(ParseAGnssAssist(old(r.Rest())), res)
  {
    hide BitReader.Rest, StreamBits, Uper.ReadBit, Uper.ReadPresence, Uper.SkipIf, ParseCommonAssist;
    var ext :- r.ReadBit();
    var p :- r.ReadPresence(3);
    if p[1] || p[2] || !p[0] {
      return Err;
    }
    var ad :- DecodeCommonAssist(r);
    var _ :- r.SkipIf(ext);
    return Ok(ad);
  }

  method DecodeProvideAssistanceData(r: BitReader) returns (res: Result<AssistanceData>)
    requires r.Valid()
    modifies r
    ensures r.Valid() && r.Agrees(ParseAssist(old(r.Rest())), res)
  {
    hide BitReader.Rest, StreamBits, Uper.ReadBit, Uper.ReadPresence, Uper.SkipIf, ParseAGnssAssist;
    var ext :- r.ReadBit();
    var p :- r.ReadPresence(4);
    if p[0] || p[2] || p[3] || !p[1] {
      return Err;
    }
    var ad :- DecodeAGnssAssist(r);
    var _ :- r.SkipIf(ext);
    return Ok(ad);
  }

  method DecodeCommonReq(r: BitReader) returns (res: Result<()>)
    requires r.Valid()
    modifies r
    ensures r.Valid() && r.Agrees(ParseCommonReq(old(r.Rest()), true), res)
  {
    hide BitReader.Rest, StreamBits, Uper.ReadBit, Uper.ReadPresence, Uper.ReadEnumExt, Uper.SkipIf;
    var ext :- r.ReadBit();
    var p :- r.ReadPresence(7);
    if true in p {
      return Err;
    }
    var _ :- r.ReadEnumExt(4);
    res := r.SkipIf(ext);
  }

  method DecodePosInstr(r: BitReader) returns (res: Result<()>)
    requires r.Valid()
    modifies r
    ensures r.Valid() && r.Agrees(ParsePosInstr(old(r.Rest()), true), res)
  {
    hide BitReader.Rest, StreamBits, Uper.ReadBit, Uper.ReadPresence, Uper.SkipIf, ParseBitString;
    var aExt :- r.ReadBit();
    var ext :- r.ReadBit();
    var _ :- DecodeBitString(r, 16);
    var _ :- r.ReadPresence(4);
    var _ :- r.SkipIf(ext);
    res := r.SkipIf(aExt);
  }

  method DecodeRequestLocationInformation(r: BitReader) returns (res: Result<()>)
    requires r.Valid()
    modifies r
    ensures r.Valid() && r.Agrees(ParseReqLoc(old(r.Rest())), res)
  {
    hide BitReader.Rest, StreamBits, Uper.ReadBit, Uper.ReadPresence, Uper.SkipIf;
    var ext :- r.ReadBit();
    var p :- r.ReadPresence(5);
    if p[2] || p[3] || p[4] {
      return Err;
    }
    if p[0] {
      var _ :- DecodeCommonReq(r);
    }
    if p[1] {
      var _ :- DecodePosInstr(r);
    }
    res := r.SkipIf(ext);
  }

  method DecodeSvId(r: BitReader) returns (res: Result<Byte>)
    requires r.Valid()
    modifies r
    ensures r.Valid() && r.Agrees(ParseSvId(old(r.Rest())), res)
  {
    hide BitReader.Rest, StreamBits, Uper.ReadBit, Uper.ReadPresence, Uper.ReadConstrained, Uper.SkipIf;
    var ext :- r.ReadBit();
    var id :- r.ReadConstrained(0, 63);
    var _ :- r.SkipIf(ext);
    return Ok(U8(id));
  }

  method DecodePhase(r: BitReader, present: bool) returns (res: Result<(U32, Byte, Byte)>)
    requires r.Valid()
    modifies r
    ensures r.Valid() && r.Agrees(ParsePhase(old(r.Rest()), present), res)
  {
    hide BitReader.Rest, StreamBits, Uper.ReadConstrained, ReadIf, U8, ToU32;
    var cp :- r.ReadConstrained(0, 2097151);
    var icp :- DecodeIf(r, present, 0, 127);
    var rms :- r.ReadConstrained(0, 63);
    return Ok((ToU32(cp), U8(OrZero(icp)), U8(rms)));
  }

  method DecodeSatMeasElement(r: BitReader) returns (res: Result<SatMeas>)
    requires r.Valid()
    modifies r
    ensures r.Valid() && r.Agrees(ParseSat(old(r.Rest())), res)
  {
    hide BitReader.Rest, StreamBits, Uper.ReadBit, Uper.ReadPresence, Uper.ReadConstrained, Uper.ReadEnumExt,
         Uper.SkipIf, ReadIf, ParseSvId, ParsePhase, U8;
    var ext :- r.ReadBit();
    var p :- r.ReadPresence(4);
    var svId :- DecodeSvId(r);
    var cNo :- r.ReadConstrained(0, 63);
    var mpath :- r.ReadEnumExt(4);
    var _ :- DecodeIf(r, p[0], 0, 3);
    var phase :- DecodePhase(r, p[1]);
    var _ :- DecodeIf(r, p[2], -32768, 32767);
    var _ :- DecodeIf(r, p[3], 0, 33554431);
    var _ :- r.SkipIf(ext);
    return Ok(SatMeas(svId, U8(cNo), U8(mpath), phase.0, phase.1, phase.2));
  }

  method DecodeMeasTime(r: BitReader) returns (res: Result<U32>)
    requires r.Valid()
    modifies r
    ensures r.Valid() && r.Agrees(ParseMeasTime(old(r.Rest())), res)
  {
    hide BitReader.Rest, StreamBits, Uper.ReadBit, Uper.ReadPresence, Uper.ReadConstrained, Uper.SkipIf, ReadIf,
         ParseGnssId;
    var ext :- r.ReadBit();
    var p :- r.ReadPresence(3);
    if p[2] {
      return Err;
    }
    var tod :- r.ReadConstrained(0, 3599999);
    var _ :- DecodeIf(r, p[0], 0, 3999);
    var _ :- DecodeIf(r, p[1], 0, 127);
    var _ :- DecodeGnssId(r);
    var _ :- r.SkipIf(ext);
    return Ok(ToU32(tod));
  }

  method DecodeSignalId(r: BitReader) returns (res: Result<()>)
    requires r.Valid()
    modifies r
    ensures r.Valid() && r.Agrees(ParseSignalId(old(r.Rest())), res)
  {
    hide BitReader.Rest, StreamBits, Uper.ReadBit, Uper.ReadPresence, Uper.ReadConstrained, Uper.SkipIf;
    var ext :- r.ReadBit();
    var _ :- r.ReadConstrained(0, 7);
    res := r.SkipIf(ext);
  }

  method DecodeSgnMeasElement(r: BitReader) returns (res: Result<seq<SatMeas>>)
    requires r.Valid()
    modifies r
    ensures r.Valid() && r.Agrees(ParseElement(old(r.Rest())), res)
  {
    hide BitReader.Rest, StreamBits, Uper.ReadBit, Uper.ReadPresence, Uper.ReadConstrained, Uper.SkipIf, ReadIf,
         ParseSignalId, ParseSat;
    var ext :- r.ReadBit();
    var p :- r.ReadPresence(1);
    var _ :- DecodeSignalId(r);
    var _ :- DecodeIf(r, p[0], 0, 127);
    var count :- r.ReadConstrained(1, 64);
    ghost var start := r.Rest();
    var sats: seq<SatMeas> := [];
    var i := 0;
    while i < count
      invariant 0 <= i <= count
      invariant r.Valid()
      invariant ParseSats(r.Rest(), count - i, sats) == ParseSats(start, count, [])
    {
      var sv :- DecodeSatMeasElement(r);
      sats := sats + [sv];
      i := i + 1;
    }
    var _ :- r.SkipIf(ext);
    return Ok(sats);
  }

  method DecodeSignalMeasurementInformation(r: BitReader) returns (res: Result<LocationMeasurements>)
    requires r.Valid()
    modifies r
    ensures r.Valid() && r.Agrees(ParseMeas(old(r.Rest())), res)
  {
    hide BitReader.Rest, StreamBits, Uper.ReadBit, Uper.ReadPresence, Uper.ReadConstrained, Uper.SkipIf,
         ParseMeasTime, ParseGnssId, ParseElement;
    var ext :- r.ReadBit();
    var tod :- DecodeMeasTime(r);
    var listCount :- r.ReadConstrained(1, 16);
    if listCount != 1 {
      return Err;
    }
    var mExt :- r.ReadBit();
    var _ :- DecodeGnssId(r);
    var sgnCount :- r.ReadConstrained(1, 8);
    if sgnCount != 1 {
      return Err;
    }
    var sats :- DecodeSgnMeasElement(r);
    var _ :- r.SkipIf(mExt);
    var _ :- r.SkipIf(ext);
    return Ok(LocationMeasurements(tod, sats));
  }

  method DecodeAGnssError(r: BitReader) returns (res: Result<Byte>)
    requires r.Valid()
    modifies r
    ensures r.Valid() && r.Agrees(ParseError(old(r.Rest())), res)
  {
    hide BitReader.Rest, StreamBits, Uper.ReadBit, Uper.ReadPresence, Uper.ReadBits, Uper.ReadEnumExt, Uper.SkipIf;
    var choiceExt :- r.ReadBit();
    if choiceExt {
      return Err;
    }
    var alt :- r.ReadBits(1);
    if alt != 1 {
      return Err;
    }
    var ext :- r.ReadBit();
    var _ :- r.ReadPresence(3);
    var cause :- r.ReadEnumExt(4);
    var _ :- r.SkipIf(ext);
    return Ok(U8(cause));
  }

  method DecodeAGnssLoc(r: BitReader) returns (res: Result<Payload>)
    requires r.Valid()
    modifies r
    ensures r.Valid() && r.Agrees(ParseAGnssLoc(old(r.Rest())), res)
  {
    hide BitReader.Rest, StreamBits, Uper.ReadBit, Uper.ReadPresence, Uper.SkipIf, ParseMeas, ParseError;
    var ext :- r.ReadBit();
    var p :- r.ReadPresence(3);
    if p[1] {
      return Err;
    }
    var meas: Option<LocationMeasurements> := None;
    if p[0] {
      var m :- DecodeSignalMeasurementInformation(r);
      meas := Some(m);
    }
    var cause: Option<Byte> := None;
    if p[2] {
      var c :- DecodeAGnssError(r);
      cause := Some(c);
    }
    var _ :- r.SkipIf(ext);
    return Ok(ProvideLocationInformation(meas, cause));
  }

  method DecodeProvideLocationInformation(r: BitReader) returns (res: Result<Payload>)
    requires r.Valid()
    modifies r
    ensures r.Valid() && r.Agrees(ParseProvLoc(old(r.Rest())), res)
  {
    hide BitReader.Rest, StreamBits, Uper.ReadBit, Uper.ReadPresence, Uper.SkipIf, ParseAGnssLoc;
    var ext :- r.ReadBit();
    var p :- r.ReadPresence(5);
    if p[0] || p[2] || p[3] || p[4] || !p[1] {
      return Err;
    }
    var payload :- DecodeAGnssLoc(r);
    var _ :- r.SkipIf(ext);
    if payload == ProvideLocationInformation(None, None) {
      return Err;
    }
    return Ok(payload);
  }

  method DecodeCriticalExtensions(r: BitReader) returns (res: Result<()>)
    requires r.Valid()
    modifies r
    ensures r.Valid() && r.Agrees(ParseCriticalExtensions(old(r.Rest())), res)
  {
    hide BitReader.Rest, StreamBits, Uper.ReadBit, Uper.ReadPresence, Uper.ReadBits;
    var choice :- r.ReadBit();
    if choice {
      return Err;
    }
    var c1 :- r.ReadBits(2);
    if c1 != 0 {
      return Err;
    }
    return Ok(());
  }

  method DecodeTxnIf(r: BitReader, present: bool) returns (res: Result<Option<TransactionID>>)
    requires r.Valid()
    modifies r
    ensures r.Valid() && r.Agrees(ParseTxnIf(old(r.Rest()), present), res)
  {
    hide BitReader.Rest, StreamBits, ParseTxn;
    if !present {
      return Ok(None);
    }
    var txn :- DecodeTransactionID(r);
    return Ok(Some(txn));
  }

  method DecodeAckIf(r: BitReader, present: bool) returns (res: Result<()>)
    requires r.Valid()
    modifies r
    ensures r.Valid() && r.Agrees(ParseAckIf(old(r.Rest()), present), res)
  {
    hide BitReader.Rest, StreamBits, Uper.ReadBit, Uper.ReadPresence, ReadIf;
    if !present {
      return Ok(());
    }
    var p :- r.ReadPresence(1);
    var _ :- r.ReadBool();
    var _ :- DecodeIf(r, p[0], 0, 255);
    return Ok(());
  }

  method DecodeBody(r: BitReader, c1: nat) returns (res: Result<Payload>)
    requires r.Valid()
    modifies r
    ensures r.Valid() && r.Agrees(ParseBody(old(r.Rest()), c1), res)
  {
    hide BitReader.Rest, StreamBits, ParseReqCaps, ParseProvCaps, ParseAssist, ParseReqLoc, ParseProvLoc;
    match c1 {
      case 0 =>
        var _ :- DecodeRequestCapabilities(r);
        return Ok(RequestCapabilities);
      case 1 =>
        var caps :- DecodeProvideCapabilities(r);
        return Ok(ProvideCapabilities(caps));
      case 3 =>
        var assist :- DecodeProvideAssistanceData(r);
        return Ok(ProvideAssistanceData(assist));
      case 4 =>
        var _ :- DecodeRequestLocationInformation(r);
        return Ok(RequestLocationInformation);
      case 5 =>
        res := DecodeProvideLocationInformation(r);
      case _ =>
        return Err;
    }
  }

  /** Decode of any byte string is the function ParseMessage of its bits. */
  method Decode(b: seq<Byte>) returns (res: Result<PDU>)
    ensures res.Ok? == ParseMessage(StreamBits(b)).Got?
    ensures res.Ok? ==> res.value == ParseMessage(StreamBits(b)).value
  {
    hide BitReader.Rest, StreamBits, Uper.ReadBit, Uper.ReadPresence, Uper.ReadBits, ReadIf, ParseTxnIf, ParseAckIf,
         ParseCriticalExtensions, ParseBody;
    var r := new BitReader(b);
    var p :- r.ReadPresence(4);
    var txn :- DecodeTxnIf(r, p[0]);
    var endTx :- r.ReadBool();
    var _ :- DecodeIf(r, p[1], 0, 255);
    var _ :- DecodeAckIf(r, p[2]);
    if !p[3] {
      return Err;
    }
    var bodyChoice :- r.ReadBit();
    if bodyChoice {
      return Err;
    }
    var c1 :- r.ReadBits(Uper.BitWidth(16));
    var _ :- DecodeCriticalExtensions(r);
    var payload :- DecodeBody(r, c1);
    return Ok(PDU(txn, endTx, payload));
  }
}
