/**
 Which bit strings the LPP decoder accepts: exactly the encodings of the abstract
 syntax. Every lemma here takes a string that a parser accepts and gives the
 value it encodes.
 */
module LppAccepts {
  import opened Wrappers
  import opened Machine
  import opened Bits
  import opened Uper
  import opened LppSyntax
  import opened LppParse

  // ---- primitives ---------------------------------------------------------

  lemma BitSound(s: seq<bool>)
    requires ReadBit(s).Got?
    ensures s == PutBool(ReadBit(s).value, ReadBit(s).rest)
  {
  }

  lemma {:induction false} ReadIntoSound(s: seq<bool>, n: nat, acc: nat, m: nat)
    requires n <= |s| && m + n <= 64 && acc < Pow2(m) && acc < TWO64
    ensures var v := ReadInto(s, n, acc).value;
            Shr(v, n) == acc && s == PutRaw(v, n, s[n..])
    decreases n
  {
    if n == 0 {
      assert s[0..] == s;
    } else {
      var next := 2 * acc + (if s[0] then 1 else 0);
      NextFits(acc, next, m);
      hide Pow2, Shr, Bit;
      ReadIntoSound(s[1..], n - 1, next, m + 1);
      var v := ReadInto(s[1..], n - 1, next).value;
      assert s[1..][n - 1..] == s[n..];
      ShrStep(v, n - 1);
      assert s == [s[0]] + s[1..];
    }
  }

  lemma NextFits(acc: nat, next: nat, m: nat)
    requires m < 64 && acc < Pow2(m) && next <= 2 * acc + 1
    ensures next < Pow2(m + 1) && next < TWO64 && next % TWO64 == next
  {
    Pow2Of64();
    Pow2Mono(m + 1, 64);
  }

  lemma BitsSound(s: seq<bool>, n: nat)
    requires n <= 64 && ReadBits(s, n).Got?
    ensures s == Put(ReadBits(s, n).value, n, ReadBits(s, n).rest)
  {
    ReadIntoSound(s, n, 0, 0);
  }

  lemma ConstrainedSound(s: seq<bool>, lb: Int64, ub: Int64)
    requires lb <= ub && lb + 2 * (ub - lb + 1) <= TWO63 && ReadConstrained(s, lb, ub).Got?
    ensures lb <= ReadConstrained(s, lb, ub).value <= ub
    ensures s == PutConstrained(ReadConstrained(s, lb, ub).value, lb, ub, ReadConstrained(s, lb, ub).rest)
  {
    var w := BitWidth(RangeSize(lb, ub));
    WidthAtMost64(RangeSize(lb, ub));
    BitsSound(s, w);
    hide ReadBits, Put, BitWidth;
    assert lb <= ReadConstrained(s, lb, ub).value <= ub;
  }

  lemma PresenceSound(s: seq<bool>, n: nat)
    requires ReadPresence(s, n).Got?
    ensures s == Flags(ReadPresence(s, n).value, ReadPresence(s, n).rest)
  {
    assert s == s[..n] + s[n..];
  }

  lemma SmallSound(s: seq<bool>)
    requires ReadNormallySmall(s).Got?
    ensures ReadNormallySmall(s).value < 64
    ensures s == PutNormallySmall(ReadNormallySmall(s).value, ReadNormallySmall(s).rest)
  {
    assert Pow2(6) == 64;
    BitSound(s);
    BitsSound(ReadBit(s).rest, 6);
  }

  /** With a root count that fills its index, every accepted value has one form. */
  lemma EnumSound(s: seq<bool>, rootCount: nat)
    requires ReadEnumExt(s, rootCount).Got? && rootCount < TWO64 && Pow2(BitWidth(rootCount)) <= rootCount
    ensures ReadEnumExt(s, rootCount).value < rootCount + 64
    ensures s == PutEnum(ReadEnumExt(s, rootCount).value, rootCount, ReadEnumExt(s, rootCount).rest)
  {
    var t := ReadBit(s).rest;
    BitSound(s);
    WidthAtMost64(rootCount);
    if ReadBit(s).value { SmallSound(t); } else { BitsSound(t, BitWidth(rootCount)); }
    hide ReadNormallySmall, PutNormallySmall, ReadBits, Put, BitWidth;
  }

  lemma OctetSound(s: seq<bool>)
    requires ReadBits(s, 8).Got?
    ensures ReadBits(s, 8).value < 256 && s == PutOctet(ReadBits(s, 8).value, ReadBits(s, 8).rest)
  {
    assert Pow2(8) == 256;
    BitsSound(s, 8);
  }

  lemma {:induction false} OctetsSound(s: seq<bool>, n: nat) returns (os: seq<Byte>)
    requires 8 * n <= |s|
    ensures |os| == n && s == PutOctets(os, s[8 * n..])
  {
    if n == 0 {
      os := [];
      assert s[0..] == s;
    } else {
      hide ReadBits, PutOctet;
      OctetSound(s);
      var t, k := ReadBits(s, 8).rest, s[8 * n..];
      assert t == s[8..];
      assert t[8 * (n - 1)..] == k;
      var rest := OctetsSound(t, n - 1);
      os := [ReadBits(s, 8).value] + rest;
      assert os[1..] == rest;
      assert PutOctets(os, k) == PutOctet(os[0], PutOctets(rest, k));
    }
  }

  lemma LengthSound(s: seq<bool>) returns (long: bool)
    requires ReadGeneralLength(s).Got?
    ensures ReadGeneralLength(s).value < 16384
    ensures s == PutGeneralLength(ReadGeneralLength(s).value, long, ReadGeneralLength(s).rest)
  {
    hide ReadBits, PutOctet;
    OctetSound(s);
    var b, t := ReadBits(s, 8).value, ReadBits(s, 8).rest;
    long := b >= 128;
    if long {
      OctetSound(t);
      TwoOctets(b, ReadBits(t, 8).value);
    }
  }

  lemma TwoOctets(hi: nat, lo: nat)
    requires 128 <= hi < 256 && hi % 128 < 64 && lo < 256
    ensures var n := hi % 64 * 256 + lo; n < 16384 && 128 + n / 256 == hi && n % 256 == lo
  {
  }

  lemma OpenTypeSound(s: seq<bool>) returns (o: OpenType)
    requires SkipOpenType(s).Got?
    ensures |o.octets| < 16384 && s == PutOpenType(o, SkipOpenType(s).rest)
  {
    hide ReadGeneralLength, PutGeneralLength, PutOctets;
    var n, t := ReadGeneralLength(s).value, ReadGeneralLength(s).rest;
    var long := LengthSound(s);
    var os := OctetsSound(t, n);
    o := OpenType(os, long);
  }

  lemma {:induction false} OpenTypesSound(s: seq<bool>, present: seq<bool>) returns (adds: seq<Option<OpenType>>)
    requires SkipOpenTypes(s, present).Got?
    ensures OpenTypesFit(adds) && PresenceOf(adds) == present
    ensures s == PutOpenTypes(adds, SkipOpenTypes(s, present).rest)
    decreases |present|
  {
    hide SkipOpenType, PutOpenType;
    if present == [] {
      adds := [];
    } else {
      var first: Option<OpenType>, t := None, s;
      if present[0] {
        var o := OpenTypeSound(s);
        first, t := Some(o), SkipOpenType(s).rest;
      }
      var rest := OpenTypesSound(t, present[1..]);
      adds := [first] + rest;
      assert adds[1..] == rest;
      assert PresenceOf(adds) == [present[0]] + PresenceOf(rest);
    }
  }

  lemma ExtSound(s: seq<bool>, ext: bool) returns (e: Ext)
    requires SkipIf(s, ext).Got?
    ensures e.HasExt? == ext && s == PutExt(e, SkipIf(s, ext).rest)
  {
    hide ReadNormallySmall, PutNormallySmall, ReadPresence, Flags, SkipOpenTypes, PutOpenTypes;
    e := NoExt;
    if ext {
      SmallSound(s);
      var t := ReadNormallySmall(s).rest;
      var n := ReadNormallySmall(s).value + 1;
      PresenceSound(t, n);
      var present := ReadPresence(t, n).value;
      var adds := OpenTypesSound(ReadPresence(t, n).rest, present);
      assert |adds| == |PresenceOf(adds)| == n;
      e := HasExt(adds);
    }
  }

  // ---- components ---------------------------------------------------------

  lemma IfSound(s: seq<bool>, present: bool, lb: Int64, ub: Int64)
    requires lb <= ub && lb + 2 * (ub - lb + 1) <= TWO63 && ReadIf(s, present, lb, ub).Got?
    ensures var o := ReadIf(s, present, lb, ub).value;
            && o.Some? == present && InRange(o, lb, ub)
            && s == PutIf(o, lb, ub, ReadIf(s, present, lb, ub).rest)
  {
    hide ReadConstrained, PutConstrained;
    if present { ConstrainedSound(s, lb, ub); }
  }

  lemma SmallWidths()
    ensures Pow2(BitWidth(2)) == 2 && Pow2(BitWidth(4)) == 4
  {
    assert BitWidth(2) == 1 && BitWidth(4) == 2;
  }

  lemma TxnSound(s: seq<bool>) returns (w: WTxn)
    requires ParseTxn(s).Got?
    ensures w.Wf() && s == PutTxn(w, ParseTxn(s).rest)
  {
    hide ReadBit, ReadEnumExt, ReadBits, SkipIf, PutExtBit, PutEnum, PutOctet, PutExt, BitWidth;
    var a := ReadBit(s);
    var b := ReadEnumExt(a.rest, 2);
    var c := ReadBits(b.rest, 8);
    ExtBitSound(s);
    SmallWidths();
    EnumSound(a.rest, 2);
    OctetSound(b.rest);
    var e := ExtSound(c.rest, a.value);
    w := WTxn(e, b.value, c.value);
  }

  lemma ExtBitSound(s: seq<bool>)
    requires ReadBit(s).Got?
    ensures forall e: Ext :: e.HasExt? == ReadBit(s).value ==> s == PutExtBit(e, ReadBit(s).rest)
  {
    BitSound(s);
  }

  lemma IndexSound(s: seq<bool>) returns (spare: bool)
    requires ReadEnumExt(s, 5).Got?
    ensures WGnssId(NoExt, ReadEnumExt(s, 5).value, spare).Wf()
    ensures s == PutIndex(ReadEnumExt(s, 5).value, spare, ReadEnumExt(s, 5).rest)
  {
    assert BitWidth(5) == 3 && Pow2(3) == 8;
    var t := ReadBit(s).rest;
    BitSound(s);
    if ReadBit(s).value { SmallSound(t); } else { BitsSound(t, 3); }
    spare := !ReadBit(s).value && ReadEnumExt(s, 5).value >= 5;
    hide ReadNormallySmall, PutNormallySmall, ReadBits, Put, BitWidth;
  }

  lemma GnssIdSound(s: seq<bool>) returns (w: WGnssId)
    requires ParseGnssId(s).Got?
    ensures w.Wf() && s == PutGnssId(w, ParseGnssId(s).rest)
  {
    hide ReadBit, ReadEnumExt, SkipIf, PutExtBit, PutIndex, PutExt;
    var a := ReadBit(s);
    var b := ReadEnumExt(a.rest, 5);
    ExtBitSound(s);
    var spare := IndexSound(a.rest);
    var e := ExtSound(b.rest, a.value);
    w := WGnssId(e, b.value, spare);
  }

  lemma BitStringSound(s: seq<bool>, max: nat) returns (w: WBitString)
    requires 1 <= max <= 16 && ParseBitString(s, max).Got?
    ensures w.Wf(max) && s == PutBitString(w, max, ParseBitString(s, max).rest)
  {
    hide ReadBit, ReadConstrained, ReadBits, SkipIf, PutExtBit, PutConstrained, Put, PutExt;
    var a := ReadBit(s);
    var b := ReadConstrained(a.rest, 1, max);
    ExtBitSound(s);
    ConstrainedSound(a.rest, 1, max);
    var c := ReadBits(b.rest, b.value);
    BitsSound(b.rest, b.value);
    var e := ExtSound(c.rest, a.value);
    w := WBitString(e, b.value, c.value);
  }

  // ---- RequestCapabilities, ProvideCapabilities -----------------------------

  lemma ReqCapsFlagsSound(s: seq<bool>) returns (w: WReqCaps)
    requires ParseReqCapsFlags(s).Got?
    ensures s == PutReqCapsFlags(w, ParseReqCapsFlags(s).rest)
  {
    hide ReadBit, SkipIf, PutExtBit, PutBool, PutExt;
    var a := ReadBit(s);
    var b := ReadBit(a.rest);
    var c := ReadBit(b.rest);
    var d := ReadBit(c.rest);
    ExtBitSound(s);
    BitSound(a.rest);
    BitSound(b.rest);
    BitSound(c.rest);
    var e := ExtSound(d.rest, a.value);
    w := WReqCaps(e, b.value, c.value, d.value);
  }

  lemma ReqCapsSound(s: seq<bool>) returns (ext: Ext, w: Option<WReqCaps>)
    requires ParseReqCaps(s).Got?
    ensures s == PutReqCaps(ext, w, ParseReqCaps(s).rest)
  {
    hide ReadBit, ReadPresence, SkipIf, PutExtBit, Flags, PutExt, ParseReqCapsFlags, PutReqCapsFlags;
    var a := ReadBit(s);
    var p := ReadPresence(a.rest, 5);
    ExtBitSound(s);
    PresenceSound(a.rest, 5);
    assert p.value == [false, p.value[1], false, false, false];
    w := None;
    var t := p.rest;
    if p.value[1] {
      var f := ReqCapsFlagsSound(t);
      w, t := Some(f), ParseReqCapsFlags(t).rest;
    }
    ext := ExtSound(t, a.value);
  }

  lemma SbasSound(s: seq<bool>, present: bool) returns (o: Option<WBitString>)
    requires ParseSbas(s, present).Got?
    ensures o.Some? == present && (o.Some? ==> o.value.Wf(8)) && s == PutSbas(o, ParseSbas(s, present).rest)
  {
    hide ParseBitString, PutBitString;
    o := None;
    if present {
      var w := BitStringSound(s, 8);
      o := Some(w);
    }
  }

  lemma SignalsSound(s: seq<bool>) returns (ext: Ext, signals: Byte)
    requires ParseSignals(s).Got?
    ensures s == PutSignals(ext, signals, ParseSignals(s).rest)
  {
    hide ReadBit, ReadBits, SkipIf, PutExtBit, PutOctet, PutExt;
    var a := ReadBit(s);
    ExtBitSound(s);
    OctetSound(a.rest);
    signals := ReadBits(a.rest, 8).value;
    ext := ExtSound(ReadBits(a.rest, 8).rest, a.value);
  }

  lemma SupportSound(s: seq<bool>) returns (w: WSupport)
    requires ParseSupport(s).Got?
    ensures w.Wf() && s == PutSupport(w, ParseSupport(s).rest)
  {
    hide ReadBit, ReadPresence, SkipIf, PutExtBit, Flags, PutExt, PutBool, ParseGnssId, PutGnssId, ParseBitString,
         PutBitString, ParseSbas, PutSbas, ParseSignals, PutSignals, Bit;
    var a := ReadBit(s);
    var p := ReadPresence(a.rest, 2);
    ExtBitSound(s);
    PresenceSound(a.rest, 2);
    assert p.value == [p.value[0], false];
    var id := GnssIdSound(p.rest);
    var t1 := ParseGnssId(p.rest).rest;
    var sbas := SbasSound(t1, p.value[0]);
    var t2 := ParseSbas(t1, p.value[0]).rest;
    var modes := BitStringSound(t2, 8);
    var t3 := ParseBitString(t2, 8).rest;
    var sigExt, signals := SignalsSound(t3);
    var t4 := ParseSignals(t3).rest;
    BitSound(t4);
    var t5 := ReadBit(t4).rest;
    BitSound(t5);
    var e := ExtSound(ReadBit(t5).rest, a.value);
    w := WSupport(e, id, sbas, modes, sigExt, signals, ReadBit(t4).value, ReadBit(t5).value);
  }

  lemma {:induction false} SupportsSound(s: seq<bool>, n: nat, gps: bool, ids: seq<Byte>) returns (ws: seq<WSupport>)
    requires ParseSupports(s, n, gps, ids).Got?
    ensures |ws| == n && (forall i | 0 <= i < |ws| :: ws[i].Wf())
    ensures s == PutSupports(ws, ParseSupports(s, n, gps, ids).rest)
    decreases n
  {
    hide ParseSupport, PutSupport;
    if n == 0 {
      ws := [];
    } else {
      var w := SupportSound(s);
      var e := ParseSupport(s);
      var rest := SupportsSound(e.rest, n - 1, gps || (e.value.0 == 0 && e.value.1), ids + [e.value.0]);
      ws := [w] + rest;
      assert ws[1..] == rest;
    }
  }

  lemma SupportListSound(s: seq<bool>) returns (w: WProvCaps)
    requires ParseSupportList(s).Got?
    ensures w.Wf() && s == PutSupportList(w, ParseSupportList(s).rest)
  {
    hide ReadBit, ReadPresence, ReadConstrained, SkipIf, PutExtBit, Flags, PutExt, PutConstrained, ParseSupports,
         PutSupports;
    var a := ReadBit(s);
    var p := ReadPresence(a.rest, 4);
    ExtBitSound(s);
    PresenceSound(a.rest, 4);
    assert p.value == [p.value[0], false, false, false];
    var ws, t := [], p.rest;
    if p.value[0] {
      var c := ReadConstrained(t, 1, 16);
      ConstrainedSound(t, 1, 16);
      ws := SupportsSound(c.rest, c.value, false, []);
      t := ParseSupports(c.rest, c.value, false, []).rest;
    }
    var e := ExtSound(t, a.value);
    w := WProvCaps(e, ws);
  }

  lemma ProvCapsSound(s: seq<bool>) returns (ext: Ext, w: Option<WProvCaps>)
    requires ParseProvCaps(s).Got?
    ensures (w.Some? ==> w.value.Wf()) && s == PutProvCaps(ext, w, ParseProvCaps(s).rest)
  {
    hide ReadBit, ReadPresence, SkipIf, PutExtBit, Flags, PutExt, ParseSupportList, PutSupportList;
    var a := ReadBit(s);
    var p := ReadPresence(a.rest, 5);
    ExtBitSound(s);
    PresenceSound(a.rest, 5);
    assert p.value == [false, p.value[1], false, false, false];
    w := None;
    var t := p.rest;
    if p.value[1] {
      var l := SupportListSound(t);
      w, t := Some(l), ParseSupportList(t).rest;
    }
    ext := ExtSound(t, a.value);
  }

  // ---- ProvideAssistanceData ------------------------------------------------

  lemma LeapSound(s: seq<bool>, present: bool) returns (o: Option<nat>)
    requires ParseLeap(s, present).Got?
    ensures o.Some? == present && (o.Some? ==> o.value <= 3) && s == PutLeap(o, ParseLeap(s, present).rest)
  {
    assert Pow2(2) == 4;
    o := None;
    if present {
      BitsSound(s, 2);
      o := Some(ReadBits(s, 2).value);
    }
  }

  /** The system-time fields of an assistance message; the other fields do not
      enter its encoding */
  lemma SystemTimeSound(s: seq<bool>, w: WAssist) returns (r: WAssist)
    requires ParseSystemTime(s).Got? && w.Wf()
    ensures r.Wf() && s == PutSystemTime(r, ParseSystemTime(s).rest)
    ensures r == w.(sysTimeExt := r.sysTimeExt, timeId := r.timeId, dayNumber := r.dayNumber,
                    timeOfDay := r.timeOfDay, fracMsec := r.fracMsec, leap := r.leap)
  {
    hide ReadBit, ReadPresence, ReadConstrained, SkipIf, PutExtBit, Flags, PutExt, PutConstrained, ParseGnssId,
         PutGnssId, ReadIf, PutIf, ParseLeap, PutLeap, ToU16, ToU32;
    var a := ReadBit(s);
    var p := ReadPresence(a.rest, 3);
    ExtBitSound(s);
    PresenceSound(a.rest, 3);
    assert p.value == [p.value[0], p.value[1], false];
    var id := GnssIdSound(p.rest);
    var t1 := ParseGnssId(p.rest).rest;
    ConstrainedSound(t1, 0, 32767);
    var day := ReadConstrained(t1, 0, 32767);
    ConstrainedSound(day.rest, 0, 86399);
    var tod := ReadConstrained(day.rest, 0, 86399);
    IfSound(tod.rest, p.value[0], 0, 999);
    var frac := ReadIf(tod.rest, p.value[0], 0, 999);
    var leap := LeapSound(frac.rest, p.value[1]);
    var e := ExtSound(ParseLeap(frac.rest, p.value[1]).rest, a.value);
    r := w.(sysTimeExt := e, timeId := id, dayNumber := day.value, timeOfDay := tod.value, fracMsec := frac.value,
            leap := leap);
  }

  lemma ReferenceTimeSound(s: seq<bool>, w: WAssist) returns (r: WAssist)
    requires ParseReferenceTime(s).Got? && w.Wf()
    ensures r.Wf() && s == PutReferenceTime(r, ParseReferenceTime(s).rest)
    ensures r.agnssExt == w.agnssExt && r.commonExt == w.commonExt
    ensures r.refLocExt == w.refLocExt && r.location == w.location
  {
    hide ReadBit, ReadPresence, SkipIf, PutExtBit, Flags, PutExt, ReadIf, PutIf, ParseSystemTime, PutSystemTime, U8;
    var a := ReadBit(s);
    var p := ReadPresence(a.rest, 2);
    ExtBitSound(s);
    PresenceSound(a.rest, 2);
    assert p.value == [p.value[0], false];
    var t := ParseSystemTime(p.rest);
    IfSound(t.rest, p.value[0], 0, 127);
    var unc := ReadIf(t.rest, p.value[0], 0, 127);
    var e := ExtSound(unc.rest, a.value);
    r := SystemTimeSound(p.rest, w.(refTimeExt := e, unc := unc.value));
  }

  lemma UncertaintySound(s: seq<bool>, w: WLocation) returns (r: WLocation, t: seq<bool>)
    requires w.Wf() && ParseUncertainty(s).Got?
    ensures r.Wf() && t == ParseUncertainty(s).rest && s == PutUncertainty(r, t)
    ensures r == w.(uncertaintySemiMajor := r.uncertaintySemiMajor, uncertaintySemiMinor := r.uncertaintySemiMinor,
                    orientationMajorAxis := r.orientationMajorAxis, uncertaintyAltitude := r.uncertaintyAltitude,
                    confidence := r.confidence)
  {
    hide ReadConstrained, PutConstrained, U8;
    ConstrainedSound(s, 0, 127);
    var a := ReadConstrained(s, 0, 127);
    ConstrainedSound(a.rest, 0, 127);
    var b := ReadConstrained(a.rest, 0, 127);
    ConstrainedSound(b.rest, 0, 179);
    var c := ReadConstrained(b.rest, 0, 179);
    ConstrainedSound(c.rest, 0, 127);
    var d := ReadConstrained(c.rest, 0, 127);
    ConstrainedSound(d.rest, 0, 100);
    var e := ReadConstrained(d.rest, 0, 100);
    r := w.(uncertaintySemiMajor := a.value, uncertaintySemiMinor := b.value, orientationMajorAxis := c.value,
            uncertaintyAltitude := d.value, confidence := e.value);
    t := e.rest;
  }

  const ORIGIN := WLocation(0, 0, 0, 0, 0, 0, 0, 0, 0, 0)

  lemma LocationSound(s: seq<bool>) returns (w: WLocation)
    requires ParseLocation(s).Got?
    ensures w.Wf() && s == PutLocation(w, ParseLocation(s).rest)
  {
    hide ReadConstrained, PutConstrained, U8, ToU16, ToU32, ToI32, ParseUncertainty, PutUncertainty;
    ConstrainedSound(s, 0, 1);
    var a := ReadConstrained(s, 0, 1);
    ConstrainedSound(a.rest, 0, 8388607);
    var b := ReadConstrained(a.rest, 0, 8388607);
    ConstrainedSound(b.rest, -8388608, 8388607);
    var c := ReadConstrained(b.rest, -8388608, 8388607);
    ConstrainedSound(c.rest, 0, 1);
    var d := ReadConstrained(c.rest, 0, 1);
    ConstrainedSound(d.rest, 0, 32767);
    var e := ReadConstrained(d.rest, 0, 32767);
    var l := ORIGIN.(latitudeSign := a.value, degreesLatitude := b.value, degreesLongitude := c.value,
                     altitudeDirection := d.value, altitude := e.value);
    var t;
    w, t := UncertaintySound(e.rest, l);
  }

  lemma ReferenceLocationSound(s: seq<bool>) returns (ext: Ext, l: WLocation)
    requires ParseReferenceLocation(s).Got?
    ensures l.Wf()
    ensures s == PutExtBit(ext, PutLocation(l, PutExt(ext, ParseReferenceLocation(s).rest)))
  {
    hide ReadBit, SkipIf, PutExtBit, PutExt, ParseLocation, PutLocation;
    var a := ReadBit(s);
    ExtBitSound(s);
    l := LocationSound(a.rest);
    ext := ExtSound(ParseLocation(a.rest).rest, a.value);
  }

  const NO_ASSIST := WAssist(NoExt, NoExt, NoExt, NoExt, WGnssId(NoExt, 0), 0, 0, None, None, None, NoExt, ORIGIN)

  lemma CommonAssistSound(s: seq<bool>, agnssExt: Ext) returns (w: WAssist)
    requires ParseCommonAssist(s).Got?
    ensures w.Wf() && w.agnssExt == agnssExt && s == PutCommonAssist(w, ParseCommonAssist(s).rest)
  {
    hide ReadBit, ReadPresence, SkipIf, PutExtBit, Flags, PutExt, ParseReferenceTime, PutReferenceTime,
         ParseReferenceLocation, PutLocation;
    var a := ReadBit(s);
    var p := ReadPresence(a.rest, 4);
    ExtBitSound(s);
    PresenceSound(a.rest, 4);
    assert p.value == [true, true, false, false];
    var t := ParseReferenceTime(p.rest);
    var locExt, l := ReferenceLocationSound(t.rest);
    var e := ExtSound(ParseReferenceLocation(t.rest).rest, a.value);
    w := ReferenceTimeSound(p.rest,
           NO_ASSIST.(agnssExt := agnssExt, commonExt := e, refLocExt := locExt, location := l));
  }

  lemma AGnssAssistSound(s: seq<bool>) returns (w: WAssist)
    requires ParseAGnssAssist(s).Got?
    ensures w.Wf() && s == PutAGnssAssist(w, ParseAGnssAssist(s).rest)
  {
    hide ReadBit, ReadPresence, SkipIf, PutExtBit, Flags, PutExt, ParseCommonAssist, PutCommonAssist;
    var a := ReadBit(s);
    var p := ReadPresence(a.rest, 3);
    ExtBitSound(s);
    PresenceSound(a.rest, 3);
    assert p.value == [true, false, false];
    var e := ExtSound(ParseCommonAssist(p.rest).rest, a.value);
    w := CommonAssistSound(p.rest, e);
  }

  lemma AssistSound(s: seq<bool>) returns (ext: Ext, w: WAssist)
    requires ParseAssist(s).Got?
    ensures w.Wf() && s == PutAssist(ext, w, ParseAssist(s).rest)
  {
    hide ReadBit, ReadPresence, SkipIf, PutExtBit, Flags, PutExt, ParseAGnssAssist, PutAGnssAssist;
    var a := ReadBit(s);
    var p := ReadPresence(a.rest, 4);
    ExtBitSound(s);
    PresenceSound(a.rest, 4);
    assert p.value == [false, true, false, false];
    w := AGnssAssistSound(p.rest);
    ext := ExtSound(ParseAGnssAssist(p.rest).rest, a.value);
  }

  // ---- RequestLocationInformation -------------------------------------------

  lemma CommonReqSound(s: seq<bool>, present: bool) returns (o: Option<WCommonReq>)
    requires ParseCommonReq(s, present).Got?
    ensures o.Some? == present && (o.Some? ==> o.value.Wf())
    ensures s == PutCommonReq(o, ParseCommonReq(s, present).rest)
  {
    hide ReadBit, ReadPresence, ReadEnumExt, SkipIf, PutExtBit, Flags, PutExt, PutEnum, BitWidth;
    o := None;
    if present {
      var a := ReadBit(s);
      var p := ReadPresence(a.rest, 7);
      ExtBitSound(s);
      PresenceSound(a.rest, 7);
      forall i | 0 <= i < 7 ensures !p.value[i] { assert p.value[i] in p.value; }
      assert p.value == [false, false, false, false, false, false, false];
      SmallWidths();
      EnumSound(p.rest, 4);
      var v := ReadEnumExt(p.rest, 4);
      var e := ExtSound(v.rest, a.value);
      o := Some(WCommonReq(e, v.value));
    }
  }

  lemma PosInstrSound(s: seq<bool>, present: bool) returns (o: Option<WPosInstr>)
    requires ParsePosInstr(s, present).Got?
    ensures o.Some? == present && (o.Some? ==> o.value.Wf())
    ensures s == PutPosInstr(o, ParsePosInstr(s, present).rest)
  {
    hide ReadBit, ReadPresence, SkipIf, PutExtBit, Flags, PutExt, ParseBitString, PutBitString;
    o := None;
    if present {
      var a := ReadBit(s);
      var b := ReadBit(a.rest);
      ExtBitSound(s);
      ExtBitSound(a.rest);
      var m := BitStringSound(b.rest, 16);
      var t := ParseBitString(b.rest, 16).rest;
      PresenceSound(t, 4);
      var p := ReadPresence(t, 4);
      var e := ExtSound(p.rest, b.value);
      var f := ExtSound(SkipIf(p.rest, b.value).rest, a.value);
      o := Some(WPosInstr(f, e, m, p.value));
    }
  }

  lemma ReqLocSound(s: seq<bool>) returns (ext: Ext, c: Option<WCommonReq>, i: Option<WPosInstr>)
    requires ParseReqLoc(s).Got?
    ensures (c.Some? ==> c.value.Wf()) && (i.Some? ==> i.value.Wf())
    ensures s == PutReqLoc(ext, c, i, ParseReqLoc(s).rest)
  {
    hide ReadBit, ReadPresence, SkipIf, PutExtBit, Flags, PutExt, ParseCommonReq, PutCommonReq, ParsePosInstr,
         PutPosInstr;
    var a := ReadBit(s);
    var p := ReadPresence(a.rest, 5);
    ExtBitSound(s);
    PresenceSound(a.rest, 5);
    assert p.value == [p.value[0], p.value[1], false, false, false];
    c := CommonReqSound(p.rest, p.value[0]);
    var t := ParseCommonReq(p.rest, p.value[0]).rest;
    i := PosInstrSound(t, p.value[1]);
    ext := ExtSound(ParsePosInstr(t, p.value[1]).rest, a.value);
  }

  // ---- ProvideLocationInformation -------------------------------------------

  lemma SvIdSound(s: seq<bool>) returns (ext: Ext, svId: nat)
    requires ParseSvId(s).Got?
    ensures svId <= 63 && s == PutSvId(ext, svId, ParseSvId(s).rest)
  {
    hide ReadBit, ReadConstrained, SkipIf, PutExtBit, PutConstrained, PutExt, U8;
    var a := ReadBit(s);
    ExtBitSound(s);
    ConstrainedSound(a.rest, 0, 63);
    var v := ReadConstrained(a.rest, 0, 63);
    svId := v.value;
    ext := ExtSound(v.rest, a.value);
  }

  const NO_SAT := WSat(NoExt, NoExt, 0, 0, 0, None, 0, None, 0, None, None)

  lemma PhaseSound(s: seq<bool>, present: bool, w: WSat) returns (r: WSat)
    requires ParsePhase(s, present).Got? && w.Wf()
    ensures r.Wf() && r.integerCodePhase.Some? == present && s == PutPhase(r, ParsePhase(s, present).rest)
    ensures r == w.(codePhase := r.codePhase, integerCodePhase := r.integerCodePhase,
                    codePhaseRMSError := r.codePhaseRMSError)
  {
    hide ReadConstrained, PutConstrained, ReadIf, PutIf, U8, ToU32;
    ConstrainedSound(s, 0, 2097151);
    var a := ReadConstrained(s, 0, 2097151);
    IfSound(a.rest, present, 0, 127);
    var b := ReadIf(a.rest, present, 0, 127);
    ConstrainedSound(b.rest, 0, 63);
    var c := ReadConstrained(b.rest, 0, 63);
    r := w.(codePhase := a.value, integerCodePhase := b.value, codePhaseRMSError := c.value);
  }

  lemma SatSound(s: seq<bool>) returns (w: WSat)
    requires ParseSat(s).Got?
    ensures w.Wf() && s == PutSat(w, ParseSat(s).rest)
  {
    hide ReadBit, ReadPresence, ReadConstrained, ReadEnumExt, SkipIf, PutExtBit, Flags, PutConstrained, PutEnum,
         PutExt, ReadIf, PutIf, ParseSvId, PutSvId, ParsePhase, PutPhase, U8, BitWidth;
    var a := ReadBit(s);
    var p := ReadPresence(a.rest, 4);
    ExtBitSound(s);
    PresenceSound(a.rest, 4);
    assert p.value == [p.value[0], p.value[1], p.value[2], p.value[3]];
    var svExt, svId := SvIdSound(p.rest);
    var t := ParseSvId(p.rest).rest;
    ConstrainedSound(t, 0, 63);
    var cNo := ReadConstrained(t, 0, 63);
    SmallWidths();
    EnumSound(cNo.rest, 4);
    var mpath := ReadEnumExt(cNo.rest, 4);
    IfSound(mpath.rest, p.value[0], 0, 3);
    var quality := ReadIf(mpath.rest, p.value[0], 0, 3);
    var phase := ParsePhase(quality.rest, p.value[1]);
    IfSound(phase.rest, p.value[2], -32768, 32767);
    var doppler := ReadIf(phase.rest, p.value[2], -32768, 32767);
    IfSound(doppler.rest, p.value[3], 0, 33554431);
    var adr := ReadIf(doppler.rest, p.value[3], 0, 33554431);
    var e := ExtSound(adr.rest, a.value);
    w := PhaseSound(quality.rest, p.value[1],
           NO_SAT.(ext := e, svExt := svExt, svId := svId, cNo := cNo.value, mpathDet := mpath.value,
                   carrierQuality := quality.value, doppler := doppler.value, adr := adr.value));
  }

  lemma {:induction false} SatsSound(s: seq<bool>, n: nat, sats: seq<SatMeas>) returns (ws: seq<WSat>)
    requires ParseSats(s, n, sats).Got?
    ensures |ws| == n && (forall i | 0 <= i < |ws| :: ws[i].Wf())
    ensures s == PutSats(ws, ParseSats(s, n, sats).rest)
    decreases n
  {
    hide ParseSat, PutSat;
    if n == 0 {
      ws := [];
    } else {
      var w := SatSound(s);
      var e := ParseSat(s);
      var rest := SatsSound(e.rest, n - 1, sats + [e.value]);
      ws := [w] + rest;
      assert ws[1..] == rest;
    }
  }

  const NO_MEAS := WMeas(
    NoExt, NoExt, 0, None, None, WGnssId(NoExt, 0), NoExt, WGnssId(NoExt, 0), NoExt, NoExt, 0, None, [NO_SAT])

  lemma MeasTimeSound(s: seq<bool>, w: WMeas) returns (r: WMeas)
    requires ParseMeasTime(s).Got? && w.Wf()
    ensures r.Wf() && s == PutMeasTime(r, ParseMeasTime(s).rest)
    ensures r == w.(timeExt := r.timeExt, todMsec := r.todMsec, todFrac := r.todFrac, todUnc := r.todUnc,
                    timeId := r.timeId)
  {
    hide ReadBit, ReadPresence, ReadConstrained, SkipIf, PutExtBit, Flags, PutExt, PutConstrained, ParseGnssId,
         PutGnssId, ReadIf, PutIf, ToU32;
    var a := ReadBit(s);
    var p := ReadPresence(a.rest, 3);
    ExtBitSound(s);
    PresenceSound(a.rest, 3);
    assert p.value == [p.value[0], p.value[1], false];
    ConstrainedSound(p.rest, 0, 3599999);
    var tod := ReadConstrained(p.rest, 0, 3599999);
    IfSound(tod.rest, p.value[0], 0, 3999);
    var frac := ReadIf(tod.rest, p.value[0], 0, 3999);
    IfSound(frac.rest, p.value[1], 0, 127);
    var unc := ReadIf(frac.rest, p.value[1], 0, 127);
    var id := GnssIdSound(unc.rest);
    var e := ExtSound(ParseGnssId(unc.rest).rest, a.value);
    r := w.(timeExt := e, todMsec := tod.value, todFrac := frac.value, todUnc := unc.value, timeId := id);
  }

  lemma SignalIdSound(s: seq<bool>) returns (ext: Ext, id: nat)
    requires ParseSignalId(s).Got?
    ensures id <= 7 && s == PutExtBit(ext, PutConstrained(id, 0, 7, PutExt(ext, ParseSignalId(s).rest)))
  {
    hide ReadBit, ReadConstrained, SkipIf, PutExtBit, PutConstrained, PutExt;
    var a := ReadBit(s);
    ExtBitSound(s);
    ConstrainedSound(a.rest, 0, 7);
    var v := ReadConstrained(a.rest, 0, 7);
    id := v.value;
    ext := ExtSound(v.rest, a.value);
  }

  lemma ElementSound(s: seq<bool>, w: WMeas) returns (r: WMeas)
    requires ParseElement(s).Got? && w.Wf()
    ensures r.Wf() && s == PutElement(r, ParseElement(s).rest)
    ensures r == w.(elementExt := r.elementExt, signalIdExt := r.signalIdExt, signalId := r.signalId,
                    ambiguity := r.ambiguity, sats := r.sats)
  {
    hide ReadBit, ReadPresence, ReadConstrained, SkipIf, PutExtBit, Flags, PutExt, PutConstrained, ReadIf, PutIf,
         ParseSignalId, ParseSats, PutSats;
    var a := ReadBit(s);
    var p := ReadPresence(a.rest, 1);
    ExtBitSound(s);
    PresenceSound(a.rest, 1);
    assert p.value == [p.value[0]];
    var sigExt, sig := SignalIdSound(p.rest);
    var t := ParseSignalId(p.rest).rest;
    IfSound(t, p.value[0], 0, 127);
    var amb := ReadIf(t, p.value[0], 0, 127);
    ConstrainedSound(amb.rest, 1, 64);
    var count := ReadConstrained(amb.rest, 1, 64);
    var ws := SatsSound(count.rest, count.value, []);
    var e := ExtSound(ParseSats(count.rest, count.value, []).rest, a.value);
    r := w.(elementExt := e, signalIdExt := sigExt, signalId := sig, ambiguity := amb.value, sats := ws);
  }

  lemma MeasSound(s: seq<bool>) returns (w: WMeas)
    requires ParseMeas(s).Got?
    ensures w.Wf() && s == PutMeas(w, ParseMeas(s).rest)
  {
    hide ReadBit, ReadConstrained, SkipIf, PutExtBit, PutExt, PutConstrained, ParseMeasTime, PutMeasTime, ParseGnssId,
         PutGnssId, ParseElement, PutElement;
    var a := ReadBit(s);
    ExtBitSound(s);
    var tod := ParseMeasTime(a.rest);
    ConstrainedSound(tod.rest, 1, 16);
    var one := ReadConstrained(tod.rest, 1, 16);
    var b := ReadBit(one.rest);
    ExtBitSound(one.rest);
    var id := GnssIdSound(b.rest);
    var t := ParseGnssId(b.rest).rest;
    ConstrainedSound(t, 1, 8);
    var sgn := ReadConstrained(t, 1, 8);
    var el := ParseElement(sgn.rest);
    var e1 := ExtSound(el.rest, b.value);
    var e2 := ExtSound(SkipIf(el.rest, b.value).rest, a.value);
    w := ElementSound(sgn.rest, NO_MEAS.(ext := e2, oneGnssExt := e1, gnssId := id));
    var w' := MeasTimeSound(a.rest, w);
    SameElement(w, w', el.rest);
    w := w';
  }

  lemma SameElement(w: WMeas, w': WMeas, k: seq<bool>)
    requires w.Wf() && w'.Wf()
    requires w.elementExt == w'.elementExt && w.signalIdExt == w'.signalIdExt && w.signalId == w'.signalId
    requires w.ambiguity == w'.ambiguity && w.sats == w'.sats
    ensures PutElement(w, k) == PutElement(w', k)
  {
    hide PutSats, PutConstrained, PutIf, PutExtBit, PutExt, Flags;
  }

  lemma ErrorSound(s: seq<bool>) returns (w: WError)
    requires ParseError(s).Got?
    ensures w.Wf() && s == PutError(w, ParseError(s).rest)
  {
    hide ReadBit, ReadBits, ReadPresence, ReadEnumExt, SkipIf, PutBool, Put, PutExtBit, Flags, PutExt, PutEnum, U8,
         BitWidth;
    var a := ReadBit(s);
    BitSound(s);
    var alt := ReadBits(a.rest, 1);
    BitsSound(a.rest, 1);
    var b := ReadBit(alt.rest);
    ExtBitSound(alt.rest);
    var p := ReadPresence(b.rest, 3);
    PresenceSound(b.rest, 3);
    SmallWidths();
    EnumSound(p.rest, 4);
    var v := ReadEnumExt(p.rest, 4);
    var e := ExtSound(v.rest, b.value);
    w := WError(e, p.value, v.value);
  }

  lemma AGnssLocSound(s: seq<bool>) returns (ext: Ext, m: Option<WMeas>, e: Option<WError>)
    requires ParseAGnssLoc(s).Got?
    ensures (m.Some? ==> m.value.Wf()) && (e.Some? ==> e.value.Wf())
    ensures s == PutAGnssLoc(ext, m, e, ParseAGnssLoc(s).rest)
    ensures ParseAGnssLoc(s).value != ProvideLocationInformation(None, None) ==> m.Some? || e.Some?
  {
    hide ReadBit, ReadPresence, SkipIf, PutExtBit, Flags, PutExt, ParseMeas, PutMeas, ParseError, PutError;
    var a := ReadBit(s);
    var p := ReadPresence(a.rest, 3);
    ExtBitSound(s);
    PresenceSound(a.rest, 3);
    assert p.value == [p.value[0], false, p.value[2]];
    m, e := None, None;
    if p.value[0] {
      var w := MeasSound(p.rest);
      m := Some(w);
    }
    var t := ParseMeasIf(p.rest, p.value[0]).rest;
    if p.value[2] {
      var w := ErrorSound(t);
      e := Some(w);
    }
    ext := ExtSound(ParseErrorIf(t, p.value[2]).rest, a.value);
  }

  lemma ProvLocSound(s: seq<bool>) returns (ext: Ext, agnssExt: Ext, m: Option<WMeas>, e: Option<WError>)
    requires ParseProvLoc(s).Got?
    ensures WProvideLocationInformation(ext, agnssExt, m, e).Wf()
    ensures s == PutProvLoc(ext, agnssExt, m, e, ParseProvLoc(s).rest)
  {
    hide ReadBit, ReadPresence, SkipIf, PutExtBit, Flags, PutExt, ParseAGnssLoc, PutAGnssLoc;
    var a := ReadBit(s);
    var p := ReadPresence(a.rest, 5);
    ExtBitSound(s);
    PresenceSound(a.rest, 5);
    assert p.value == [false, true, false, false, false];
    agnssExt, m, e := AGnssLocSound(p.rest);
    ext := ExtSound(ParseAGnssLoc(p.rest).rest, a.value);
  }

  // ---- messages -------------------------------------------------------------

  lemma BodySound(s: seq<bool>, c1: nat) returns (b: WBody)
    requires ParseBody(s, c1).Got?
    ensures b.Wf() && b.Index() == c1 && s == PutBody(b, ParseBody(s, c1).rest)
  {
    hide ParseReqCaps, PutReqCaps, ParseProvCaps, PutProvCaps, ParseAssist, PutAssist, ParseReqLoc, PutReqLoc,
         ParseProvLoc, PutProvLoc;
    match c1 {
      case 0 =>
        var ext, a := ReqCapsSound(s);
        b := WRequestCapabilities(ext, a);
      case 1 =>
        var ext, a := ProvCapsSound(s);
        b := WProvideCapabilities(ext, a);
      case 3 =>
        var ext, a := AssistSound(s);
        b := WProvideAssistanceData(ext, a);
      case 4 =>
        var ext, c, p := ReqLocSound(s);
        b := WRequestLocationInformation(ext, c, p);
      case 5 =>
        var ext, agnssExt, m, e := ProvLocSound(s);
        b := WProvideLocationInformation(ext, agnssExt, m, e);
      case _ =>
        assert false;
    }
  }

  lemma AckSound(s: seq<bool>, present: bool) returns (o: Option<WAck>)
    requires ParseAckIf(s, present).Got?
    ensures o.Some? == present && s == PutAck(o, ParseAckIf(s, present).rest)
  {
    hide ReadBit, ReadPresence, PutBool, Flags, ReadConstrained, PutConstrained;
    o := None;
    if present {
      var p := ReadPresence(s, 1);
      PresenceSound(s, 1);
      assert p.value == [p.value[0]];
      BitSound(p.rest);
      var r := ReadBit(p.rest);
      IfSound(r.rest, p.value[0], 0, 255);
      var i := ReadIf(r.rest, p.value[0], 0, 255).value;
      o := Some(WAck(r.value, if i.Some? then Some(i.value) else None));
    }
  }

  lemma ChoicesSound(s: seq<bool>, index: nat, k: seq<bool>)
    requires ReadBit(s).Got? && !ReadBit(s).value
    requires ReadBits(ReadBit(s).rest, 4).Got? && ReadBits(ReadBit(s).rest, 4).value == index
    requires ParseCriticalExtensions(ReadBits(ReadBit(s).rest, 4).rest).Got?
    requires k == ParseCriticalExtensions(ReadBits(ReadBit(s).rest, 4).rest).rest
    ensures s == PutChoices(index, k)
  {
    hide ReadBits, Put, ReadBit, PutBool;
    var t := ReadBit(s).rest;
    BitSound(s);
    BitsSound(t, 4);
    var u := ReadBits(t, 4).rest;
    BitSound(u);
    BitsSound(ReadBit(u).rest, 2);
  }

  lemma TxnIfSound(s: seq<bool>, present: bool) returns (o: Option<WTxn>)
    requires ParseTxnIf(s, present).Got?
    ensures o.Some? == present && (o.Some? ==> o.value.Wf())
    ensures s == if o.Some? then PutTxn(o.value, ParseTxnIf(s, present).rest) else ParseTxnIf(s, present).rest
  {
    hide ParseTxn, PutTxn;
    o := None;
    if present {
      var w := TxnSound(s);
      o := Some(w);
    }
  }

  /** Every accepted string is the encoding of a well-formed message, followed by
      the bits left over; what the decoder shows is that message's view. */
  lemma MessageSound(s: seq<bool>) returns (w: WMessage)
    requires ParseMessage(s).Got?
    ensures w.Wf() && s == PutMessage(w, ParseMessage(s).rest) && View(w) == ParseMessage(s).value
  {
    hide ReadBit, ReadPresence, ReadBits, ReadIf, PutIf, ParseTxnIf, PutTxn, ParseAckIf, PutAck,
         ParseCriticalExtensions, PutChoices, ParseBody, PutBody, Flags, PutBool, View;
    assert BitWidth(16) == 4;
    hide BitWidth;
    var p := ReadPresence(s, 4);
    PresenceSound(s, 4);
    assert p.value == [p.value[0], p.value[1], p.value[2], true];
    var txn := TxnIfSound(p.rest, p.value[0]);
    var t1 := ParseTxnIf(p.rest, p.value[0]).rest;
    BitSound(t1);
    var endTx := ReadBit(t1);
    IfSound(endTx.rest, p.value[1], 0, 255);
    var sn := ReadIf(endTx.rest, p.value[1], 0, 255);
    var ack := AckSound(sn.rest, p.value[2]);
    var t2 := ParseAckIf(sn.rest, p.value[2]).rest;
    var c1 := ReadBits(ReadBit(t2).rest, 4);
    var t3 := ParseCriticalExtensions(c1.rest).rest;
    ChoicesSound(t2, c1.value, t3);
    var b := BodySound(t3, c1.value);
    w := WMessage(txn, endTx.value, sn.value, ack, b);
    MessageInverts(w, ParseMessage(s).rest);
  }

  /** The language of the decoder. */
  lemma Accepted(s: seq<bool>)
    ensures ParseMessage(s).Got? <==> exists w: WMessage, k :: w.Wf() && s == PutMessage(w, k)
  {
    hide ParseMessage, PutMessage;
    if ParseMessage(s).Got? {
      var w := MessageSound(s);
    }
    if w: WMessage, k :| w.Wf() && s == PutMessage(w, k) {
      MessageInverts(w, k);
    }
  }
}
