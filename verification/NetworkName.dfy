/**
 The Network Name IE (section 10.5.3.5a of TS 24.008): GSM 7-bit packed text when
 every character is in the basic set, UTF-16 big endian otherwise.
 */
module NetworkName {
  import opened Wrappers
  import opened Bits
  import opened Gsm7

  /** Unicode scalar value: a code point that is not a surrogate */
  type Scalar = c: int | 0 <= c <= 0x10FFFF && !(0xD800 <= c < 0xE000) witness 0
  type Text = seq<Scalar>
  type Unit = u: int | 0 <= u < 0x1_0000

  // ---- GSM 7-bit basic set ------------------------------------------------

  /** Septets 0x20-0x23, 0x25-0x3F, 0x41-0x5A and 0x61-0x7A are ASCII. */
  predicate SameAsAscii(x: int) {
    0x20 <= x <= 0x23 || 0x25 <= x <= 0x3F || 0x41 <= x <= 0x5A || 0x61 <= x <= 0x7A
  }

  function ToSeptet(c: Scalar): Option<Byte> {
    if SameAsAscii(c) then Some(c) else
    match c
    case 0x40 => Some(0x00) case 0xA3 => Some(0x01) case 0x24 => Some(0x02) case 0xA5 => Some(0x03)
    case 0xE8 => Some(0x04) case 0xE9 => Some(0x05) case 0xF9 => Some(0x06) case 0xEC => Some(0x07)
    case 0xF2 => Some(0x08) case 0xC7 => Some(0x09) case 0x0A => Some(0x0A) case 0xD8 => Some(0x0B)
    case 0xF8 => Some(0x0C) case 0x0D => Some(0x0D) case 0xC5 => Some(0x0E) case 0xE5 => Some(0x0F)
    case 0x394 => Some(0x10) case 0x5F => Some(0x11) case 0x3A6 => Some(0x12) case 0x393 => Some(0x13)
    case 0x39B => Some(0x14) case 0x3A9 => Some(0x15) case 0x3A0 => Some(0x16) case 0x3A8 => Some(0x17)
    case 0x3A3 => Some(0x18) case 0x398 => Some(0x19) case 0x39E => Some(0x1A) case 0xC6 => Some(0x1C)
    case 0xE6 => Some(0x1D) case 0xDF => Some(0x1E) case 0xC9 => Some(0x1F) case 0xA4 => Some(0x24)
    case 0xA1 => Some(0x40) case 0xC4 => Some(0x5B) case 0xD6 => Some(0x5C) case 0xD1 => Some(0x5D)
    case 0xDC => Some(0x5E) case 0xA7 => Some(0x5F) case 0xBF => Some(0x60) case 0xE4 => Some(0x7B)
    case 0xF6 => Some(0x7C) case 0xF1 => Some(0x7D) case 0xFC => Some(0x7E) case 0xE0 => Some(0x7F)
    case _ => None
  }

  function FromSeptet(s: Byte): Option<Scalar> {
    var c: Scalar := s;
    if SameAsAscii(c) then Some(c) else
    match s
    case 0x00 => Some(0x40) case 0x01 => Some(0xA3) case 0x02 => Some(0x24) case 0x03 => Some(0xA5)
    case 0x04 => Some(0xE8) case 0x05 => Some(0xE9) case 0x06 => Some(0xF9) case 0x07 => Some(0xEC)
    case 0x08 => Some(0xF2) case 0x09 => Some(0xC7) case 0x0A => Some(0x0A) case 0x0B => Some(0xD8)
    case 0x0C => Some(0xF8) case 0x0D => Some(0x0D) case 0x0E => Some(0xC5) case 0x0F => Some(0xE5)
    case 0x10 => Some(0x394) case 0x11 => Some(0x5F) case 0x12 => Some(0x3A6) case 0x13 => Some(0x393)
    case 0x14 => Some(0x39B) case 0x15 => Some(0x3A9) case 0x16 => Some(0x3A0) case 0x17 => Some(0x3A8)
    case 0x18 => Some(0x3A3) case 0x19 => Some(0x398) case 0x1A => Some(0x39E) case 0x1C => Some(0xC6)
    case 0x1D => Some(0xE6) case 0x1E => Some(0xDF) case 0x1F => Some(0xC9) case 0x24 => Some(0xA4)
    case 0x40 => Some(0xA1) case 0x5B => Some(0xC4) case 0x5C => Some(0xD6) case 0x5D => Some(0xD1)
    case 0x5E => Some(0xDC) case 0x5F => Some(0xA7) case 0x60 => Some(0xBF) case 0x7B => Some(0xE4)
    case 0x7C => Some(0xF6) case 0x7D => Some(0xF1) case 0x7E => Some(0xFC) case 0x7F => Some(0xE0)
    case _ => None
  }

  lemma ForwardThenBack(c: Scalar)
    requires ToSeptet(c).Some?
    ensures ToSeptet(c).value < 128 && FromSeptet(ToSeptet(c).value) == Some(c)
  {
  }

  lemma BackThenForward(s: Byte)
    requires FromSeptet(s).Some?
    ensures ToSeptet(FromSeptet(s).value) == Some(s)
  {
  }

  /** The reverse table is the inverse of the forward one, in both directions. */
  lemma TablesInverse(c: Scalar, s: Byte)
    ensures ToSeptet(c) == Some(s) <==> FromSeptet(s) == Some(c)
    ensures ToSeptet(c) == Some(s) ==> s < 128
  {
    hide ToSeptet, FromSeptet;
    if ToSeptet(c) == Some(s) { ForwardThenBack(c); }
    if FromSeptet(s) == Some(c) { BackThenForward(s); }
  }

  function Septets(text: Text): Option<seq<Byte>> {
    if text == [] then Some([])
    else
      match (ToSeptet(text[0]), Septets(text[1..]))
      case (Some(s), Some(ss)) => Some([s] + ss)
      case _ => None
  }

  function Runes(septets: seq<Byte>): Result<Text> {
    if septets == [] then Ok([])
    else
      match FromSeptet(septets[0])
      case None => Err
      case Some(c) =>
        var cs :- Runes(septets[1..]);
        Ok([c] + cs)
  }

  lemma {:induction false} RunesSeptets(text: Text)
    requires Septets(text).Some?
    ensures Seven(Septets(text).value) && |Septets(text).value| == |text|
    ensures Runes(Septets(text).value) == Ok(text)
  {
    hide ToSeptet, FromSeptet;
    if text != [] {
      RunesSeptets(text[1..]);
      TablesInverse(text[0], ToSeptet(text[0]).value);
      assert Septets(text).value[1..] == Septets(text[1..]).value;
      assert [text[0]] + text[1..] == text;
    }
  }

  // ---- UTF-16 -------------------------------------------------------------

  function EncodeRune(c: Scalar): seq<Unit> {
    if c < 0x10000 then [c] else [0xD800 + (c - 0x10000) / 0x400, 0xDC00 + (c - 0x10000) % 0x400]
  }

  function Utf16Encode(text: Text): seq<Unit> {
    if text == [] then [] else EncodeRune(text[0]) + Utf16Encode(text[1..])
  }

  /** unicode/utf16.Decode: a lone surrogate decodes to U+FFFD. */
  function Utf16Decode(us: seq<Unit>): Text {
    if us == [] then []
    else if !(0xD800 <= us[0] < 0xE000) then [us[0]] + Utf16Decode(us[1..])
    else if us[0] < 0xDC00 && |us| > 1 && 0xDC00 <= us[1] < 0xE000 then
      [(us[0] - 0xD800) * 0x400 + (us[1] - 0xDC00) + 0x10000] + Utf16Decode(us[2..])
    else [0xFFFD] + Utf16Decode(us[1..])
  }

  /** Decoding goes character by character: a scalar value from one unit or from a
      pair of surrogates, ten bits in each */
  lemma RuneDecodes(c: Scalar, us: seq<Unit>)
    ensures Utf16Decode(EncodeRune(c) + us) == [c] + Utf16Decode(us)
    ensures c < 0x10000 ==> EncodeRune(c) == [c]
    ensures c >= 0x10000 ==>
              && |EncodeRune(c)| == 2 && 0xD800 <= EncodeRune(c)[0] < 0xDC00 <= EncodeRune(c)[1] < 0xE000
              && (EncodeRune(c)[0] as int - 0xD800) * 0x400 + (EncodeRune(c)[1] as int - 0xDC00) + 0x10000 == c
  {
    var all := EncodeRune(c) + us;
    if c < 0x10000 { assert all[1..] == us; } else { assert all[2..] == us; }
  }

  /** A surrogate without its partner is replaced. */
  lemma LoneSurrogate(u: Unit, us: seq<Unit>)
    requires 0xD800 <= u < 0xE000 && (u >= 0xDC00 || us == [] || !(0xDC00 <= us[0] < 0xE000))
    ensures Utf16Decode([u] + us) == [0xFFFD] + Utf16Decode(us)
  {
    assert ([u] + us)[1..] == us;
  }

  lemma {:induction false} Utf16RoundTrip(text: Text)
    ensures Utf16Decode(Utf16Encode(text)) == text
  {
    if text != [] {
      Utf16RoundTrip(text[1..]);
      var us, t := Utf16Encode(text), Utf16Encode(text[1..]);
      if text[0] < 0x10000 {
        assert us[1..] == t;
      } else {
        assert us[2..] == t;
      }
    }
  }

  /** Big-endian octets of the units */
  function UnitOctets(us: seq<Unit>): (b: seq<Byte>)
    ensures |b| == 2 * |us|
  {
    if us == [] then [] else [us[0] / 256, us[0] % 256] + UnitOctets(us[1..])
  }

  function OctetUnits(b: seq<Byte>): (us: seq<Unit>)
    requires |b| % 2 == 0
    ensures |us| == |b| / 2
  {
    if b == [] then [] else [BE16(b[0], b[1])] + OctetUnits(b[2..])
  }

  lemma {:induction false} OctetsRoundTrip(us: seq<Unit>)
    ensures OctetUnits(UnitOctets(us)) == us
  {
    if us != [] {
      OctetsRoundTrip(us[1..]);
      assert UnitOctets(us)[2..] == UnitOctets(us[1..]);
    }
  }

  // ---- the information element --------------------------------------------

  const CODING_GSM7: Byte := 0
  const CODING_UCS2: Byte := 1

  datatype Name = Name(codingScheme: Byte, addCI: bool, text: Text)

  /** Octet 3: ext = 1, coding scheme, Add CI = 0, spare bits */
  function Header(coding: Byte, spareBits: Byte): Byte
    requires coding < 8 && spareBits < 8
  {
    0x80 + coding * 16 + spareBits
  }

  function CodingFor(text: Text): Byte {
    if Septets(text).Some? then CODING_GSM7 else CODING_UCS2
  }

  /** Contents of the IE (octet 3 onwards), before the length limit */
  function Contents(text: Text): seq<Byte> {
    match Septets(text)
    case Some(ss) =>
      var body := Pack(ss);
      [Header(CODING_GSM7, 8 * |body| - 7 * |ss|)] + body
    case None => [Header(CODING_UCS2, 0)] + UnitOctets(Utf16Encode(text))
  }

  function Encoded(iei: Byte, text: Text): (r: Result<seq<Byte>>)
    ensures r.Ok? <==> text != [] && |Contents(text)| <= 255
    ensures r.Ok? ==> r.value == [iei, |Contents(text)|] + Contents(text)
  {
    if text == [] || |Contents(text)| > 255 then Err
    else Ok([iei, |Contents(text)|] + Contents(text))
  }

  function Decoded(b: seq<Byte>): Result<Name> {
    if |b| < 1 then Err
    else
      var coding, addCI, spareBits, body := b[0] / 16 % 8, b[0] / 8 % 2 == 1, b[0] % 8, b[1..];
      if coding == CODING_UCS2 then
        if |body| % 2 != 0 then Err else Ok(Name(coding, addCI, Utf16Decode(OctetUnits(body))))
      else if coding == CODING_GSM7 then
        var text :- Runes(Unpack(body, GSM7Count(|body|, spareBits)));
        Ok(Name(coding, addCI, text))
      else Err
  }

  lemma HeaderFields(coding: Byte, spareBits: Byte)
    requires coding < 8 && spareBits < 8
    ensures var h := Header(coding, spareBits);
            h / 16 % 8 == coding && h / 8 % 2 == 0 && h % 8 == spareBits
  {
  }

  lemma Gsm7RoundTrip(text: Text, ss: seq<Byte>)
    requires Septets(text) == Some(ss)
    ensures Decoded([Header(CODING_GSM7, 8 * |Pack(ss)| - 7 * |ss|)] + Pack(ss)) == Ok(Name(CODING_GSM7, false, text))
  {
    hide Septets, Runes, Pack, Unpack, Header;
    var spare := 8 * |Pack(ss)| - 7 * |ss|;
    HeaderFields(CODING_GSM7, spare);
    RunesSeptets(text);
    UnpackPack(ss, 0);
    SpareBitsResolve(|ss|);
    assert ss + seq(0, i => 0) == ss;
    assert ([Header(CODING_GSM7, spare)] + Pack(ss))[1..] == Pack(ss);
  }

  lemma Ucs2RoundTrip(text: Text)
    ensures Decoded([Header(CODING_UCS2, 0)] + UnitOctets(Utf16Encode(text))) == Ok(Name(CODING_UCS2, false, text))
  {
    hide Utf16Encode, Utf16Decode, UnitOctets, OctetUnits, Header;
    var body := UnitOctets(Utf16Encode(text));
    HeaderFields(CODING_UCS2, 0);
    Utf16RoundTrip(text);
    OctetsRoundTrip(Utf16Encode(text));
    assert ([Header(CODING_UCS2, 0)] + body)[1..] == body;
  }

  /** Decoding the contents of an encoded name gives the name back, in either
      coding scheme and at every length. */
  lemma NameRoundTrip(text: Text)
    ensures Decoded(Contents(text)) == Ok(Name(CodingFor(text), false, text))
  {
    hide Septets, Decoded, Pack, Utf16Encode, UnitOctets;
    match Septets(text)
    case Some(ss) => Gsm7RoundTrip(text, ss);
    case None => Ucs2RoundTrip(text);
  }

  /** Octet 3: the extension bit, the coding scheme in bits 7 to 5, no country
      initials, and the spare bits of the last octet; then packed septets, or UTF-16
      with the more significant octet first */
  lemma NameLayout(text: Text)
    ensures match Septets(text)
            case Some(ss) =>
              && |ss| == |text| && Contents(text)[1..] == Pack(ss)
              && Contents(text)[0] as int == 0x80 + 8 * |Pack(ss)| - 7 * |text|
            case None =>
              && Contents(text)[0] == 0x90 && |Contents(text)| == 1 + 2 * |Utf16Encode(text)|
              && forall i | 0 <= i < |Utf16Encode(text)| ::
                   Contents(text)[1 + 2 * i] as int * 256 + Contents(text)[2 + 2 * i] as int == Utf16Encode(text)[i]
  {
    hide Septets, Pack, Utf16Encode;
    match Septets(text)
    case Some(ss) => RunesSeptets(text);
    case None =>
      var us := Utf16Encode(text);
      assert Contents(text)[1..] == UnitOctets(us);
      forall i | 0 <= i < |us|
        ensures Contents(text)[1 + 2 * i] as int * 256 + Contents(text)[2 + 2 * i] as int == us[i]
      {
        UnitOctetsAt(us, i);
        assert Contents(text)[1 + 2 * i] == UnitOctets(us)[2 * i];
        assert Contents(text)[2 + 2 * i] == UnitOctets(us)[2 * i + 1];
      }
  }

  lemma {:induction false} UnitOctetsAt(us: seq<Unit>, i: nat)
    requires i < |us|
    ensures UnitOctets(us)[2 * i] as int * 256 + UnitOctets(us)[2 * i + 1] as int == us[i]
  {
    if i > 0 { UnitOctetsAt(us[1..], i - 1); }
  }

  /** The 7-bit coding is used exactly when every character has a septet. */
  lemma {:induction false} SeptetsExist(text: Text)
    ensures Septets(text).Some? <==> forall i | 0 <= i < |text| :: ToSeptet(text[i]).Some?
    ensures Septets(text).Some? ==>
              && |Septets(text).value| == |text|
              && forall i | 0 <= i < |text| :: ToSeptet(text[i]) == Some(Septets(text).value[i])
  {
    hide ToSeptet;
    if text != [] {
      SeptetsExist(text[1..]);
      assert forall i | 1 <= i < |text| :: text[i] == text[1..][i - 1];
      if Septets(text[1..]).Some? && ToSeptet(text[0]).Some? {
        var ss := Septets(text).value;
        assert forall i | 1 <= i < |text| :: ss[i] == ss[1..][i - 1];
      }
    }
  }

  /** Letters, digits and the space have their ASCII code. */
  lemma AsciiSeptets(c: Scalar)
    requires c == 0x20 || 0x30 <= c <= 0x39 || 0x41 <= c <= 0x5A || 0x61 <= c <= 0x7A
    ensures ToSeptet(c) == Some(c)
  {
  }

  /** Exactly which contents are not a name: none at all, a coding other than the
      two, an odd number of UCS2 octets, or a septet outside the alphabet */
  lemma NameOutcome(b: seq<Byte>)
    ensures Decoded(b).Err? <==>
              || b == []
              || b[0] / 16 % 8 > 1
              || (b[0] / 16 % 8 == 1 && |b| % 2 == 0)
              || (b[0] / 16 % 8 == 0
                  && AnyUnknown(Unpack(b[1..], GSM7Count(|b| - 1, b[0] % 8))))
    ensures Decoded(b).Ok? ==>
              Decoded(b).value.codingScheme == b[0] / 16 % 8 && Decoded(b).value.addCI == (b[0] / 8 % 2 == 1)
  {
    hide Runes, Unpack, Utf16Decode, OctetUnits, AnyUnknown;
    if b != [] && b[0] / 16 % 8 == 0 { RunesFail(Unpack(b[1..], GSM7Count(|b| - 1, b[0] % 8))); }
  }

  predicate AnyUnknown(septets: seq<Byte>) {
    exists i :: 0 <= i < |septets| && FromSeptet(septets[i]).None?
  }

  lemma {:induction false} RunesFail(ss: seq<Byte>)
    ensures Runes(ss).Err? <==> AnyUnknown(ss)
  {
    hide FromSeptet;
    if ss != [] {
      RunesFail(ss[1..]);
      if i :| 0 <= i < |ss[1..]| && FromSeptet(ss[1..][i]).None? { assert ss[i + 1] == ss[1..][i]; }
      if i :| 0 <= i < |ss| && FromSeptet(ss[i]).None? {
        if i > 0 { assert ss[1..][i - 1] == ss[i]; }
      }
    }
  }

  // ---- the code -----------------------------------------------------------

  method Gsm7Septets(text: Text) returns (septets: seq<Byte>, ok: bool)
    ensures ok == Septets(text).Some?
    ensures ok ==> septets == Septets(text).value
  {
    hide ToSeptet, FromSeptet;
    septets := [];
    for i := 0 to |text|
      invariant Septets(text).Some? == Septets(text[i..]).Some?
      invariant Septets(text).Some? ==> Septets(text).value == septets + Septets(text[i..]).value
    {
      assert text[i..][0] == text[i] && text[i..][1..] == text[i + 1..];
      match ToSeptet(text[i])
      case None => return [], false;
      case Some(v) => septets := septets + [v];
    }
    return septets, true;
  }

  method EncodeUnits(us: seq<Unit>) returns (body: seq<Byte>)
    ensures body == UnitOctets(us)
  {
    body := [];
    for i := 0 to |us|
      invariant UnitOctets(us) == body + UnitOctets(us[i..])
    {
      assert us[i..][1..] == us[i + 1..];
      body := body + [us[i] / 256, us[i] % 256];
    }
    assert us[|us|..] == [];
  }

  method EncodeNetworkName(iei: Byte, text: Text) returns (r: Result<seq<Byte>>)
    ensures r == Encoded(iei, text)
  {
    hide ToSeptet, FromSeptet, Pack, Utf16Encode, UnitOctets, Septets, Runes;
    if text == [] {
      return Err;
    }
    var coding, spareBits: Byte, body: seq<Byte>;
    var septets, ok := Gsm7Septets(text);
    if ok {
      RunesSeptets(text);
      coding := CODING_GSM7;
      body, spareBits := PackGSM7(septets);
    } else {
      coding := CODING_UCS2;
      body := EncodeUnits(Utf16Encode(text));
      spareBits := 0;
    }
    assert Contents(text) == [Header(coding, spareBits)] + body;
    if |body| + 1 > 255 {
      return Err;
    }
    var out := [iei, |body| + 1, Header(coding, spareBits)];
    out := out + body;
    assert [iei, |body| + 1] + ([Header(coding, spareBits)] + body) == out;
    return Ok(out);
  }

  method DecodeUnits(body: seq<Byte>) returns (units: seq<Unit>)
    requires |body| % 2 == 0
    ensures units == OctetUnits(body)
  {
    hide BE16;
    units := [];
    var i := 0;
    while i + 1 < |body|
      invariant 0 <= i <= |body| && i % 2 == 0 && |units| == i / 2
      invariant forall j | 0 <= j < i / 2 :: units[j] == BE16(body[2 * j], body[2 * j + 1])
    {
      units := units + [BE16(body[i], body[i + 1])];
      i := i + 2;
    }
    forall j | 0 <= j < |units| ensures units[j] == OctetUnits(body)[j] { UnitAt(body, j); }
  }

  lemma {:induction false} UnitAt(b: seq<Byte>, j: nat)
    requires |b| % 2 == 0 && j < |b| / 2
    ensures OctetUnits(b)[j] == BE16(b[2 * j], b[2 * j + 1])
  {
    hide BE16;
    if j > 0 { UnitAt(b[2..], j - 1); }
  }

  method DecodeRunes(septets: seq<Byte>) returns (r: Result<Text>)
    ensures r == Runes(septets)
  {
    hide FromSeptet;
    var runes: Text := [];
    for i := 0 to |septets|
      invariant Runes(septets).Ok? == Runes(septets[i..]).Ok?
      invariant Runes(septets).Ok? ==> Runes(septets).value == runes + Runes(septets[i..]).value
    {
      assert septets[i..][0] == septets[i] && septets[i..][1..] == septets[i + 1..];
      match FromSeptet(septets[i])
      case None => return Err;
      case Some(c) => runes := runes + [c];
    }
    assert septets[|septets|..] == [] && runes + [] == runes;
    return Ok(runes);
  }

  method DecodeNetworkName(b: seq<Byte>) returns (r: Result<Name>)
    ensures r == Decoded(b)
  {
    hide Runes, Unpack, Utf16Decode, OctetUnits;
    if |b| < 1 {
      return Err;
    }
    var coding, addCI, spareBits, body := b[0] / 16 % 8, b[0] / 8 % 2 == 1, b[0] % 8, b[1..];
    if coding == CODING_UCS2 {
      if |body| % 2 != 0 {
        return Err;
      }
      var units := DecodeUnits(body);
      return Ok(Name(coding, addCI, Utf16Decode(units)));
    }
    if coding == CODING_GSM7 {
      var septets := UnpackGSM7(body, spareBits);
      var runes :- DecodeRunes(septets);
      return Ok(Name(coding, addCI, runes));
    }
    return Err;
  }
}
