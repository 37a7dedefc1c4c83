/** Wire quantisation of pseudoranges and geodetic coordinates, over exact reals. */
module Quantize {
  import opened Wrappers
  import opened Machine

  const METERS_PER_MS: real := 299792.458
  const UNITS_PER_MS: int := 0x20_0000    // 2^21 codePhase units per millisecond

  type IntegerCodePhase = n: int | 0 <= n <= 127
  type CodePhase = n: int | 0 <= n < 0x20_0000

  /** math.Round on non-negative values: half away from zero */
  function Round(x: real): int
    requires x >= 0.0
  {
    (x + 0.5).Floor
  }

  function Distance(x: real, y: real): real {
    if x < y then y - x else x - y
  }

  /** Accepted exactly up to the half unit below 128 ms; an accepted pseudorange
      is carried to within half a codePhase unit. */
  function PseudorangeToCodePhase(p: real): (r: Result<(IntegerCodePhase, CodePhase)>)
    ensures r.Ok? <==> 0.0 <= p < (128.0 - 0.5 / UNITS_PER_MS as real) * METERS_PER_MS
    ensures r.Ok? ==>
              Distance(CodePhaseToPseudorange(r.value.0, r.value.1), p) <= METERS_PER_MS / 4194304.0
  {
    if p < 0.0 then Err
    else
      var totalMs := p / METERS_PER_MS;
      assert totalMs >= 0.0 && p == totalMs * METERS_PER_MS;
      var icp := totalMs.Floor;
      var frac := (totalMs - icp as real) * UNITS_PER_MS as real;
      var cp := Round(frac);
      assert cp as real - 0.5 <= frac < cp as real + 0.5;
      var (icp', cp') := if cp >= UNITS_PER_MS then (icp + 1, 0) else (icp, cp);
      if icp' > 127 then Err else Ok((icp', cp'))
  }

  function CodePhaseToPseudorange(icp: IntegerCodePhase, cp: CodePhase): real {
    (icp as real + cp as real / UNITS_PER_MS as real) * METERS_PER_MS
  }

  /** Every wire pair re-encodes to itself. */
  lemma CodePhaseRoundTrip(icp: IntegerCodePhase, cp: CodePhase)
    ensures PseudorangeToCodePhase(CodePhaseToPseudorange(icp, cp)) == Ok((icp, cp))
  {
    var p := CodePhaseToPseudorange(icp, cp);
    var totalMs := p / METERS_PER_MS;
    assert totalMs == icp as real + cp as real / UNITS_PER_MS as real;
    assert totalMs.Floor == icp;
    assert (totalMs - icp as real) * UNITS_PER_MS as real == cp as real;
    assert Round(cp as real) == cp;
  }

  // ---- geodetic coordinates (section 6 of TS 23.032) ----------------------

  const LATITUDE_STEP: real := 90.0 / 8388608.0      // 90 / 2^23 degrees
  const LONGITUDE_STEP: real := 360.0 / 16777216.0   // 360 / 2^24 degrees

  type Sign = s: int | 0 <= s < 256

  function Magnitude(x: real): real {
    if x < 0.0 then -x else x
  }

  function EncodeLatitude(lat: real): (r: (Sign, U32))
    ensures r.0 <= 1 && r.1 <= 8388607
  {
    var n := (Magnitude(lat) / 90.0 * 8388608.0).Floor;
    (if lat < 0.0 then 1 else 0, if n > 8388607 then 8388607 else n)
  }

  function DecodeLatitude(sign: Sign, raw: U32): real {
    var lat := raw as real * 90.0 / 8388608.0;
    if sign == 1 then -lat else lat
  }

  function EncodeLongitude(lon: real): (r: I32)
    ensures -8388608 <= r <= 8388607
  {
    var n := (lon / 360.0 * 16777216.0).Floor;
    if n > 8388607 then 8388607 else if n < -8388608 then -8388608 else n
  }

  function DecodeLongitude(raw: I32): real {
    raw as real * 360.0 / 16777216.0
  }

  /** A wire latitude re-encodes to itself exactly when it is in range and is not
      a southern zero (which decodes to zero and re-encodes as north) or an
      undefined sign (which decodes as north). */
  lemma LatitudeWireRoundTrip(sign: Sign, raw: U32)
    ensures EncodeLatitude(DecodeLatitude(sign, raw)) == (sign, raw)
       <==> raw <= 8388607 && (sign == 0 || (sign == 1 && raw > 0))
  {
    var lat := DecodeLatitude(sign, raw);
    assert Magnitude(lat) / 90.0 * 8388608.0 == raw as real;
    assert (raw as real).Floor == raw;
  }

  /** Latitudes lose less than one step toward the equator (a whole step only at
      the clamped pole). */
  lemma LatitudeError(lat: real)
    requires -90.0 <= lat <= 90.0
    ensures var (sign, raw) := EncodeLatitude(lat);
            var back := DecodeLatitude(sign, raw);
            && (lat >= 0.0 ==> back >= 0.0) && (lat <= 0.0 ==> back <= 0.0)
            && 0.0 <= Magnitude(lat) - Magnitude(back) <= LATITUDE_STEP
            && (Magnitude(lat) < 90.0 ==> Magnitude(lat) - Magnitude(back) < LATITUDE_STEP)
  {
    var x := Magnitude(lat) / 90.0 * 8388608.0;
    assert x.Floor as real <= x < x.Floor as real + 1.0;
  }

  lemma LongitudeWireRoundTrip(raw: I32)
    ensures EncodeLongitude(DecodeLongitude(raw)) == raw <==> -8388608 <= raw <= 8388607
  {
    assert DecodeLongitude(raw) / 360.0 * 16777216.0 == raw as real;
    assert (raw as real).Floor == raw;
  }

  /** Longitudes are floored, also west of Greenwich: the error is in [0, step)
      exactly for -180 <= lon < 180. */
  lemma LongitudeError(lon: real)
    ensures 0.0 <= lon - DecodeLongitude(EncodeLongitude(lon)) < LONGITUDE_STEP <==> -180.0 <= lon < 180.0
  {
    var x := lon / 360.0 * 16777216.0;
    assert x.Floor as real <= x < x.Floor as real + 1.0;
  }
}
