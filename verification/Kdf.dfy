/** The KDF input string S = FC || P0 || L0 || P1 || L1 ... (Annex B.2 of TS 33.220). */
module Kdf {
  import opened Wrappers
  import opened Bits

  /** 2-octet length, truncated to 16 bits */
  function LengthOctets(p: seq<Byte>): seq<Byte> {
    [|p| / 256 % 256, |p| % 256]
  }

  function InputString(fc: Byte, params: seq<seq<Byte>>): (s: seq<Byte>)
    ensures |s| >= 1 + 2 * |params|
  {
    if params == [] then [fc]
    else
      var last := params[|params| - 1];
      InputString(fc, params[..|params| - 1]) + last + LengthOctets(last)
  }

  /** The function code stands first; each further parameter is followed by its
      length in two octets, the more significant first and cut to sixteen bits. */
  lemma ParameterAppended(fc: Byte, params: seq<seq<Byte>>, p: seq<Byte>) returns (hi: Byte, lo: Byte)
    ensures InputString(fc, []) == [fc]
    ensures InputString(fc, params + [p]) == InputString(fc, params) + p + [hi, lo]
    ensures hi as int * 256 + lo as int == |p| % 0x1_0000
  {
    hi, lo := |p| / 256 % 256, |p| % 256;
    assert (params + [p])[..|params|] == params;
    var q := |p| / 256;
    assert |p| == q * 256 + |p| % 256 && q == q / 256 * 256 + q % 256;
  }

  /** Reads the string from the right, where each length precedes its value. */
  function Parse(s: seq<Byte>): Option<(Byte, seq<seq<Byte>>)> {
    if s == [] then None
    else if |s| == 1 then Some((s[0], []))
    else
      var n := BE16(s[|s| - 2], s[|s| - 1]);
      if n + 2 >= |s| then None
      else
        var end := |s| - 2;
        match Parse(s[..end - n])
        case None => None
        case Some((fc, ps)) => Some((fc, ps + [s[end - n..end]]))
  }

  predicate Short(params: seq<seq<Byte>>) {
    forall i | 0 <= i < |params| :: |params[i]| < 0x1_0000
  }

  /** The string determines the function code and the whole parameter list. */
  lemma {:induction false} ParseInverts(fc: Byte, params: seq<seq<Byte>>)
    requires Short(params)
    ensures Parse(InputString(fc, params)) == Some((fc, params))
    decreases |params|
  {
    if params != [] {
      hide Parse, LengthOctets;
      var n := |params| - 1;
      ParseInverts(fc, params[..n]);
      ParseSnoc(InputString(fc, params[..n]), params[n]);
      assert params[..n] + [params[n]] == params;
    }
  }

  lemma ParseSnoc(front: seq<Byte>, last: seq<Byte>)
    requires front != [] && |last| < 0x1_0000 && Parse(front).Some?
    ensures var (fc, ps) := Parse(front).value;
            Parse(front + last + LengthOctets(last)) == Some((fc, ps + [last]))
  {
    hide Parse, BE16;
    LastParameter(front, last);
    ParseStep(front + last + LengthOctets(last), |last|);
  }

  lemma ParseStep(s: seq<Byte>, n: nat)
    requires |s| > 1 && n == BE16(s[|s| - 2], s[|s| - 1]) && n + 2 < |s|
    requires Parse(s[..|s| - 2 - n]).Some?
    ensures var (fc, ps) := Parse(s[..|s| - 2 - n]).value;
            Parse(s) == Some((fc, ps + [s[|s| - 2 - n..|s| - 2]]))
  {
    hide BE16;
  }

  lemma LastParameter(front: seq<Byte>, last: seq<Byte>)
    requires |last| < 0x1_0000
    ensures var s := front + last + LengthOctets(last);
            var end := |s| - 2;
            && BE16(s[end], s[end + 1]) == |last|
            && s[..end - |last|] == front && s[end - |last|..end] == last
  {
  }

  lemma InputStringInjective(fc: Byte, ps: seq<seq<Byte>>, fc': Byte, ps': seq<seq<Byte>>)
    requires Short(ps) && Short(ps')
    requires InputString(fc, ps) == InputString(fc', ps')
    ensures fc == fc' && ps == ps'
  {
    ParseInverts(fc, ps);
    ParseInverts(fc', ps');
  }

  // ---- the bound is needed ------------------------------------------------

  function Empties(n: nat): (ps: seq<seq<Byte>>)
    ensures |ps| == n
  {
    seq(n, i => [])
  }

  lemma {:induction false} EmptiesString(fc: Byte, n: nat)
    ensures InputString(fc, Empties(n)) == [fc] + ZeroOctets(2 * n)
  {
    if n == 0 {
      assert Empties(0) == [];
    } else {
      EmptiesString(fc, n - 1);
      assert Empties(n)[..n - 1] == Empties(n - 1) && Empties(n)[n - 1] == [];
      assert [fc] + ZeroOctets(2 * (n - 1)) + [] + [0, 0] == [fc] + ZeroOctets(2 * n);
    }
  }

  /** Truncated lengths collide: one parameter of 65536 zero octets gives the
      string of 32769 empty parameters. */
  lemma LongParameterCollides(fc: Byte)
    ensures [ZeroOctets(0x1_0000)] != Empties(32769)
    ensures InputString(fc, [ZeroOctets(0x1_0000)]) == InputString(fc, Empties(32769))
  {
    EmptiesString(fc, 32769);
    var z := ZeroOctets(0x1_0000);
    var one: seq<seq<Byte>> := [z];
    assert one[..0] == [];
    assert InputString(fc, one) == [fc] + z + [0, 0] == [fc] + ZeroOctets(2 * 32769);
  }

  // ---- the code -----------------------------------------------------------

  method BuildS(fc: Byte, params: seq<seq<Byte>>) returns (s: seq<Byte>)
    ensures s == InputString(fc, params)
  {
    s := [fc];
    for i := 0 to |params|
      invariant s == InputString(fc, params[..i])
    {
      var p := params[i];
      assert params[..i + 1][..i] == params[..i];
      s := s + p;
      var l := [|p| / 256 % 256, |p| % 256];
      s := s + l;
    }
    assert params[..|params|] == params;
  }
}
