/** The byte cursor shared by the NAS decoders. */
module NasReader {
  import opened Bits

  /** ReadByte: zero, and an unmoved cursor, at the end of the data */
  function TakeByte(s: seq<Byte>): (Byte, seq<Byte>) {
    if s == [] then (0, s) else (s[0], s[1..])
  }

  /** ReadBytes: nil, and an unmoved cursor, when fewer than n octets are left */
  function TakeBytes(s: seq<Byte>, n: nat): (seq<Byte>, seq<Byte>) {
    if n > |s| then ([], s) else (s[..n], s[n..])
  }

  /** One length-value element after its IEI, with a one-octet length */
  function TakeLv(s: seq<Byte>): (seq<Byte>, seq<Byte>) {
    var (l, t) := TakeByte(s);
    TakeBytes(t, l)
  }

  /** The same with a two-octet length */
  function TakeLvE(s: seq<Byte>): (seq<Byte>, seq<Byte>) {
    var (hi, t) := TakeByte(s);
    var (lo, u) := TakeByte(t);
    TakeBytes(u, BE16(hi, lo))
  }

  // ---- what the element readers make of a header ---------------------------------

  /** The length a complete header of one or two octets states */
  function Announced(header: seq<Byte>): nat {
    if |header| == 2 then BE16(header[0], header[1]) else if |header| == 1 then header[0] else 0
  }

  /** No value stands behind this header of `size` octets: it is cut off by the end
      of the data, states zero, or states more than the k that follow. */
  predicate NoValue(header: seq<Byte>, size: nat, k: seq<Byte>) {
    if |header| < size then k == [] else |header| == size && (Announced(header) == 0 || Announced(header) > |k|)
  }

  lemma TakesLv(v: seq<Byte>, k: seq<Byte>)
    requires |v| <= 255
    ensures TakeLv([|v|] + v + k) == (v, k)
  {
    assert ([|v|] + v + k)[1..] == v + k;
    assert (v + k)[..|v|] == v && (v + k)[|v|..] == k;
  }

  lemma TakesLvE(v: seq<Byte>, k: seq<Byte>)
    requires |v| < 0x1_0000
    ensures TakeLvE([|v| / 256, |v| % 256] + v + k) == (v, k)
  {
    var s := [|v| / 256, |v| % 256] + v + k;
    assert s[1..] == [|v| % 256] + v + k;
    assert s[1..][1..] == v + k;
    assert (v + k)[..|v|] == v && (v + k)[|v|..] == k;
    assert BE16(|v| / 256, |v| % 256) == |v|;
  }

  /** Without a value the cursor stays behind the header. */
  lemma TakesNothing(header: seq<Byte>, k: seq<Byte>)
    ensures NoValue(header, 1, k) ==> TakeLv(header + k) == ([], k)
    ensures NoValue(header, 2, k) ==> TakeLvE(header + k) == ([], k)
  {
    hide BE16;
    var s := header + k;
    if |header| == 0 {
      assert s == k;
      assert NoValue(header, 2, k) ==> BE16(0, 0) == 0;
    } else if |header| == 1 {
      assert s[0] == header[0] && s[1..] == k;
    } else if |header| == 2 {
      assert s[0] == header[0] && s[1..] == [header[1]] + k && s[1..][1..] == k;
    }
  }

  class Reader {
    const data: seq<Byte>
    var pos: nat

    ghost predicate Valid()
      reads this
    {
      pos <= |data|
    }

    ghost function Rest(): seq<Byte>
      reads this
      requires Valid()
    {
      data[pos..]
    }

    constructor (b: seq<Byte>)
      ensures Valid() && Rest() == b
    {
      data := b;
      pos := 0;
    }

    function Len(): (n: nat)
      reads this
      requires Valid()
      ensures n == |Rest()|
    {
      |data| - pos
    }

    method ReadByte() returns (b: Byte, ok: bool)
      requires Valid()
      modifies this
      ensures Valid()
      ensures ok == (old(Rest()) != [])
      ensures if ok then old(Rest()) == [b] + Rest() else b == 0 && Rest() == old(Rest())
      ensures (b, Rest()) == TakeByte(old(Rest()))
    {
      if pos >= |data| {
        return 0, false;
      }
      b := data[pos];
      pos := pos + 1;
      ok := true;
    }

    method ReadBytes(n: nat) returns (bs: seq<Byte>, ok: bool)
      requires Valid()
      modifies this
      ensures Valid()
      ensures ok == (n <= |old(Rest())|)
      ensures if ok then |bs| == n && old(Rest()) == bs + Rest() else bs == [] && Rest() == old(Rest())
      ensures (bs, Rest()) == TakeBytes(old(Rest()), n)
    {
      if pos + n > |data| {
        return [], false;
      }
      bs := data[pos..pos + n];
      assert bs == data[pos..][..n] && data[pos + n..] == data[pos..][n..];
      pos := pos + n;
      ok := true;
    }
  }

  method ReadLv(r: Reader) returns (v: seq<Byte>)
    requires r.Valid()
    modifies r
    ensures r.Valid() && (v, r.Rest()) == TakeLv(old(r.Rest()))
  {
    var l, _ := r.ReadByte();
    var bs, _ := r.ReadBytes(l);
    return bs;
  }

  method ReadLvE(r: Reader) returns (v: seq<Byte>)
    requires r.Valid()
    modifies r
    ensures r.Valid() && (v, r.Rest()) == TakeLvE(old(r.Rest()))
  {
    var hi, _ := r.ReadByte();
    var lo, _ := r.ReadByte();
    var bs, _ := r.ReadBytes(BE16(hi, lo));
    return bs;
  }
}
