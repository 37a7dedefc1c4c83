/**
 SUCI Profile A concealment and deconcealment (Annex C.3 of TS 33.501).

 AES, SHA-256, HMAC-SHA-256 and X25519 are parameters, constrained only by their
 output lengths and the commutativity of the key agreement.
 */
module Suci {
  import opened Wrappers
  import opened Bits
  import opened Arith
  import opened Bcd

  datatype Primitives = Primitives(
    aes: (Bytes, Bytes) -> Bytes,            // key, block
    sha256: Bytes -> Bytes,
    hmac: (Bytes, Bytes) -> Bytes,           // key, data
    x25519: (Bytes, Bytes) -> Option<Bytes>) // scalar, point; None on a low-order point

  const BASEPOINT: Bytes := [9] + seq(31, i => 0)

  ghost predicate Lengths(p: Primitives) {
    && (forall k, b :: |p.aes(k, b)| == |b|)
    && (forall d :: |p.sha256(d)| == 32)
    && (forall k, d :: |p.hmac(k, d)| == 32)
    && (forall k, q :: p.x25519(k, q).Some? ==> |p.x25519(k, q).value| == 32)
  }

  /** Both sides of the key agreement derive the same secret. */
  ghost predicate Agreement(p: Primitives) {
    forall a, b :: p.x25519(a, BASEPOINT).Some? && p.x25519(b, BASEPOINT).Some? ==>
                     p.x25519(a, p.x25519(b, BASEPOINT).value) == p.x25519(b, p.x25519(a, BASEPOINT).value)
  }

  // ---- counter ------------------------------------------------------------

  function Pow256(n: nat): (r: nat)
    ensures r >= 1
  {
    if n == 0 then 1 else 256 * Pow256(n - 1)
  }

  /** Big-endian value */
  function Value(c: Bytes): nat {
    if c == [] then 0 else Value(c[..|c| - 1]) * 256 + c[|c| - 1] as int
  }

  /** The counter after one increment: carry from the right, wrap at the left */
  function Inc(c: Bytes): (r: Bytes)
    ensures |r| == |c|
  {
    if c == [] then []
    else
      var n := |c| - 1;
      if c[n] == 255 then Inc(c[..n]) + [0] else c[..n] + [c[n] + 1]
  }

  /** Where the carry stops: r is c incremented when the octets after j go from
      255 to 0, octet j (if any) grows by one and those before it stay. */
  lemma {:induction false} IncCarry(c: Bytes, j: int, r: Bytes)
    requires |r| == |c| && -1 <= j < |c|
    requires forall k | 0 <= k < j :: r[k] == c[k]
    requires j >= 0 ==> c[j] < 255 && r[j] as int == c[j] as int + 1
    requires forall k | j < k < |c| :: c[k] == 255 && r[k] == 0
    ensures Inc(c) == r
  {
    if c != [] {
      var n := |c| - 1;
      assert r == r[..n] + [r[n]];
      if j == n {
        assert r[..n] == c[..n];
      } else {
        IncCarry(c[..n], j, r[..n]);
      }
    }
  }

  lemma {:induction false} ValueBound(c: Bytes)
    ensures Value(c) < Pow256(|c|)
  {
    if c != [] { ValueBound(c[..|c| - 1]); }
  }

  lemma {:induction false} IncValue(c: Bytes)
    ensures Value(Inc(c)) == if Value(c) + 1 == Pow256(|c|) then 0 else Value(c) + 1
  {
    ValueBound(c);
    if c != [] {
      var n := |c| - 1;
      ValueBound(c[..n]);
      IncValue(c[..n]);
      assert c[n] == 255 ==> Inc(c)[..n] == Inc(c[..n]);
      assert c[n] != 255 ==> Inc(c)[..n] == c[..n];
    }
  }

  function CounterAt(iv: Bytes, n: nat): (c: Bytes)
    ensures |c| == |iv|
  {
    if n == 0 then iv else Inc(CounterAt(iv, n - 1))
  }

  /** Block n is encrypted under iv + n modulo 256^|iv|. */
  lemma {:induction false} CounterValue(iv: Bytes, n: nat)
    ensures Value(CounterAt(iv, n)) == (Value(iv) + n) % Pow256(|iv|)
  {
    ValueBound(iv);
    var m := Pow256(|iv|);
    if n == 0 {
      ModSmall(Value(iv), m);
    } else {
      CounterValue(iv, n - 1);
      IncValue(CounterAt(iv, n - 1));
      ModSucc(Value(iv) + n - 1, m);
    }
  }

  // ---- CTR keystream ------------------------------------------------------

  function KeyByte(p: Primitives, key: Bytes, iv: Bytes, j: nat): Byte
    requires Lengths(p) && |iv| == 16
  {
    p.aes(key, CounterAt(iv, j / 16))[j % 16]
  }

  /** src XORed with the keystream from position `from` on */
  function Ctr(p: Primitives, key: Bytes, iv: Bytes, from: nat, src: Bytes): (dst: Bytes)
    requires Lengths(p) && |iv| == 16
    ensures |dst| == |src|
  {
    seq(|src|, i requires 0 <= i < |src| => XorByte(src[i], KeyByte(p, key, iv, from + i)))
  }

  /** The result does not depend on how the input is split into calls. */
  lemma CtrSplit(p: Primitives, key: Bytes, iv: Bytes, from: nat, a: Bytes, b: Bytes)
    requires Lengths(p) && |iv| == 16
    ensures Ctr(p, key, iv, from, a + b) == Ctr(p, key, iv, from, a) + Ctr(p, key, iv, from + |a|, b)
  {
    hide KeyByte, XorByte;
  }

  lemma CtrTwice(p: Primitives, key: Bytes, iv: Bytes, from: nat, src: Bytes)
    requires Lengths(p) && |iv| == 16
    ensures Ctr(p, key, iv, from, Ctr(p, key, iv, from, src)) == src
  {
    forall i | 0 <= i < |src| ensures Ctr(p, key, iv, from, Ctr(p, key, iv, from, src))[i] == src[i] {
      XorTwice(src[i], KeyByte(p, key, iv, from + i));
    }
  }

  /** Octet i of the output, at keystream position j: the input octet XORed with
      octet j mod 16 of the cipher of the counter that stands j div 16 after iv. */
  lemma CtrOctet(p: Primitives, key: Bytes, iv: Bytes, from: nat, src: Bytes, i: nat) returns (counter: Bytes)
    requires Lengths(p) && |iv| == 16 && i < |src|
    ensures |counter| == 16 && Value(counter) == (Value(iv) + (from + i) / 16) % Pow256(16)
    ensures Ctr(p, key, iv, from, src)[i] == XorByte(src[i], p.aes(key, counter)[(from + i) % 16])
  {
    hide XorByte, Value, Pow256, CounterAt;
    var j := from + i;
    counter := CounterAt(iv, j / 16);
    CounterValue(iv, j / 16);
  }

  class CtrStream {
    const p: Primitives
    const key: Bytes
    ghost const iv: Bytes
    var counter: Bytes
    var keystream: Bytes
    ghost var blocks: nat   // blocks generated so far

    ghost predicate Valid()
      reads this
    {
      && Lengths(p) && |iv| == 16 && |keystream| <= 15
      && counter == CounterAt(iv, blocks)
      && (keystream != [] ==>
            blocks > 0 && keystream == p.aes(key, CounterAt(iv, blocks - 1))[16 - |keystream|..])
    }

    /** Keystream octets consumed so far */
    ghost function Used(): int
      reads this
    {
      16 * blocks - |keystream|
    }

    constructor (p: Primitives, key: Bytes, iv: Bytes)
      requires Lengths(p) && |iv| == 16
      ensures Valid() && Used() == 0 && this.p == p && this.key == key && this.iv == iv
    {
      this.p := p;
      this.key := key;
      this.iv := iv;
      counter := iv;
      keystream := [];
      blocks := 0;
    }

    method IncrementCounter()
      modifies this`counter
      ensures counter == Inc(old(counter))
    {
      var j := |counter| - 1;
      while j >= 0
        invariant -1 <= j < |counter| == |old(counter)|
        invariant forall k | 0 <= k <= j :: counter[k] == old(counter)[k]
        invariant forall k | j < k < |counter| :: old(counter)[k] == 255 && counter[k] == 0
      {
        counter := counter[j := (counter[j] as int + 1) % 256];
        if counter[j] != 0 {
          break;
        }
        j := j - 1;
      }
      IncCarry(old(counter), j, counter);
    }

    /** The next keystream octet, from a new block when the last one is used up */
    method NextOctet() returns (k: Byte)
      requires Valid()
      modifies this
      ensures Valid() && Used() == old(Used()) + 1
      ensures old(Used()) >= 0 && k == KeyByte(p, key, iv, old(Used()))
    {
      hide Inc;
      var ks := keystream;
      if |ks| == 0 {
        ks := p.aes(key, counter);
        IncrementCounter();
        blocks := blocks + 1;
      }
      PositionInBlock(old(Used()), blocks, |ks|);
      k := ks[0];
      keystream := ks[1..];
    }

    method XORKeyStream(dst: array<Byte>, src: Bytes)
      requires Valid() && dst.Length >= |src|
      modifies this, dst
      ensures Valid() && Used() == old(Used()) + |src|
      ensures old(Used()) >= 0 && dst[..|src|] == Ctr(p, key, iv, old(Used()), src)
      ensures dst[|src|..] == old(dst[|src|..])
    {
      hide Valid, KeyByte, XorByte;
      ghost var start := Used();
      UsedBound();
      for i := 0 to |src|
        invariant Valid() && Used() == start + i
        invariant forall k | 0 <= k < i :: dst[k] == XorByte(src[k], KeyByte(p, key, iv, start + k))
        invariant dst[|src|..] == old(dst[|src|..])
      {
        var k := NextOctet();
        dst[i] := XorByte(src[i], k);
      }
    }

    lemma UsedBound()
      requires Valid()
      ensures Used() >= 0 && Lengths(p) && |iv| == 16
    {
    }
  }

  lemma PositionInBlock(j: int, blocks: nat, left: nat)
    requires 1 <= left <= 16 && j == 16 * blocks - left && blocks >= 1
    ensures j >= 0 && j / 16 == blocks - 1 && j % 16 == 16 - left
  {
  }

  // ---- key derivation -----------------------------------------------------

  function CounterOctets(n: nat): Bytes {
    [n / 0x100_0000 % 256, n / 0x1_0000 % 256, n / 0x100 % 256, n % 256]
  }

  function Expand(p: Primitives, secret: Bytes, info: Bytes, blocks: nat): (out: Bytes)
    requires Lengths(p)
    ensures |out| == 32 * blocks
  {
    if blocks == 0 then []
    else Expand(p, secret, info, blocks - 1) + p.sha256(secret + CounterOctets(blocks) + info)
  }

  /** Block i of the expansion hashes the secret, a big-endian counter of four
      octets that starts at one, and the other party's data. */
  lemma {:induction false} ExpandBlock(p: Primitives, secret: Bytes, info: Bytes, blocks: nat, i: nat)
    returns (counter: Bytes)
    requires Lengths(p) && i < blocks && i + 1 < 0x1_0000_0000
    ensures |counter| == 4 && Value(counter) == i + 1
    ensures Expand(p, secret, info, blocks)[32 * i..32 * i + 32] == p.sha256(secret + counter + info)
    decreases blocks
  {
    if i == blocks - 1 {
      counter := CounterOctets(blocks);
      CounterOctetsValue(blocks);
      assert Expand(p, secret, info, blocks)[32 * i..32 * i + 32] == p.sha256(secret + counter + info);
    } else {
      counter := ExpandBlock(p, secret, info, blocks - 1, i);
      var out, front := Expand(p, secret, info, blocks), Expand(p, secret, info, blocks - 1);
      assert out[..|front|] == front;
      assert out[32 * i..32 * i + 32] == front[32 * i..32 * i + 32];
    }
  }

  lemma CounterOctetsValue(n: nat)
    requires n < 0x1_0000_0000
    ensures Value(CounterOctets(n)) == n
  {
    var a, b := n / 0x1_0000, n % 0x1_0000;
    assert n == a * 0x1_0000 + b;
    assert n / 0x100_0000 % 256 == a / 256 && n / 0x1_0000 % 256 == a % 256;
    assert n / 0x100 % 256 == b / 256 && n % 256 == b % 256;
    var c := CounterOctets(n);
    hide CounterOctets;
    assert c[..3] == [c[0], c[1], c[2]] && c[..3][..2] == [c[0], c[1]] && c[..3][..2][..1] == [c[0]];
    assert Value(c[..3][..2][..1]) == c[0] as int;
    assert Value(c[..3][..2]) == c[0] as int * 256 + c[1] as int;
    assert Value(c[..3]) == (c[0] as int * 256 + c[1] as int) * 256 + c[2] as int;
  }

  method EciesKDF(p: Primitives, secret: Bytes, info: Bytes, encLen: nat, macLen: nat)
    returns (encKey: Bytes, macKey: Bytes)
    requires Lengths(p)
    ensures |encKey| == encLen && |macKey| == macLen
    ensures encKey + macKey == Expand(p, secret, info, (encLen + macLen + 31) / 32)[..encLen + macLen]
  {
    hide CounterOctets;
    var total := encLen + macLen;
    var out: Bytes := [];
    var counter := 1;
    while |out| < total
      invariant counter >= 1 && |out| == 32 * (counter - 1)
      invariant counter - 1 <= (total + 31) / 32
      invariant out == Expand(p, secret, info, counter - 1)
      decreases total - |out|
    {
      var ctr := CounterOctets(counter);
      out := out + p.sha256(secret + ctr + info);
      counter := counter + 1;
    }
    encKey, macKey := out[..encLen], out[encLen..encLen + macLen];
    assert out[..total] == encKey + macKey;
  }

  // ---- Profile A ----------------------------------------------------------

  const PROFILE_A: Byte := 1

  datatype Suci = Suci(
    supiFormat: Byte, mcc: string, mnc: string, protectionScheme: Byte, keyId: Byte, schemeOutput: Bytes)

  datatype Disclosed = Disclosed(msin: string, supi: string)

  datatype Keys = Keys(enc: Bytes, iv: Bytes, mac: Bytes)

  /** encKey | IV | macKey, 16 + 16 + 32 octets of the expansion */
  function DeriveKeys(p: Primitives, secret: Bytes, ephPub: Bytes): (k: Keys)
    requires Lengths(p)
    ensures |k.enc| == 16 && |k.iv| == 16 && |k.mac| == 32
  {
    var out := Expand(p, secret, ephPub, 2);
    Keys(out[..16], out[16..32], out[32..64])
  }

  /** The keys in terms of the hash: cipher key and IV share the first block, the
      MAC key is the second. */
  lemma KeyMaterial(p: Primitives, secret: Bytes, ephPub: Bytes)
    requires Lengths(p)
    ensures var k := DeriveKeys(p, secret, ephPub);
            && k.enc + k.iv == p.sha256(secret + [0, 0, 0, 1] + ephPub)
            && k.mac == p.sha256(secret + [0, 0, 0, 2] + ephPub)
  {
    var out, one := Expand(p, secret, ephPub, 2), Expand(p, secret, ephPub, 1);
    assert CounterOctets(1) == [0, 0, 0, 1] && CounterOctets(2) == [0, 0, 0, 2];
    assert Expand(p, secret, ephPub, 0) == [];
    assert one == p.sha256(secret + [0, 0, 0, 1] + ephPub);
    assert out == one + p.sha256(secret + [0, 0, 0, 2] + ephPub);
    assert out[..32] == one && out[..16] + out[16..32] == out[..32];
  }

  function Tag(p: Primitives, key: Bytes, data: Bytes): (t: Bytes)
    requires Lengths(p)
    ensures |t| == 8
  {
    p.hmac(key, data)[..8]
  }

  function BuildSupi(s: Suci, msin: string): string {
    if s.supiFormat == 0 then "imsi-" + s.mcc + s.mnc + msin else msin
  }

  function Encrypted(p: Primitives, ephPriv: Bytes, msin: string, homePub: Bytes, keyId: Byte): Result<Suci>
    requires Lengths(p)
  {
    match (p.x25519(ephPriv, BASEPOINT), p.x25519(ephPriv, homePub))
    case (Some(ephPub), Some(secret)) =>
      var k := DeriveKeys(p, secret, ephPub);
      var ciphertext := Ctr(p, k.enc, k.iv, 0, BcdOctets(msin));
      Ok(Suci(0, "", "", PROFILE_A, keyId, ephPub + ciphertext + Tag(p, k.mac, ciphertext)))
    case _ => Err
  }

  function Deconcealed(p: Primitives, s: Suci, homePriv: Bytes): Result<Disclosed>
    requires Lengths(p)
  {
    var n := |s.schemeOutput|;
    if s.protectionScheme != PROFILE_A || n < 40 then Err
    else
      var ephPub, ciphertext, mac := s.schemeOutput[..32], s.schemeOutput[32..n - 8], s.schemeOutput[n - 8..];
      match p.x25519(homePriv, ephPub)
      case None => Err
      case Some(secret) =>
        var k := DeriveKeys(p, secret, ephPub);
        if mac != Tag(p, k.mac, ciphertext) then Err
        else
          var msin := BcdDigits(Ctr(p, k.enc, k.iv, 0, ciphertext));
          Ok(Disclosed(msin, BuildSupi(s, msin)))
  }

  /** The octets of a concealed identity: ephemeral public key, BCD digits
      enciphered under the derived key and IV, and a MAC of eight octets over the
      ciphertext.  There is one exactly when both key agreements succeed. */
  lemma ConcealedOctets(p: Primitives, ephPriv: Bytes, msin: string, homePub: Bytes, keyId: Byte)
    requires Lengths(p)
    ensures Encrypted(p, ephPriv, msin, homePub, keyId).Ok? <==>
              p.x25519(ephPriv, [9] + ZeroOctets(31)).Some? && p.x25519(ephPriv, homePub).Some?
    ensures Encrypted(p, ephPriv, msin, homePub, keyId).Ok? ==>
              var s := Encrypted(p, ephPriv, msin, homePub, keyId).value;
              var ephPub, secret := p.x25519(ephPriv, [9] + ZeroOctets(31)).value, p.x25519(ephPriv, homePub).value;
              var first := p.sha256(secret + [0, 0, 0, 1] + ephPub);
              var macKey := p.sha256(secret + [0, 0, 0, 2] + ephPub);
              var ciphertext := Ctr(p, first[..16], first[16..], 0, BcdOctets(msin));
              && s.protectionScheme == 1 && s.keyId == keyId && s.supiFormat == 0 && s.mcc == s.mnc == ""
              && s.schemeOutput == ephPub + ciphertext + p.hmac(macKey, ciphertext)[..8]
  {
    hide DeriveKeys, Ctr, BcdOctets;
    assert BASEPOINT == [9] + ZeroOctets(31);
    if Encrypted(p, ephPriv, msin, homePub, keyId).Ok? {
      KeyMaterial(p, p.x25519(ephPriv, homePub).value, p.x25519(ephPriv, BASEPOINT).value);
    }
  }

  /** The MAC the home network expects behind this scheme output, if it has one */
  function ExpectedMac(p: Primitives, secret: Bytes, out: Bytes): Bytes
    requires Lengths(p) && |out| >= 40
  {
    p.hmac(p.sha256(secret + [0, 0, 0, 2] + out[..32]), out[32..|out| - 8])[..8]
  }

  /** Exactly which concealed identities are disclosed: Profile A, room for key and
      MAC, a key agreement, and the MAC of the ciphertext.  What is disclosed is
      the deciphered MSIN and the SUPI built from it. */
  lemma DeconcealOutcome(p: Primitives, s: Suci, homePriv: Bytes)
    requires Lengths(p)
    ensures Deconcealed(p, s, homePriv).Ok? <==>
              && s.protectionScheme == 1 && |s.schemeOutput| >= 40
              && var secret := p.x25519(homePriv, s.schemeOutput[..32]);
              && secret.Some? && s.schemeOutput[|s.schemeOutput| - 8..] == ExpectedMac(p, secret.value, s.schemeOutput)
    ensures Deconcealed(p, s, homePriv).Ok? ==>
              var out, d := s.schemeOutput, Deconcealed(p, s, homePriv).value;
              var first := p.sha256(p.x25519(homePriv, out[..32]).value + [0, 0, 0, 1] + out[..32]);
              && d.msin == BcdDigits(Ctr(p, first[..16], first[16..], 0, out[32..|out| - 8]))
              && d.supi == if s.supiFormat == 0 then "imsi-" + s.mcc + s.mnc + d.msin else d.msin
  {
    hide DeriveKeys, Ctr, BcdDigits;
    if s.protectionScheme == 1 && |s.schemeOutput| >= 40 {
      var ephPub := s.schemeOutput[..32];
      if p.x25519(homePriv, ephPub).Some? { KeyMaterial(p, p.x25519(homePriv, ephPub).value, ephPub); }
    }
  }

  /** What the home network reads from a concealed identity, whatever format and
      network codes it travels under: the MAC always passes and the MSIN comes back
      through the BCD coding. */
  lemma DeconcealEncrypted(p: Primitives, ephPriv: Bytes, homePriv: Bytes, msin: string, keyId: Byte,
                           format: Byte, mcc: string, mnc: string)
    requires Lengths(p) && Agreement(p)
    requires p.x25519(homePriv, BASEPOINT).Some?
    requires Encrypted(p, ephPriv, msin, p.x25519(homePriv, BASEPOINT).value, keyId).Ok?
    ensures var s := Encrypted(p, ephPriv, msin, p.x25519(homePriv, BASEPOINT).value, keyId).value
                       .(supiFormat := format, mcc := mcc, mnc := mnc);
            var back := BcdDigits(BcdOctets(msin));
            Deconcealed(p, s, homePriv) == Ok(Disclosed(back, if format == 0 then "imsi-" + mcc + mnc + back else back))
  {
    hide DeriveKeys, Ctr, Tag, BcdDigits, BcdOctets;
    var homePub := p.x25519(homePriv, BASEPOINT).value;
    var ephPub := p.x25519(ephPriv, BASEPOINT).value;
    var secret := p.x25519(ephPriv, homePub).value;
    var k := DeriveKeys(p, secret, ephPub);
    var plain := BcdOctets(msin);
    var ciphertext := Ctr(p, k.enc, k.iv, 0, plain);
    var tag := Tag(p, k.mac, ciphertext);
    var out := ephPub + ciphertext + tag;
    assert out[..32] == ephPub && out[32..|out| - 8] == ciphertext && out[|out| - 8..] == tag;
    assert p.x25519(homePriv, ephPub) == Some(secret);
    CtrTwice(p, k.enc, k.iv, 0, plain);
  }

  /** Deconcealment returns the concealed MSIN, and the SUPI of the network codes it
      travels under, exactly when BCD can carry the MSIN, hence for every decimal
      MSIN and every pair of key pairs. */
  lemma ProfileARoundTrip(p: Primitives, ephPriv: Bytes, homePriv: Bytes, msin: string, keyId: Byte,
                          format: Byte, mcc: string, mnc: string)
    requires Lengths(p) && Agreement(p)
    requires p.x25519(homePriv, BASEPOINT).Some?
    requires Encrypted(p, ephPriv, msin, p.x25519(homePriv, BASEPOINT).value, keyId).Ok?
    ensures var s := Encrypted(p, ephPriv, msin, p.x25519(homePriv, BASEPOINT).value, keyId).value
                       .(supiFormat := format, mcc := mcc, mnc := mnc);
            Deconcealed(p, s, homePriv)
            == Ok(if format == 0 then Disclosed(msin, "imsi-" + mcc + mnc + msin) else Disclosed(msin, msin))
            <==> BcdOk(msin)
  {
    hide Deconcealed, BcdDigits, BcdOctets, BcdOk;
    DeconcealEncrypted(p, ephPriv, homePriv, msin, keyId, format, mcc, mnc);
    BcdRoundTrip(msin);
  }

  method AesCtr(p: Primitives, key: Bytes, iv: Bytes, input: Bytes) returns (out: Bytes)
    requires Lengths(p) && |iv| == 16
    ensures out == Ctr(p, key, iv, 0, input)
  {
    var buf := new Byte[|input|];
    var ctr := new CtrStream(p, key, iv);
    ctr.XORKeyStream(buf, input);
    assert buf[..|input|] == buf[..];
    out := buf[..];
  }

  method KeysFor(p: Primitives, secret: Bytes, ephPub: Bytes) returns (k: Keys)
    requires Lengths(p)
    ensures k == DeriveKeys(p, secret, ephPub)
  {
    hide Expand;
    var encKey, ivAndMacKey := EciesKDF(p, secret, ephPub, 16, 48);
    ghost var out := Expand(p, secret, ephPub, 2);
    assert out[..64] == out && encKey == out[..16] && ivAndMacKey == out[16..];
    k := Keys(encKey, ivAndMacKey[..16], ivAndMacKey[16..]);
  }

  /** ephPriv is the random scalar the code draws. */
  method EncryptProfileA(p: Primitives, ephPriv: Bytes, msin: string, homePub: Bytes, keyId: Byte)
    returns (r: Result<Suci>)
    requires Lengths(p)
    ensures r == Encrypted(p, ephPriv, msin, homePub, keyId)
  {
    hide DeriveKeys, Ctr, BcdOctets;
    var ephPub := p.x25519(ephPriv, BASEPOINT);
    if ephPub.None? {
      return Err;
    }
    var secret := p.x25519(ephPriv, homePub);
    if secret.None? {
      return Err;
    }
    var k := KeysFor(p, secret.value, ephPub.value);
    var plain := EncodeBCDLowNibbleFirst(msin);
    var ciphertext := AesCtr(p, k.enc, k.iv, plain);
    var mac := Tag(p, k.mac, ciphertext);
    var schemeOutput := ephPub.value + ciphertext;
    schemeOutput := schemeOutput + mac;
    return Ok(Suci(0, "", "", PROFILE_A, keyId, schemeOutput));
  }

  method DeconcealProfileA(p: Primitives, s: Suci, homePriv: Bytes) returns (r: Result<Disclosed>)
    requires Lengths(p)
    ensures r == Deconcealed(p, s, homePriv)
  {
    hide DeriveKeys, Ctr, BcdDigits;
    if s.protectionScheme != PROFILE_A {
      return Err;
    }
    var n := |s.schemeOutput|;
    if n < 32 + 8 {
      return Err;
    }
    var ephPub, ciphertext, mac := s.schemeOutput[..32], s.schemeOutput[32..n - 8], s.schemeOutput[n - 8..];
    var secret := p.x25519(homePriv, ephPub);
    if secret.None? {
      return Err;
    }
    var k := KeysFor(p, secret.value, ephPub);
    var expected := Tag(p, k.mac, ciphertext);
    if mac != expected {
      return Err;
    }
    var plain := AesCtr(p, k.enc, k.iv, ciphertext);
    var msin := DecodeBCDLowNibbleFirst(plain);
    return Ok(Disclosed(msin, BuildSupi(s, msin)));
  }
}
