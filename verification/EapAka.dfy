/**
 EAP-AKA' packets (RFC 4187 sections 8.1 and 10.15): attribute lists, the walk
 that finds an attribute, and the AT_MAC written into a finished packet.

 HMAC-SHA-256 is a parameter: any function giving 32 octets.
 */
module EapAka {
  import opened Wrappers
  import opened Bits
  import opened Arith

  type Hmac = (seq<Byte>, seq<Byte>) -> seq<Byte>

  ghost predicate IsHmac(h: Hmac) {
    forall key, data :: |h(key, data)| == 32
  }

  const AT_RAND: Byte := 1
  const AT_AUTN: Byte := 2
  const AT_RES: Byte := 3
  const AT_MAC: Byte := 11
  const AT_KDF_INPUT: Byte := 23
  const AT_KDF: Byte := 24
  const CODE_REQUEST: Byte := 1
  const CODE_RESPONSE: Byte := 2

  // ---- attributes ---------------------------------------------------------

  datatype Attr = Attr(typ: Byte, value: seq<Byte>)

  function PadLen(a: Attr): nat {
    (4 - (2 + |a.value|) % 4) % 4
  }

  function Size(a: Attr): (n: nat)
    ensures n % 4 == 0 && n >= 4
  {
    2 + |a.value| + PadLen(a)
  }

  /** Length octet in units of four octets, truncated to eight bits */
  function Put(a: Attr): (b: seq<Byte>)
    ensures |b| == Size(a)
  {
    [a.typ, Size(a) / 4 % 256] + a.value + ZeroOctets(PadLen(a))
  }

  function PutAll(attrs: seq<Attr>): seq<Byte> {
    if attrs == [] then [] else Put(attrs[0]) + PutAll(attrs[1..])
  }

  /** The length octet can say it. */
  predicate Fits(a: Attr) {
    Size(a) <= 1020
  }

  predicate AllFit(attrs: seq<Attr>) {
    forall i | 0 <= i < |attrs| :: Fits(attrs[i])
  }

  /** Offset of the first attribute of a type, within the list */
  function OffsetOf(attrs: seq<Attr>, typ: Byte): Option<nat> {
    if attrs == [] then None
    else if attrs[0].typ == typ then Some(0)
    else
      match OffsetOf(attrs[1..], typ)
      case None => None
      case Some(n) => Some(Size(attrs[0]) + n)
  }

  function FindFrom(pkt: seq<Byte>, off: nat, typ: Byte): (r: Option<nat>)
    ensures r.Some? ==> off <= r.value && r.value + 4 <= |pkt| && pkt[r.value] == typ
    decreases |pkt| - off
  {
    if off + 2 > |pkt| then None
    else
      var aLen := pkt[off + 1] as int * 4;
      if aLen == 0 || off + aLen > |pkt| then None
      else if pkt[off] == typ then Some(off)
      else FindFrom(pkt, off + aLen, typ)
  }

  function Find(pkt: seq<Byte>, typ: Byte): Option<nat> {
    if |pkt| < 8 then None else FindFrom(pkt, 8, typ)
  }

  lemma PutHead(a: Attr)
    ensures Put(a)[0] == a.typ
    ensures Fits(a) ==> Put(a)[1] as int * 4 == Size(a)
  {
  }

  lemma FindStep(pre: seq<Byte>, a: Attr, rest: seq<Byte>, typ: Byte)
    requires Fits(a)
    ensures var pkt := pre + Put(a) + rest;
            FindFrom(pkt, |pre|, typ) == if a.typ == typ then Some(|pre|) else FindFrom(pkt, |pre| + Size(a), typ)
  {
    hide Put, Size;
    var pkt := pre + Put(a) + rest;
    PutHead(a);
    assert pkt[|pre|] == Put(a)[0] && pkt[|pre| + 1] == Put(a)[1];
  }

  /** Where the walk ends: no room for a header, a zero length, or a length beyond
      the packet */
  predicate Stops(b: seq<Byte>) {
    |b| < 2 || b[1] == 0 || b[1] as int * 4 > |b|
  }

  /** The walk lands on attribute boundaries, whatever the padding, and finds the
      first attribute of the type exactly when there is one before it must stop. */
  lemma {:induction false} FindInList(pre: seq<Byte>, attrs: seq<Attr>, tail: seq<Byte>, typ: Byte)
    requires AllFit(attrs) && Stops(tail)
    ensures FindFrom(pre + PutAll(attrs) + tail, |pre|, typ)
         == match OffsetOf(attrs, typ) case None => None case Some(n) => Some(|pre| + n)
    decreases |attrs|
  {
    hide Put, Size, FindFrom, Fits, Stops;
    if attrs == [] {
      assert pre + PutAll(attrs) + tail == pre + tail;
      StopsHere(pre, tail, typ);
    } else {
      var b, rest := Put(attrs[0]), PutAll(attrs[1..]);
      FindInList(pre + b, attrs[1..], tail, typ);
      FindStep(pre, attrs[0], rest + tail, typ);
      Regroup(pre, b, rest, tail);
    }
  }

  lemma Regroup(a: seq<Byte>, b: seq<Byte>, c: seq<Byte>, d: seq<Byte>)
    ensures a + (b + c) + d == a + b + (c + d) == (a + b) + c + d
  {
  }

  lemma StopsHere(pre: seq<Byte>, tail: seq<Byte>, typ: Byte)
    requires Stops(tail)
    ensures FindFrom(pre + tail, |pre|, typ) == None
  {
    assert (pre + tail)[|pre|..] == tail;
  }

  /** There is nothing else: every octet string is attributes and a rest at which
      the walk stops. */
  lemma {:induction false} EveryStringIsAttributes(b: seq<Byte>) returns (attrs: seq<Attr>, tail: seq<Byte>)
    ensures AllFit(attrs) && Stops(tail) && PutAll(attrs) + tail == b
    decreases |b|
  {
    if Stops(b) {
      attrs, tail := [], b;
    } else {
      var a, k := FirstAttribute(b);
      hide Put, Size, Fits, Stops;
      var rest: seq<Attr>;
      rest, tail := EveryStringIsAttributes(k);
      attrs := [a] + rest;
      assert attrs[1..] == rest;
      assert PutAll(attrs) + tail == Put(a) + (PutAll(rest) + tail);
    }
  }

  lemma FirstAttribute(b: seq<Byte>) returns (a: Attr, k: seq<Byte>)
    requires !Stops(b)
    ensures Fits(a) && Put(a) + k == b && |k| < |b|
  {
    var n := b[1] as int * 4;
    a, k := Attr(b[0], b[2..n]), b[n..];
    assert PadLen(a) == 0 && ZeroOctets(0) == [];
    assert Put(a) == b[..n];
  }

  lemma {:induction false} PutAllSnoc(attrs: seq<Attr>, a: Attr)
    ensures PutAll(attrs + [a]) == PutAll(attrs) + Put(a)
  {
    hide Put;
    if attrs == [] {
      assert attrs + [a] == [a] && PutAll([a]) == Put(a) + PutAll([a][1..]);
    } else {
      PutAllSnoc(attrs[1..], a);
      assert (attrs + [a])[1..] == attrs[1..] + [a];
    }
  }

  lemma {:induction false} OffsetOfSnoc(attrs: seq<Attr>, a: Attr)
    requires forall i | 0 <= i < |attrs| :: attrs[i].typ != a.typ
    ensures OffsetOf(attrs + [a], a.typ) == Some(|PutAll(attrs)|)
  {
    if attrs == [] {
      assert attrs + [a] == [a];
    } else {
      OffsetOfSnoc(attrs[1..], a);
      assert (attrs + [a])[1..] == attrs[1..] + [a];
    }
  }

  // ---- packets ------------------------------------------------------------

  function Frame(code: Byte, identifier: Byte, attrs: seq<Byte>): seq<Byte> {
    var n := 8 + |attrs|;
    [code, identifier, n / 256 % 256, n % 256, 50, 1, 0, 0] + attrs
  }

  function MacAttr(mac: seq<Byte>): Attr {
    Attr(AT_MAC, [0, 0] + mac)
  }

  function ComputeMac(h: Hmac, key: seq<Byte>, pkt: seq<Byte>): (m: seq<Byte>)
    requires IsHmac(h)
    ensures |m| == 16
  {
    h(key, pkt)[..16]
  }

  /** Overwrites the sixteen octets after the attribute header and reserved field */
  function WriteMac(pkt: seq<Byte>, off: nat, mac: seq<Byte>): (r: seq<Byte>)
    requires off + 20 <= |pkt| && |mac| == 16
    ensures |r| == |pkt|
  {
    pkt[..off + 4] + mac + pkt[off + 20..]
  }

  /** A MAC attribute, if found, has room for its sixteen octets. */
  predicate MacRoom(pkt: seq<Byte>) {
    Find(pkt, AT_MAC).Some? ==> Find(pkt, AT_MAC).value + 20 <= |pkt|
  }

  function Seal(h: Hmac, key: seq<Byte>, pkt: seq<Byte>): seq<Byte>
    requires IsHmac(h) && MacRoom(pkt)
  {
    match Find(pkt, AT_MAC)
    case None => pkt
    case Some(off) => WriteMac(pkt, off, ComputeMac(h, key, pkt))
  }

  predicate Verifies(h: Hmac, key: seq<Byte>, pkt: seq<Byte>)
    requires IsHmac(h)
  {
    match Find(pkt, AT_MAC)
    case None => false
    case Some(off) =>
      off + 20 <= |pkt| && pkt[off + 4..off + 20] == ComputeMac(h, key, WriteMac(pkt, off, ZeroOctets(16)))
  }

  predicate Validates(pkt: seq<Byte>) {
    |pkt| >= 4 && BE16(pkt[2], pkt[3]) == |pkt|
  }

  /** Octets announced by the bit count: `int((bits + 7) / 8)` on a uint16 */
  function ResOctets(hi: Byte, lo: Byte): nat {
    (BE16(hi, lo) + 7) % 0x1_0000 / 8
  }

  function ExtractRes(pkt: seq<Byte>): Result<seq<Byte>> {
    match Find(pkt, AT_RES)
    case None => Err
    case Some(off) =>
      var n := ResOctets(pkt[off + 2], pkt[off + 3]);
      if off + 4 + n > |pkt| then Err else Ok(pkt[off + 4..off + 4 + n])
  }

  /** A packet with the attributes `front` and a final AT_MAC */
  function Packet(code: Byte, identifier: Byte, front: seq<Attr>, mac: seq<Byte>): seq<Byte> {
    Frame(code, identifier, PutAll(front) + Put(MacAttr(mac)))
  }

  predicate MacFree(front: seq<Attr>) {
    AllFit(front) && forall i | 0 <= i < |front| :: front[i].typ != AT_MAC
  }

  /** Where attributes are found in a packet, whatever the MAC value */
  lemma FindInPacket(code: Byte, identifier: Byte, front: seq<Attr>, mac: seq<Byte>, typ: Byte)
    requires MacFree(front) && |mac| == 16
    ensures var pkt := Packet(code, identifier, front, mac);
            && |pkt| == 28 + |PutAll(front)|
            && Find(pkt, AT_MAC) == Some(8 + |PutAll(front)|)
            && (OffsetOf(front, typ).Some? ==> Find(pkt, typ) == Some(8 + OffsetOf(front, typ).value))
  {
    hide Put, FindFrom, Size;
    var all := front + [MacAttr(mac)];
    var body := PutAll(all);
    PutMac(mac);
    PutAllSnoc(front, MacAttr(mac));
    var pkt := Packet(code, identifier, front, mac);
    assert pkt[..8] + body == pkt;
    assert pkt[..8] + body + [] == pkt;
    FindInList(pkt[..8], all, [], AT_MAC);
    FindInList(pkt[..8], all, [], typ);
    OffsetOfSnoc(front, MacAttr(mac));
    OffsetOfPrefix(front, MacAttr(mac), typ);
  }

  lemma {:induction false} OffsetOfPrefix(attrs: seq<Attr>, a: Attr, typ: Byte)
    ensures OffsetOf(attrs, typ).Some? ==> OffsetOf(attrs + [a], typ) == OffsetOf(attrs, typ)
  {
    if attrs != [] {
      OffsetOfPrefix(attrs[1..], a, typ);
      assert (attrs + [a])[1..] == attrs[1..] + [a];
    }
  }

  /** Writing the MAC in place is building the packet with that MAC: no
      attribute moves. */
  lemma WriteMacInPlace(code: Byte, identifier: Byte, front: seq<Attr>, mac: seq<Byte>, mac': seq<Byte>)
    requires |mac| == |mac'| == 16
    ensures var off := 8 + |PutAll(front)|;
            var pkt := Packet(code, identifier, front, mac);
            && |pkt| == off + 20 && pkt[off + 4..off + 20] == mac
            && WriteMac(pkt, off, mac') == Packet(code, identifier, front, mac')
  {
    hide Put, PutAll;
    var pkt, off := Packet(code, identifier, front, mac), 8 + |PutAll(front)|;
    PutMac(mac);
    PutMac(mac');
    var head := pkt[..off + 4];
    assert pkt == head + mac;
    assert Packet(code, identifier, front, mac') == head + mac';
    assert WriteMac(pkt, off, mac') == head + mac' + [];
  }

  lemma PutMac(mac: seq<Byte>)
    requires |mac| == 16
    ensures Put(MacAttr(mac)) == [AT_MAC, 5, 0, 0] + mac && Fits(MacAttr(mac))
  {
    assert PadLen(MacAttr(mac)) == 0 && ZeroOctets(0) == [];
  }

  lemma PacketValidates(code: Byte, identifier: Byte, front: seq<Attr>, mac: seq<Byte>)
    requires |mac| == 16 && 28 + |PutAll(front)| < 0x1_0000
    ensures Validates(Packet(code, identifier, front, mac))
  {
    hide Put;
    PutMac(mac);
    var n := 28 + |PutAll(front)|;
    assert BE16(n / 256 % 256, n % 256) == n;
  }

  /** A sealed packet verifies under its own key, validates, and shows each of
      its attributes where the unsealed list has it. */
  lemma SealedVerifies(h: Hmac, key: seq<Byte>, code: Byte, identifier: Byte, front: seq<Attr>)
    requires IsHmac(h) && MacFree(front) && 28 + |PutAll(front)| < 0x1_0000
    ensures var draft := Packet(code, identifier, front, ZeroOctets(16));
            && Find(draft, AT_MAC) == Some(8 + |PutAll(front)|) && |draft| == 28 + |PutAll(front)| && MacRoom(draft)
            && Seal(h, key, draft) == Packet(code, identifier, front, ComputeMac(h, key, draft))
            && Verifies(h, key, Seal(h, key, draft))
            && Validates(Seal(h, key, draft))
  {
    hide Packet, ComputeMac, Find, WriteMac, PutAll, Validates;
    var draft := Packet(code, identifier, front, ZeroOctets(16));
    var mac := ComputeMac(h, key, draft);
    FindInPacket(code, identifier, front, ZeroOctets(16), AT_MAC);
    FindInPacket(code, identifier, front, mac, AT_MAC);
    WriteMacInPlace(code, identifier, front, ZeroOctets(16), mac);
    WriteMacInPlace(code, identifier, front, mac, ZeroOctets(16));
    PacketValidates(code, identifier, front, mac);
  }

  // ---- challenge and response ---------------------------------------------

  function ResAttr(res: seq<Byte>): Attr {
    Attr(AT_RES, [|res| * 8 / 256 % 256, |res| * 8 % 256] + res)
  }

  function KdfInputAttr(name: seq<Byte>): Attr {
    Attr(AT_KDF_INPUT, [|name| / 256 % 256, |name| % 256] + name)
  }

  function ChallengeAttrs(rand: seq<Byte>, autn: seq<Byte>, name: seq<Byte>): seq<Attr> {
    [Attr(AT_RAND, [0, 0] + rand), Attr(AT_AUTN, [0, 0] + autn), Attr(AT_KDF, [0, 1]), KdfInputAttr(name)]
  }

  lemma ResponseSize(res: seq<Byte>)
    ensures PutAll([ResAttr(res)]) == Put(ResAttr(res))
    ensures Fits(ResAttr(res)) <==> |res| <= 1016
  {
    assert PutAll([ResAttr(res)]) == Put(ResAttr(res)) + PutAll([ResAttr(res)][1..]);
  }

  lemma ChallengeSize(rand: seq<Byte>, autn: seq<Byte>, name: seq<Byte>)
    requires |rand| == |autn| == 16
    ensures PutAll(ChallengeAttrs(rand, autn, name))
         == Put(Attr(AT_RAND, [0, 0] + rand)) + (Put(Attr(AT_AUTN, [0, 0] + autn))
          + (Put(Attr(AT_KDF, [0, 1])) + Put(KdfInputAttr(name))))
    ensures |PutAll(ChallengeAttrs(rand, autn, name))| == 44 + Size(KdfInputAttr(name))
    ensures |name| <= 1016 ==> MacFree(ChallengeAttrs(rand, autn, name))
    ensures Fits(KdfInputAttr(name)) <==> |name| <= 1016
  {
    hide Put;
    var all := ChallengeAttrs(rand, autn, name);
    PutAllOfFour(all[0], all[1], all[2], all[3]);
    assert Size(all[0]) == 20 && Size(all[1]) == 20 && Size(all[2]) == 4;
  }

  lemma PutAllOfFour(a: Attr, b: Attr, c: Attr, d: Attr)
    ensures PutAll([a, b, c, d]) == Put(a) + (Put(b) + (Put(c) + Put(d)))
  {
    hide Put;
    assert PutAll([d]) == Put(d) + PutAll([d][1..]);
    assert [c, d][1..] == [d] && PutAll([c, d]) == Put(c) + Put(d);
    assert [b, c, d][1..] == [c, d] && PutAll([b, c, d]) == Put(b) + (Put(c) + Put(d));
    assert [a, b, c, d][1..] == [b, c, d];
  }

  // ---- packets of any size --------------------------------------------------

  lemma {:induction false} FindStable(p: seq<Byte>, q: seq<Byte>, off: nat, typ: Byte)
    requires FindFrom(p, off, typ).Some? && |q| == |p|
    requires q[..FindFrom(p, off, typ).value + 2] == p[..FindFrom(p, off, typ).value + 2]
    ensures FindFrom(q, off, typ) == FindFrom(p, off, typ)
    decreases |p| - off
  {
    var end := FindFrom(p, off, typ).value + 2;
    assert q[off] == q[..end][off] == p[off] && q[off + 1] == q[..end][off + 1] == p[off + 1];
    if p[off] != typ { FindStable(p, q, off + p[off + 1] as int * 4, typ); }
  }

  lemma {:induction false} FindAligned(p: seq<Byte>, off: nat, typ: Byte)
    requires off % 4 == 0
    ensures FindFrom(p, off, typ).Some? ==> FindFrom(p, off, typ).value % 4 == 0
    decreases |p| - off
  {
    if FindFrom(p, off, typ).Some? && p[off] != typ { FindAligned(p, off + p[off + 1] as int * 4, typ); }
  }

  /** The MAC found in the draft is the one the finished packet shows: zeroing
      its field does not change the MAC. */
  predicate MacHolds(h: Hmac, key: seq<Byte>, draft: seq<Byte>)
    requires IsHmac(h) && MacRoom(draft)
  {
    match Find(draft, AT_MAC)
    case None => false
    case Some(off) => ComputeMac(h, key, draft) == ComputeMac(h, key, WriteMac(draft, off, ZeroOctets(16)))
  }

  /** Writing the MAC leaves the octets before `end` as they were. */
  predicate Spares(h: Hmac, key: seq<Byte>, draft: seq<Byte>, end: nat)
    requires IsHmac(h) && MacRoom(draft)
  {
    match Find(draft, AT_MAC)
    case None => true
    case Some(off) =>
      KeptBefore(draft, off + 4, ComputeMac(h, key, draft), end)
  }

  /** Where `mac` would overwrite an octet before `end`, that octet is there already. */
  predicate KeptBefore(d: seq<Byte>, at: nat, mac: seq<Byte>, end: nat)
    requires at + |mac| <= |d|
  {
    forall j | 0 <= j < |mac| && at + j < end :: d[at + j] == mac[j]
  }

  predicate Overwritten(d: seq<Byte>, s: seq<Byte>, at: nat, mac: seq<Byte>) {
    && |s| == |d| && at + |mac| <= |d|
    && forall i | 0 <= i < |s| :: s[i] == if at <= i < at + |mac| then mac[i - at] else d[i]
  }

  /** What sealing does to any packet at all: only the sixteen octets change, and
      the result verifies exactly when they hold the MAC of what is verified. */
  lemma SealMeaning(h: Hmac, key: seq<Byte>, draft: seq<Byte>)
    requires IsHmac(h) && MacRoom(draft)
    ensures |Seal(h, key, draft)| == |draft|
    ensures Verifies(h, key, Seal(h, key, draft)) <==> MacHolds(h, key, draft)
    ensures Find(draft, AT_MAC).None? ==> Seal(h, key, draft) == draft
    ensures Find(draft, AT_MAC).Some? ==>
              forall i | 0 <= i < Find(draft, AT_MAC).value + 4 :: Seal(h, key, draft)[i] == draft[i]
  {
    hide ComputeMac, FindFrom;
    if Find(draft, AT_MAC).Some? {
      var off, mac, zero := Find(draft, AT_MAC).value, ComputeMac(h, key, draft), ZeroOctets(16);
      var s := WriteMac(draft, off, mac);
      assert off >= 8 by { FoundAfterHeader(draft, AT_MAC); }
      assert s[..off + 2] == draft[..off + 2];
      FindStable(draft, s, 8, AT_MAC);
      assert s[off + 4..off + 20] == mac;
      assert WriteMac(s, off, zero) == WriteMac(draft, off, zero);
    }
  }

  /** HMAC-free: the sealed packet verifies under every HMAC and key exactly when a
      MAC is found and its field was all zeros. */
  lemma VerifiesForEveryKey(draft: seq<Byte>)
    requires MacRoom(draft)
    ensures VerifiesAlways(draft) <==>
              Find(draft, AT_MAC).Some? && WriteMac(draft, Find(draft, AT_MAC).value, ZeroOctets(16)) == draft
  {
    hide Find, WriteMac, Seal, Verifies, ZeroOctets;
    var h: Hmac := (key, data) => if data == draft then seq(32, i => 1) else seq(32, i => 0);
    assert IsHmac(h);
    SealMeaning(h, [], draft);
    if Find(draft, AT_MAC).Some? {
      var cleared := WriteMac(draft, Find(draft, AT_MAC).value, ZeroOctets(16));
      if cleared != draft {
        assert ComputeMac(h, [], draft)[0] == 1 && ComputeMac(h, [], cleared)[0] == 0;
      } else {
        forall h: Hmac, key | IsHmac(h) ensures Verifies(h, key, Seal(h, key, draft)) {
          SealMeaning(h, key, draft);
        }
      }
    }
  }

  ghost predicate VerifiesAlways(draft: seq<Byte>)
    requires MacRoom(draft)
  {
    forall h: Hmac, key | IsHmac(h) :: Verifies(h, key, Seal(h, key, draft))
  }

  lemma FoundAfterHeader(p: seq<Byte>, typ: Byte)
    ensures Find(p, typ).Some? ==> 8 <= Find(p, typ).value
  {
  }

  /** The octets from `start` on survive sealing exactly when the MAC spares them. */
  lemma SealSpares(h: Hmac, key: seq<Byte>, draft: seq<Byte>, start: nat, end: nat)
    requires IsHmac(h) && MacRoom(draft) && start <= end <= |draft|
    requires Find(draft, AT_MAC).Some? ==> start <= Find(draft, AT_MAC).value + 4
    ensures |Seal(h, key, draft)| == |draft|
    ensures Seal(h, key, draft)[start..end] == draft[start..end] <==> Spares(h, key, draft, end)
  {
    hide ComputeMac, Find, WriteMac, KeptBefore, Overwritten;
    if Find(draft, AT_MAC).Some? {
      var off, mac := Find(draft, AT_MAC).value, ComputeMac(h, key, draft);
      WriteOverwrites(draft, off, mac);
      SliceKept(draft, WriteMac(draft, off, mac), off + 4, mac, start, end);
    }
  }

  lemma WriteOverwrites(pkt: seq<Byte>, off: nat, mac: seq<Byte>)
    requires off + 20 <= |pkt| && |mac| == 16
    ensures Overwritten(pkt, WriteMac(pkt, off, mac), off + 4, mac)
  {
  }

  lemma SliceKept(d: seq<Byte>, s: seq<Byte>, at: nat, mac: seq<Byte>, start: nat, end: nat)
    requires Overwritten(d, s, at, mac) && start <= end <= |d| && start <= at
    ensures |s| == |d| && at + |mac| <= |d|
    ensures s[start..end] == d[start..end] <==> KeptBefore(d, at, mac, end)
  {
    if s[start..end] == d[start..end] {
      forall j | 0 <= j < |mac| && at + j < end ensures d[at + j] == mac[j] {
        assert s[at + j] == s[start..end][at + j - start] == d[at + j];
      }
    }
    if KeptBefore(d, at, mac, end) {
      forall i | start <= i < end ensures s[i] == d[i] {
        if at <= i < at + |mac| { assert d[at + (i - at)] == mac[i - at]; }
      }
    }
  }

  /** A draft ends in an empty AT_MAC; no walk finds a MAC beyond it, so sealing
      always has room, however its attributes came out. */
  lemma DraftHasRoom(code: Byte, identifier: Byte, attrs: seq<Byte>)
    requires |attrs| % 4 == 0
    ensures MacRoom(Frame(code, identifier, attrs + Put(MacAttr(ZeroOctets(16)))))
  {
    hide FindFrom, Put;
    PutMac(ZeroOctets(16));
    var draft := Frame(code, identifier, attrs + Put(MacAttr(ZeroOctets(16))));
    FindAligned(draft, 8, AT_MAC);
    FindInside(draft, AT_MAC);
    if Find(draft, AT_MAC).Some? {
      var off := Find(draft, AT_MAC).value;
      assert forall i | |draft| - 18 <= i < |draft| :: draft[i] == 0;
    }
  }

  lemma FindInside(p: seq<Byte>, typ: Byte)
    ensures Find(p, typ).Some? ==> Find(p, typ).value + 4 <= |p| && p[Find(p, typ).value] == typ
  {
  }

  lemma FrameValidates(code: Byte, identifier: Byte, attrs: seq<Byte>, pkt: seq<Byte>)
    requires var f := Frame(code, identifier, attrs); |pkt| == |f| && pkt[2] == f[2] && pkt[3] == f[3]
    ensures Validates(pkt) <==> 8 + |attrs| < 0x1_0000
  {
    hide BE16;
    LowSixteen(8 + |attrs|);
  }

  // ---- responses --------------------------------------------------------------

  function ResponseDraft(identifier: Byte, res: seq<Byte>): seq<Byte> {
    Packet(CODE_RESPONSE, identifier, [ResAttr(res)], ZeroOctets(16))
  }

  lemma ResLayout(res: seq<Byte>)
    ensures var b := Put(ResAttr(res));
            && |b| >= 4 + |res| && b[0] == AT_RES && b[4..4 + |res|] == res
            && b[1] as int == Size(ResAttr(res)) / 4 % 256
            && ResOctets(b[2], b[3]) == |res| % 8192
  {
    hide Size, PadLen, ZeroOctets, ResOctets;
    var b := Put(ResAttr(res));
    assert b[..4 + |res|] == [b[0], b[1], |res| * 8 / 256 % 256, |res| * 8 % 256] + res;
    ResLength(|res|);
  }

  /** The bit count is cut to sixteen bits. */
  lemma ResLength(n: nat)
    ensures ResOctets(n * 8 / 256 % 256, n * 8 % 256) == n % 8192
  {
    hide BE16;
    LowSixteen(n * 8);
    TimesEight(n);
    RoundUp(n % 8192);
  }

  lemma TimesEight(n: nat)
    ensures n * 8 % 0x1_0000 == n % 8192 * 8
  {
    DivModUnique(n * 8, 0x1_0000, n / 8192, n % 8192 * 8);
  }

  lemma RoundUp(m: nat)
    requires m < 8192
    ensures (m * 8 + 7) % 0x1_0000 / 8 == m
  {
  }

  lemma LowSixteen(x: nat)
    ensures BE16(x / 256 % 256, x % 256) == x % 0x1_0000
  {
    var q := x / 256;
    assert x == q * 256 + x % 256 && q == q / 256 * 256 + q % 256;
    assert x % 0x1_0000 == q % 256 * 256 + x % 256;
  }

  /** A first attribute whose size is a multiple of 1024 writes a zero length and
      hides the list, itself included. */
  lemma ZeroLengthHides(code: Byte, identifier: Byte, a: Attr, rest: seq<Byte>, typ: Byte)
    requires Size(a) % 1024 == 0
    ensures Find(Frame(code, identifier, Put(a) + rest), typ) == None
  {
    var pkt := Frame(code, identifier, Put(a) + rest);
    assert Size(a) / 4 % 256 == 0;
    assert pkt[9] == 0;
  }

  lemma ResponseShape(identifier: Byte, res: seq<Byte>)
    ensures var draft := ResponseDraft(identifier, res);
            && |draft| == 28 + Size(ResAttr(res)) && MacRoom(draft)
            && draft[8] == AT_RES && draft[9] as int == Size(ResAttr(res)) / 4 % 256
            && ResOctets(draft[10], draft[11]) == |res| % 8192
            && 12 + |res| <= |draft| && draft[12..12 + |res|] == res
            && draft == Frame(CODE_RESPONSE, identifier, Put(ResAttr(res)) + Put(MacAttr(ZeroOctets(16))))
  {
    hide Put, ResOctets, Find, ResAttr, Size, MacRoom;
    var b, m := Put(ResAttr(res)), Put(MacAttr(ZeroOctets(16)));
    ResponseSize(res);
    ResLayout(res);
    PutMac(ZeroOctets(16));
    assert |b| % 4 == 0;
    DraftHasRoom(CODE_RESPONSE, identifier, b);
    var draft := ResponseDraft(identifier, res);
    assert draft[8..] == b + m;
    assert draft[12..12 + |res|] == b[4..4 + |res|];
  }

  /** With a usable length octet the walk passes the RES and can find a MAC only
      behind its first word. */
  lemma ResponseWalk(identifier: Byte, res: seq<Byte>)
    requires Size(ResAttr(res)) % 1024 != 0
    ensures var draft := ResponseDraft(identifier, res);
            && Find(draft, AT_RES) == Some(8)
            && (Find(draft, AT_MAC).Some? ==> Find(draft, AT_MAC).value >= 12)
  {
    hide ResAttr, Size, ResOctets, Put, ResponseDraft, MacRoom;
    ResponseShape(identifier, res);
    var draft, n := ResponseDraft(identifier, res), Size(ResAttr(res));
    LengthOctet(n);
    assert draft[9] != 0 && 8 + draft[9] as int * 4 <= |draft|;
  }

  lemma LengthOctet(n: nat)
    requires n % 4 == 0
    ensures n % 1024 == 0 <==> n / 4 % 256 == 0
    ensures n / 4 % 256 * 4 <= n
  {
  }

  /** When the finished response gives its RES back. */
  predicate ResSurvives(h: Hmac, key: seq<Byte>, identifier: Byte, res: seq<Byte>)
    requires IsHmac(h) && MacRoom(ResponseDraft(identifier, res))
  {
    && Size(ResAttr(res)) % 1024 != 0
    && |res| < 8192
    && Spares(h, key, ResponseDraft(identifier, res), 12 + |res|)
  }

  /** Everything about a response of any size. */
  lemma ResponseMeaning(h: Hmac, key: seq<Byte>, identifier: Byte, res: seq<Byte>)
    requires IsHmac(h)
    ensures MacRoom(ResponseDraft(identifier, res))
    ensures var pkt := Seal(h, key, ResponseDraft(identifier, res));
            && (Validates(pkt) <==> 28 + Size(ResAttr(res)) < 0x1_0000)
            && (Verifies(h, key, pkt) <==> MacHolds(h, key, ResponseDraft(identifier, res)))
            && (Size(ResAttr(res)) % 1024 == 0 ==> !Verifies(h, key, pkt) && ExtractRes(pkt) == Err)
            && (ExtractRes(pkt) == Ok(res) <==> ResSurvives(h, key, identifier, res))
            && |pkt| == |ResponseDraft(identifier, res)| >= 12 && pkt[..12] == ResponseDraft(identifier, res)[..12]
  {
    hide Put, ResAttr, Size, ResOctets, Find, MacRoom, Seal, Verifies, MacHolds, Validates, ResponseDraft, Spares,
         Frame;
    ResponseShape(identifier, res);
    var draft := ResponseDraft(identifier, res);
    SealMeaning(h, key, draft);
    var pkt := Seal(h, key, draft);
    if Size(ResAttr(res)) % 1024 == 0 {
      ZeroLengthHides(CODE_RESPONSE, identifier, ResAttr(res), Put(MacAttr(ZeroOctets(16))), AT_MAC);
      ZeroLengthHides(CODE_RESPONSE, identifier, ResAttr(res), Put(MacAttr(ZeroOctets(16))), AT_RES);
      assert !MacHolds(h, key, draft) by { NothingHolds(h, key, draft); }
    } else {
      ResponseWalk(identifier, res);
      assert forall i | 0 <= i < 12 :: pkt[i] == draft[i];
      SealedRes(draft, pkt);
      SealSpares(h, key, draft, 12, 12 + |res|);
      ExtractAt8(pkt, res);
    }
    assert pkt[2] == draft[2] && pkt[3] == draft[3];
    PutMac(ZeroOctets(16));
    FrameValidates(CODE_RESPONSE, identifier, Put(ResAttr(res)) + Put(MacAttr(ZeroOctets(16))), pkt);
  }

  lemma NothingHolds(h: Hmac, key: seq<Byte>, draft: seq<Byte>)
    requires IsHmac(h) && Find(draft, AT_MAC) == None
    ensures !MacHolds(h, key, draft)
  {
  }

  lemma SealedRes(draft: seq<Byte>, pkt: seq<Byte>)
    requires |pkt| == |draft| >= 12 && Find(draft, AT_RES) == Some(8) && forall i | 0 <= i < 12 :: pkt[i] == draft[i]
    ensures Find(pkt, AT_RES) == Some(8)
  {
    assert pkt[..10] == draft[..10];
    FindStable(draft, pkt, 8, AT_RES);
  }

  lemma ExtractAt8(pkt: seq<Byte>, res: seq<Byte>)
    requires |pkt| >= 12 + |res| && Find(pkt, AT_RES) == Some(8) && ResOctets(pkt[10], pkt[11]) == |res| % 8192
    ensures ExtractRes(pkt) == Ok(res) <==> |res| < 8192 && pkt[12..12 + |res|] == res
  {
    hide Find, ResOctets;
    var n := |res| % 8192;
    assert ExtractRes(pkt) == Ok(pkt[12..12 + n]);
    assert |pkt[12..12 + n]| == n;
  }

  /** Up to 1016 octets, the most the length octet can express, all is well. */
  lemma ShortResponse(h: Hmac, key: seq<Byte>, identifier: Byte, res: seq<Byte>)
    requires IsHmac(h) && |res| <= 1016
    ensures MacRoom(ResponseDraft(identifier, res)) && 28 + Size(ResAttr(res)) < 0x1_0000
    ensures MacHolds(h, key, ResponseDraft(identifier, res)) && ResSurvives(h, key, identifier, res)
    ensures Find(ResponseDraft(identifier, res), AT_MAC) == Some(|ResponseDraft(identifier, res)| - 20)
  {
    hide Put, Find, ComputeMac, MacRoom, Packet, PutAll, WriteMac, Size, MacHolds, Spares, ResAttr, ResOctets;
    ResponseShape(identifier, res);
    ResponseSize(res);
    ResLayout(res);
    var front := [ResAttr(res)];
    assert MacFree(front) by { ResIsRes(res); }
    FindInPacket(CODE_RESPONSE, identifier, front, ZeroOctets(16), AT_RES);
    WriteMacInPlace(CODE_RESPONSE, identifier, front, ZeroOctets(16), ZeroOctets(16));
    var draft := ResponseDraft(identifier, res);
    MacInPlace(h, key, draft, 8 + |PutAll(front)|, 12 + |res|);
  }

  /** A MAC found behind `end`, in a field of zeros, holds and spares what precedes it. */
  lemma MacInPlace(h: Hmac, key: seq<Byte>, draft: seq<Byte>, off: nat, end: nat)
    requires IsHmac(h) && Find(draft, AT_MAC) == Some(off) && off + 20 <= |draft| && end <= off + 4
    requires draft[off + 4..off + 20] == ZeroOctets(16)
    ensures MacHolds(h, key, draft) && Spares(h, key, draft, end)
  {
    hide Find, ComputeMac, ZeroOctets;
    assert WriteMac(draft, off, ZeroOctets(16)) == draft;
  }

  lemma ResIsRes(res: seq<Byte>)
    ensures ResAttr(res).typ == AT_RES
  {
  }

  /** From 1021 octets on a RES can come back from a packet that does not verify. */
  lemma UnverifiedRes(h: Hmac, key: seq<Byte>, identifier: Byte)
    requires IsHmac(h)
    ensures var res := ZeroOctets(1021);
            && MacRoom(ResponseDraft(identifier, res))
            && ResSurvives(h, key, identifier, res) && !MacHolds(h, key, ResponseDraft(identifier, res))
  {
    hide Put, ResOctets, MacRoom, ResponseDraft;
    var res := ZeroOctets(1021);
    ResponseShape(identifier, res);
    var draft := ResponseDraft(identifier, res);
    assert Size(ResAttr(res)) == 1028;
    assert draft[12] == draft[12..12 + 1021][0] == 0 && draft[13] == draft[12..12 + 1021][1] == 0;
    assert FindFrom(draft, 12, AT_MAC) == None;
    assert FindFrom(draft, 8, AT_MAC) == None;
  }

  // ---- challenges -------------------------------------------------------------

  function ChallengeDraft(identifier: Byte, rand: seq<Byte>, autn: seq<Byte>, name: seq<Byte>): seq<Byte> {
    Packet(CODE_REQUEST, identifier, ChallengeAttrs(rand, autn, name), ZeroOctets(16))
  }

  /** RAND, AUTN and KDF stand where the attribute list puts them. */
  predicate CarriesVector(pkt: seq<Byte>, rand: seq<Byte>, autn: seq<Byte>) {
    && |pkt| >= 52
    && Find(pkt, AT_RAND) == Some(8) && pkt[12..28] == rand
    && Find(pkt, AT_AUTN) == Some(28) && pkt[32..48] == autn
    && Find(pkt, AT_KDF) == Some(48) && pkt[50..52] == [0, 1]
  }

  lemma ChallengeShape(identifier: Byte, rand: seq<Byte>, autn: seq<Byte>, name: seq<Byte>)
    requires |rand| == |autn| == 16
    ensures var draft := ChallengeDraft(identifier, rand, autn, name);
            && |draft| == 72 + Size(KdfInputAttr(name)) && MacRoom(draft)
            && ChallengeHeads(draft, Size(KdfInputAttr(name)) / 4 % 256)
            && draft[12..28] == rand && draft[32..48] == autn && draft[50..52] == [0, 1]
            && 56 + |name| <= |draft| && draft[56..56 + |name|] == name
            && draft == Frame(CODE_REQUEST, identifier,
                              PutAll(ChallengeAttrs(rand, autn, name)) + Put(MacAttr(ZeroOctets(16))))
            && |PutAll(ChallengeAttrs(rand, autn, name))| == 44 + Size(KdfInputAttr(name))
  {
    hide Put, Find, MacRoom, PutAll, KdfInputAttr, ChallengeAttrs, Size, ChallengeHeads;
    var front := PutAll(ChallengeAttrs(rand, autn, name));
    ChallengeSize(rand, autn, name);
    FixedLayout(AT_RAND, rand);
    FixedLayout(AT_AUTN, autn);
    KdfLayout();
    NameLayout(name);
    PutMac(ZeroOctets(16));
    DraftHasRoom(CODE_REQUEST, identifier, front);
    LengthOctet(Size(KdfInputAttr(name)));
    var d, m := Put(KdfInputAttr(name)), Put(MacAttr(ZeroOctets(16)));
    var draft := ChallengeDraft(identifier, rand, autn, name);
    ChallengeOctets(draft, rand, autn, d, m);
    assert draft[56..56 + |name|] == d[4..4 + |name|];
  }

  lemma ChallengeOctets(p: seq<Byte>, rand: seq<Byte>, autn: seq<Byte>, d: seq<Byte>, m: seq<Byte>)
    requires |rand| == |autn| == 16 && |d| >= 4 && |m| == 20 && d[1] as int * 4 <= |d| && d[0] == AT_KDF_INPUT
    requires |p| >= 8
    requires p[8..] == ([AT_RAND, 5, 0, 0] + rand) + (([AT_AUTN, 5, 0, 0] + autn) + ([AT_KDF, 1, 0, 1] + d)) + m
    ensures ChallengeHeads(p, d[1] as int)
    ensures p[12..28] == rand && p[32..48] == autn && p[50..52] == [0, 1] && p[52..52 + |d|] == d
  {
    var q := p[8..];
    assert q[4..20] == rand && q[24..40] == autn && q[42..44] == [0, 1] && q[44..44 + |d|] == d;
    BehindHeader(p, 4, 20);
    BehindHeader(p, 24, 40);
    BehindHeader(p, 42, 44);
    BehindHeader(p, 44, 44 + |d|);
    assert q[44] == d[0] && q[45] == d[1];
    assert forall i | 0 <= i < |q| :: p[8 + i] == q[i];
    assert q[0] == AT_RAND && q[1] == 5 && q[20] == AT_AUTN && q[21] == 5 && q[40] == AT_KDF && q[41] == 1;
  }

  lemma BehindHeader(p: seq<Byte>, i: nat, j: nat)
    requires i <= j && 8 + j <= |p|
    ensures p[8..][i..j] == p[8 + i..8 + j]
  {
  }

  lemma FixedLayout(typ: Byte, data: seq<Byte>)
    requires |data| == 16
    ensures Put(Attr(typ, [0, 0] + data)) == [typ, 5, 0, 0] + data
  {
    assert PadLen(Attr(typ, [0, 0] + data)) == 0 && ZeroOctets(0) == [];
  }

  lemma KdfLayout()
    ensures Put(Attr(AT_KDF, [0, 1])) == [AT_KDF, 1, 0, 1]
  {
    assert PadLen(Attr(AT_KDF, [0, 1])) == 0 && ZeroOctets(0) == [];
  }

  lemma NameLayout(name: seq<Byte>)
    ensures var b := Put(KdfInputAttr(name));
            && |b| == Size(KdfInputAttr(name)) >= 4 + |name| && b[0] == AT_KDF_INPUT
            && b[1] as int == Size(KdfInputAttr(name)) / 4 % 256 && b[4..4 + |name|] == name
  {
    hide PadLen, ZeroOctets;
    var b := Put(KdfInputAttr(name));
    assert b[..4 + |name|] == [b[0], b[1], b[2], b[3]] + name;
  }

  /** The type and length octets of a challenge's attributes */
  predicate ChallengeHeads(p: seq<Byte>, length: nat) {
    && |p| >= 72 + length * 4
    && p[8] == AT_RAND && p[9] == 5 && p[28] == AT_AUTN && p[29] == 5
    && p[48] == AT_KDF && p[49] == 1 && p[52] == AT_KDF_INPUT && p[53] as int == length
  }

  lemma ChallengeWalk(p: seq<Byte>, length: nat)
    requires ChallengeHeads(p, length)
    ensures Find(p, AT_RAND) == Some(8) && Find(p, AT_AUTN) == Some(28) && Find(p, AT_KDF) == Some(48)
    ensures Find(p, AT_KDF_INPUT) == if length == 0 then None else Some(52)
    ensures Find(p, AT_MAC).Some? ==> length != 0 && Find(p, AT_MAC).value >= 56
  {
    WalkTo52(p, length, AT_AUTN);
    WalkTo52(p, length, AT_KDF);
    WalkTo52(p, length, AT_KDF_INPUT);
    WalkTo52(p, length, AT_MAC);
  }

  lemma WalkTo52(p: seq<Byte>, length: nat, typ: Byte)
    requires ChallengeHeads(p, length)
    ensures typ == AT_AUTN ==> Find(p, typ) == Some(28)
    ensures typ == AT_KDF ==> Find(p, typ) == Some(48)
    ensures typ == AT_KDF_INPUT || typ == AT_MAC ==> Find(p, typ) == FindFrom(p, 52, typ)
  {
    if typ != AT_RAND {
      assert FindFrom(p, 8, typ) == FindFrom(p, 28, typ);
      if typ != AT_AUTN {
        assert FindFrom(p, 28, typ) == FindFrom(p, 48, typ);
      }
    }
  }

  /** Everything about a challenge of any size. */
  lemma ChallengeMeaning(h: Hmac, key: seq<Byte>, identifier: Byte, rand: seq<Byte>, autn: seq<Byte>, name: seq<Byte>)
    requires IsHmac(h) && |rand| == |autn| == 16
    ensures MacRoom(ChallengeDraft(identifier, rand, autn, name))
    ensures var draft := ChallengeDraft(identifier, rand, autn, name);
            var pkt := Seal(h, key, draft);
            && |pkt| == |draft| == 72 + Size(KdfInputAttr(name)) && 56 + |name| <= |pkt|
            && (Validates(pkt) <==> |pkt| < 0x1_0000)
            && (Verifies(h, key, pkt) <==> MacHolds(h, key, draft))
            && CarriesVector(pkt, rand, autn)
            && (Find(pkt, AT_KDF_INPUT) == Some(52) <==> Size(KdfInputAttr(name)) % 1024 != 0)
            && (pkt[56..56 + |name|] == name <==> Spares(h, key, draft, 56 + |name|))
            && pkt[..56] == draft[..56]
  {
    hide Put, KdfInputAttr, Size, Find, MacRoom, Seal, Verifies, MacHolds, Validates, ChallengeDraft, Spares, Frame,
         PutAll, ChallengeAttrs, ChallengeHeads;
    ChallengeShape(identifier, rand, autn, name);
    var draft, n := ChallengeDraft(identifier, rand, autn, name), Size(KdfInputAttr(name));
    var pkt := Seal(h, key, draft);
    LengthOctet(n);
    ChallengeWalk(draft, n / 4 % 256);
    SealMeaning(h, key, draft);
    assert forall i | 0 <= i < 56 :: pkt[i] == draft[i];
    SameHeads(draft, pkt, n / 4 % 256);
    ChallengeWalk(pkt, n / 4 % 256);
    assert pkt[12..28] == draft[12..28] && pkt[32..48] == draft[32..48] && pkt[50..52] == draft[50..52];
    SealSpares(h, key, draft, 56, 56 + |name|);
    PutMac(ZeroOctets(16));
    FrameValidates(CODE_REQUEST, identifier,
                   PutAll(ChallengeAttrs(rand, autn, name)) + Put(MacAttr(ZeroOctets(16))), pkt);
  }

  lemma SameHeads(p: seq<Byte>, q: seq<Byte>, length: nat)
    requires ChallengeHeads(p, length) && |q| == |p| && forall i | 0 <= i < 56 :: q[i] == p[i]
    ensures ChallengeHeads(q, length)
  {
  }

  lemma ShortChallenge(h: Hmac, key: seq<Byte>, identifier: Byte, rand: seq<Byte>, autn: seq<Byte>, name: seq<Byte>)
    requires IsHmac(h) && |rand| == |autn| == 16 && |name| <= 1016
    ensures MacRoom(ChallengeDraft(identifier, rand, autn, name)) && Size(KdfInputAttr(name)) <= 1020
    ensures MacHolds(h, key, ChallengeDraft(identifier, rand, autn, name))
    ensures Spares(h, key, ChallengeDraft(identifier, rand, autn, name), 56 + |name|)
    ensures var draft := ChallengeDraft(identifier, rand, autn, name); Find(draft, AT_MAC) == Some(|draft| - 20)
  {
    hide Put, Find, ComputeMac, MacRoom, Packet, PutAll, WriteMac, ChallengeAttrs, Size, MacHolds, Spares,
         KdfInputAttr;
    ChallengeShape(identifier, rand, autn, name);
    ChallengeSize(rand, autn, name);
    var front := ChallengeAttrs(rand, autn, name);
    FindInPacket(CODE_REQUEST, identifier, front, ZeroOctets(16), AT_MAC);
    WriteMacInPlace(CODE_REQUEST, identifier, front, ZeroOctets(16), ZeroOctets(16));
    NameLayout(name);
    MacInPlace(h, key, ChallengeDraft(identifier, rand, autn, name), 8 + |PutAll(front)|, 56 + |name|);
  }

  // ---- the octets of the packets ----------------------------------------------

  /** A MAC attribute at the very end: sealing replaces its sixteen zeros by the HMAC
      of the packet with those zeros. */
  lemma SealAtEnd(h: Hmac, key: seq<Byte>, front: seq<Byte>)
    requires IsHmac(h) && |front| >= 4 && Find(front + ZeroOctets(16), AT_MAC) == Some(|front| - 4)
    ensures MacRoom(front + ZeroOctets(16))
    ensures Seal(h, key, front + ZeroOctets(16)) == front + h(key, front + ZeroOctets(16))[..16]
  {
    hide Find;
  }

  /** Padding to whole words */
  lemma WordSize(a: Attr)
    ensures Size(a) == (|a.value| + 5) / 4 * 4 && PadLen(a) == Size(a) - 2 - |a.value|
  {
  }

  lemma ResponseHeader(identifier: Byte, res: seq<Byte>)
    ensures var draft := ResponseDraft(identifier, res);
            && |draft| == 28 + (|res| + 7) / 4 * 4
            && draft[..12] == [2, identifier, |draft| / 256 % 256, |draft| % 256, 50, 1, 0, 0,
                               3, (|res| + 7) / 4 % 256, |res| * 8 / 256 % 256, |res| * 8 % 256]
            && draft[12..] == res + ZeroOctets(|draft| - 32 - |res|) + [11, 5, 0, 0] + ZeroOctets(16)
  {
    hide ZeroOctets, PutAll, Size, PadLen;
    var a, draft := ResAttr(res), ResponseDraft(identifier, res);
    WordSize(a);
    ResponseSize(res);
    PutMac(ZeroOctets(16));
    PutRes(res);
    hide Put;
    SplitAt12(draft[..8], [3, Size(a) / 4 % 256, |res| * 8 / 256 % 256, |res| * 8 % 256], res, ZeroOctets(PadLen(a)),
              [11, 5, 0, 0], ZeroOctets(16), draft);
  }

  lemma PutRes(res: seq<Byte>)
    ensures var a := ResAttr(res);
            Put(a) == [3, Size(a) / 4 % 256, |res| * 8 / 256 % 256, |res| * 8 % 256] + res + ZeroOctets(PadLen(a))
  {
    hide Size, PadLen, ZeroOctets;
  }

  lemma SplitAt12(head: seq<Byte>, d: seq<Byte>, v: seq<Byte>, pad: seq<Byte>, m: seq<Byte>, z: seq<Byte>, p: seq<Byte>)
    requires |head| + |d| == 12
    requires p == head + ((d + v + pad) + (m + z))
    ensures p[..12] == head + d && p[12..] == v + pad + m + z
  {
    assert p == (head + d) + (v + pad + m + z);
  }

  lemma ChallengeHeader(identifier: Byte, rand: seq<Byte>, autn: seq<Byte>, name: seq<Byte>)
    requires |rand| == |autn| == 16
    ensures var draft := ChallengeDraft(identifier, rand, autn, name);
            && |draft| == 72 + (|name| + 7) / 4 * 4
            && draft[..56] == [1, identifier, |draft| / 256 % 256, |draft| % 256, 50, 1, 0, 0]
                              + ([1, 5, 0, 0] + rand) + ([2, 5, 0, 0] + autn) + [24, 1, 0, 1]
                              + [23, (|name| + 7) / 4 % 256, |name| / 256 % 256, |name| % 256]
            && draft[56..] == name + ZeroOctets(|draft| - 76 - |name|) + [11, 5, 0, 0] + ZeroOctets(16)
  {
    hide ZeroOctets, PutAll, Size, PadLen, Put;
    var a, draft := KdfInputAttr(name), ChallengeDraft(identifier, rand, autn, name);
    WordSize(a);
    ChallengeSize(rand, autn, name);
    FixedLayout(AT_RAND, rand);
    FixedLayout(AT_AUTN, autn);
    KdfLayout();
    PutMac(ZeroOctets(16));
    PutName(name);
    SplitAt56(draft[..8], [1, 5, 0, 0] + rand, [2, 5, 0, 0] + autn, [24, 1, 0, 1],
              [23, Size(a) / 4 % 256, |name| / 256 % 256, |name| % 256], name, ZeroOctets(PadLen(a)),
              [11, 5, 0, 0], ZeroOctets(16), draft);
  }

  lemma SplitAt56(head: seq<Byte>, a: seq<Byte>, b: seq<Byte>, c: seq<Byte>, d: seq<Byte>, v: seq<Byte>,
                  pad: seq<Byte>, m: seq<Byte>, z: seq<Byte>, p: seq<Byte>)
    requires |head| + |a| + |b| + |c| + |d| == 56
    requires p == head + ((a + (b + (c + (d + v + pad)))) + (m + z))
    ensures p[..56] == head + a + b + c + d && p[56..] == v + pad + m + z
  {
    assert p == (head + a + b + c + d) + (v + pad + m + z);
  }

  lemma PutName(name: seq<Byte>)
    ensures var a := KdfInputAttr(name);
            Put(a) == [23, Size(a) / 4 % 256, |name| / 256 % 256, |name| % 256] + name + ZeroOctets(PadLen(a))
  {
    hide Size, PadLen, ZeroOctets;
  }

  /** Every octet of a finished packet whose attributes end in the MAC */
  predicate SealedOctets(h: Hmac, key: seq<Byte>, pkt: seq<Byte>, at: nat, value: seq<Byte>)
    requires IsHmac(h)
  {
    && |pkt| >= at + |value| + 20
    && pkt[at..|pkt| - 16] == value + ZeroOctets(|pkt| - 20 - at - |value|) + [11, 5, 0, 0]
    && pkt[|pkt| - 16..] == h(key, pkt[..|pkt| - 16] + ZeroOctets(16))[..16]
  }

  lemma SealedTail(h: Hmac, key: seq<Byte>, draft: seq<Byte>, at: nat, value: seq<Byte>)
    requires IsHmac(h) && |draft| >= at + |value| + 20 && Find(draft, AT_MAC) == Some(|draft| - 20)
    requires draft[at..] == value + ZeroOctets(|draft| - 20 - at - |value|) + [11, 5, 0, 0] + ZeroOctets(16)
    ensures MacRoom(draft)
    ensures SealedOctets(h, key, Seal(h, key, draft), at, value)
  {
    hide Find, ZeroOctets;
    var n := |draft|;
    var front := draft[..n - 16];
    assert draft[at..][n - 16 - at..] == ZeroOctets(16);
    assert draft == front + ZeroOctets(16);
    SealAtEnd(h, key, front);
    var pkt := Seal(h, key, draft);
    assert pkt[..n - 16] == front;
    assert pkt[at..n - 16] == draft[at..][..n - 16 - at];
  }

  // ---- the code -----------------------------------------------------------

  method EncodeAttr(typ: Byte, value: seq<Byte>) returns (out: seq<Byte>)
    ensures out == Put(Attr(typ, value))
  {
    var total := 2 + |value|;
    var padded := value;
    if total % 4 != 0 {
      padded := value + ZeroOctets(4 - total % 4);
      total := 2 + |padded|;
    }
    out := [typ, total / 4 % 256];
    out := out + padded;
  }

  method FindAttr(pkt: seq<Byte>, typ: Byte) returns (r: Option<nat>)
    ensures r == Find(pkt, typ)
  {
    if |pkt| < 8 {
      return None;
    }
    var off := 8;
    while off + 2 <= |pkt|
      invariant 8 <= off
      invariant FindFrom(pkt, off, typ) == Find(pkt, typ)
      decreases |pkt| - off
    {
      var aTyp, aLen := pkt[off], pkt[off + 1] as int * 4;
      if aLen == 0 || off + aLen > |pkt| {
        break;
      }
      if aTyp == typ {
        return Some(off);
      }
      off := off + aLen;
    }
    return None;
  }

  method InsertMAC(h: Hmac, pkt: array<Byte>, kAut: seq<Byte>)
    requires IsHmac(h) && MacRoom(pkt[..])
    modifies pkt
    ensures pkt[..] == Seal(h, kAut, old(pkt[..]))
  {
    hide Find;
    ghost var before := pkt[..];
    var found := FindAttr(pkt[..], AT_MAC);
    if found.None? {
      return;
    }
    var off, mac := found.value, ComputeMac(h, kAut, pkt[..]);
    for i := 0 to 16
      invariant forall j | 0 <= j < pkt.Length ::
                  pkt[j] == if off + 4 <= j < off + 4 + i then mac[j - off - 4] else before[j]
    {
      pkt[off + 4 + i] := mac[i];
    }
    assert pkt[..] == WriteMac(before, off, mac);
  }

  method VerifyMAC(h: Hmac, pkt: seq<Byte>, kAut: seq<Byte>) returns (ok: bool)
    requires IsHmac(h)
    ensures ok == Verifies(h, kAut, pkt)
  {
    hide Find;
    var found := FindAttr(pkt, AT_MAC);
    if found.None? || found.value + 20 > |pkt| {
      return false;
    }
    var off := found.value;
    var got := pkt[off + 4..off + 20];
    var clone := new Byte[|pkt|](i requires 0 <= i < |pkt| => pkt[i]);
    for i := 0 to 16
      invariant forall j | 0 <= j < |pkt| :: clone[j] == if off + 4 <= j < off + 4 + i then 0 else pkt[j]
    {
      clone[off + 4 + i] := 0;
    }
    assert clone[..] == WriteMac(pkt, off, ZeroOctets(16));
    var want := ComputeMac(h, kAut, clone[..]);
    return got == want;
  }

  /** What is extracted from any packet at all */
  lemma ExtractMeaning(pkt: seq<Byte>)
    ensures match Find(pkt, 3)
            case None => ExtractRes(pkt) == Err
            case Some(off) =>
              && off + 4 <= |pkt|
              && var n := (BE16(pkt[off + 2], pkt[off + 3]) + 7) % 0x1_0000 / 8;
              ExtractRes(pkt) == if off + 4 + n <= |pkt| then Ok(pkt[off + 4..off + 4 + n]) else Err
  {
    hide FindFrom, BE16;
    FoundInside(pkt, AT_RES);
  }

  method ExtractRES(pkt: seq<Byte>) returns (r: Result<seq<Byte>>)
    ensures r == ExtractRes(pkt)
  {
    hide Find, ResOctets;
    var found := FindAttr(pkt, AT_RES);
    if found.None? {
      return Err;
    }
    var off := found.value;
    FoundInside(pkt, AT_RES);
    var n := ResOctets(pkt[off + 2], pkt[off + 3]);
    if off + 4 + n > |pkt| {
      return Err;
    }
    return Ok(pkt[off + 4..off + 4 + n]);
  }

  lemma FoundInside(pkt: seq<Byte>, typ: Byte)
    ensures Find(pkt, typ).Some? ==> Find(pkt, typ).value + 4 <= |pkt|
  {
  }

  method ToArray(s: seq<Byte>) returns (a: array<Byte>)
    ensures fresh(a) && a[..] == s
  {
    a := new Byte[|s|](i requires 0 <= i < |s| => s[i]);
  }

  /** For every RES: up to 1016 octets the packet validates, verifies and gives
      the RES back; beyond, the truncated length octet decides. */
  method BuildResponse(h: Hmac, identifier: Byte, res: seq<Byte>, kAut: seq<Byte>) returns (pkt: seq<Byte>)
    requires IsHmac(h)
    ensures MacRoom(ResponseDraft(identifier, res))
    ensures Validates(pkt) <==> 28 + Size(ResAttr(res)) < 0x1_0000
    ensures Verifies(h, kAut, pkt) <==> MacHolds(h, kAut, ResponseDraft(identifier, res))
    ensures ExtractRes(pkt) == Ok(res) <==> ResSurvives(h, kAut, identifier, res)
    ensures Size(ResAttr(res)) % 1024 == 0 ==> !Verifies(h, kAut, pkt) && ExtractRes(pkt) == Err
    ensures |res| <= 1016 ==> Validates(pkt) && Verifies(h, kAut, pkt) && ExtractRes(pkt) == Ok(res)
    ensures |pkt| == 28 + (|res| + 7) / 4 * 4
    ensures pkt[..12] == [2, identifier, |pkt| / 256 % 256, |pkt| % 256, 50, 1, 0, 0,
                          3, (|res| + 7) / 4 % 256, |res| * 8 / 256 % 256, |res| * 8 % 256]
    ensures |res| <= 1016 ==> SealedOctets(h, kAut, pkt, 12, res)
  {
    hide Put, Find, ComputeMac, Seal, Size, MacRoom, MacHolds, ResSurvives, Verifies, Validates, ExtractRes,
         SealedOctets, ZeroOctets;
    ResponseHeader(identifier, res);
    var attrs := EncodeAttr(AT_RES, [|res| * 8 / 256 % 256, |res| * 8 % 256] + res);
    var macAttr := EncodeAttr(AT_MAC, [0, 0] + ZeroOctets(16));
    attrs := attrs + macAttr;
    var draft := Frame(CODE_RESPONSE, identifier, attrs);
    ResponseSize(res);
    assert draft == ResponseDraft(identifier, res);
    ResponseMeaning(h, kAut, identifier, res);
    if |res| <= 1016 {
      ShortResponse(h, kAut, identifier, res);
      SealedTail(h, kAut, draft, 12, res);
    }
    var buf := ToArray(draft);
    InsertMAC(h, buf, kAut);
    pkt := buf[..];
  }

  /** For every network name RAND, AUTN and KDF stay in place; up to 1016 octets
      the packet also validates and verifies with the name intact, and beyond,
      the truncated length octet decides. */
  method BuildChallenge(h: Hmac, identifier: Byte, rand: seq<Byte>, autn: seq<Byte>, name: seq<Byte>, kAut: seq<Byte>)
    returns (pkt: seq<Byte>)
    requires IsHmac(h) && |rand| == |autn| == 16
    ensures MacRoom(ChallengeDraft(identifier, rand, autn, name))
    ensures CarriesVector(pkt, rand, autn)
    ensures Validates(pkt) <==> 72 + Size(KdfInputAttr(name)) < 0x1_0000
    ensures Verifies(h, kAut, pkt) <==> MacHolds(h, kAut, ChallengeDraft(identifier, rand, autn, name))
    ensures Find(pkt, AT_KDF_INPUT) == Some(52) <==> Size(KdfInputAttr(name)) % 1024 != 0
    ensures |pkt| >= 56 + |name|
    ensures pkt[56..56 + |name|] == name <==> Spares(h, kAut, ChallengeDraft(identifier, rand, autn, name), 56 + |name|)
    ensures |name| <= 1016 ==> Validates(pkt) && Verifies(h, kAut, pkt) && pkt[56..56 + |name|] == name
    ensures |pkt| == 72 + (|name| + 7) / 4 * 4
    ensures pkt[..56] == [1, identifier, |pkt| / 256 % 256, |pkt| % 256, 50, 1, 0, 0]
                         + ([1, 5, 0, 0] + rand) + ([2, 5, 0, 0] + autn) + [24, 1, 0, 1]
                         + [23, (|name| + 7) / 4 % 256, |name| / 256 % 256, |name| % 256]
    ensures |name| <= 1016 ==> SealedOctets(h, kAut, pkt, 56, name)
  {
    hide Put, Find, ComputeMac, Seal, Size, MacRoom, MacHolds, Verifies, Validates, Spares, CarriesVector,
         ChallengeAttrs, SealedOctets, ZeroOctets;
    ChallengeHeader(identifier, rand, autn, name);
    var a1 := EncodeAttr(AT_RAND, [0, 0] + rand);
    var a2 := EncodeAttr(AT_AUTN, [0, 0] + autn);
    var a3 := EncodeAttr(AT_KDF, [0, 1]);
    var a4 := EncodeAttr(AT_KDF_INPUT, [|name| / 256 % 256, |name| % 256] + name);
    var a5 := EncodeAttr(AT_MAC, [0, 0] + ZeroOctets(16));
    var attrs := a1 + a2 + a3 + a4 + a5;
    var draft := Frame(CODE_REQUEST, identifier, attrs);
    ChallengeSize(rand, autn, name);
    assert attrs == (a1 + (a2 + (a3 + a4))) + a5;
    assert draft == ChallengeDraft(identifier, rand, autn, name);
    ChallengeMeaning(h, kAut, identifier, rand, autn, name);
    if |name| <= 1016 {
      ShortChallenge(h, kAut, identifier, rand, autn, name);
      SealedTail(h, kAut, draft, 56, name);
    }
    var buf := ToArray(draft);
    InsertMAC(h, buf, kAut);
    pkt := buf[..];
  }
}
