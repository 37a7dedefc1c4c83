/**
 The Service Request decoder (section 8.2.16 of TS 24.501), which recurses into
 NAS message containers.
 */
module ServiceRequest {
  import opened Wrappers
  import opened Machine
  import opened Bits
  import opened NasReader

  datatype Request = Request(
    serviceType: Byte, keySetIdentifier: Byte, keySetType: Byte, tmsi: U32,
    uplinkDataStatus: Option<U16>, pduSessionStatus: Option<U16>)

  const IEI_CONTAINER: Byte := 0x71
  const IEI_UPLINK_DATA_STATUS: Byte := 0x40
  const IEI_PDU_SESSION_STATUS: Byte := 0x50
  const EPD_MOBILITY: Byte := 0x7E
  const MSG_SERVICE_REQUEST: Byte := 0x4C

  // ---- specification ------------------------------------------------------

  function Header(combined: Byte, tmsi: U32): Request {
    Request(combined / 16, combined % 8, combined / 8 % 2, tmsi, None, None)
  }

  function TmsiOf(v: seq<Byte>): U32 {
    if |v| < 7 then 0 else BE16(v[3], v[4]) * 0x1_0000 + BE16(v[5], v[6])
  }

  /** The mandatory LV-E identity; a truncated one leaves the cursor after what
      could be read and the TMSI at zero. */
  function TakeTmsi(s: seq<Byte>): (r: (U32, seq<Byte>))
    ensures |r.1| <= |s|
  {
    if |s| < 2 then (0, [])
    else
      var (v, t) := TakeBytes(s[2..], BE16(s[0], s[1]));
      (TmsiOf(v), t)
  }

  /** Length-value after an IEI, one or two length octets; None when truncated */
  function TakeValue(s: seq<Byte>, wide: bool): (r: Option<(seq<Byte>, seq<Byte>)>)
    ensures r.Some? ==> |r.value.0| + |r.value.1| < |s|
  {
    if |s| < (if wide then 2 else 1) then None
    else
      var n: nat := if wide then BE16(s[0], s[1]) else s[0];
      var t := if wide then s[2..] else s[1..];
      if n > |t| then None else Some((t[..n], t[n..]))
  }

  predicate IsInner(v: seq<Byte>) {
    |v| >= 4 && v[0] == EPD_MOBILITY && v[2] == MSG_SERVICE_REQUEST
  }

  function Merge(r: Request, inner: Request): Request {
    r.(uplinkDataStatus := if inner.uplinkDataStatus.Some? then inner.uplinkDataStatus else r.uplinkDataStatus,
       pduSessionStatus := if inner.pduSessionStatus.Some? then inner.pduSessionStatus else r.pduSessionStatus)
  }

  function WithStatus(r: Request, iei: Byte, v: seq<Byte>): Request {
    if |v| < 2 then r
    else if iei == IEI_UPLINK_DATA_STATUS then r.(uplinkDataStatus := Some(BE16(v[0], v[1])))
    else if iei == IEI_PDU_SESSION_STATUS then r.(pduSessionStatus := Some(BE16(v[0], v[1])))
    else r
  }

  /** The optional IEs, up to the first truncated one */
  function DecodeIEs(r: Request, s: seq<Byte>): Request
    decreases |s|, 0
  {
    if |s| < 2 then r
    else
      match TakeValue(s[1..], s[0] == IEI_CONTAINER)
      case None => r
      case Some((v, t)) =>
        if s[0] == IEI_CONTAINER then
          DecodeIEs(if IsInner(v) then Merge(r, DecodeBody(v[3..])) else r, t)
        else DecodeIEs(WithStatus(r, s[0], v), t)
  }

  function DecodeBody(b: seq<Byte>): Request
    requires |b| >= 1
    decreases |b|, 1
  {
    var (tmsi, t) := TakeTmsi(b[1..]);
    DecodeIEs(Header(b[0], tmsi), t)
  }

  function Decode(b: seq<Byte>): Result<Request> {
    if |b| < 1 then Err else Ok(DecodeBody(b))
  }

  // ---- what the recursion means -------------------------------------------

  /** A truncated or nested optional part never changes the mandatory fields. */
  lemma {:induction false} HeaderKept(r: Request, s: seq<Byte>)
    ensures DecodeIEs(r, s).(uplinkDataStatus := None, pduSessionStatus := None)
         == r.(uplinkDataStatus := None, pduSessionStatus := None)
    decreases |s|
  {
    hide DecodeBody, TakeValue;
    if |s| >= 2 {
      match TakeValue(s[1..], s[0] == IEI_CONTAINER)
      case None =>
      case Some((v, t)) =>
        if s[0] == IEI_CONTAINER {
          HeaderKept(if IsInner(v) then Merge(r, DecodeBody(v[3..])) else r, t);
        } else {
          HeaderKept(WithStatus(r, s[0], v), t);
        }
    }
  }

  /** The octets of a body: service type and key set, identity, optional IEs */
  function Body(combined: Byte, identity: seq<Byte>, ies: seq<Byte>): seq<Byte>
    requires |identity| < 0x1_0000
  {
    [combined, |identity| / 256, |identity| % 256] + identity + ies
  }

  /** A NAS message container holding a complete plain Service Request */
  function Container(securityHeader: Byte, body: seq<Byte>): seq<Byte>
    requires |body| + 3 < 0x1_0000
  {
    [IEI_CONTAINER, (|body| + 3) / 256, (|body| + 3) % 256]
    + ([EPD_MOBILITY, securityHeader, MSG_SERVICE_REQUEST] + body)
  }

  function Status(iei: Byte, mask: U16): seq<Byte> {
    [iei, 2, mask / 256, mask % 256]
  }

  /** The first octet read as service type, key set type and key set, from the left;
      the TMSI is octets 3 to 6 of an identity of at least seven, else zero; no
      status yet */
  predicate ShowsHeader(r: Request, combined: Byte, identity: seq<Byte>) {
    && combined as int == r.serviceType as int * 16 + r.keySetType as int * 8 + r.keySetIdentifier as int
    && r.keySetType < 2 && r.keySetIdentifier < 8
    && r.tmsi == (if |identity| < 7 then 0
                  else identity[3] as int * 0x100_0000 + identity[4] as int * 0x1_0000
                       + identity[5] as int * 0x100 + identity[6] as int)
  }

  lemma HeaderShows(combined: Byte, identity: seq<Byte>)
    ensures ShowsHeader(Header(combined, TmsiOf(identity)), combined, identity)
  {
    hide BE16;
    var high, low := combined / 8, combined % 8;
    assert combined as int == (high / 2 * 2 + high % 2) * 8 + low && combined / 16 == high / 2;
    if |identity| >= 7 { FourOctets(identity[3], identity[4], identity[5], identity[6]); }
  }

  lemma FourOctets(a: Byte, b: Byte, c: Byte, d: Byte)
    ensures BE16(a, b) * 0x1_0000 + BE16(c, d)
         == a as int * 0x100_0000 + b as int * 0x1_0000 + c as int * 0x100 + d as int
  {
  }

  /** Key set, service type and identity are read back, and then the optional
      elements from exactly where the identity ends. */
  lemma BodyDecodes(combined: Byte, identity: seq<Byte>, ies: seq<Byte>)
    requires |identity| < 0x1_0000
    ensures DecodeBody(Body(combined, identity, ies)) == DecodeIEs(Header(combined, TmsiOf(identity)), ies)
    ensures ShowsHeader(DecodeBody(Body(combined, identity, ies)), combined, identity)
  {
    hide DecodeIEs, Header, TmsiOf;
    var b := Body(combined, identity, ies);
    assert b[1..][2..] == identity + ies;
    assert (identity + ies)[..|identity|] == identity && (identity + ies)[|identity|..] == ies;
    assert BE16(b[1], b[2]) == |identity|;
    HeaderShows(combined, identity);
    HeaderKept(Header(combined, TmsiOf(identity)), ies);
  }

  /** An identity that is not all there: the TMSI is zero, and what there is of it
      is read as optional elements. */
  lemma CutBodyDecodes(combined: Byte, header: seq<Byte>, k: seq<Byte>)
    requires |header| <= 2 && (if |header| < 2 then k == [] else BE16(header[0], header[1]) > |k|)
    ensures DecodeBody([combined] + header + k) == DecodeIEs(Header(combined, 0), k)
    ensures ShowsHeader(DecodeBody([combined] + header + k), combined, [])
  {
    hide DecodeIEs, Header, TmsiOf;
    var b := [combined] + header + k;
    assert b[1..] == header + k;
    if |header| == 2 { assert (header + k)[2..] == k; }
    assert TmsiOf([]) == 0 by { NoTmsi(); }
    HeaderShows(combined, []);
    HeaderKept(Header(combined, 0), k);
  }

  lemma NoTmsi()
    ensures TmsiOf([]) == 0
  {
  }

  // ---- every octet string is a list of elements ----------------------------------

  /** An optional element; only the container has a two-octet length. */
  datatype Element = Element(iei: Byte, content: seq<Byte>) {
    predicate Wf() {
      |content| < if iei == 0x71 then 0x1_0000 else 0x100
    }
  }

  function LengthOctets(iei: Byte, n: nat): seq<Byte>
    requires n < if iei == 0x71 then 0x1_0000 else 0x100
  {
    if iei == 0x71 then [n / 256, n % 256] else [n]
  }

  function PutElement(e: Element): seq<Byte>
    requires e.Wf()
  {
    [e.iei] + LengthOctets(e.iei, |e.content|) + e.content
  }

  function PutElements(es: seq<Element>): seq<Byte>
    requires forall i | 0 <= i < |es| :: es[i].Wf()
  {
    if es == [] then [] else PutElement(es[0]) + PutElements(es[1..])
  }

  /** Where decoding ends: no room for an element, or for the value it announces */
  predicate Stops(s: seq<Byte>) {
    || |s| < 2
    || (s[0] != 0x71 && s[1] as int > |s| - 2)
    || (s[0] == 0x71 && (|s| < 3 || BE16(s[1], s[2]) > |s| - 3))
  }

  /** What an element does to the request */
  function Apply(r: Request, e: Element): Request {
    match e.iei
    case 0x40 => if |e.content| >= 2 then r.(uplinkDataStatus := Some(BE16(e.content[0], e.content[1]))) else r
    case 0x50 => if |e.content| >= 2 then r.(pduSessionStatus := Some(BE16(e.content[0], e.content[1]))) else r
    case 0x71 =>
      if |e.content| >= 4 && e.content[0] == 0x7E && e.content[2] == 0x4C then
        var inner := DecodeBody(e.content[3..]);
        var u := if inner.uplinkDataStatus.Some? then r.(uplinkDataStatus := inner.uplinkDataStatus) else r;
        if inner.pduSessionStatus.Some? then u.(pduSessionStatus := inner.pduSessionStatus) else u
      else r
    case _ => r
  }

  function ApplyAll(r: Request, es: seq<Element>): Request
    decreases |es|
  {
    if es == [] then r else ApplyAll(Apply(r, es[0]), es[1..])
  }

  lemma TakesValue(iei: Byte, content: seq<Byte>, k: seq<Byte>)
    requires Element(iei, content).Wf()
    ensures TakeValue(LengthOctets(iei, |content|) + content + k, iei == 0x71) == Some((content, k))
  {
    var n := |content|;
    var s := LengthOctets(iei, n) + content + k;
    assert s[if iei == 0x71 then 2 else 1..] == content + k;
    assert (content + k)[..n] == content && (content + k)[n..] == k;
    if iei == 0x71 { assert BE16(n / 256, n % 256) == n; }
  }

  lemma ElementDecodes(r: Request, e: Element, k: seq<Byte>)
    requires e.Wf()
    ensures DecodeIEs(r, PutElement(e) + k) == DecodeIEs(Apply(r, e), k)
  {
    hide DecodeBody, TakeValue, BE16;
    var s := PutElement(e) + k;
    assert |s| >= 2 && s[0] == e.iei;
    assert s[1..] == LengthOctets(e.iei, |e.content|) + e.content + k;
    TakesValue(e.iei, e.content, k);
  }

  lemma StopsHere(r: Request, s: seq<Byte>)
    requires Stops(s)
    ensures DecodeIEs(r, s) == r
  {
    hide BE16;
  }

  /** Decoding any list of elements, in any order and number, gives each its
      meaning in turn, up to the first that is cut off. */
  lemma {:induction false} ElementsInvert(r: Request, es: seq<Element>, tail: seq<Byte>)
    requires (forall i | 0 <= i < |es| :: es[i].Wf()) && Stops(tail)
    ensures DecodeIEs(r, PutElements(es) + tail) == ApplyAll(r, es)
    decreases |es|
  {
    hide DecodeIEs, Apply, Stops, PutElement;
    if es == [] {
      assert PutElements(es) + tail == tail;
      StopsHere(r, tail);
    } else {
      var rest := PutElements(es[1..]);
      assert PutElements(es) + tail == PutElement(es[0]) + (rest + tail);
      ElementDecodes(r, es[0], rest + tail);
      ElementsInvert(Apply(r, es[0]), es[1..], tail);
    }
  }

  /** There is nothing else: every octet string is such a list. */
  lemma {:induction false} EveryStringIsElements(s: seq<Byte>) returns (es: seq<Element>, tail: seq<Byte>)
    ensures (forall i | 0 <= i < |es| :: es[i].Wf()) && Stops(tail) && PutElements(es) + tail == s
    decreases |s|
  {
    if Stops(s) {
      es, tail := [], s;
    } else {
      var e, k := FirstElement(s);
      hide PutElement;
      var rest: seq<Element>;
      rest, tail := EveryStringIsElements(k);
      es := [e] + rest;
      assert es[1..] == rest;
      assert PutElements(es) + tail == PutElement(e) + (PutElements(rest) + tail);
    }
  }

  lemma FirstElement(s: seq<Byte>) returns (e: Element, k: seq<Byte>)
    requires !Stops(s)
    ensures e.Wf() && PutElement(e) + k == s && |k| < |s|
  {
    var m := if s[0] == 0x71 then 2 else 1;
    var n := if s[0] == 0x71 then BE16(s[1], s[2]) else s[1] as int;
    e, k := Element(s[0], s[1 + m..1 + m + n]), s[1 + m + n..];
    assert s[1..1 + m] == LengthOctets(s[0], n);
    assert s == [s[0]] + s[1..1 + m] + s[1 + m..1 + m + n] + k;
  }

  lemma StatusDecodes(r: Request, iei: Byte, mask: U16, k: seq<Byte>)
    requires iei == IEI_UPLINK_DATA_STATUS || iei == IEI_PDU_SESSION_STATUS
    ensures DecodeIEs(r, Status(iei, mask) + k)
         == DecodeIEs(if iei == IEI_UPLINK_DATA_STATUS then r.(uplinkDataStatus := Some(mask))
                      else r.(pduSessionStatus := Some(mask)), k)
  {
    hide DecodeBody;
    var s, v := Status(iei, mask) + k, [mask / 256, mask % 256];
    assert s[1..][1..] == v + k;
    assert (v + k)[..2] == v && (v + k)[2..] == k;
    assert TakeValue(s[1..], false) == Some((v, k));
    assert BE16(v[0], v[1]) == mask;
  }

  /** A container contributes exactly the statuses of the message inside it. */
  lemma ContainerDecodes(r: Request, securityHeader: Byte, body: seq<Byte>, k: seq<Byte>)
    requires 1 <= |body| < 0x1_0000 - 3
    ensures DecodeIEs(r, Container(securityHeader, body) + k) == DecodeIEs(Merge(r, DecodeBody(body)), k)
  {
    hide DecodeBody, Merge;
    var inner := [EPD_MOBILITY, securityHeader, MSG_SERVICE_REQUEST] + body;
    var s := Container(securityHeader, body) + k;
    assert s[1..][2..] == inner + k;
    assert (inner + k)[..|inner|] == inner && (inner + k)[|inner|..] == k;
    assert BE16(s[1], s[2]) == |inner|;
    assert TakeValue(s[1..], true) == Some((inner, k));
    assert inner[3..] == body;
  }

  datatype Layer = Layer(combined: Byte, identity: seq<Byte>, securityHeader: Byte)

  function NestSize(layers: seq<Layer>, core: seq<Byte>): nat {
    if layers == [] then |core| else 9 + |layers[0].identity| + NestSize(layers[1..], core)
  }

  /** Every level fits its two-octet lengths. */
  predicate NestFits(layers: seq<Layer>, core: seq<Byte>) {
    layers != [] ==>
      && |layers[0].identity| < 0x1_0000
      && NestSize(layers[1..], core) < 0x1_0000 - 3
      && NestFits(layers[1..], core)
  }

  /** core inside one container per layer, the first layer outermost */
  function Nest(layers: seq<Layer>, core: seq<Byte>): (b: seq<Byte>)
    requires NestFits(layers, core)
    ensures |b| == NestSize(layers, core)
  {
    if layers == [] then core
    else Body(layers[0].combined, layers[0].identity, Container(layers[0].securityHeader, Nest(layers[1..], core)))
  }

  /** At any nesting depth the innermost message supplies both statuses, and the
      outermost supplies everything else. */
  lemma {:induction false} NestedStatuses(layers: seq<Layer>, core: seq<Byte>)
    requires layers != [] && NestFits(layers, core) && |core| >= 1
    ensures var r := DecodeBody(Nest(layers, core));
            && ShowsHeader(r, layers[0].combined, layers[0].identity)
            && r.uplinkDataStatus == DecodeBody(core).uplinkDataStatus
            && r.pduSessionStatus == DecodeBody(core).pduSessionStatus
    decreases |layers|
  {
    hide DecodeBody, DecodeIEs, Body, Container, TmsiOf, ShowsHeader;
    var l, inner := layers[0], Nest(layers[1..], core);
    assert |inner| >= 1;
    var h := Header(l.combined, TmsiOf(l.identity));
    BodyDecodes(l.combined, l.identity, Container(l.securityHeader, inner));
    ContainerDecodes(h, l.securityHeader, inner, []);
    assert Container(l.securityHeader, inner) + [] == Container(l.securityHeader, inner);
    NoIEs(Merge(h, DecodeBody(inner)));
    if |layers| > 1 {
      NestedStatuses(layers[1..], core);
    }
  }

  lemma NoIEs(r: Request)
    ensures DecodeIEs(r, []) == r
  {
  }

  // ---- the code -----------------------------------------------------------

  method ReadTmsi(rdr: Reader) returns (tmsi: U32)
    requires rdr.Valid()
    modifies rdr
    ensures rdr.Valid() && (tmsi, rdr.Rest()) == TakeTmsi(old(rdr.Rest()))
  {
    tmsi := 0;
    var hi, ok := rdr.ReadByte();
    if ok {
      var lo, ok2 := rdr.ReadByte();
      if ok2 {
        var val, ok3 := rdr.ReadBytes(BE16(hi, lo));
        if ok3 && |val| >= 7 {
          tmsi := BE16(val[3], val[4]) * 0x1_0000 + BE16(val[5], val[6]);
        }
      }
    }
  }

  method ReadValue(rdr: Reader, wide: bool) returns (v: Option<seq<Byte>>)
    requires rdr.Valid()
    modifies rdr
    ensures rdr.Valid()
    ensures v.Some? == TakeValue(old(rdr.Rest()), wide).Some?
    ensures v.Some? ==> (v.value, rdr.Rest()) == TakeValue(old(rdr.Rest()), wide).value
  {
    var length: nat;
    if wide {
      var hi, ok := rdr.ReadByte();
      if !ok {
        return None;
      }
      var lo, ok2 := rdr.ReadByte();
      if !ok2 {
        return None;
      }
      length := BE16(hi, lo);
    } else {
      var l, ok := rdr.ReadByte();
      if !ok {
        return None;
      }
      length := l;
    }
    var val, ok := rdr.ReadBytes(length);
    if !ok {
      return None;
    }
    return Some(val);
  }

  /** Total on every byte string: it terminates, stays in bounds and fails only
      on the empty body. */
  method DecodeServiceRequest(b: seq<Byte>) returns (res: Result<Request>)
    ensures res == Decode(b) && (res.Err? <==> b == [])
    decreases |b|
  {
    hide TakeTmsi, TakeValue, Header;
    if |b| < 1 {
      return Err;
    }
    var rdr := new Reader(b);
    var combined, _ := rdr.ReadByte();
    var tmsi := ReadTmsi(rdr);
    var r := Header(combined, tmsi);
    while rdr.Len() >= 2
      invariant rdr.Valid() && |rdr.Rest()| < |b|
      invariant DecodeIEs(r, rdr.Rest()) == DecodeBody(b)
      decreases |rdr.Rest()|
    {
      var iei, _ := rdr.ReadByte();
      var v := ReadValue(rdr, iei == IEI_CONTAINER);
      if v.None? {
        break;
      }
      if iei == IEI_CONTAINER {
        if IsInner(v.value) {
          var inner := DecodeServiceRequest(v.value[3..]);
          if inner.Ok? {
            r := Merge(r, inner.value);
          }
        }
        continue;
      }
      r := WithStatus(r, iei, v.value);
    }
    return Ok(r);
  }
}
