/**
 The UE's PDU Session Establishment Request (section 8.3.1 of TS 24.501) as far
 as its extended protocol configuration options are concerned, and the reply to
 them in the Accept.
 */
module PduSession {
  import opened Wrappers
  import opened Machine
  import opened Bits
  import opened NasReader
  import Epco

  /** An absent EPCO is the empty sequence, as in the Go struct. */
  datatype Request = Request(
    dataRate: seq<Byte>, sessionType: Option<Byte>, sscMode: Option<Byte>,
    epco: seq<Byte>, ipcp: Option<Epco.IpcpRequest>, protocolOctet: Byte, ids: seq<U16>)

  const EMPTY := Request([0, 0], None, None, [], None, 0, [])

  /** Panic is the out-of-range slice on an IPCP length below 4. */
  datatype Outcome = Panic | Short | Decoded(request: Request)

  // ---- decoding -----------------------------------------------------------

  function WithEpco(m: Request, v: seq<Byte>): Option<Request> {
    var cs := Epco.Parse(v);
    if !Epco.RequestParsable(cs) then None
    else Some(m.(epco := v, ipcp := Epco.RequestIpcp(cs), protocolOctet := if v == [] then m.protocolOctet else v[0],
                 ids := m.ids + Epco.Ids(cs)))
  }

  /** The element starting at s[0]: the updated request, or None for a panic, and
      the octets left */
  function Step(m: Request, s: seq<Byte>): (r: (Option<Request>, seq<Byte>))
    requires s != []
    ensures |r.1| < |s|
  {
    var iei, t := s[0], s[1..];
    if iei / 16 == 0x9 then (Some(m.(sessionType := Some(iei % 16))), t)
    else if iei / 16 == 0xA then (Some(m.(sscMode := Some(iei % 16))), t)
    else if iei / 16 == 0xB then (Some(m), t)
    else if iei == 0x7B then
      var (v, u) := TakeLvE(t);
      (WithEpco(m, v), u)
    else if iei == 0x55 then (Some(m), TakeBytes(t, 2).1)
    else (Some(m), TakeLv(t).1)
  }

  function DecodeFrom(m: Request, s: seq<Byte>): Option<Request>
    decreases |s|
  {
    if s == [] then Some(m)
    else
      match Step(m, s)
      case (None, _) => None
      case (Some(m'), t) => DecodeFrom(m', t)
  }

  function Decode(b: seq<Byte>): Outcome {
    if b == [] then Decoded(EMPTY)
    else if |b| < 2 then Short
    else
      match DecodeFrom(EMPTY.(dataRate := b[..2]), b[2..])
      case None => Panic
      case Some(m) => Decoded(m)
  }

  // ---- which requests panic -----------------------------------------------

  /** The octets after the first element: framing does not depend on what has
      been decoded so far. */
  function After(s: seq<Byte>): (t: seq<Byte>)
    requires s != []
    ensures |t| < |s|
  {
    Step(EMPTY, s).1
  }

  /** The values of the options elements, in order */
  function Values(s: seq<Byte>): seq<seq<Byte>>
    decreases |s|
  {
    if s == [] then []
    else (if s[0] == 0x7B then [TakeLvE(s[1..]).0] else []) + Values(After(s))
  }

  /** The last IPCP container of the value is a Configure-Request that declares
      fewer octets than its own header. */
  predicate Unparsable(v: seq<Byte>) {
    !Epco.RequestParsable(Epco.Parse(v))
  }

  predicate AnyUnparsable(vs: seq<seq<Byte>>) {
    exists i :: 0 <= i < |vs| && Unparsable(vs[i])
  }

  lemma AnyUnparsableConcat(us: seq<seq<Byte>>, vs: seq<seq<Byte>>)
    ensures AnyUnparsable(us + vs) <==> AnyUnparsable(us) || AnyUnparsable(vs)
  {
    hide Unparsable;
    if i :| 0 <= i < |us| && Unparsable(us[i]) { assert (us + vs)[i] == us[i]; }
    if i :| 0 <= i < |vs| && Unparsable(vs[i]) { assert (us + vs)[|us| + i] == vs[i]; }
    if i :| 0 <= i < |us + vs| && Unparsable((us + vs)[i]) {
      if i >= |us| { assert vs[i - |us|] == (us + vs)[i]; } else { assert us[i] == (us + vs)[i]; }
    }
  }

  lemma StepPanics(m: Request, s: seq<Byte>)
    requires s != []
    ensures Step(m, s).1 == After(s)
    ensures Step(m, s).0.None? <==> s[0] == 0x7B && Unparsable(TakeLvE(s[1..]).0)
  {
    hide TakeLv, TakeLvE, Epco.Parse, Epco.RequestParsable;
  }

  lemma {:induction false} StepsPanic(m: Request, s: seq<Byte>)
    ensures DecodeFrom(m, s).None? <==> AnyUnparsable(Values(s))
    decreases |s|
  {
    hide Step, TakeLvE, Unparsable, After;
    if s != [] {
      StepPanics(m, s);
      var v, t := TakeLvE(s[1..]).0, After(s);
      AnyUnparsableConcat(if s[0] == 0x7B then [v] else [], Values(t));
      assert AnyUnparsable([v]) <==> Unparsable(v) by { assert Unparsable(v) ==> Unparsable([v][0]); }
      if Step(m, s).0.Some? { StepsPanic(Step(m, s).0.value, t); }
    }
  }

  /** On any octets at all, the decoder panics exactly when the value of one of
      the options elements it meets is unparsable. */
  lemma DecodePanics(b: seq<Byte>)
    ensures Decode(b).Panic? <==> |b| >= 2 && AnyUnparsable(Values(b[2..]))
  {
    if |b| >= 2 { StepsPanic(EMPTY.(dataRate := b[..2]), b[2..]); }
  }

  // ---- every octet string is a list of elements ----------------------------------

  /** How a request is cut into elements.  `Options` are protocol configuration
      options with the containers `cs` and octets too few for another one;
      `Empty` is an element whose value is empty or not all there, in which case
      what there is of it is read as further elements. */
  datatype Element =
    | Half(high: Byte, value: Byte)
    | Filters(hi: Byte, lo: Byte)
    | Options(octet: Byte, cs: seq<Epco.Container>, tail: seq<Byte>)
    | Other(iei: Byte, content: seq<Byte>)
    | Empty(iei: Byte, header: seq<Byte>)
  {
    predicate Wf(k: seq<Byte>) {
      match this
      case Half(high, value) => 0x9 <= high <= 0xB && value < 16
      case Filters(_, _) => true
      case Options(octet, cs, tail) => Epco.Fit(cs) && Epco.Stops(tail) && |OptionsValue(octet, cs, tail)| < 0x1_0000
      case Other(iei, content) => iei != 0x7B && iei != 0x55 && !(0x9 <= iei / 16 <= 0xB) && |content| <= 255
      case Empty(iei, header) =>
        && !(0x9 <= iei / 16 <= 0xB)
        && if iei == 0x55 then header == [] && |k| < 2
           else NoValue(header, LengthOctets(iei), k)
    }
  }

  function LengthOctets(iei: Byte): nat {
    if iei == 0x7B then 2 else 1
  }

  function OptionsValue(octet: Byte, cs: seq<Epco.Container>, tail: seq<Byte>): seq<Byte> {
    [octet] + (Epco.PutAll(cs) + tail)
  }

  function Put(e: Element, k: seq<Byte>): seq<Byte>
    requires e.Wf(k)
  {
    match e
    case Half(high, value) => [high * 16 + value] + k
    case Filters(hi, lo) => [0x55, hi, lo] + k
    case Options(octet, cs, tail) =>
      var v := OptionsValue(octet, cs, tail);
      [0x7B, |v| / 256, |v| % 256] + v + k
    case Other(iei, content) => [iei, |content|] + content + k
    case Empty(iei, header) => [iei] + header + k
  }

  predicate AllWf(es: seq<Element>)
    decreases |es|, 0
  {
    es == [] || (AllWf(es[1..]) && es[0].Wf(PutAll(es[1..])))
  }

  function PutAll(es: seq<Element>): seq<Byte>
    requires AllWf(es)
    decreases |es|, 1
  {
    if es == [] then [] else Put(es[0], PutAll(es[1..]))
  }

  /** What an element means for the request */
  function Apply(m: Request, e: Element): Option<Request> {
    match e
    case Half(0x9, value) => Some(m.(sessionType := Some(value)))
    case Half(0xA, value) => Some(m.(sscMode := Some(value)))
    case Options(octet, cs, tail) =>
      if !Epco.RequestParsable(cs) then None
      else Some(m.(epco := OptionsValue(octet, cs, tail), ipcp := Epco.RequestIpcp(cs), protocolOctet := octet,
                   ids := m.ids + Epco.Ids(cs)))
    case Empty(0x7B, _) => Some(m.(epco := [], ipcp := None))
    case _ => Some(m)
  }

  function ApplyAll(m: Request, es: seq<Element>): Option<Request>
    decreases |es|
  {
    if es == [] then Some(m)
    else
      match Apply(m, es[0])
      case None => None
      case Some(m') => ApplyAll(m', es[1..])
  }

  lemma OptionsStep(m: Request, octet: Byte, cs: seq<Epco.Container>, tail: seq<Byte>, k: seq<Byte>)
    requires Options(octet, cs, tail).Wf(k)
    ensures var e := Options(octet, cs, tail);
            Put(e, k) != [] && Step(m, Put(e, k)) == (Apply(m, e), k)
  {
    hide TakeLv, TakeLvE, Epco.PutAll, Epco.Parse, Epco.RequestParsable, Epco.Fit, OptionsValue;
    var v, s := OptionsValue(octet, cs, tail), Put(Options(octet, cs, tail), k);
    TakesLvE(v, k);
    assert s[1..] == [|v| / 256, |v| % 256] + v + k;
    ReadsOptions(octet, cs, tail);
  }

  lemma OtherStep(m: Request, iei: Byte, content: seq<Byte>, k: seq<Byte>)
    requires Other(iei, content).Wf(k)
    ensures var e := Other(iei, content);
            Put(e, k) != [] && Step(m, Put(e, k)) == (Apply(m, e), k)
  {
    hide TakeLv, TakeLvE;
    TakesLv(content, k);
    assert Put(Other(iei, content), k)[1..] == [|content|] + content + k;
  }

  lemma EmptyStep(m: Request, iei: Byte, header: seq<Byte>, k: seq<Byte>)
    requires Empty(iei, header).Wf(k)
    ensures var e := Empty(iei, header);
            Put(e, k) != [] && Step(m, Put(e, k)) == (Apply(m, e), k)
  {
    hide TakeLv, TakeLvE, NoValue, WithEpco;
    assert Put(Empty(iei, header), k)[1..] == header + k;
    if iei == 0x55 {
      assert header + k == k;
    } else {
      TakesNothing(header, k);
      NoContainers(m);
    }
  }

  lemma StepInverts(m: Request, e: Element, k: seq<Byte>)
    requires e.Wf(k)
    ensures Put(e, k) != [] && Step(m, Put(e, k)) == (Apply(m, e), k)
  {
    match e
    case Half(high, value) =>
      var s := Put(e, k);
      assert s[1..] == k && s[0] / 16 == high && s[0] % 16 == value;
    case Filters(hi, lo) =>
      assert Put(e, k)[1..] == [hi, lo] + k && ([hi, lo] + k)[2..] == k;
    case Options(octet, cs, tail) =>
      hide Step, Put, Apply;
      OptionsStep(m, octet, cs, tail, k);
    case Other(iei, content) =>
      hide Step, Put, Apply;
      OtherStep(m, iei, content, k);
    case Empty(iei, header) =>
      hide Step, Put, Apply;
      EmptyStep(m, iei, header, k);
  }

  lemma ReadsOptions(octet: Byte, cs: seq<Epco.Container>, tail: seq<Byte>)
    requires Epco.Fit(cs) && Epco.Stops(tail)
    ensures var v := OptionsValue(octet, cs, tail);
            v != [] && v[0] == octet && Epco.Parse(v) == cs
  {
    hide Epco.PutAll, Epco.ParseList, Epco.Fit, Epco.Stops;
    Epco.ParsePutAll(cs, tail);
    assert OptionsValue(octet, cs, tail)[1..] == Epco.PutAll(cs) + tail;
  }

  lemma NoContainers(m: Request)
    ensures WithEpco(m, []) == Some(m.(epco := [], ipcp := None))
  {
    assert Epco.Parse([]) == [] && Epco.Ids([]) == [] && m.ids + [] == m.ids;
  }

  /** Decoding any list of elements, in any order and number, gives each its
      meaning in turn, and panics exactly when an IPCP request declares a length
      below its own header. */
  lemma {:induction false} ElementsInvert(m: Request, es: seq<Element>)
    requires AllWf(es)
    ensures DecodeFrom(m, PutAll(es)) == ApplyAll(m, es)
    decreases |es|
  {
    hide Put, Step, Apply;
    if es != [] {
      StepInverts(m, es[0], PutAll(es[1..]));
      if Apply(m, es[0]).Some? { ElementsInvert(Apply(m, es[0]).value, es[1..]); }
    }
  }

  /** There is nothing else: every octet string is such a list. */
  lemma {:induction false} EveryStringIsElements(s: seq<Byte>) returns (es: seq<Element>)
    ensures AllWf(es) && PutAll(es) == s
    decreases |s|
  {
    if s == [] {
      es := [];
    } else {
      var e, k := FirstElement(s);
      var rest := EveryStringIsElements(k);
      hide Put;
      es := [e] + rest;
      assert es[1..] == rest;
    }
  }

  lemma FirstElement(s: seq<Byte>) returns (e: Element, k: seq<Byte>)
    requires s != []
    ensures e.Wf(k) && Put(e, k) == s && |k| < |s|
  {
    var iei := s[0];
    var m := LengthOctets(iei);
    if 0x9 <= iei / 16 <= 0xB {
      e, k := Half(iei / 16, iei % 16), s[1..];
    } else if iei == 0x55 {
      if |s| < 3 {
        e, k := Empty(iei, []), s[1..];
      } else {
        e, k := Filters(s[1], s[2]), s[3..];
      }
    } else if |s| < 1 + m {
      e, k := Empty(iei, s[1..]), [];
    } else {
      e, k := FirstValue(s);
    }
  }

  lemma FirstValue(s: seq<Byte>) returns (e: Element, k: seq<Byte>)
    requires s != [] && !(0x9 <= s[0] / 16 <= 0xB) && s[0] != 0x55 && |s| >= 1 + LengthOctets(s[0])
    ensures e.Wf(k) && Put(e, k) == s && |k| < |s|
  {
    hide Epco.PutAll, Epco.Fit, Epco.Stops, OptionsValue;
    var iei, m := s[0], LengthOctets(s[0]);
    var header, rest := s[1..1 + m], s[1 + m..];
    var n := Announced(header);
    assert s == [iei] + header + rest;
    if n == 0 || n > |rest| {
      e, k := Empty(iei, header), rest;
    } else if iei == 0x7B {
      k := rest[n..];
      e := OptionsOf(rest[..n]);
      assert header == [n / 256, n % 256];
      assert s == [0x7B, n / 256, n % 256] + rest[..n] + k;
    } else {
      e, k := Other(iei, rest[..n]), rest[n..];
      assert s == [iei, n] + rest[..n] + k;
    }
  }

  lemma OptionsOf(v: seq<Byte>) returns (e: Element)
    requires v != []
    ensures e.Options? && Epco.Fit(e.cs) && Epco.Stops(e.tail) && OptionsValue(e.octet, e.cs, e.tail) == v
  {
    hide Epco.PutAll, Epco.Fit, Epco.Stops;
    var cs, tail := EveryValueIsContainers(v[1..]);
    e := Options(v[0], cs, tail);
  }

  lemma {:induction false} EveryValueIsContainers(b: seq<Byte>) returns (cs: seq<Epco.Container>, tail: seq<Byte>)
    ensures Epco.Fit(cs) && Epco.Stops(tail) && Epco.PutAll(cs) + tail == b
    decreases |b|
  {
    if Epco.Stops(b) {
      cs, tail := [], b;
    } else {
      var l := b[2] as int;
      var c := Epco.Container(BE16(b[0], b[1]), b[3..3 + l]);
      var rest: seq<Epco.Container>;
      rest, tail := EveryValueIsContainers(b[3 + l..]);
      cs := [c] + rest;
      assert cs[1..] == rest;
      assert Epco.Put(c) + b[3 + l..] == b;
      assert Epco.PutAll(cs) + tail == Epco.Put(c) + (Epco.PutAll(rest) + tail);
    }
  }

  lemma {:induction false} ApplyConcat(m: Request, es: seq<Element>, fs: seq<Element>)
    ensures ApplyAll(m, es + fs)
         == match ApplyAll(m, es) case None => None case Some(m') => ApplyAll(m', fs)
    decreases |es|
  {
    hide Apply;
    if es == [] {
      assert es + fs == fs;
    } else {
      assert (es + fs)[1..] == es[1..] + fs;
      if Apply(m, es[0]).Some? { ApplyConcat(Apply(m, es[0]).value, es[1..], fs); }
    }
  }

  predicate NoOptions(es: seq<Element>) {
    forall i | 0 <= i < |es| :: !es[i].Options? && !(es[i].Empty? && es[i].iei == 0x7B)
  }

  predicate SameOptions(m: Request, m': Request) {
    m.epco == m'.epco && m.ipcp == m'.ipcp && m.protocolOctet == m'.protocolOctet && m.ids == m'.ids
  }

  lemma {:induction false} OthersKeepOptions(m: Request, es: seq<Element>)
    requires NoOptions(es)
    ensures ApplyAll(m, es).Some? && SameOptions(ApplyAll(m, es).value, m)
    decreases |es|
  {
    if es != [] {
      assert !es[0].Options? && !(es[0].Empty? && es[0].iei == 0x7B);
      OthersKeepOptions(Apply(m, es[0]).value, es[1..]);
    }
  }

  /** The elements of a request, the options among them */
  function Elements(pre: seq<Element>, octet: Byte, cs: seq<Epco.Container>, tail: seq<Byte>, post: seq<Element>)
    : seq<Element>
  {
    pre + [Options(octet, cs, tail)] + post
  }

  /** Wherever the options stand among the other elements, the request shows the
      UE's container IDs in its order, its IPCP request and its protocol octet,
      unless the IPCP length is below 4. */
  lemma RequestShowsOptions(rate: seq<Byte>, pre: seq<Element>, octet: Byte, cs: seq<Epco.Container>,
                            tail: seq<Byte>, post: seq<Element>)
    requires |rate| == 2 && NoOptions(pre) && NoOptions(post) && AllWf(Elements(pre, octet, cs, tail, post))
    ensures var b := rate + PutAll(Elements(pre, octet, cs, tail, post));
            if Epco.RequestParsable(cs) then
              && Decode(b).Decoded?
              && var m := Decode(b).request;
              && m.dataRate == rate
              && m.ids == Epco.Ids(cs) && m.ipcp == Epco.RequestIpcp(cs) && m.protocolOctet == octet
            else Decode(b) == Panic
  {
    hide Put, Step, DecodeFrom, Epco.Ids, Epco.RequestIpcp, Epco.RequestParsable, PutAll, AllWf;
    var e, es := Options(octet, cs, tail), Elements(pre, octet, cs, tail, post);
    var b, m0 := rate + PutAll(es), EMPTY.(dataRate := rate);
    assert b[..2] == rate && b[2..] == PutAll(es);
    ElementsInvert(m0, es);
    ApplyConcat(m0, pre + [e], post);
    ApplyConcat(m0, pre, [e]);
    OthersKeepOptions(m0, pre);
    RateKept(m0, es);
    var m1 := ApplyAll(m0, pre).value;
    assert ApplyAll(m1, [e]) == Apply(m1, e) by { ApplyOne(m1, e); }
    assert m1.ids == [] && [] + Epco.Ids(cs) == Epco.Ids(cs);
    if Apply(m1, e).Some? { OthersKeepOptions(Apply(m1, e).value, post); }
  }

  lemma {:induction false} RateKept(m: Request, es: seq<Element>)
    ensures ApplyAll(m, es).Some? ==> ApplyAll(m, es).value.dataRate == m.dataRate
    decreases |es|
  {
    if es != [] && Apply(m, es[0]).Some? { RateKept(Apply(m, es[0]).value, es[1..]); }
  }

  lemma ApplyOne(m: Request, e: Element)
    ensures ApplyAll(m, [e]) == Apply(m, e)
  {
    hide Apply;
    assert [e][1..] == [];
  }

  const ZERO_LENGTH_IPCP := Epco.Container(Epco.ID_IPCP, [1, 0, 0, 0])

  /** Options that panic: an IPCP Configure-Request of declared length 0, with
      whatever octets are left behind it */
  lemma PanicValue(octet: Byte, rest: seq<Byte>)
    requires |rest| < 3
    ensures Unparsable([octet] + Epco.Put(ZERO_LENGTH_IPCP) + rest)
  {
    var c := ZERO_LENGTH_IPCP;
    var v := [octet] + Epco.Put(c) + rest;
    assert v[1..] == [0x80, 0x21, 4, 1, 0, 0, 0] + rest;
    assert v[1..][3..7] == [1, 0, 0, 0] && v[1..][7..] == rest;
    assert Epco.ParseList(rest) == [];
    assert Epco.Parse(v) == [c] + [];
    assert Epco.LastValue([c], Epco.ID_IPCP) == Some([1, 0, 0, 0]);
  }

  /** Two requests that panic; in the second an octet is left over behind the
      container, which no list of containers has. */
  lemma PanicInput()
    ensures Decode([0, 0, 0x7B, 0, 8, 0x80, 0x80, 0x21, 4, 1, 0, 0, 0]) == Panic
    ensures Decode([0, 0, 0x7B, 0, 9, 0x80, 0x80, 0x21, 4, 1, 0, 0, 0, 0]) == Panic
  {
    hide Decode, Unparsable;
    PanicValue(0x80, []);
    PanicValue(0x80, [0]);
    OneOptions([0x80, 0x80, 0x21, 4, 1, 0, 0, 0]);
    OneOptions([0x80, 0x80, 0x21, 4, 1, 0, 0, 0, 0]);
    assert [0x80] + Epco.Put(ZERO_LENGTH_IPCP) + [] == [0x80, 0x80, 0x21, 4, 1, 0, 0, 0];
    assert [0x80] + Epco.Put(ZERO_LENGTH_IPCP) + [0] == [0x80, 0x80, 0x21, 4, 1, 0, 0, 0, 0];
    assert [0, 0, 0x7B, 0, 8] + [0x80, 0x80, 0x21, 4, 1, 0, 0, 0]
        == [0, 0, 0x7B, 0, 8, 0x80, 0x80, 0x21, 4, 1, 0, 0, 0];
    assert [0, 0, 0x7B, 0, 9] + [0x80, 0x80, 0x21, 4, 1, 0, 0, 0, 0]
        == [0, 0, 0x7B, 0, 9, 0x80, 0x80, 0x21, 4, 1, 0, 0, 0, 0];
  }

  /** A request with one options element of up to 255 octets and nothing else */
  lemma OneOptions(v: seq<Byte>)
    requires |v| < 256
    ensures Decode([0, 0, 0x7B, 0, |v|] + v).Panic? <==> Unparsable(v)
  {
    hide Step, Unparsable, Decode;
    var b: seq<Byte> := [0, 0, 0x7B, 0, |v|] + v;
    var s := b[2..];
    DecodePanics(b);
    assert s[1..] == [0, |v|] + v && s[1..][1..] == [|v|] + v && s[1..][1..][1..] == v;
    assert BE16(0, |v|) == |v|;
    assert v[..|v|] == v && v[|v|..] == [];
    assert TakeLvE(s[1..]) == (v, []);
    assert After(s) == [] by { OptionsRest(s); }
    assert Values(s) == [v] + Values([]) == [v];
    assert AnyUnparsable([v]) <==> Unparsable(v) by { assert Unparsable(v) ==> Unparsable([v][0]); }
  }

  lemma OptionsRest(s: seq<Byte>)
    requires s != [] && s[0] == 0x7B
    ensures After(s) == TakeLvE(s[1..]).1
  {
    hide TakeLvE, Epco.Parse;
  }

  // ---- the code -----------------------------------------------------------

  method DecodeElement(m: Request, r: Reader) returns (m': Option<Request>)
    requires r.Valid() && r.Rest() != []
    modifies r
    ensures r.Valid() && (m', r.Rest()) == Step(m, old(r.Rest()))
  {
    hide TakeLv, TakeLvE, Epco.Parse;
    var iei, _ := r.ReadByte();
    if iei / 16 == 0x9 {
      return Some(m.(sessionType := Some(iei % 16)));
    }
    if iei / 16 == 0xA {
      return Some(m.(sscMode := Some(iei % 16)));
    }
    if iei / 16 == 0xB {
      return Some(m);
    }
    if iei == 0x7B {
      var v := ReadLvE(r);
      m' := ReadOptions(m, v);
      return;
    }
    if iei == 0x55 {
      var _, _ := r.ReadBytes(2);
      return Some(m);
    }
    var _ := ReadLv(r);
    return Some(m);
  }

  method ReadOptions(m: Request, v: seq<Byte>) returns (m': Option<Request>)
    ensures m' == WithEpco(m, v)
  {
    hide Epco.Parse;
    var out := m.(epco := v);
    var ipcp := Epco.ParseIPCPFromEPCO(v);
    if ipcp.Panic? {
      return None;
    }
    out := out.(ipcp := ipcp.request);
    if |v| > 0 {
      out := out.(protocolOctet := v[0]);
    }
    var list := Epco.ParseEPCOContainerList(v);
    var ids := m.ids;
    for i := 0 to |list|
      invariant ids == m.ids + Epco.Ids(list[..i])
    {
      assert Epco.Ids(list[..i + 1]) == Epco.Ids(list[..i]) + [list[i].id];
      ids := ids + [list[i].id];
    }
    assert list[..|list|] == list;
    return Some(out.(ids := ids));
  }

  method DecodePDUSessionEstablishmentRequest(b: seq<Byte>) returns (res: Outcome)
    ensures res == Decode(b)
    ensures res.Panic? <==> |b| >= 2 && AnyUnparsable(Values(b[2..]))
    ensures res.Short? <==> |b| == 1
    ensures b == [] ==> res == Decoded(Request([0, 0], None, None, [], None, 0, []))
  {
    hide Step, AnyUnparsable, Values;
    DecodePanics(b);
    if |b| == 0 {
      return Decoded(EMPTY);
    }
    var r := new Reader(b);
    var rate, ok := r.ReadBytes(2);
    if !ok {
      return Short;
    }
    var m := EMPTY.(dataRate := rate);
    ghost var m0, rest := m, r.Rest();
    while r.Len() > 0
      invariant r.Valid()
      invariant DecodeFrom(m, r.Rest()) == DecodeFrom(m0, rest)
      decreases |r.Rest()|
    {
      var m' := DecodeElement(m, r);
      if m'.None? {
        return Panic;
      }
      m := m'.value;
    }
    return Decoded(m);
  }

  /** The reply to a decoded request with the network's own settings */
  function ReplyConfig(m: Request, dnsV4: seq<Epco.IP>, dnsV6: seq<Epco.IP>, mtu: U16): Epco.Config {
    Epco.Config(m.protocolOctet, m.ids, m.ipcp, dnsV4, dnsV6, mtu)
  }

  /** From the UE's containers to the answers it parses: whatever other elements
      the request holds, the UE finds in the reply what it is owed for each of its
      own container IDs, in its order and with its repetitions, under its protocol
      octet and its IPCP identifier.  None is the decoder's panic. */
  method AnswerRequest(b: seq<Byte>, dnsV4: seq<Epco.IP>, dnsV6: seq<Epco.IP>, mtu: U16,
                       ghost rate: seq<Byte>, ghost pre: seq<Element>, ghost octet: Byte,
                       ghost cs: seq<Epco.Container>, ghost tail: seq<Byte>, ghost post: seq<Element>)
    returns (reply: Option<seq<Byte>>)
    requires |rate| == 2 && NoOptions(pre) && NoOptions(post) && AllWf(Elements(pre, octet, cs, tail, post))
    requires b == rate + PutAll(Elements(pre, octet, cs, tail, post))
    ensures reply.Some? <==> Epco.RequestParsable(cs)
    ensures reply.Some? ==>
              var cfg := Epco.Config(octet, Epco.Ids(cs), Epco.RequestIpcp(cs), dnsV4, dnsV6, mtu);
              var ids := if cs == [] then [0x0010, 0x000D, 0x8021] else Epco.Ids(cs);
              && (reply.value == [] <==> Epco.Answers(cfg, ids) == [])
              && (reply.value != [] ==> reply.value[0] == if cs == [] || octet == 0 then 0x80 else octet)
              && Epco.Parse(reply.value) == Epco.Answers(cfg, ids)
              && Epco.Replies(cfg, ids, Epco.Parse(reply.value))
  {
    hide Decode, Epco.Parse, Epco.Answers, Epco.RequestIpcp, Epco.RequestParsable, Epco.Replies, AllWf, PutAll;
    RequestShowsOptions(rate, pre, octet, cs, tail, post);
    var res := DecodePDUSessionEstablishmentRequest(b);
    if res.Panic? {
      return None;
    }
    var m := res.request;
    var r := Epco.BuildEPCOReply(ReplyConfig(m, dnsV4, dnsV6, mtu));
    return Some(r);
  }
}
