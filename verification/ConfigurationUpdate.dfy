/** The 5GMM Configuration Update Command (section 8.2.19 of TS 24.501). */
module ConfigurationUpdate {
  import opened Wrappers
  import opened Bits
  import opened NasReader
  import opened NasIe
  import NN = NetworkName

  /** An absent TAI list or name is the empty sequence, as in the Go struct. */
  datatype Command = Command(
    indication: Option<Byte>, guti: Option<MobileIdentity>, taiList: seq<Byte>,
    allowed: Option<seq<SNSSAI>>, fullName: NN.Text, shortName: NN.Text,
    configured: Option<seq<SNSSAI>>, slicing: Option<Byte>)

  const EMPTY := Command(None, None, [], None, [], [], None, None)

  // ---- encoding -----------------------------------------------------------

  /** The encoder indexes the first two characters of the MNC. */
  predicate Encodable(c: Command) {
    c.guti.Some? && c.guti.value.GutiIdentity? ==>
      PlmnIndexed(c.guti.value.guti.mcc, c.guti.value.guti.mnc)
  }

  predicate NameFits(t: NN.Text) {
    t == [] || NN.Encoded(0, t).Ok?
  }

  function PutHalf(high: Byte, o: Option<Byte>, k: seq<Byte>): seq<Byte>
    requires high < 16
  {
    match o case None => k case Some(v) => [high * 16 + v % 16] + k
  }

  function PutIdentity(o: Option<MobileIdentity>, k: seq<Byte>): seq<Byte>
    requires o.Some? && o.value.GutiIdentity? ==> PlmnIndexed(o.value.guti.mcc, o.value.guti.mnc)
  {
    match o
    case Some(GutiIdentity(g)) => [0x77, 0, 11] + PutGuti(g) + k
    case _ => k
  }

  /** Length octet and value; the length is cut to eight bits */
  function PutTlv(iei: Byte, v: seq<Byte>, k: seq<Byte>): seq<Byte> {
    [iei, |v| % 256] + v + k
  }

  function PutTai(t: seq<Byte>, k: seq<Byte>): seq<Byte> {
    if t == [] then k else PutTlv(0x54, t, k)
  }

  function PutNssai(iei: Byte, o: Option<seq<SNSSAI>>, k: seq<Byte>): seq<Byte> {
    match o case None => k case Some(n) => PutTlv(iei, NssaiOctets(n), k)
  }

  function PutName(iei: Byte, t: NN.Text, k: seq<Byte>): seq<Byte> {
    if t == [] then k else PutTlv(iei, NN.Contents(t), k)
  }

  function PutCommand(c: Command): seq<Byte>
    requires Encodable(c)
  {
    PutHalf(0xD, c.indication, PutIdentity(c.guti, PutTai(c.taiList, PutNssai(0x15, c.allowed,
    PutName(0x43, c.fullName, PutName(0x45, c.shortName, PutNssai(0x31, c.configured,
    PutHalf(0x9, c.slicing, []))))))))
  }

  function Encode(c: Command): Result<seq<Byte>>
    requires Encodable(c)
  {
    if NameFits(c.fullName) && NameFits(c.shortName) then Ok(PutCommand(c)) else Err
  }

  // ---- decoding -----------------------------------------------------------

  function NameOr(v: seq<Byte>, old_: NN.Text): NN.Text {
    match NN.Decoded(v) case Ok(n) => n.text case Err => old_
  }

  /** The element starting at s[0]: the updated command, or None for a panic,
      and the bytes left */
  function Step(c: Command, s: seq<Byte>): (r: (Option<Command>, seq<Byte>))
    requires s != []
    ensures |r.1| < |s|
  {
    var iei, t := s[0], s[1..];
    if iei / 16 == 0xD then (Some(c.(indication := Some(iei % 16))), t)
    else if iei / 16 == 0x9 then (Some(c.(slicing := Some(iei % 16))), t)
    else
      match iei
      case 0x77 =>
        var (v, u) := TakeLvE(t);
        (Some(c.(guti := DecodeMobileIdentity(v))), u)
      case 0x54 =>
        var (v, u) := TakeLv(t);
        (Some(c.(taiList := v)), u)
      case 0x15 =>
        var (v, u) := TakeLv(t);
        (match ReadNssai([], v) case Panic => None case Read(n, _) => Some(c.(allowed := Some(n))), u)
      case 0x43 =>
        var (v, u) := TakeLv(t);
        (Some(c.(fullName := NameOr(v, c.fullName))), u)
      case 0x45 =>
        var (v, u) := TakeLv(t);
        (Some(c.(shortName := NameOr(v, c.shortName))), u)
      case 0x31 =>
        var (v, u) := TakeLv(t);
        (match ReadNssai([], v) case Panic => None case Read(n, _) => Some(c.(configured := Some(n))), u)
      case _ =>
        if iei >= 0x80 then (Some(c), t) else (Some(c), TakeLv(t).1)
  }

  function DecodeFrom(c: Command, s: seq<Byte>): Option<Command>
    decreases |s|
  {
    if s == [] then Some(c)
    else
      match Step(c, s)
      case (None, _) => None
      case (Some(c'), t) => DecodeFrom(c', t)
  }

  // ---- round trip ---------------------------------------------------------

  predicate NssaiFits(o: Option<seq<SNSSAI>>) {
    o.Some? ==> |NssaiOctets(o.value)| <= 255
  }

  predicate HalfOk(o: Option<Byte>) {
    o.Some? ==> o.value < 16
  }

  predicate IdentityOk(o: Option<MobileIdentity>) {
    o.Some? ==> o.value.GutiIdentity? && GutiOk(o.value.guti)
  }

  predicate SlicesOk(o: Option<seq<SNSSAI>>) {
    o.Some? ==> NssaiOk(o.value)
  }

  predicate InRange(c: Command) {
    && HalfOk(c.indication) && IdentityOk(c.guti) && |c.taiList| <= 255
    && SlicesOk(c.allowed) && SlicesOk(c.configured) && HalfOk(c.slicing)
  }

  // What a field is worth after the wire.

  function CarriedHalf(o: Option<Byte>): Option<Byte> {
    match o case None => None case Some(v) => Some(v % 16)
  }

  function CarriedIdentity(o: Option<MobileIdentity>): Option<MobileIdentity>
    requires o.Some? && o.value.GutiIdentity? ==> PlmnIndexed(o.value.guti.mcc, o.value.guti.mnc)
  {
    match o
    case Some(GutiIdentity(g)) => Some(GutiIdentity(CarriedGuti(g)))
    case _ => None
  }

  function CarriedSlices(o: Option<seq<SNSSAI>>): Option<seq<SNSSAI>> {
    match o case None => None case Some(n) => Some(CarriedNssai(n))
  }

  function Carried(c: Command): Command
    requires Encodable(c)
  {
    c.(indication := CarriedHalf(c.indication), guti := CarriedIdentity(c.guti),
       allowed := CarriedSlices(c.allowed), configured := CarriedSlices(c.configured),
       slicing := CarriedHalf(c.slicing))
  }

  lemma CarriedInRange(c: Command)
    requires Encodable(c) && |c.taiList| <= 255
    ensures Carried(c) == c <==> InRange(c)
  {
    hide CarriedGuti, GutiOk, CarriedNssai, NssaiOk;
    if c.guti.Some? && c.guti.value.GutiIdentity? { GutiInverts(c.guti.value.guti); }
    if c.allowed.Some? { CarriedNssaiOk(c.allowed.value); }
    if c.configured.Some? { CarriedNssaiOk(c.configured.value); }
  }

  lemma TakesTlv(iei: Byte, v: seq<Byte>, k: seq<Byte>)
    requires |v| <= 255
    ensures PutTlv(iei, v, k) != [] && PutTlv(iei, v, k)[0] == iei
    ensures TakeLv(PutTlv(iei, v, k)[1..]) == (v, k)
  {
    TakesLv(v, k);
    assert PutTlv(iei, v, k)[1..] == [|v|] + v + k;
  }

  lemma StepDecodes(c: Command, s: seq<Byte>)
    requires s != []
    ensures Step(c, s).0.Some? ==> DecodeFrom(c, s) == DecodeFrom(Step(c, s).0.value, Step(c, s).1)
  {
  }

  lemma HalfElement(c: Command, high: Byte, v: Byte, k: seq<Byte>)
    requires high == 0xD || high == 0x9
    ensures Step(c, PutHalf(high, Some(v), k))
         == (Some(if high == 0xD then c.(indication := Some(v % 16)) else c.(slicing := Some(v % 16))), k)
  {
    hide TakeLv, TakeLvE, ReadNssai, DecodeMobileIdentity, NameOr;
    var s := PutHalf(high, Some(v), k);
    assert s[1..] == k && s[0] / 16 == high && s[0] % 16 == v % 16;
  }

  lemma IndicationStep(c: Command, o: Option<Byte>, k: seq<Byte>)
    requires c.indication == None
    ensures DecodeFrom(c, PutHalf(0xD, o, k)) == DecodeFrom(c.(indication := CarriedHalf(o)), k)
  {
    hide Step, DecodeFrom;
    if o.Some? {
      HalfElement(c, 0xD, o.value, k);
      StepDecodes(c, PutHalf(0xD, o, k));
    }
  }

  lemma SlicingStep(c: Command, o: Option<Byte>, k: seq<Byte>)
    requires c.slicing == None
    ensures DecodeFrom(c, PutHalf(0x9, o, k)) == DecodeFrom(c.(slicing := CarriedHalf(o)), k)
  {
    hide Step, DecodeFrom;
    if o.Some? {
      HalfElement(c, 0x9, o.value, k);
      StepDecodes(c, PutHalf(0x9, o, k));
    }
  }

  lemma GutiStep(c: Command, o: Option<MobileIdentity>, k: seq<Byte>)
    requires c.guti == None
    requires o.Some? && o.value.GutiIdentity? ==> PlmnIndexed(o.value.guti.mcc, o.value.guti.mnc)
    ensures DecodeFrom(c, PutIdentity(o, k)) == DecodeFrom(c.(guti := CarriedIdentity(o)), k)
  {
    hide PutGuti, CarriedGuti, DecodeMobileIdentity, DecodeFrom;
    if o.Some? && o.value.GutiIdentity? {
      var b, s := PutGuti(o.value.guti), PutIdentity(o, k);
      TakesLvE(b, k);
      assert s[1..] == [0, 11] + b + k;
      GutiInverts(o.value.guti);
      StepDecodes(c, s);
    }
  }

  lemma TaiStep(c: Command, t: seq<Byte>, k: seq<Byte>)
    requires c.taiList == [] && |t| <= 255
    ensures DecodeFrom(c, PutTai(t, k)) == DecodeFrom(c.(taiList := t), k)
  {
    hide PutTlv, TakeLv, DecodeFrom;
    if t != [] {
      TakesTlv(0x54, t, k);
      StepDecodes(c, PutTai(t, k));
    }
  }

  lemma ReadsSlices(iei: Byte, n: seq<SNSSAI>, k: seq<Byte>)
    requires |NssaiOctets(n)| <= 255
    ensures var s := PutNssai(iei, Some(n), k);
            && s != [] && s[0] == iei && TakeLv(s[1..]).1 == k
            && ReadNssai([], TakeLv(s[1..]).0) == Read(CarriedNssai(n), false)
  {
    hide PutTlv, TakeLv, NssaiOctets, CarriedNssai, ReadNssai;
    NssaiInverts([], n);
    assert [] + CarriedNssai(n) == CarriedNssai(n);
    TakesTlv(iei, NssaiOctets(n), k);
  }

  lemma AllowedStep(c: Command, o: Option<seq<SNSSAI>>, k: seq<Byte>)
    requires c.allowed == None && NssaiFits(o)
    ensures DecodeFrom(c, PutNssai(0x15, o, k)) == DecodeFrom(c.(allowed := CarriedSlices(o)), k)
  {
    hide PutTlv, TakeLv, DecodeFrom, NssaiOctets, CarriedNssai, ReadNssai;
    if o.Some? {
      ReadsSlices(0x15, o.value, k);
      StepDecodes(c, PutNssai(0x15, o, k));
    }
  }

  lemma ConfiguredStep(c: Command, o: Option<seq<SNSSAI>>, k: seq<Byte>)
    requires c.configured == None && NssaiFits(o)
    ensures DecodeFrom(c, PutNssai(0x31, o, k)) == DecodeFrom(c.(configured := CarriedSlices(o)), k)
  {
    hide PutTlv, TakeLv, DecodeFrom, NssaiOctets, CarriedNssai, ReadNssai;
    if o.Some? {
      ReadsSlices(0x31, o.value, k);
      StepDecodes(c, PutNssai(0x31, o, k));
    }
  }

  lemma ReadsName(iei: Byte, t: NN.Text, k: seq<Byte>)
    requires t != [] && NameFits(t)
    ensures var s := PutName(iei, t, k);
            && s != [] && s[0] == iei && TakeLv(s[1..]).1 == k
            && forall other :: NameOr(TakeLv(s[1..]).0, other) == t
  {
    hide PutTlv, TakeLv, NN.Contents, NN.Decoded;
    NN.NameRoundTrip(t);
    TakesTlv(iei, NN.Contents(t), k);
  }

  lemma FullNameStep(c: Command, t: NN.Text, k: seq<Byte>)
    requires c.fullName == [] && NameFits(t)
    ensures DecodeFrom(c, PutName(0x43, t, k)) == DecodeFrom(c.(fullName := t), k)
  {
    hide PutTlv, TakeLv, DecodeFrom, NameOr;
    if t != [] {
      ReadsName(0x43, t, k);
      StepDecodes(c, PutName(0x43, t, k));
    }
  }

  lemma ShortNameStep(c: Command, t: NN.Text, k: seq<Byte>)
    requires c.shortName == [] && NameFits(t)
    ensures DecodeFrom(c, PutName(0x45, t, k)) == DecodeFrom(c.(shortName := t), k)
  {
    hide PutTlv, TakeLv, DecodeFrom, NameOr;
    if t != [] {
      ReadsName(0x45, t, k);
      StepDecodes(c, PutName(0x45, t, k));
    }
  }

  lemma AtEnd(c: Command)
    ensures DecodeFrom(c, []) == Some(c)
  {
  }

  /** Decoding an encoded command gives each field as the wire carries it. */
  lemma DecodeEncoded(c: Command)
    requires Encodable(c) && Encode(c).Ok? && |c.taiList| <= 255 && NssaiFits(c.allowed) && NssaiFits(c.configured)
    ensures DecodeFrom(EMPTY, Encode(c).value) == Some(Carried(c))
  {
    hide DecodeFrom, PutName, PutNssai, PutTai, PutIdentity, PutHalf, CarriedHalf, CarriedIdentity, CarriedSlices,
         NameFits, NssaiFits;
    var k7 := PutHalf(0x9, c.slicing, []);
    var k6 := PutNssai(0x31, c.configured, k7);
    var k5 := PutName(0x45, c.shortName, k6);
    var k4 := PutName(0x43, c.fullName, k5);
    var k3 := PutNssai(0x15, c.allowed, k4);
    var k2 := PutTai(c.taiList, k3);
    IndicationStep(EMPTY, c.indication, PutIdentity(c.guti, k2));
    var c1 := EMPTY.(indication := CarriedHalf(c.indication));
    GutiStep(c1, c.guti, k2);
    var c2 := c1.(guti := CarriedIdentity(c.guti));
    TaiStep(c2, c.taiList, k3);
    var c3 := c2.(taiList := c.taiList);
    AllowedStep(c3, c.allowed, k4);
    var c4 := c3.(allowed := CarriedSlices(c.allowed));
    FullNameStep(c4, c.fullName, k5);
    var c5 := c4.(fullName := c.fullName);
    ShortNameStep(c5, c.shortName, k6);
    var c6 := c5.(shortName := c.shortName);
    ConfiguredStep(c6, c.configured, k7);
    var c7 := c6.(configured := CarriedSlices(c.configured));
    SlicingStep(c7, c.slicing, []);
    AtEnd(Carried(c));
  }

  /** The decoder never yields a TAI list longer than its length octet can say. */
  lemma {:induction false} TaiBounded(c: Command, s: seq<Byte>)
    requires |c.taiList| <= 255
    ensures DecodeFrom(c, s).Some? ==> |DecodeFrom(c, s).value.taiList| <= 255
    decreases |s|
  {
    hide DecodeMobileIdentity, ReadNssai, NameOr;
    if s != [] {
      var (r, t) := Step(c, s);
      if r.Some? { TaiBounded(r.value, t); }
    }
  }

  // ---- the elements of an octet string ----------------------------------------

  /** The octets after the first element: framing does not depend on what has
      been decoded so far. */
  function After(s: seq<Byte>): (t: seq<Byte>)
    requires s != []
    ensures |t| < |s|
  {
    Step(EMPTY, s).1
  }

  lemma StepFrames(c: Command, s: seq<Byte>)
    requires s != []
    ensures Step(c, s).1 == After(s)
  {
    hide TakeLv, TakeLvE, ReadNssai, DecodeMobileIdentity, NameOr;
  }

  /** The values of the length-value elements with this identifier, in order */
  function Values(iei: Byte, s: seq<Byte>): seq<seq<Byte>>
    decreases |s|
  {
    if s == [] then []
    else (if s[0] == iei then [TakeLv(s[1..]).0] else []) + Values(iei, After(s))
  }

  predicate AnyPanics(vs: seq<seq<Byte>>) {
    exists i :: 0 <= i < |vs| && EndsInZeroEntry(vs[i])
  }

  lemma AnyPanicsConcat(us: seq<seq<Byte>>, vs: seq<seq<Byte>>)
    ensures AnyPanics(us + vs) <==> AnyPanics(us) || AnyPanics(vs)
  {
    if i :| 0 <= i < |us| && EndsInZeroEntry(us[i]) { assert (us + vs)[i] == us[i]; }
    if i :| 0 <= i < |vs| && EndsInZeroEntry(vs[i]) { assert (us + vs)[|us| + i] == vs[i]; }
    if i :| 0 <= i < |us + vs| && EndsInZeroEntry((us + vs)[i]) {
      if i >= |us| { assert vs[i - |us|] == (us + vs)[i]; } else { assert us[i] == (us + vs)[i]; }
    }
  }

  /** Which element makes the decoder panic */
  lemma StepPanics(c: Command, s: seq<Byte>)
    requires s != []
    ensures Step(c, s).0.None? <==> (s[0] == 0x15 || s[0] == 0x31) && EndsInZeroEntry(TakeLv(s[1..]).0)
  {
    hide TakeLv, TakeLvE, ReadNssai, DecodeMobileIdentity, NameOr, EndsInZeroEntry;
    NssaiOutcomes([], TakeLv(s[1..]).0);
  }

  /** The decoder panics exactly when the value of one of the NSSAI elements it
      meets ends in a zero-length entry behind complete ones. */
  lemma {:induction false} DecodePanics(c: Command, s: seq<Byte>)
    ensures DecodeFrom(c, s).None? <==> AnyPanics(Values(0x15, s)) || AnyPanics(Values(0x31, s))
    decreases |s|
  {
    hide Step, TakeLv, EndsInZeroEntry, After;
    if s != [] {
      StepFrames(c, s);
      StepPanics(c, s);
      var v, t := TakeLv(s[1..]).0, After(s);
      AnyPanicsConcat(if s[0] == 0x15 then [v] else [], Values(0x15, t));
      AnyPanicsConcat(if s[0] == 0x31 then [v] else [], Values(0x31, t));
      assert AnyPanics([v]) <==> EndsInZeroEntry(v) by { assert EndsInZeroEntry(v) ==> EndsInZeroEntry([v][0]); }
      if Step(c, s).0.Some? { DecodePanics(Step(c, s).0.value, t); }
    }
  }

  /** A three-octet element that panics */
  lemma PanicInput()
    ensures DecodeFrom(EMPTY, [0x15, 1, 0]) == None
  {
    var s: seq<Byte> := [0x15, 1, 0];
    assert s[1..] == [1, 0] && s[1..][1..] == [0];
    assert TakeLv(s[1..]).0 == [0];
    StepPanics(EMPTY, s);
  }

  // ---- every octet string is a list of elements ----------------------------------

  /** How a message is cut into elements, whatever its elements are for: one octet
      from 0x80 on, otherwise identifier, length and value.  A value that is not
      all there (`Cut`) is read as empty, and what there is of it as further elements. */
  datatype Element =
    | Half(high: Byte, value: Byte)
    | Tlv(iei: Byte, content: seq<Byte>)
    | Cut(iei: Byte, header: seq<Byte>)
  {
    predicate Wf(k: seq<Byte>) {
      match this
      case Half(high, value) => 8 <= high < 16 && value < 16
      case Tlv(iei, content) => iei < 0x80 && |content| < (if iei == 0x77 then 0x1_0000 else 0x100)
      case Cut(iei, header) =>
        iei < 0x80 && NoValue(header, LengthOctets(iei), k)
    }
  }

  /** The 5G-GUTI alone has a two-octet length. */
  function LengthOctets(iei: Byte): nat {
    if iei == 0x77 then 2 else 1
  }

  function PutElement(e: Element, k: seq<Byte>): seq<Byte>
    requires e.Wf(k)
  {
    match e
    case Half(high, value) => [high * 16 + value] + k
    case Tlv(iei, content) =>
      [iei] + (if iei == 0x77 then [|content| / 256, |content| % 256] else [|content|]) + content + k
    case Cut(iei, header) => [iei] + header + k
  }

  predicate AllWf(es: seq<Element>)
    decreases |es|, 0
  {
    es == [] || (AllWf(es[1..]) && es[0].Wf(PutElements(es[1..])))
  }

  function PutElements(es: seq<Element>): seq<Byte>
    requires AllWf(es)
    decreases |es|, 1
  {
    if es == [] then [] else PutElement(es[0], PutElements(es[1..]))
  }

  /** What an element does to the command; None is the index panic.  Elements that
      are not listed change nothing. */
  function Apply(c: Command, e: Element): Option<Command> {
    match e
    case Half(0xD, value) => Some(c.(indication := Some(value)))
    case Half(0x9, value) => Some(c.(slicing := Some(value)))
    case Half(_, _) => Some(c)
    case Tlv(iei, content) => Assign(c, iei, content)
    case Cut(iei, _) => Assign(c, iei, [])
  }

  function SlicesOf(v: seq<Byte>): seq<SNSSAI>
    requires !EndsInZeroEntry(v)
  {
    NssaiOutcomes([], v);
    ReadNssai([], v).list
  }

  function Assign(c: Command, iei: Byte, v: seq<Byte>): Option<Command> {
    match iei
    case 0x77 => Some(c.(guti := DecodeMobileIdentity(v)))
    case 0x54 => Some(c.(taiList := v))
    case 0x15 => if EndsInZeroEntry(v) then None else Some(c.(allowed := Some(SlicesOf(v))))
    case 0x31 => if EndsInZeroEntry(v) then None else Some(c.(configured := Some(SlicesOf(v))))
    case 0x43 => Some(if NN.Decoded(v).Ok? then c.(fullName := NN.Decoded(v).value.text) else c)
    case 0x45 => Some(if NN.Decoded(v).Ok? then c.(shortName := NN.Decoded(v).value.text) else c)
    case _ => Some(c)
  }

  function ApplyAll(c: Command, es: seq<Element>): Option<Command>
    decreases |es|
  {
    if es == [] then Some(c)
    else
      match Apply(c, es[0])
      case None => None
      case Some(c') => ApplyAll(c', es[1..])
  }

  /** The decoder's step, element kind by element kind */
  lemma StepKinds(c: Command, s: seq<Byte>)
    requires s != []
    ensures s[0] >= 0x80 ==> Step(c, s) == (Apply(c, Half(s[0] / 16, s[0] % 16)), s[1..])
    ensures s[0] < 0x80 ==>
              var (v, t) := if s[0] == 0x77 then TakeLvE(s[1..]) else TakeLv(s[1..]);
              Step(c, s) == (Assign(c, s[0], v), t)
  {
    hide TakeLv, TakeLvE, ReadNssai, DecodeMobileIdentity, NN.Decoded, EndsInZeroEntry;
    NssaiOutcomes([], TakeLv(s[1..]).0);
  }

  lemma ElementTakes(e: Element, k: seq<Byte>)
    requires e.Wf(k) && !e.Half?
    ensures var s := PutElement(e, k);
            && s != [] && s[0] == e.iei
            && (if e.iei == 0x77 then TakeLvE(s[1..]) else TakeLv(s[1..])) == (if e.Tlv? then e.content else [], k)
  {
    hide TakeLv, TakeLvE, NoValue;
    var s := PutElement(e, k);
    if e.Cut? {
      assert s[1..] == e.header + k;
      TakesNothing(e.header, k);
    } else {
      var n := |e.content|;
      if e.iei == 0x77 {
        assert s[1..] == [n / 256, n % 256] + e.content + k;
        TakesLvE(e.content, k);
      } else {
        assert s[1..] == [n] + e.content + k;
        TakesLv(e.content, k);
      }
    }
  }

  lemma HalfTakes(e: Element, k: seq<Byte>)
    requires e.Wf(k) && e.Half?
    ensures var s := PutElement(e, k);
            s != [] && s[0] >= 0x80 && s[0] / 16 == e.high && s[0] % 16 == e.value && s[1..] == k
  {
  }

  lemma StepInverts(c: Command, e: Element, k: seq<Byte>)
    requires e.Wf(k)
    ensures PutElement(e, k) != [] && Step(c, PutElement(e, k)) == (Apply(c, e), k)
  {
    hide Step, TakeLv, TakeLvE, Assign, PutElement, NoValue;
    if e.Half? { HalfTakes(e, k); } else { ElementTakes(e, k); }
    StepKinds(c, PutElement(e, k));
  }

  /** Decoding any list of elements, in any order and number, gives each its
      meaning in turn; the ones it does not know change nothing and hide nothing
      behind them. */
  lemma {:induction false} ElementsInvert(c: Command, es: seq<Element>)
    requires AllWf(es)
    ensures DecodeFrom(c, PutElements(es)) == ApplyAll(c, es)
    decreases |es|
  {
    hide Step, Apply, PutElement;
    if es != [] {
      StepInverts(c, es[0], PutElements(es[1..]));
      if Apply(c, es[0]).Some? { ElementsInvert(Apply(c, es[0]).value, es[1..]); }
    }
  }

  /** There is nothing else: every octet string is such a list. */
  lemma {:induction false} EveryStringIsElements(s: seq<Byte>) returns (es: seq<Element>)
    ensures AllWf(es) && PutElements(es) == s
    decreases |s|
  {
    if s == [] {
      es := [];
    } else {
      var e, k := FirstElement(s);
      var rest := EveryStringIsElements(k);
      hide PutElement;
      es := [e] + rest;
      assert es[1..] == rest;
    }
  }

  lemma FirstElement(s: seq<Byte>) returns (e: Element, k: seq<Byte>)
    requires s != []
    ensures e.Wf(k) && PutElement(e, k) == s && |k| < |s|
  {
    var iei := s[0];
    var m := LengthOctets(iei);
    if iei >= 0x80 {
      e, k := Half(iei / 16, iei % 16), s[1..];
    } else if |s| < 1 + m {
      e, k := Cut(iei, s[1..]), [];
    } else {
      var header, rest := s[1..1 + m], s[1 + m..];
      var n := Announced(header);
      assert s == [iei] + header + rest;
      if n > |rest| {
        e, k := Cut(iei, header), rest;
      } else {
        e, k := Tlv(iei, rest[..n]), rest[n..];
        assert header == if iei == 0x77 then [n / 256, n % 256] else [n];
        assert [iei] + header + rest[..n] + rest[n..] == s;
      }
    }
  }

  /** What the known elements mean for the values they carry */
  lemma KnownElements(c: Command, g: Guti, n: seq<SNSSAI>, t: NN.Text)
    requires PlmnIndexed(g.mcc, g.mnc)
    ensures Apply(c, Tlv(0x77, PutGuti(g))) == Some(c.(guti := Some(GutiIdentity(CarriedGuti(g)))))
    ensures Apply(c, Tlv(0x15, NssaiOctets(n))) == Some(c.(allowed := Some(CarriedNssai(n))))
    ensures Apply(c, Tlv(0x31, NssaiOctets(n))) == Some(c.(configured := Some(CarriedNssai(n))))
    ensures Apply(c, Tlv(0x43, NN.Contents(t))) == Some(c.(fullName := t))
    ensures Apply(c, Tlv(0x45, NN.Contents(t))) == Some(c.(shortName := t))
  {
    hide PutGuti, CarriedGuti, NssaiOctets, CarriedNssai, ReadNssai, EndsInZeroEntry, NN.Contents, NN.Decoded,
         DecodeMobileIdentity;
    GutiInverts(g);
    NssaiInverts([], n);
    NssaiOutcomes([], NssaiOctets(n));
    assert [] + CarriedNssai(n) == CarriedNssai(n);
    NN.NameRoundTrip(t);
  }

  // ---- an encoded command as elements -----------------------------------------

  function OptionalHalf(high: Byte, o: Option<Byte>): seq<Element> {
    if o.Some? then [Half(high, o.value % 16)] else []
  }

  function OptionalTlv(present: bool, iei: Byte, content: seq<Byte>): seq<Element> {
    if present then [Tlv(iei, content)] else []
  }

  function SliceOctets(o: Option<seq<SNSSAI>>): seq<Byte> {
    match o case None => [] case Some(n) => NssaiOctets(n)
  }

  function GutiOctets(o: Option<MobileIdentity>): seq<Byte>
    requires o.Some? && o.value.GutiIdentity? ==> PlmnIndexed(o.value.guti.mcc, o.value.guti.mnc)
  {
    if o.Some? && o.value.GutiIdentity? then PutGuti(o.value.guti) else []
  }

  /** The elements of a command, in the order in which they are sent */
  function ElementsOf(c: Command): seq<Element>
    requires Encodable(c)
  {
    OptionalHalf(0xD, c.indication)
    + (OptionalTlv(c.guti.Some? && c.guti.value.GutiIdentity?, 0x77, GutiOctets(c.guti))
    + (OptionalTlv(c.taiList != [], 0x54, c.taiList)
    + (OptionalTlv(c.allowed.Some?, 0x15, SliceOctets(c.allowed))
    + (OptionalTlv(c.fullName != [], 0x43, NN.Contents(c.fullName))
    + (OptionalTlv(c.shortName != [], 0x45, NN.Contents(c.shortName))
    + (OptionalTlv(c.configured.Some?, 0x31, SliceOctets(c.configured))
    + OptionalHalf(0x9, c.slicing)))))))
  }

  lemma PrependHalf(high: Byte, o: Option<Byte>, es: seq<Element>)
    requires 8 <= high < 16 && AllWf(es)
    ensures AllWf(OptionalHalf(high, o) + es)
    ensures PutElements(OptionalHalf(high, o) + es) == PutHalf(high, o, PutElements(es))
  {
    var all := OptionalHalf(high, o) + es;
    if o.Some? { assert all[1..] == es; } else { assert all == es; }
  }

  lemma PrependTlv(present: bool, iei: Byte, content: seq<Byte>, es: seq<Element>)
    requires AllWf(es) && iei < 0x80 && iei != 0x77 && (present ==> |content| <= 255)
    ensures var all := OptionalTlv(present, iei, content) + es;
            AllWf(all) && PutElements(all) == if present then PutTlv(iei, content, PutElements(es)) else PutElements(es)
  {
    var all := OptionalTlv(present, iei, content) + es;
    if present {
      assert all[1..] == es;
      assert [iei] + [|content|] == [iei, |content|];
    } else {
      assert all == es;
    }
  }

  lemma PrependGuti(o: Option<MobileIdentity>, es: seq<Element>)
    requires AllWf(es)
    requires o.Some? && o.value.GutiIdentity? ==> PlmnIndexed(o.value.guti.mcc, o.value.guti.mnc)
    ensures var all := OptionalTlv(o.Some? && o.value.GutiIdentity?, 0x77, GutiOctets(o)) + es;
            AllWf(all) && PutElements(all) == PutIdentity(o, PutElements(es))
  {
    hide PutGuti;
    var all := OptionalTlv(o.Some? && o.value.GutiIdentity?, 0x77, GutiOctets(o)) + es;
    if o.Some? && o.value.GutiIdentity? {
      assert all[1..] == es;
      assert [0x77] + [0, 11] == [0x77, 0, 11];
    } else {
      assert all == es;
    }
  }

  /** An encoded command is its present elements, in order. */
  lemma CommandElements(c: Command)
    requires Encodable(c) && Encode(c).Ok? && |c.taiList| <= 255 && NssaiFits(c.allowed) && NssaiFits(c.configured)
    ensures AllWf(ElementsOf(c)) && PutElements(ElementsOf(c)) == Encode(c).value
  {
    hide PutElements, AllWf, OptionalHalf, OptionalTlv, NN.Contents, NssaiOctets, PutTlv, PutHalf, PutIdentity,
         GutiOctets;
    assert AllWf([]) && PutElements([]) == [] by { NoElements(); }
    assert OptionalHalf(0x9, c.slicing) + [] == OptionalHalf(0x9, c.slicing);
    PrependHalf(0x9, c.slicing, []);
    var e7 := OptionalHalf(0x9, c.slicing);
    PrependTlv(c.configured.Some?, 0x31, SliceOctets(c.configured), e7);
    var e6 := OptionalTlv(c.configured.Some?, 0x31, SliceOctets(c.configured)) + e7;
    PrependTlv(c.shortName != [], 0x45, NN.Contents(c.shortName), e6);
    var e5 := OptionalTlv(c.shortName != [], 0x45, NN.Contents(c.shortName)) + e6;
    PrependTlv(c.fullName != [], 0x43, NN.Contents(c.fullName), e5);
    var e4 := OptionalTlv(c.fullName != [], 0x43, NN.Contents(c.fullName)) + e5;
    PrependTlv(c.allowed.Some?, 0x15, SliceOctets(c.allowed), e4);
    var e3 := OptionalTlv(c.allowed.Some?, 0x15, SliceOctets(c.allowed)) + e4;
    PrependTlv(c.taiList != [], 0x54, c.taiList, e3);
    var e2 := OptionalTlv(c.taiList != [], 0x54, c.taiList) + e3;
    PrependGuti(c.guti, e2);
    PrependHalf(0xD, c.indication,
                OptionalTlv(c.guti.Some? && c.guti.value.GutiIdentity?, 0x77, GutiOctets(c.guti)) + e2);
  }

  lemma NoElements()
    ensures AllWf([]) && PutElements([]) == []
  {
  }

  // ---- commands that do not come back -----------------------------------------

  /** The list the last element of this kind carries, if there is one */
  function LastNssai(iei: Byte, s: seq<Byte>): Option<seq<SNSSAI>> {
    var vs := Values(iei, s);
    if vs == [] then None
    else match ReadNssai([], vs[|vs| - 1]) case Panic => None case Read(n, _) => Some(n)
  }

  lemma LastNssaiStep(iei: Byte, s: seq<Byte>)
    requires s != []
    ensures Values(iei, After(s)) != [] ==> LastNssai(iei, s) == LastNssai(iei, After(s))
    ensures Values(iei, After(s)) == [] && s[0] == iei && ReadNssai([], TakeLv(s[1..]).0).Read? ==>
              LastNssai(iei, s) == Some(ReadNssai([], TakeLv(s[1..]).0).list)
    ensures Values(iei, After(s)) == [] && s[0] != iei ==> LastNssai(iei, s) == None
  {
    hide After, TakeLv, ReadNssai;
  }

  /** The last NSSAI element of its kind decides; without one the field stays. */
  lemma {:induction false} LastNssaiWins(c: Command, s: seq<Byte>)
    ensures DecodeFrom(c, s).Some? ==>
              && DecodeFrom(c, s).value.allowed == (if Values(0x15, s) == [] then c.allowed else LastNssai(0x15, s))
              && DecodeFrom(c, s).value.configured
                 == (if Values(0x31, s) == [] then c.configured else LastNssai(0x31, s))
    decreases |s|
  {
    if s != [] {
      StepFrames(c, s);
      StepLeaves(c, s);
      LastNssaiStep(0x15, s);
      LastNssaiStep(0x31, s);
      StepPanics(c, s);
      NssaiOutcomes([], TakeLv(s[1..]).0);
      hide Step, TakeLv, After, LastNssai, EndsInZeroEntry, ReadNssai;
      if Step(c, s).0.Some? {
        if s[0] == 0x15 || s[0] == 0x31 { NssaiElement(c, s); }
        LastNssaiWins(Step(c, s).0.value, After(s));
      }
    }
  }

  lemma StepLeaves(c: Command, s: seq<Byte>)
    requires s != []
    ensures Step(c, s).0.Some? && s[0] != 0x15 ==> Step(c, s).0.value.allowed == c.allowed
    ensures Step(c, s).0.Some? && s[0] != 0x31 ==> Step(c, s).0.value.configured == c.configured
  {
    hide TakeLv, TakeLvE, ReadNssai, DecodeMobileIdentity, NameOr;
  }

  /** What is left of an over-long value, and what follows it, after the decoder
      has taken as many octets as the truncated length says */
  function Spill(v: seq<Byte>, k: seq<Byte>): seq<Byte> {
    v[|v| % 256..] + k
  }

  lemma TakesPrefix(iei: Byte, v: seq<Byte>, k: seq<Byte>)
    ensures PutTlv(iei, v, k) != [] && PutTlv(iei, v, k)[0] == iei
    ensures TakeLv(PutTlv(iei, v, k)[1..]) == (v[..|v| % 256], Spill(v, k))
  {
    var s, l := PutTlv(iei, v, k), |v| % 256;
    assert s[1..] == [l] + v + k;
    assert s[1..][1..] == v + k;
    assert (v + k)[..l] == v[..l] && (v + k)[l..] == v[l..] + k;
  }

  /** An over-long NSSAI is decoded as a shorter list; the rest of its octets are
      decoded as further elements. */
  lemma OverlongStep(c: Command, iei: Byte, n: seq<SNSSAI>, k: seq<Byte>)
    requires (iei == 0x15 || iei == 0x31) && |NssaiOctets(n)| > 255
    ensures exists short ::
              && |short| < |n|
              && DecodeFrom(c, PutNssai(iei, Some(n), k))
                 == DecodeFrom(if iei == 0x15 then c.(allowed := Some(short)) else c.(configured := Some(short)),
                               Spill(NssaiOctets(n), k))
  {
    hide TakeLv, NssaiOctets, ReadNssai, PutTlv, Spill, DecodeFrom, Step;
    var v := NssaiOctets(n);
    var s, cut := PutTlv(iei, v, k), v[..|v| % 256];
    TakesPrefix(iei, v, k);
    PrefixIsShorter([], n, |v| % 256);
    var short := ReadNssai([], cut).list;
    NssaiElement(c, s);
    StepDecodes(c, s);
    assert |short| < |n|;
  }

  lemma NssaiElement(c: Command, s: seq<Byte>)
    requires s != [] && (s[0] == 0x15 || s[0] == 0x31) && ReadNssai([], TakeLv(s[1..]).0).Read?
    ensures var (v, t) := TakeLv(s[1..]);
            var n := ReadNssai([], v).list;
            Step(c, s) == (Some(if s[0] == 0x15 then c.(allowed := Some(n)) else c.(configured := Some(n))), t)
  {
    hide TakeLv, ReadNssai;
  }

  /** The octets before the allowed NSSAI decode to the fields they encode. */
  lemma DecodeUpToAllowed(c: Command, k: seq<Byte>)
    requires Encodable(c) && |c.taiList| <= 255
    ensures exists d: Command ::
              && d.allowed == None && d.fullName == [] && d.shortName == [] && d.configured == None && d.slicing == None
              && DecodeFrom(EMPTY, PutHalf(0xD, c.indication, PutIdentity(c.guti, PutTai(c.taiList, k))))
                 == DecodeFrom(d, k)
  {
    hide DecodeFrom, PutTai, PutIdentity, PutHalf, CarriedHalf, CarriedIdentity;
    IndicationStep(EMPTY, c.indication, PutIdentity(c.guti, PutTai(c.taiList, k)));
    var c1 := EMPTY.(indication := CarriedHalf(c.indication));
    GutiStep(c1, c.guti, PutTai(c.taiList, k));
    var c2 := c1.(guti := CarriedIdentity(c.guti));
    TaiStep(c2, c.taiList, k);
    var d := c2.(taiList := c.taiList);
    assert DecodeFrom(EMPTY, PutHalf(0xD, c.indication, PutIdentity(c.guti, PutTai(c.taiList, k)))) == DecodeFrom(d, k);
  }

  function AfterConfigured(c: Command): seq<Byte> {
    PutHalf(0x9, c.slicing, [])
  }

  function AfterAllowed(c: Command): seq<Byte> {
    PutName(0x43, c.fullName, PutName(0x45, c.shortName, PutNssai(0x31, c.configured, AfterConfigured(c))))
  }

  /** What the decoder sees as elements behind an over-long allowed NSSAI */
  function AllowedSpill(c: Command): seq<Byte>
    requires c.allowed.Some?
  {
    Spill(NssaiOctets(c.allowed.value), AfterAllowed(c))
  }

  function ConfiguredSpill(c: Command): seq<Byte>
    requires c.configured.Some?
  {
    Spill(NssaiOctets(c.configured.value), AfterConfigured(c))
  }

  lemma OverlongAllowed(c: Command)
    requires Encodable(c) && |c.taiList| <= 255 && !NssaiFits(c.allowed)
    requires LastNssai(0x15, AllowedSpill(c)) != c.allowed
    ensures DecodeFrom(EMPTY, PutCommand(c)) != Some(c)
  {
    hide DecodeFrom, PutNssai, PutName, PutTai, PutIdentity, PutHalf, NssaiOctets, Spill, Values, LastNssai,
         AfterAllowed;
    var n, k := c.allowed.value, AfterAllowed(c);
    assert PutCommand(c)
        == PutHalf(0xD, c.indication, PutIdentity(c.guti, PutTai(c.taiList, PutNssai(0x15, c.allowed, k))))
      by { AfterAllowedIs(c); }
    DecodeUpToAllowed(c, PutNssai(0x15, c.allowed, k));
    var d: Command :| DecodeFrom(EMPTY, PutCommand(c)) == DecodeFrom(d, PutNssai(0x15, c.allowed, k));
    OverlongStep(d, 0x15, n, k);
    var short :| |short| < |n|
                 && DecodeFrom(EMPTY, PutCommand(c)) == DecodeFrom(d.(allowed := Some(short)), AllowedSpill(c));
    LastNssaiWins(d.(allowed := Some(short)), AllowedSpill(c));
  }

  lemma AfterAllowedIs(c: Command)
    ensures AfterAllowed(c) == PutName(0x43, c.fullName, PutName(0x45, c.shortName, PutNssai(0x31, c.configured,
                                 PutHalf(0x9, c.slicing, []))))
  {
  }

  lemma OverlongConfigured(c: Command)
    requires Encodable(c) && Encode(c).Ok? && |c.taiList| <= 255 && NssaiFits(c.allowed)
    requires !NssaiFits(c.configured) && LastNssai(0x31, ConfiguredSpill(c)) != c.configured
    ensures DecodeFrom(EMPTY, PutCommand(c)) != Some(c)
  {
    hide DecodeFrom, PutNssai, PutName, PutTai, PutIdentity, PutHalf, NssaiOctets, Spill, Values, LastNssai,
         CarriedSlices, NameFits;
    var k7 := AfterConfigured(c);
    var k6 := PutNssai(0x31, c.configured, k7);
    var k5 := PutName(0x45, c.shortName, k6);
    var k4 := PutName(0x43, c.fullName, k5);
    DecodeUpToAllowed(c, PutNssai(0x15, c.allowed, k4));
    var d: Command :| d.allowed == None && d.fullName == [] && d.shortName == []
                      && DecodeFrom(EMPTY, PutCommand(c)) == DecodeFrom(d, PutNssai(0x15, c.allowed, k4));
    AllowedStep(d, c.allowed, k4);
    var c4 := d.(allowed := CarriedSlices(c.allowed));
    FullNameStep(c4, c.fullName, k5);
    var c5 := c4.(fullName := c.fullName);
    ShortNameStep(c5, c.shortName, k6);
    var c6 := c5.(shortName := c.shortName);
    OverlongStep(c6, 0x31, c.configured.value, k7);
    var short :| |short| < |c.configured.value|
                 && DecodeFrom(c6, k6) == DecodeFrom(c6.(configured := Some(short)), ConfiguredSpill(c));
    LastNssaiWins(c6.(configured := Some(short)), ConfiguredSpill(c));
  }

  /** For every combination of present and absent elements: a command whose NSSAIs
      fit their length octet survives encoding and decoding unchanged exactly when
      its fields are in range; one with an over-long NSSAI does not, unless the
      octets that spill over happen to end with an element of that kind which
      reads as the very list. */
  lemma CommandRoundTrip(c: Command)
    requires Encodable(c) && Encode(c).Ok?
    ensures NssaiFits(c.allowed) && NssaiFits(c.configured) ==>
              (DecodeFrom(EMPTY, Encode(c).value) == Some(c) <==> InRange(c))
    ensures !NssaiFits(c.allowed) && LastNssai(0x15, AllowedSpill(c)) != c.allowed ==>
              DecodeFrom(EMPTY, Encode(c).value) != Some(c)
    ensures NssaiFits(c.allowed) && !NssaiFits(c.configured) && LastNssai(0x31, ConfiguredSpill(c)) != c.configured ==>
              DecodeFrom(EMPTY, Encode(c).value) != Some(c)
  {
    hide DecodeFrom, PutCommand, NssaiOctets, Carried, HalfOk, IdentityOk, SlicesOk, LastNssai, AllowedSpill,
         ConfiguredSpill;
    if |c.taiList| > 255 {
      TaiBounded(EMPTY, Encode(c).value);
    } else if !NssaiFits(c.allowed) {
      if LastNssai(0x15, AllowedSpill(c)) != c.allowed { OverlongAllowed(c); }
    } else if !NssaiFits(c.configured) {
      if LastNssai(0x31, ConfiguredSpill(c)) != c.configured { OverlongConfigured(c); }
    } else {
      DecodeEncoded(c);
      CarriedInRange(c);
    }
  }

  // ---- an input that does not come back ----------------------------------------

  /** Elements come from the octets: without the identifier there is none. */
  lemma {:induction false} NoOctetNoElement(iei: Byte, s: seq<Byte>)
    requires iei !in s
    ensures Values(iei, s) == []
    decreases |s|
  {
    if s != [] {
      assert s[0] in s;
      AfterIsSuffix(s);
      NoOctetNoElement(iei, After(s));
    }
  }

  lemma AfterIsSuffix(s: seq<Byte>)
    requires s != []
    ensures forall x | x in After(s) :: x in s
  {
    hide ReadNssai, DecodeMobileIdentity, NameOr;
    TakeSuffix(s[1..]);
  }

  lemma TakeSuffix(s: seq<Byte>)
    ensures forall x | x in TakeLv(s).1 :: x in s
    ensures forall x | x in TakeLvE(s).1 :: x in s
  {
  }

  function Repeated(n: nat): seq<SNSSAI> {
    seq(n, i => SNSSAI(1, 0))
  }

  lemma {:induction false} RepeatedOctets(n: nat)
    ensures |NssaiOctets(Repeated(n))| == 5 * n && 0x15 !in NssaiOctets(Repeated(n))
  {
    if n > 0 {
      RepeatedOctets(n - 1);
      assert Repeated(n)[1..] == Repeated(n - 1);
      assert NssaiOctets(Repeated(n)) == [4, 1, 0, 0, 0] + NssaiOctets(Repeated(n - 1));
    }
  }

  /** Fifty-two slices take 260 octets; the length octet says 4, the decoder keeps
      an empty list, and the command does not come back. */
  lemma OverlongInput()
    ensures var c := EMPTY.(allowed := Some(Repeated(52)));
            && Encodable(c) && Encode(c).Ok? && InRange(c)
            && DecodeFrom(EMPTY, Encode(c).value) != Some(c)
  {
    hide DecodeFrom, Repeated, NssaiOctets, Values;
    var c := EMPTY.(allowed := Some(Repeated(52)));
    RepeatedOctets(52);
    assert NssaiOk(Repeated(52)) by { RepeatedOk(52); }
    var v := NssaiOctets(Repeated(52));
    assert AllowedSpill(c) == v[4..] + [];
    assert 0x15 !in v[4..] + [];
    NoOctetNoElement(0x15, AllowedSpill(c));
    OverlongAllowed(c);
  }

  lemma RepeatedOk(n: nat)
    ensures NssaiOk(Repeated(n))
  {
  }

  // ---- the code -----------------------------------------------------------

  lemma Append(full: seq<Byte>, out: seq<Byte>, piece: seq<Byte>, rest: seq<Byte>, put: seq<Byte>)
    requires out + put == full && put == piece + rest
    ensures (out + piece) + rest == full
  {
    assert (out + piece) + rest == out + (piece + rest);
  }

  method AppendName(iei: Byte, t: NN.Text, out: seq<Byte>, ghost k: seq<Byte>) returns (r: Result<seq<Byte>>)
    ensures r.Ok? == NameFits(t)
    ensures r.Ok? ==> r.value + k == out + PutName(iei, t, k)
  {
    hide NN.Contents;
    if t == [] {
      return Ok(out);
    }
    var name :- NN.EncodeNetworkName(iei, t);
    Append(out + PutName(iei, t, k), out, name, k, PutName(iei, t, k));
    return Ok(out + name);
  }

  method AppendNssai(iei: Byte, o: Option<seq<SNSSAI>>, out: seq<Byte>, ghost k: seq<Byte>) returns (r: seq<Byte>)
    ensures r + k == out + PutNssai(iei, o, k)
  {
    hide NssaiOctets;
    if o.None? {
      return out;
    }
    var nssai := EncodeNSSAI(o.value);
    r := out + [iei, |nssai| % 256];
    r := r + nssai;
    assert r + k == out + ([iei, |nssai| % 256] + nssai + k);
  }

  method AppendHalf(high: Byte, o: Option<Byte>, out: seq<Byte>, ghost k: seq<Byte>) returns (r: seq<Byte>)
    requires high < 16
    ensures r + k == out + PutHalf(high, o, k)
  {
    if o.None? {
      return out;
    }
    r := out + [high * 16 + o.value % 16];
    assert r + k == out + ([high * 16 + o.value % 16] + k);
  }

  /** None when the PLMN encoder indexes past the network code */
  method AppendGuti(o: Option<MobileIdentity>, out: seq<Byte>, ghost k: seq<Byte>) returns (r: Option<seq<Byte>>)
    ensures r.None? <==> o.Some? && o.value.GutiIdentity? && !PlmnIndexed(o.value.guti.mcc, o.value.guti.mnc)
    ensures r.Some? ==> r.value + k == out + PutIdentity(o, k)
  {
    hide PutGuti;
    if o.None? || !o.value.GutiIdentity? {
      return Some(out);
    }
    var encoded := Encode5GGUTI(o.value.guti);
    if encoded.None? {
      return None;
    }
    var guti := encoded.value;
    var length := |guti|;
    var with := out + [0x77, length / 256, length % 256];
    with := with + guti;
    assert with + k == out + ([0x77, 0, 11] + guti + k);
    return Some(with);
  }

  method AppendTai(t: seq<Byte>, out: seq<Byte>, ghost k: seq<Byte>) returns (r: seq<Byte>)
    ensures r + k == out + PutTai(t, k)
  {
    if |t| == 0 {
      return out;
    }
    r := out + [0x54, |t| % 256];
    r := r + t;
    assert r + k == out + ([0x54, |t| % 256] + t + k);
  }

  datatype EncodeOutcome = Panicked | Rejected | Encoded(octets: seq<Byte>)

  method EncodeConfigurationUpdateCommand(c: Command) returns (r: EncodeOutcome)
    ensures r == if !Encodable(c) then Panicked
                 else match Encode(c) case Err => Rejected case Ok(octets) => Encoded(octets)
  {
    hide PutNssai, PutName, PutTai, PutIdentity, PutHalf, NameFits;
    ghost var k7 := PutHalf(0x9, c.slicing, []);
    ghost var k6 := PutNssai(0x31, c.configured, k7);
    ghost var k5 := PutName(0x45, c.shortName, k6);
    ghost var k4 := PutName(0x43, c.fullName, k5);
    ghost var k3 := PutNssai(0x15, c.allowed, k4);
    ghost var k2 := PutTai(c.taiList, k3);
    ghost var k1 := if Encodable(c) then PutIdentity(c.guti, k2) else [];
    var out: seq<Byte> := [];
    out := AppendHalf(0xD, c.indication, out, k1);
    var identified := AppendGuti(c.guti, out, k2);
    if identified.None? {
      return Panicked;
    }
    out := AppendTai(c.taiList, identified.value, k3);
    out := AppendNssai(0x15, c.allowed, out, k4);
    var named := AppendName(0x43, c.fullName, out, k5);
    if named.Err? {
      return Rejected;
    }
    named := AppendName(0x45, c.shortName, named.value, k6);
    if named.Err? {
      return Rejected;
    }
    out := AppendNssai(0x31, c.configured, named.value, k7);
    out := AppendHalf(0x9, c.slicing, out, []);
    assert out + [] == out && [] + PutCommand(c) == PutCommand(c);
    return Encoded(out);
  }

  const SHORT_MNC := Guti("001", "1", 0, 0, 0, 0)

  /** A command on which the encoder panics: one digit of network code */
  lemma EncodePanicInput()
    ensures !Encodable(EMPTY.(guti := Some(GutiIdentity(SHORT_MNC)))) && Encode5GGUTI(SHORT_MNC) == None
  {
  }

  /** One turn of the decoding loop */
  method DecodeElement(c: Command, r: Reader) returns (c': Option<Command>)
    requires r.Valid() && r.Rest() != []
    modifies r
    ensures r.Valid() && (c', r.Rest()) == Step(c, old(r.Rest()))
  {
    hide TakeLv, TakeLvE, ReadNssai, DecodeMobileIdentity, NN.Decoded;
    var iei, _ := r.ReadByte();
    if iei / 16 == 0xD {
      return Some(c.(indication := Some(iei % 16)));
    }
    if iei / 16 == 0x9 {
      return Some(c.(slicing := Some(iei % 16)));
    }
    if iei == 0x77 {
      var v := ReadLvE(r);
      return Some(c.(guti := DecodeMobileIdentity(v)));
    }
    if iei == 0x54 {
      var v := ReadLv(r);
      return Some(c.(taiList := v));
    }
    if iei == 0x15 || iei == 0x31 {
      var v := ReadLv(r);
      var n := DecodeNSSAI(v);
      if n.Panic? {
        return None;
      }
      return Some(if iei == 0x15 then c.(allowed := Some(n.list)) else c.(configured := Some(n.list)));
    }
    if iei == 0x43 || iei == 0x45 {
      var v := ReadLv(r);
      var n := NN.DecodeNetworkName(v);
      if n.Err? {
        return Some(c);
      }
      return Some(if iei == 0x43 then c.(fullName := n.value.text) else c.(shortName := n.value.text));
    }
    if iei < 0x80 {
      var _ := ReadLv(r);
    }
    return Some(c);
  }

  /** None stands for the index panic of an NSSAI that ends in a zero-length entry. */
  method DecodeConfigurationUpdateCommand(b: seq<Byte>) returns (res: Option<Command>)
    ensures res == DecodeFrom(EMPTY, b)
    ensures res.None? <==> AnyPanics(Values(0x15, b)) || AnyPanics(Values(0x31, b))
  {
    hide Step, AnyPanics, Values;
    DecodePanics(EMPTY, b);
    var r := new Reader(b);
    var c := EMPTY;
    while r.Len() > 0
      invariant r.Valid()
      invariant DecodeFrom(c, r.Rest()) == DecodeFrom(EMPTY, b)
      decreases |r.Rest()|
    {
      var c' := DecodeElement(c, r);
      if c'.None? {
        return None;
      }
      c := c'.value;
    }
    return Some(c);
  }
}
