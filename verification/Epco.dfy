/**
 Extended protocol configuration options (section 10.5.6.3 of TS 24.008): the
 parser of a UE's container list and the reply that answers it in the UE's order.
 */
module Epco {
  import opened Wrappers
  import opened Machine
  import opened Bits

  /** net.IP: the empty slice is the nil address */
  type IP = seq<Byte>

  function To4(ip: IP): (r: Option<IP>)
    ensures r.Some? ==> |r.value| == 4
  {
    if |ip| == 4 then Some(ip)
    else if |ip| == 16 && (forall i | 0 <= i < 10 :: ip[i] == 0) && ip[10] == 0xFF && ip[11] == 0xFF then Some(ip[12..])
    else None
  }

  function To16(ip: IP): (r: Option<IP>)
    ensures r.Some? ==> |r.value| == 16
  {
    if |ip| == 4 then Some([0, 0, 0, 0, 0, 0, 0, 0, 0, 0, 0xFF, 0xFF] + ip)
    else if |ip| == 16 then Some(ip)
    else None
  }

  /** The two forms of an address: four octets, or sixteen of which the first twelve
      are the IPv4-mapped prefix */
  lemma AddressForms(ip: IP)
    ensures To4(ip).Some? <==>
              |ip| == 4 || (|ip| == 16 && ip[..12] == [0, 0, 0, 0, 0, 0, 0, 0, 0, 0, 0xFF, 0xFF])
    ensures To4(ip).Some? ==> To4(ip).value == ip[|ip| - 4..]
    ensures To16(ip).Some? <==> |ip| == 4 || |ip| == 16
    ensures |ip| == 4 ==> To4(To16(ip).value) == Some(ip)
    ensures |ip| == 16 ==> To16(ip).value == ip
    ensures V6Form(ip) == if |ip| == 16 && To4(ip).None? then Some(ip) else None
  {
    if |ip| == 4 {
      var v := To16(ip).value;
      assert v[12..] == ip && forall i | 0 <= i < 10 :: v[i] == 0;
    }
    if |ip| == 16 && To4(ip).Some? {
      assert ip[..12] == [0, 0, 0, 0, 0, 0, 0, 0, 0, 0, 0xFF, 0xFF];
    }
    if |ip| == 16 && ip[..12] == [0, 0, 0, 0, 0, 0, 0, 0, 0, 0, 0xFF, 0xFF] {
      assert forall i | 0 <= i < 12 :: ip[i] == ip[..12][i];
    }
  }

  const ID_DNS_V6: U16 := 0x0003
  const ID_DNS_V4: U16 := 0x000D
  const ID_LINK_MTU: U16 := 0x0010
  const ID_LOCAL_ADDR_TFT: U16 := 0x0011
  const ID_IPCP: U16 := 0x8021

  // ---- container lists ----------------------------------------------------

  datatype Container = Container(id: U16, value: seq<Byte>)

  function Put(c: Container): seq<Byte> {
    [c.id / 256, c.id % 256, |c.value| % 256] + c.value
  }

  function PutAll(cs: seq<Container>): seq<Byte> {
    if cs == [] then [] else Put(cs[0]) + PutAll(cs[1..])
  }

  /** Stops at the first container that does not fit. */
  function ParseList(b: seq<Byte>): seq<Container> {
    if |b| < 3 || 3 + b[2] as int > |b| then []
    else
      var l := b[2] as int;
      [Container(BE16(b[0], b[1]), b[3..3 + l])] + ParseList(b[3 + l..])
  }

  function Parse(epco: seq<Byte>): seq<Container> {
    if |epco| < 1 then [] else ParseList(epco[1..])
  }

  predicate Fit(cs: seq<Container>) {
    forall i | 0 <= i < |cs| :: |cs[i].value| <= 255
  }

  lemma ParsePut(c: Container, k: seq<Byte>)
    requires |c.value| <= 255
    ensures ParseList(Put(c) + k) == [c] + ParseList(k)
  {
    var b, l := Put(c) + k, |c.value|;
    assert b[3..3 + l] == c.value && b[3 + l..] == k;
    assert BE16(b[0], b[1]) == c.id;
  }

  /** What is left when fewer octets remain than a header or its value needs */
  predicate Stops(b: seq<Byte>) {
    |b| < 3 || |b| < 3 + b[2] as int
  }

  /** Parsing inverts writing, whatever follows, and ends at the first container
      that does not fit. */
  lemma {:induction false} ParsePutAll(cs: seq<Container>, tail: seq<Byte>)
    requires Fit(cs) && Stops(tail)
    ensures ParseList(PutAll(cs) + tail) == cs
  {
    hide Put;
    if cs == [] {
      assert PutAll(cs) + tail == tail;
    } else {
      ParsePut(cs[0], PutAll(cs[1..]) + tail);
      ParsePutAll(cs[1..], tail);
      assert PutAll(cs) + tail == Put(cs[0]) + (PutAll(cs[1..]) + tail);
      assert [cs[0]] + cs[1..] == cs;
    }
  }

  lemma {:induction false} PutAllConcat(a: seq<Container>, b: seq<Container>)
    ensures PutAll(a + b) == PutAll(a) + PutAll(b)
  {
    hide Put;
    if a == [] {
      assert a + b == b;
    } else {
      PutAllConcat(a[1..], b);
      assert (a + b)[1..] == a[1..] + b;
      assert PutAll(a + b) == Put(a[0]) + (PutAll(a[1..]) + PutAll(b));
    }
  }

  // ---- IPCP (RFC 1332, RFC 1877) ------------------------------------------

  const OPT_PRIMARY_DNS: Byte := 129
  const OPT_SECONDARY_DNS: Byte := 131

  datatype IpcpRequest = IpcpRequest(identifier: Byte, wantsPrimary: bool, wantsSecondary: bool)

  /** Type and data of each option; a bad length ends the list. */
  function Options(opts: seq<Byte>): seq<(Byte, seq<Byte>)> {
    if |opts| < 2 || opts[1] < 2 || opts[1] as int > |opts| then []
    else
      var l := opts[1] as int;
      [(opts[0], opts[2..l])] + Options(opts[l..])
  }

  predicate HasOption(os: seq<(Byte, seq<Byte>)>, t: Byte) {
    exists i | 0 <= i < |os| :: os[i].0 == t
  }

  /** The declared length must cover the header: `value[4:l]` panics below 4. */
  predicate IpcpParsable(value: seq<Byte>) {
    |value| >= 4 && value[0] == 1 ==> BE16(value[2], value[3]) >= 4
  }

  function ParseIpcp(value: seq<Byte>): Option<IpcpRequest>
    requires IpcpParsable(value)
  {
    if |value| < 4 || value[0] != 1 then None
    else
      var l := BE16(value[2], value[3]);
      var os := Options(value[4..if l > |value| then |value| else l]);
      Some(IpcpRequest(value[1], HasOption(os, OPT_PRIMARY_DNS), HasOption(os, OPT_SECONDARY_DNS)))
  }

  /** Options as a peer writes them: type, length of the whole option, data */
  function PutOptions(os: seq<(Byte, seq<Byte>)>): seq<Byte>
    requires forall i | 0 <= i < |os| :: |os[i].1| <= 253
  {
    if os == [] then [] else [os[0].0, |os[0].1| + 2] + os[0].1 + PutOptions(os[1..])
  }

  lemma FirstOption(t: Byte, data: seq<Byte>, k: seq<Byte>)
    requires |data| <= 253
    ensures Options([t, |data| + 2] + data + k) == [(t, data)] + Options(k)
  {
    var b := [t, |data| + 2] + data + k;
    assert b[2..|data| + 2] == data && b[|data| + 2..] == k;
  }

  lemma {:induction false} OptionsInvert(os: seq<(Byte, seq<Byte>)>, tail: seq<Byte>)
    requires forall i | 0 <= i < |os| :: |os[i].1| <= 253
    requires |tail| < 2 || tail[1] < 2 || tail[1] as int > |tail|
    ensures Options(PutOptions(os) + tail) == os
  {
    if os == [] {
      assert PutOptions(os) + tail == tail;
    } else {
      hide Options;
      var (t, data) := os[0];
      OptionsInvert(os[1..], tail);
      FirstOption(t, data, PutOptions(os[1..]) + tail);
      assert PutOptions(os) + tail == [t, |data| + 2] + data + (PutOptions(os[1..]) + tail);
      assert [(t, data)] + os[1..] == os;
    }
  }

  /** A Configure-Request is understood by its code, identifier and declared
      length: the options within it decide what is asked for, and octets behind
      it do not matter. */
  lemma ConfigureRequestRead(identifier: Byte, os: seq<(Byte, seq<Byte>)>, beyond: seq<Byte>)
    requires forall i | 0 <= i < |os| :: |os[i].1| <= 253
    requires |PutOptions(os)| + 4 < 0x1_0000
    ensures var n := |PutOptions(os)| + 4;
            var value := [1, identifier, n / 256, n % 256] + PutOptions(os) + beyond;
            && IpcpParsable(value)
            && ParseIpcp(value) == Some(IpcpRequest(identifier, exists i | 0 <= i < |os| :: os[i].0 == 129,
                                                    exists i | 0 <= i < |os| :: os[i].0 == 131))
  {
    hide PutOptions, Options;
    var n := |PutOptions(os)| + 4;
    var value := [1, identifier, n / 256, n % 256] + PutOptions(os) + beyond;
    assert BE16(value[2], value[3]) == n;
    assert value[4..n] == PutOptions(os) + [];
    OptionsInvert(os, []);
  }

  function WantedOption(wanted: bool, t: Byte, ip: IP): seq<Byte> {
    if wanted && To4(ip).Some? then [t, 6] + To4(ip).value else []
  }

  /** The Configure-Ack container, or nothing when no requested option has an address */
  function IpcpAck(req: Option<IpcpRequest>, primary: IP, secondary: IP): (r: Option<Container>)
    ensures r.Some? ==> r.value.id == ID_IPCP && |r.value.value| <= 16
  {
    if req.None? then None
    else
      var opts := WantedOption(req.value.wantsPrimary, OPT_PRIMARY_DNS, primary)
                + WantedOption(req.value.wantsSecondary, OPT_SECONDARY_DNS, secondary);
      if opts == [] then None
      else Some(Container(ID_IPCP, [2, req.value.identifier, (4 + |opts|) / 256, (4 + |opts|) % 256] + opts))
  }

  function WantedList(wanted: bool, t: Byte, ip: IP): seq<(Byte, seq<Byte>)> {
    if wanted && To4(ip).Some? then [(t, To4(ip).value)] else []
  }

  lemma OptionsOfWanted(wanted: bool, t: Byte, ip: IP, k: seq<Byte>)
    ensures Options(WantedOption(wanted, t, ip) + k) == WantedList(wanted, t, ip) + Options(k)
  {
    var b := WantedOption(wanted, t, ip) + k;
    if wanted && To4(ip).Some? {
      assert b[2..6] == To4(ip).value && b[6..] == k;
    } else {
      assert b == k && [] + Options(k) == Options(k);
    }
  }

  /** The answer is present exactly when some requested server has an IPv4
      address; it is a Configure-Ack with the request's identifier and a correct
      length, and a UE reading its options finds exactly the requested servers. */
  lemma AckMeaning(req: IpcpRequest, primary: IP, secondary: IP)
    ensures var want := WantedList(req.wantsPrimary, OPT_PRIMARY_DNS, primary)
                      + WantedList(req.wantsSecondary, OPT_SECONDARY_DNS, secondary);
            var r := IpcpAck(Some(req), primary, secondary);
            && (r.None? <==> want == [])
            && (r.Some? ==>
                  var v := r.value.value;
                  && |v| >= 4 && v[0] == 2 && v[1] == req.identifier && BE16(v[2], v[3]) == |v|
                  && Options(v[4..]) == want)
  {
    var a := WantedOption(req.wantsPrimary, OPT_PRIMARY_DNS, primary);
    var b := WantedOption(req.wantsSecondary, OPT_SECONDARY_DNS, secondary);
    OptionsOfWanted(req.wantsPrimary, OPT_PRIMARY_DNS, primary, b);
    OptionsOfWanted(req.wantsSecondary, OPT_SECONDARY_DNS, secondary, []);
    assert b + [] == b && Options([]) == [];
    var r := IpcpAck(Some(req), primary, secondary);
    if r.Some? {
      assert r.value.value[4..] == a + b;
    }
  }

  // ---- the reply ----------------------------------------------------------

  datatype Config = Config(
    protocolOctet: Byte, requestedIds: seq<U16>, ipcp: Option<IpcpRequest>,
    dnsV4: seq<IP>, dnsV6: seq<IP>, mtu: U16)

  function Server(ips: seq<IP>, i: nat): IP {
    if i < |ips| then ips[i] else []
  }

  /** An IPv6 resolver: an IPv4 address in its sixteen-octet form is none */
  function V6Form(ip: IP): Option<IP> {
    if To4(ip).Some? then None else To16(ip)
  }

  /** The form fits a container. */
  ghost predicate Short(form: IP -> Option<IP>) {
    forall ip :: form(ip).Some? ==> |form(ip).value| <= 255
  }

  function Containers(id: U16, form: IP -> Option<IP>, ips: seq<IP>): (cs: seq<Container>)
    ensures Short(form) ==> Fit(cs)
  {
    if ips == [] then []
    else
      (match form(ips[0]) case Some(v) => [Container(id, v)] case None => []) + Containers(id, form, ips[1..])
  }

  /** What one requested container ID is answered with */
  function Answer(cfg: Config, id: U16): (cs: seq<Container>)
    ensures Fit(cs)
  {
    if id == ID_IPCP then
      match IpcpAck(cfg.ipcp, Server(cfg.dnsV4, 0), Server(cfg.dnsV4, 1)) case Some(c) => [c] case None => []
    else if id == ID_DNS_V4 then Containers(id, To4, cfg.dnsV4)
    else if id == ID_DNS_V6 then Containers(id, V6Form, cfg.dnsV6)
    else if id == ID_LINK_MTU then if cfg.mtu != 0 then [Container(id, [cfg.mtu / 256, cfg.mtu % 256])] else []
    else if id == ID_LOCAL_ADDR_TFT then [Container(id, [])]
    else []
  }

  /** The answers to all requested IDs, in the order and with the repetitions of
      the request */
  function Answers(cfg: Config, ids: seq<U16>): (cs: seq<Container>)
    ensures Fit(cs)
  {
    if ids == [] then [] else Answer(cfg, ids[0]) + Answers(cfg, ids[1..])
  }

  lemma {:induction false} AnswersSnoc(cfg: Config, ids: seq<U16>, id: U16)
    ensures Answers(cfg, ids + [id]) == Answers(cfg, ids) + Answer(cfg, id)
  {
    hide Answer;
    if ids == [] {
      assert ids + [id] == [id] && [id][1..] == [];
    } else {
      AnswersSnoc(cfg, ids[1..], id);
      assert (ids + [id])[1..] == ids[1..] + [id];
    }
  }

  // ---- what the UE finds ------------------------------------------------------

  /** How many of the first j addresses have this form */
  function Count(form: IP -> Option<IP>, ips: seq<IP>, j: nat): nat
    requires j <= |ips|
  {
    if j == 0 then 0 else Count(form, ips, j - 1) + if form(ips[j - 1]).Some? then 1 else 0
  }

  /** One container per address that has this form, in the order of the addresses */
  predicate Lists(form: IP -> Option<IP>, ips: seq<IP>, cs: seq<Container>) {
    && |cs| == Count(form, ips, |ips|)
    && forall j | 0 <= j < |ips| && form(ips[j]).Some? ::
         Count(form, ips, j) < |cs| && cs[Count(form, ips, j)].value == form(ips[j]).value
  }

  /** The first and the second IPv4 resolver can be offered when asked for. */
  predicate OffersPrimary(cfg: Config) {
    cfg.ipcp.Some? && cfg.ipcp.value.wantsPrimary && |cfg.dnsV4| >= 1 && To4(cfg.dnsV4[0]).Some?
  }

  predicate OffersSecondary(cfg: Config) {
    cfg.ipcp.Some? && cfg.ipcp.value.wantsSecondary && |cfg.dnsV4| >= 2 && To4(cfg.dnsV4[1]).Some?
  }

  /** A Configure-Ack with the UE's identifier: option 129 holds the first
      resolver, option 131 the second, and there is no other */
  predicate Acknowledges(cfg: Config, v: seq<Byte>) {
    && |v| >= 4 && v[0] == 2 && cfg.ipcp.Some? && v[1] == cfg.ipcp.value.identifier && BE16(v[2], v[3]) == |v|
    && Options(v[4..]) == (if OffersPrimary(cfg) then [(129, To4(cfg.dnsV4[0]).value)] else [])
                        + (if OffersSecondary(cfg) then [(131, To4(cfg.dnsV4[1]).value)] else [])
  }

  /** What the UE finds for one identifier it asked for */
  predicate Owed(cfg: Config, id: U16, cs: seq<Container>) {
    && (forall i | 0 <= i < |cs| :: cs[i].id == id)
    && match id
       case 0x8021 =>
         if OffersPrimary(cfg) || OffersSecondary(cfg) then |cs| == 1 && Acknowledges(cfg, cs[0].value) else cs == []
       case 0x000D => Lists(To4, cfg.dnsV4, cs)
       case 0x0003 => Lists(V6Form, cfg.dnsV6, cs)
       case 0x0010 =>
         if cfg.mtu == 0 then cs == []
         else |cs| == 1 && |cs[0].value| == 2 && BE16(cs[0].value[0], cs[0].value[1]) == cfg.mtu
       case 0x0011 => |cs| == 1 && cs[0].value == []
       case _ => cs == []
  }

  /** The containers are what is owed for each identifier, one after the other */
  ghost predicate Replies(cfg: Config, ids: seq<U16>, cs: seq<Container>) {
    if ids == [] then cs == []
    else exists n | 0 <= n <= |cs| :: Owed(cfg, ids[0], cs[..n]) && Replies(cfg, ids[1..], cs[n..])
  }

  lemma {:induction false} CountTail(form: IP -> Option<IP>, ips: seq<IP>, j: nat)
    requires 1 <= j <= |ips|
    ensures Count(form, ips, j) == (if form(ips[0]).Some? then 1 else 0) + Count(form, ips[1..], j - 1)
  {
    if j == 1 {
      assert Count(form, ips, 0) == 0 && Count(form, ips[1..], 0) == 0;
    } else {
      CountTail(form, ips, j - 1);
    }
  }

  lemma {:induction false} ContainersList(id: U16, form: IP -> Option<IP>, ips: seq<IP>)
    ensures Lists(form, ips, Containers(id, form, ips))
    ensures forall i | 0 <= i < |Containers(id, form, ips)| :: Containers(id, form, ips)[i].id == id
  {
    if ips != [] {
      var cs, rest := Containers(id, form, ips), Containers(id, form, ips[1..]);
      ContainersList(id, form, ips[1..]);
      assert if form(ips[0]).Some? then cs == [Container(id, form(ips[0]).value)] + rest else cs == rest;
      hide Containers;
      CountTail(form, ips, |ips|);
      assert Count(form, ips, 0) == 0;
      hide Count;
      forall j | 0 <= j < |ips| && form(ips[j]).Some?
        ensures Count(form, ips, j) < |cs| && cs[Count(form, ips, j)].value == form(ips[j]).value
      {
        if j > 0 {
          CountTail(form, ips, j);
          assert ips[1..][j - 1] == ips[j];
        }
      }
    }
  }

  lemma AnswerIsOwed(cfg: Config, id: U16)
    ensures Owed(cfg, id, Answer(cfg, id))
  {
    hide To4, To16, V6Form, Options, Containers, Lists;
    if id == 0x8021 {
      AckIsOwed(cfg);
    } else if id == 0x000D {
      ContainersList(id, To4, cfg.dnsV4);
    } else if id == 0x0003 {
      ContainersList(id, V6Form, cfg.dnsV6);
    }
  }

  lemma AckIsOwed(cfg: Config)
    ensures Owed(cfg, 0x8021, Answer(cfg, 0x8021))
  {
    hide Options, IpcpAck;
    if cfg.ipcp.Some? {
      AckMeaning(cfg.ipcp.value, Server(cfg.dnsV4, 0), Server(cfg.dnsV4, 1));
    } else {
      NoAck(Server(cfg.dnsV4, 0), Server(cfg.dnsV4, 1));
    }
  }

  lemma NoAck(primary: IP, secondary: IP)
    ensures IpcpAck(None, primary, secondary) == None
  {
  }

  lemma {:induction false} AnswersReply(cfg: Config, ids: seq<U16>)
    ensures Replies(cfg, ids, Answers(cfg, ids))
  {
    hide Answer, Owed;
    if ids != [] {
      AnswerIsOwed(cfg, ids[0]);
      AnswersReply(cfg, ids[1..]);
      var a, cs := Answer(cfg, ids[0]), Answers(cfg, ids);
      assert cs[..|a|] == a && cs[|a|..] == Answers(cfg, ids[1..]);
    }
  }

  method AppendContainer(dst: seq<Byte>, id: U16, value: seq<Byte>) returns (r: seq<Byte>)
    ensures r == dst + Put(Container(id, value))
  {
    r := dst + [id / 256, id % 256, |value| % 256];
    r := r + value;
  }

  method ParseEPCOContainerList(epco: seq<Byte>) returns (out: seq<Container>)
    ensures out == Parse(epco)
  {
    out := [];
    if |epco| < 1 {
      return;
    }
    var b := epco[1..];
    while |b| >= 3
      invariant out + ParseList(b) == Parse(epco)
      decreases |b|
    {
      var id, l := BE16(b[0], b[1]), b[2] as int;
      if 3 + l > |b| {
        break;
      }
      out := out + [Container(id, b[3..3 + l])];
      b := b[3 + l..];
    }
    assert ParseList(b) == [];
  }

  /** Panic is the out-of-range slice on a declared length below 4. */
  datatype IpcpOutcome = Panic | Parsed(request: Option<IpcpRequest>)

  method ParseIPCPConfigureRequest(value: seq<Byte>) returns (r: IpcpOutcome)
    ensures r.Panic? <==> |value| >= 4 && value[0] == 1 && BE16(value[2], value[3]) < 4
    ensures r == Parsed(None) <==> |value| < 4 || value[0] != 1
    ensures r.Parsed? ==> r.request == ParseIpcp(value)
  {
    hide BE16;
    if |value| < 4 || value[0] != 1 {
      return Parsed(None);
    }
    assert forall t :: !HasOption([], t);
    hide HasOption;
    var req := IpcpRequest(value[1], false, false);
    var l := BE16(value[2], value[3]);
    if l > |value| {
      l := |value|;
    }
    if l < 4 {
      return Panic;  // the bounds of value[4:l] are inverted
    }
    var opts := value[4..l];
    ghost var all := Options(opts);
    ghost var seen: seq<(Byte, seq<Byte>)> := [];
    while |opts| >= 2
      invariant seen + Options(opts) == all
      invariant req == IpcpRequest(value[1], HasOption(seen, OPT_PRIMARY_DNS), HasOption(seen, OPT_SECONDARY_DNS))
      decreases |opts|
    {
      var optType, optLen := opts[0], opts[1] as int;
      if optLen < 2 || optLen > |opts| {
        break;
      }
      if optType == OPT_PRIMARY_DNS {
        req := req.(wantsPrimary := true);
      } else if optType == OPT_SECONDARY_DNS {
        req := req.(wantsSecondary := true);
      }
      ghost var o := (optType, opts[2..optLen]);
      HasOptionSnoc(seen, o, OPT_PRIMARY_DNS);
      HasOptionSnoc(seen, o, OPT_SECONDARY_DNS);
      assert seen + ([o] + Options(opts[optLen..])) == (seen + [o]) + Options(opts[optLen..]);
      seen := seen + [o];
      opts := opts[optLen..];
    }
    assert Options(opts) == [] && seen + [] == seen;
    return Parsed(Some(req));
  }

  lemma HasOptionSnoc(os: seq<(Byte, seq<Byte>)>, o: (Byte, seq<Byte>), t: Byte)
    ensures HasOption(os + [o], t) <==> HasOption(os, t) || o.0 == t
  {
    if HasOption(os, t) {
      var i :| 0 <= i < |os| && os[i].0 == t;
      assert (os + [o])[i].0 == t;
    }
    if o.0 == t {
      assert (os + [o])[|os|].0 == t;
    }
  }

  method EncodeIPCPConfigAckContainer(req: Option<IpcpRequest>, primary: IP, secondary: IP) returns (r: seq<Byte>)
    ensures r == match IpcpAck(req, primary, secondary) case Some(c) => Put(c) case None => []
  {
    hide To4;
    if req.None? {
      return [];
    }
    var opts: seq<Byte> := [];
    if req.value.wantsPrimary && To4(primary).Some? {
      opts := opts + [OPT_PRIMARY_DNS, 6] + To4(primary).value;
    }
    if req.value.wantsSecondary && To4(secondary).Some? {
      opts := opts + ([OPT_SECONDARY_DNS, 6] + To4(secondary).value);
    }
    assert opts == WantedOption(req.value.wantsPrimary, OPT_PRIMARY_DNS, primary)
                 + WantedOption(req.value.wantsSecondary, OPT_SECONDARY_DNS, secondary);
    if |opts| == 0 {
      return [];
    }
    var ipcpLen := 4 + |opts|;
    var ipcp := [2, req.value.identifier, ipcpLen / 256, ipcpLen % 256];
    ipcp := ipcp + opts;
    assert |ipcp| <= 16;
    var container := [0x80, 0x21, |ipcp|];
    return container + ipcp;
  }

  method AppendV4(dst: seq<Byte>, id: U16, ips: seq<IP>) returns (r: seq<Byte>)
    ensures r == dst + PutAll(Containers(id, To4, ips))
  {
    hide To4, Put;
    r := dst;
    for i := 0 to |ips|
      invariant r + PutAll(Containers(id, To4, ips[i..])) == dst + PutAll(Containers(id, To4, ips))
    {
      assert ips[i..][1..] == ips[i + 1..];
      var rest := Containers(id, To4, ips[i + 1..]);
      var v4 := To4(ips[i]);
      if v4.Some? {
        PutAllConcat([Container(id, v4.value)], rest);
        PutSingle(Container(id, v4.value));
        r := AppendContainer(r, id, v4.value);
      } else {
        assert [] + rest == rest;
      }
    }
    assert ips[|ips|..] == [];
  }

  method AppendV6(dst: seq<Byte>, id: U16, ips: seq<IP>) returns (r: seq<Byte>)
    ensures r == dst + PutAll(Containers(id, V6Form, ips))
  {
    hide To4, V6Form, Put;
    r := dst;
    for i := 0 to |ips|
      invariant r + PutAll(Containers(id, V6Form, ips[i..])) == dst + PutAll(Containers(id, V6Form, ips))
    {
      assert ips[i..][1..] == ips[i + 1..];
      var rest := Containers(id, V6Form, ips[i + 1..]);
      var v6 := To16(ips[i]);
      FormOfV6(ips[i]);
      if v6.Some? && To4(ips[i]).None? {
        PutAllConcat([Container(id, v6.value)], rest);
        PutSingle(Container(id, v6.value));
        r := AppendContainer(r, id, v6.value);
      } else {
        assert [] + rest == rest;
      }
    }
    assert ips[|ips|..] == [];
  }

  lemma FormOfV6(ip: IP)
    ensures V6Form(ip) == if To16(ip).Some? && To4(ip).None? then To16(ip) else None
  {
    hide To4;
  }

  lemma PutSingle(c: Container)
    ensures PutAll([c]) == Put(c)
  {
    assert PutAll([c]) == Put(c) + PutAll([c][1..]);
  }

  method AppendAnswer(dst: seq<Byte>, cfg: Config, id: U16) returns (r: seq<Byte>)
    ensures r == dst + PutAll(Answer(cfg, id))
  {
    hide IpcpAck, Put, Containers;
    match id {
      case 0x8021 =>
        var c := EncodeIPCPConfigAckContainer(cfg.ipcp, Server(cfg.dnsV4, 0), Server(cfg.dnsV4, 1));
        var spec := IpcpAck(cfg.ipcp, Server(cfg.dnsV4, 0), Server(cfg.dnsV4, 1));
        if spec.Some? { PutSingle(spec.value); }
        r := dst + c;
      case 0x000D => r := AppendV4(dst, id, cfg.dnsV4);
      case 0x0003 => r := AppendV6(dst, id, cfg.dnsV6);
      case 0x0010 =>
        r := dst;
        if cfg.mtu != 0 {
          PutSingle(Container(id, [cfg.mtu / 256, cfg.mtu % 256]));
          r := AppendContainer(r, id, [cfg.mtu / 256, cfg.mtu % 256]);
        }
      case 0x0011 =>
        PutSingle(Container(id, []));
        r := AppendContainer(dst, id, []);
      case _ => r := dst;
    }
  }

  /** The historical fixed list for callers without a decoded UE request */
  const LEGACY_IDS: seq<U16> := [ID_LINK_MTU, ID_DNS_V4, ID_IPCP]

  method EncodePCODNSMTUAndIPCP(cfg: Config) returns (r: seq<Byte>)
    ensures r == if Answers(cfg, LEGACY_IDS) == [] then [] else [0x80] + PutAll(Answers(cfg, LEGACY_IDS))
    ensures Replies(cfg, [0x0010, 0x000D, 0x8021], Parse(r))
  {
    hide Answer, Answers, Put, PutAll, Replies, ParseList;
    AnswersReply(cfg, LEGACY_IDS);
    ReadsAnswers(0x80, cfg, LEGACY_IDS);
    var base := AppendAnswer([], cfg, ID_LINK_MTU);
    base := AppendAnswer(base, cfg, ID_DNS_V4);
    var extra := AppendAnswer([], cfg, ID_IPCP);
    ghost var m, d, e := Answer(cfg, ID_LINK_MTU), Answer(cfg, ID_DNS_V4), Answer(cfg, ID_IPCP);
    LegacyAnswers(cfg);
    assert [] + PutAll(m) == PutAll(m) && [] + PutAll(e) == PutAll(e);
    PutAllConcat(m, d);
    PutAllConcat(m + d, e);
    PutAllNonEmpty(m + d);
    PutAllNonEmpty(e);
    if |base| != 0 {
      base := [0x80] + base;
    }
    if |extra| == 0 {
      assert (m + d) + e == m + d;
      return base;
    }
    if |base| == 0 {
      base := [0x80];
    }
    return base + extra;
  }

  lemma ReadsAnswers(octet: Byte, cfg: Config, ids: seq<U16>)
    ensures Parse([octet] + PutAll(Answers(cfg, ids))) == Answers(cfg, ids)
  {
    hide Answer, ParseList;
    var all := Answers(cfg, ids);
    ParsePutAll(all, []);
    assert PutAll(all) + [] == PutAll(all);
    assert ([octet] + PutAll(all))[1..] == PutAll(all);
  }

  lemma LegacyAnswers(cfg: Config)
    ensures Answers(cfg, LEGACY_IDS)
         == (Answer(cfg, ID_LINK_MTU) + Answer(cfg, ID_DNS_V4)) + Answer(cfg, ID_IPCP)
  {
    hide Answer;
    assert Answers(cfg, []) == [];
    AnswersSnoc(cfg, [], ID_LINK_MTU);
    AnswersSnoc(cfg, [ID_LINK_MTU], ID_DNS_V4);
    AnswersSnoc(cfg, [ID_LINK_MTU, ID_DNS_V4], ID_IPCP);
    assert [] + [ID_LINK_MTU] == [ID_LINK_MTU];
    assert [ID_LINK_MTU] + [ID_DNS_V4] == [ID_LINK_MTU, ID_DNS_V4];
    assert [ID_LINK_MTU, ID_DNS_V4] + [ID_IPCP] == LEGACY_IDS;
  }

  lemma PutAllNonEmpty(cs: seq<Container>)
    ensures PutAll(cs) == [] <==> cs == []
  {
  }

  function ReplyIds(cfg: Config): seq<U16> {
    if cfg.requestedIds == [] then LEGACY_IDS else cfg.requestedIds
  }

  /** The reply is nil exactly when nothing is answered.  Otherwise it starts
      with the UE's own protocol octet, and a peer parsing it finds exactly the
      answers to the requested IDs, in the UE's order. */
  method BuildEPCOReply(cfg: Config) returns (r: seq<Byte>)
    ensures r == [] <==> Answers(cfg, ReplyIds(cfg)) == []
    ensures r != [] ==>
              r[0] == if cfg.requestedIds == [] || cfg.protocolOctet == 0 then 0x80 else cfg.protocolOctet
    ensures Parse(r) == Answers(cfg, ReplyIds(cfg))
    ensures Replies(cfg, if cfg.requestedIds == [] then [0x0010, 0x000D, 0x8021] else cfg.requestedIds, Parse(r))
  {
    hide Answer, ParseList, Replies;
    AnswersReply(cfg, ReplyIds(cfg));
    ghost var all := Answers(cfg, ReplyIds(cfg));
    ParsePutAll(all, []);
    assert PutAll(all) + [] == PutAll(all);
    PutAllNonEmpty(all);
    if |cfg.requestedIds| == 0 {
      r := EncodePCODNSMTUAndIPCP(cfg);
      assert r != [] ==> r[1..] == PutAll(all);
      return;
    }
    var containers: seq<Byte> := [];
    var ids := cfg.requestedIds;
    for i := 0 to |ids|
      invariant containers == PutAll(Answers(cfg, ids[..i]))
    {
      containers := AppendAnswer(containers, cfg, ids[i]);
      AnswersSnoc(cfg, ids[..i], ids[i]);
      PutAllConcat(Answers(cfg, ids[..i]), Answer(cfg, ids[i]));
      assert ids[..i] + [ids[i]] == ids[..i + 1];
    }
    assert ids[..|ids|] == ids;
    if |containers| == 0 {
      return [];
    }
    var ext := cfg.protocolOctet;
    if ext == 0 {
      ext := 0x80;
    }
    r := [ext] + containers;
    assert r[1..] == containers;
  }

  // ---- from the UE's request to the reply ---------------------------------

  function Ids(cs: seq<Container>): seq<U16> {
    seq(|cs|, i requires 0 <= i < |cs| => cs[i].id)
  }

  /** Value of the last container with this ID, as the lookup map keeps it */
  function LastValue(cs: seq<Container>, id: U16): Option<seq<Byte>> {
    if cs == [] then None
    else if cs[|cs| - 1].id == id then Some(cs[|cs| - 1].value)
    else LastValue(cs[..|cs| - 1], id)
  }

  /** The last container of a kind is the one that counts. */
  lemma {:induction false} LastValueIs(cs: seq<Container>, i: nat)
    requires i < |cs| && forall j | i < j < |cs| :: cs[j].id != cs[i].id
    ensures LastValue(cs, cs[i].id) == Some(cs[i].value)
  {
    var n := |cs| - 1;
    if i < n { LastValueIs(cs[..n], i); }
  }

  predicate RequestParsable(cs: seq<Container>) {
    LastValue(cs, ID_IPCP).Some? ==> IpcpParsable(LastValue(cs, ID_IPCP).value)
  }

  function RequestIpcp(cs: seq<Container>): Option<IpcpRequest>
    requires RequestParsable(cs)
  {
    match LastValue(cs, ID_IPCP) case Some(v) => ParseIpcp(v) case None => None
  }

  method ParseIPCPFromEPCO(epco: seq<Byte>) returns (r: IpcpOutcome)
    ensures r.Panic? <==> !RequestParsable(Parse(epco))
    ensures r.Parsed? ==> r.request == RequestIpcp(Parse(epco))
  {
    hide Parse;
    var list := ParseEPCOContainerList(epco);
    var byId: map<U16, seq<Byte>> := map[];
    for i := 0 to |list|
      invariant forall id: U16 :: LastValue(list[..i], id) == if id in byId then Some(byId[id]) else None
    {
      assert list[..i + 1][..i] == list[..i];
      byId := byId[list[i].id := list[i].value];
    }
    assert list[..|list|] == list;
    if ID_IPCP !in byId {
      return Parsed(None);
    }
    r := ParseIPCPConfigureRequest(byId[ID_IPCP]);
  }

  /** A UE's EPCO holding the containers cs is read back as exactly those: the
      IDs to answer are the UE's, in its order and with its repetitions. */
  lemma RequestReadBack(octet: Byte, cs: seq<Container>)
    requires Fit(cs)
    ensures Parse([octet] + PutAll(cs)) == cs
    ensures Ids(Parse([octet] + PutAll(cs))) == Ids(cs)
  {
    ParsePutAll(cs, []);
    assert PutAll(cs) + [] == PutAll(cs);
    assert ([octet] + PutAll(cs))[1..] == PutAll(cs);
  }
}
