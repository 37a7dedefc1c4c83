/** A message built by one side and decoded by the other. */
module LppRoundTrip {
  import opened Wrappers
  import opened Bits
  import opened BitStreams
  import opened LppSyntax
  import opened LppParse
  import opened LppWire
  import opened LppLayout
  import opened LppCodec
  import opened LppDecoder

  /** What the builders can be asked for */
  datatype Message =
    | CapabilitiesRequest
    | CapabilitiesAnswer(gnssSupported: bool)
    | Assistance(ad: AssistanceData)
    | LocationRequest
    | Location(m: LocationMeasurements)
    | LocationError(cause: Byte)

  /** The builder accepts it. */
  predicate Buildable(msg: Message) {
    match msg
    case Assistance(ad) => AssistanceFits(ad)
    case Location(m) => MeasurementsFit(m)
    case LocationError(cause) => cause < 4
    case _ => true
  }

  function Asked(txn: TransactionID, msg: Message): PDU {
    match msg
    case CapabilitiesRequest => PDU(Some(txn), false, RequestCapabilities)
    case CapabilitiesAnswer(s) => PDU(Some(txn), true, ProvideCapabilities(Advertised(s)))
    case Assistance(ad) => PDU(Some(txn), true, ProvideAssistanceData(ad))
    case LocationRequest => PDU(Some(txn), false, RequestLocationInformation)
    case Location(m) => PDU(Some(txn), true, ProvideLocationInformation(Some(m), None))
    case LocationError(cause) => PDU(Some(txn), true, ProvideLocationInformation(None, Some(cause)))
  }

  /** Its unchecked one-bit fields hold one bit. */
  predicate OneBit(txn: TransactionID, msg: Message) {
    txn.initiator < 2 && (msg.Assistance? ==> OneBitFields(msg.ad))
  }

  method Build(txn: TransactionID, msg: Message) returns (r: Result<seq<Byte>>)
    ensures r.Ok? <==> Buildable(msg)
    ensures r.Ok? ==> (Decodes(r.value, Asked(txn, msg)) <==> OneBit(txn, msg))
    ensures r.Ok? ==> ParseMessage(StreamBits(r.value)).Got?
  {
    hide Encodes, Decodes, ParseMessage, AssistanceFits, MeasurementsFit, OneBitFields, Packs, HeadBits,
         RequestCapabilitiesBits, CapabilitiesBits, AssistanceBits, RequestLocationBits, MeasurementsBits, ErrorBits;
    match msg {
      case CapabilitiesRequest => r := BuildRequestCapabilities(txn);
      case CapabilitiesAnswer(s) => r := BuildProvideCapabilities(txn, s);
      case Assistance(ad) => r := BuildProvideAssistanceData(txn, ad);
      case LocationRequest => r := BuildRequestLocationInformation(txn);
      case Location(m) => r := BuildProvideLocationInformation(txn, m);
      case LocationError(cause) => r := BuildProvideLocationInformationError(txn, cause);
    }
    if r.Ok? {
      ghost var w :| Encodes(r.value, w);
      EncodedParses(r.value, w);
    }
  }

  lemma EncodedParses(b: seq<Byte>, w: WMessage)
    requires Encodes(b, w)
    ensures ParseMessage(StreamBits(b)).Got?
  {
    hide Encodes, ParseMessage;
    EncodedDecodes(b, w);
  }

  /** Whatever is built is decoded, and what is decoded is what was asked for
      exactly when the unchecked one-bit fields hold one bit. */
  method BuildAndDecode(txn: TransactionID, msg: Message) returns (r: Result<PDU>)
    ensures r.Ok? <==> Buildable(msg)
    ensures r.Ok? ==> (r.value == Asked(txn, msg) <==> OneBit(txn, msg))
  {
    hide ParseMessage, AssistanceFits, MeasurementsFit, OneBitFields, Asked;
    var b :- Build(txn, msg);
    r := Decode(b);
  }
}
