# A verified model of claudia-5gc

A Dafny model of the parts of the claudia-5gc 5G core whose correctness is hardest to see by
reading: the LPP unaligned-PER codec, the NAS byte codecs, the framing around the cryptographic
primitives, and two small concurrent state machines.

| file | models |
|---|---|
| `Machine.dfy`, `Bits.dfy`, `Arith.dfy`, `Wrappers.dfy` | Go's integer widths and clock readings; shifts, masks, OR and XOR as functions of bits; division by a variable divisor; `Option` and `Result` |
| `Uper.dfy`, `BitStreams.dfy` | UPER primitives as bit-string parsers and encoders; the mutable bit writer and reader |
| `LppSyntax.dfy`, `LppParse.dfy`, `LppAccepts.dfy` | LPP messages on the wire, the decoder as a function, the language it accepts |
| `LppWire.dfy`, `LppLayout.dfy` | what each builder sends, in the abstract syntax and bit by bit |
| `LppCodec.dfy`, `LppDecoder.dfy`, `LppRoundTrip.dfy` | the six builders, the decoder, a message from one to the other |
| `Gnss.dfy`, `Quantize.dfy` | Gauss-Jordan elimination, code phases, geodetic coordinates |
| `Gsm7.dfy`, `NetworkName.dfy` | septet packing, the Network Name element |
| `NasReader.dfy`, `NasIe.dfy`, `ConfigurationUpdate.dfy`, `ServiceRequest.dfy`, `Epco.dfy`, `PduSession.dfy` | NAS cursor, PLMN, GUTI, NSSAI, three NAS messages, protocol configuration options |
| `Kdf.dfy`, `EapAka.dfy`, `Bcd.dfy`, `Suci.dfy` | KDF input string, EAP-AKA' packets, BCD digits, SUCI Profile A |
| `Audit.dfy`, `Guard.dfy`, `GuardRuns.dfy` | audit ring, call guard, interleaved calls |
| `LogLevel.dfy` | timed log-level override |

How it is written:

- Code that changes state is a class or a method on arrays. Its contract ties it to a
  specification function, and the properties are lemmas about that function.
- A wire format is a pair of functions: a parser that consumes a prefix and returns the rest, and
  an encoder that takes what follows it. A decoder is proved equal to the parser, a builder to the
  encoder, and the parser to undo the encoder whatever follows.
- Beside each pair stands the layout in numbers: octets, nibbles or bits by position, none of it
  through the encoder. A NAS decoder is described on every octet string, as a list of elements,
  known, unknown or cut off, and what each does.
- A message on the wire carries everything a peer may send, including extension additions and
  fields the decoder ignores; a `View` function says what the API shows of it.
- Octets are integers below 256. Machine widths appear where they matter: `int64` wrap-around
  in UPER ranges and in the TTL product, truncating writes, 16-bit lengths.
- AES, HMAC, SHA-256 and X25519 are function parameters, constrained by output lengths and, for
  X25519, by both sides agreeing on the secret.
- Clock readings, the random scalar of a concealment, tools and their answers are parameters.
- Concurrent code is a state machine with one step per critical section; a run is any sequence of
  enabled events.

Where the code is not what its documentation says, the model follows the code and states the
condition under which the promise holds, with an input where the condition does not name one. The
condition is exact, except for an over-long NSSAI and for the KDF input string, where it is one-way:

- `writeEnumExt` and `writeBits` truncate, so an initiator, latitude sign or altitude direction
  above 1 does not come back (`LppRoundTrip.BuildAndDecode`).
- The constrained-integer reader fails on the full `int64` range (`Uper.ConstrainedRoundTrip`).
- A latitude of sign south and value zero re-encodes as north (`Quantize.LatitudeWireRoundTrip`).
- An NSSAI value that ends in a zero-length entry makes the decoder index past its end
  (`NasIe.NssaiOutcomes`, `ConfigurationUpdate.DecodePanics`, `ConfigurationUpdate.PanicInput`).
- An NSSAI of more than 255 octets is written with a truncated length and comes back shorter
  (`ConfigurationUpdate.OverlongInput`, `ConfigurationUpdate.CommandRoundTrip`).
- An IPCP Configure-Request with a declared length below 4 makes the request decoder slice out of
  range (`PduSession.DecodePanics`, `PduSession.PanicInput`).
- A network code of fewer than two characters beside a 3-character country code makes the PLMN
  encoder index past it (`NasIe.PlmnInverts`, `ConfigurationUpdate.EncodePanicInput`).
- A RES or network name above 1016 octets overflows the attribute's length octet. A multiple of
  1024 octets hides every attribute; otherwise the walk goes on inside the value, and a RES can
  come back from a packet that does not verify (`EapAka.ResponseMeaning`, `EapAka.UnverifiedRes`).
- A KDF parameter of 65536 octets can make the input string ambiguous: 65536 zero octets do
  (`Kdf.LongParameterCollides`).
- An override of the log level can end before its TTL, because a callback carries no generation
  (`LogLevel.StaleCallbackReachable`, `LogLevel.OverrideLasts`).
- A `ttl_s` outside 1 to 3600 can be accepted after the product wraps (`LogLevel.TtlWraps`,
  `LogLevel.TtlRange`).

## Model

| member | source | states |
|---|---|---|
| Uper.BitWidth | shared/lpp/uper.go:48-53 | the width is the least that numbers n values |
| Uper.Put | shared/lpp/uper.go:75-79 | n bits written read back as the value's low n bits, the reader stopping exactly at what follows |
| Uper.ConstrainedRoundTrip | shared/lpp/uper.go:92-98 | for every int64 range and value, reading back gives the value exactly when the range is not the full int64 range or the value is its lower bound |
| Uper.PutEnum | shared/lpp/uper.go:174-187 | every root and extension value of an extensible enumeration is read back, whatever follows |
| Uper.PutNormallySmall | shared/lpp/uper.go:192-201 | a normally small number below 64 is read back |
| Uper.GeneralLengthInverts | shared/lpp/uper.go:206-222 | a length determinant below 16384 is read back, in the short form or the long one |
| Uper.OpenTypesInvert | shared/lpp/uper.go:227-236 | any list of present and absent open types is skipped to the bit after it |
| Uper.AdditionsInvert | shared/lpp/uper.go:243-265 | a block of 1 to 64 extension additions is skipped to the bit after it |
| Uper.FlagsAreBits | shared/lpp/uper.go:269-279 | a presence bitmap is the same bits whether written as a number or flag by flag |
| BitStreams.PacksUnique | shared/lpp/uper.go:110-115 | a bit string has one zero-padded MSB-first packing |
| BitStreams.BitWriter.WriteBit | shared/lpp/uper.go:64-72 | the buffer stays the MSB-first, zero-padded packing of all bits written, in ceil(n/8) octets |
| BitStreams.BitWriter.WriteBits | shared/lpp/uper.go:75-79 | appends exactly the encoding of the value |
| BitStreams.BitWriter.WriteConstrained | shared/lpp/uper.go:92-98 | accepts exactly the values in range and appends their encoding; otherwise writes nothing |
| BitStreams.BitWriter.WriteEnumExt | shared/lpp/uper.go:103-106 | appends the root encoding of the enumeration |
| BitStreams.BitWriter.Bytes | shared/lpp/uper.go:110-115 | the octets pack the bits written |
| BitStreams.BitReader.ReadBits | shared/lpp/uper.go:139-149 | value, failure and position agree with the parser on the remaining bits |
| BitStreams.BitReader.ReadConstrained | shared/lpp/uper.go:158-168 | agrees with the parser, including the range check after the wrapped addition |
| BitStreams.BitReader.ReadEnumExt | shared/lpp/uper.go:174-187 | agrees with the parser for root and extension values |
| BitStreams.BitReader.ReadGeneralLength | shared/lpp/uper.go:206-222 | agrees with the parser on short, long and fragmented lengths |
| BitStreams.BitReader.ReadPresence | shared/lpp/uper.go:269-279 | the flags in order, or failure when bits run out |
| BitStreams.BitReader.SkipSequenceExtensions | shared/lpp/uper.go:243-265 | agrees with the parser of an extension block |
| LppParse.SatsInvert | shared/lpp/lpp.go:1356-1425 | a list of satellites of any length is read back field by field, in order |
| LppParse.MessageInverts | shared/lpp/lpp.go:630-720 | every well-formed wire message, with any extensions and ignored fields, decodes to its view, stopping at its last bit |
| LppParse.ExtensionsAreSkipped | shared/lpp/lpp.go:769-778 | removing every extension block, and every optional field the API does not show, from any well-formed message leaves the decoded PDU and the bits after it unchanged |
| LppAccepts.BitsSound | shared/lpp/uper.go:139-149 | bits that read as a value are that value's encoding |
| LppAccepts.ConstrainedSound | shared/lpp/uper.go:158-168 | an accepted constrained integer is in range and its bits are its encoding |
| LppAccepts.ExtSound | shared/lpp/uper.go:243-265 | every block the extension skipper accepts is the encoding of some additions |
| LppAccepts.SatsSound | shared/lpp/lpp.go:1356-1425 | every accepted list of satellites is the encoding of well-formed satellites |
| LppAccepts.MessageSound | shared/lpp/lpp.go:630-720 | every bit string the decoder accepts is the encoding of a well-formed message and what is left over, and the PDU is that message's view |
| LppAccepts.Accepted | shared/lpp/lpp.go:630-720 | the decoder accepts exactly the encodings of the abstract syntax |
| LppDecoder.Decode | shared/lpp/lpp.go:630-720 | on every octet string the decoder succeeds exactly when the parser does, with the same PDU |
| LppDecoder.DecodeTransactionID | shared/lpp/lpp.go:724-745 | initiator and number, or failure, at the same bit as the parser |
| LppDecoder.DecodeCriticalExtensions | shared/lpp/lpp.go:749-765 | accepts only the critical-extensions choice c1 and its first alternative |
| LppDecoder.DecodeProvideCapabilities | shared/lpp/lpp.go:829-879 | the capabilities of an optional support list, extensions skipped |
| LppDecoder.DecodeSupportElement | shared/lpp/lpp.go:883-954 | a GNSS identifier and its ue-assisted bit; a late failure on the field assistance list |
| LppDecoder.DecodeProvideAssistanceData | shared/lpp/lpp.go:958-1108 | time, uncertainty and location, or failure on any other content |
| LppDecoder.DecodeRequestLocationInformation | shared/lpp/lpp.go:1113-1183 | both optional parts consumed and ignored |
| LppDecoder.DecodeProvideLocationInformation | shared/lpp/lpp.go:1187-1239 | measurements, error cause, or both, and failure when neither is there |
| LppDecoder.DecodeSignalMeasurementInformation | shared/lpp/lpp.go:1245-1353 | one system, one signal and its 1 to 64 satellites |
| LppDecoder.DecodeSatMeasElement | shared/lpp/lpp.go:1356-1425 | ten fields of a satellite, four of them optional |
| LppDecoder.DecodeAGnssError | shared/lpp/lpp.go:1430-1462 | the target-device error cause, or failure on the other choice |
| LppCodec.WriteEnvelope | shared/lpp/lpp.go:283-306 | appends the encoding of the message head |
| LppCodec.BuildRequestCapabilities | shared/lpp/lpp.go:315-328 | never fails, and packs the encoding of a Request Capabilities message; the result decodes to what was asked for exactly when the initiator is 0 or 1; every bit is given: the support list is asked for and nothing else |
| LppCodec.BuildProvideCapabilities | shared/lpp/lpp.go:339-378 | never fails, and packs the encoding of the capabilities; the result decodes to what was asked for exactly when the initiator is 0 or 1; every bit is given: one element for GPS, UE-assisted, signal L1 C/A, or none |
| LppCodec.BuildProvideAssistanceData | shared/lpp/lpp.go:386-456 | succeeds exactly when every field is in wire range, and packs the encoding of all thirteen; they decode unchanged exactly when the three one-bit fields hold one bit; every bit is given |
| LppCodec.BuildRequestLocationInformation | shared/lpp/lpp.go:463-495 | never fails, and packs the encoding of the request; the result decodes to what was asked for exactly when the initiator is 0 or 1; every bit is given: measurements are required, of GPS, with all flags off |
| LppCodec.BuildProvideLocationInformation | shared/lpp/lpp.go:504-583 | succeeds exactly when there are 1 to 64 satellites with fields in range, and packs the encoding of all of them; the result decodes unchanged exactly when the initiator is 0 or 1; every bit is given: GPS, signal L1 C/A and 55 bits a satellite |
| LppCodec.BuildProvideLocationInformationError | shared/lpp/lpp.go:590-614 | succeeds exactly for a root cause, and packs its encoding; the result decodes unchanged exactly when the initiator is 0 or 1; every bit is given |
| LppCodec.EncodedDecodes | shared/lpp/lpp.go:630-720 | octets that pack a wire message decode to its view |
| LppLayout.HeadIs | shared/lpp/lpp.go:283-306 | the head of a message is presence bits 1001, extension bit, root bit, one bit of initiator, eight of number, the end flag, and the choice indices |
| LppLayout.RequestLocationIs | shared/lpp/lpp.go:463-495 | the encoding of the location request is the literal bit string |
| LppLayout.RequestCapabilitiesIs | shared/lpp/lpp.go:315-328 | the encoding of the capabilities request is the literal bit string |
| LppLayout.CapabilitiesIs | shared/lpp/lpp.go:339-378 | the encoding of either capabilities answer is the literal bit string |
| LppLayout.AssistanceIs | shared/lpp/lpp.go:386-456 | the encoding of assistance data is literal bits and thirteen fields at fixed widths |
| LppLayout.SatsAre | shared/lpp/lpp.go:555-582 | the encoding of a list of satellites is 55 bits each, in order |
| LppLayout.MeasurementsAre | shared/lpp/lpp.go:504-583 | the encoding of measurements is literal bits, the time in 22 and the count in 6 |
| LppLayout.ErrorIs | shared/lpp/lpp.go:590-614 | the encoding of an error is literal bits and two of cause |
| LppCodec.RequestCapabilitiesRoundTrip | shared/lpp/lpp.go:315-328 | the built message decodes to the same type, transaction and flag exactly when the initiator is 0 or 1 |
| LppCodec.ProvideCapabilitiesRoundTrip | shared/lpp/lpp.go:339-378 | likewise, with the advertised capabilities |
| LppCodec.RequestLocationRoundTrip | shared/lpp/lpp.go:463-495 | likewise, for a location request |
| LppCodec.AssistanceRoundTrip | shared/lpp/lpp.go:386-456 | all thirteen fields come back exactly when initiator, latitude sign and altitude direction are 0 or 1 |
| LppCodec.MeasurementsRoundTrip | shared/lpp/lpp.go:504-583 | every field of every one of 1 to 64 satellites comes back, in order, exactly when the initiator is 0 or 1 |
| LppCodec.ErrorRoundTrip | shared/lpp/lpp.go:590-614 | the location error cause comes back |
| LppRoundTrip.BuildAndDecode | shared/lpp/lpp.go:283-720 | whatever any builder accepts is decoded, to what was asked for exactly when the unchecked one-bit fields hold one bit |
| Gnss.Solve4x4 | shared/lpp/gnss.go:317-359 | when it succeeds, the result is the one and only solution and the matrix is regular; when it fails, the matrix sends a vector with an entry of one below the threshold in every row |
| Gnss.StuckIsAlmostSingular | shared/lpp/gnss.go:335-337 | a column without a usable pivot yields that vector, of the matrix itself |
| Gnss.EliminationTracks | shared/lpp/gnss.go:340-348 | on vectors the pivot rows send to zero, elimination leaves each row equal to its original |
| Gnss.SwapTracks | shared/lpp/gnss.go:338 | a swap keeps that, with the rows permuted |
| Gnss.UniqueIsRegular | shared/lpp/gnss.go:351-358 | a system with one solution has a regular matrix, so a singular one is never solved |
| Gnss.EliminationEquivalent | shared/lpp/gnss.go:340-348 | subtracting a multiple of the pivot row keeps the solution set |
| Gnss.SwapEquivalent | shared/lpp/gnss.go:338 | swapping rows keeps the solution set |
| Gnss.DiagonalUnique | shared/lpp/gnss.go:351-358 | a reduced system has exactly the solution read off its diagonal |
| Gnss.FindPivot | shared/lpp/gnss.go:327-334 | the pivot has the largest magnitude of its column |
| Gnss.EliminateRow | shared/lpp/gnss.go:340-348 | although only columns from the pivot on are updated, the whole row becomes the difference |
| Gnss.ClearColumn | shared/lpp/gnss.go:340-348 | the column is zero off the diagonal, earlier columns stay reduced, the solution set is kept |
| Quantize.PseudorangeToCodePhase | shared/lpp/gnss.go:417-432 | accepts exactly 0 to 128 ms less half a code-phase unit, and the result is within 299792.458/2^22 m, rounding carry included |
| Quantize.CodePhaseRoundTrip | shared/lpp/gnss.go:440-442 | every wire pair re-encodes to itself |
| Quantize.LatitudeWireRoundTrip | shared/lpp/gnss.go:471-492 | encode of decode is the identity exactly on wire values other than south zero |
| Quantize.LatitudeError | shared/lpp/gnss.go:471-492 | same hemisphere, magnitude never larger and less than one step smaller (one step at a pole) |
| Quantize.LongitudeWireRoundTrip | shared/lpp/gnss.go:499-514 | encode of decode is the identity exactly on wire values |
| Quantize.LongitudeError | shared/lpp/gnss.go:499-514 | the error is in [0, 360/2^24) exactly for longitudes in [-180, 180) |
| Gsm7.PackBits | shared/gsm7/gsm7.go:145-159 | bit k of septet i is stream bit 7i+k, padding bits are zero |
| Gsm7.PackUnique | shared/gsm7/gsm7.go:145-159 | no other octets carry those stream bits |
| Gsm7.PackSeptets | shared/gsm7/gsm7.go:145-159 | the loop produces that packing of the septets, masked to seven bits |
| Gsm7.UnpackSeptets | shared/gsm7/gsm7.go:171-187 | each septet is seven consecutive stream bits, zero past the end |
| Gsm7.UnpackPack | shared/gsm7/gsm7.go:171-187 | unpacking inverts packing for every length; septets asked for beyond the end are zero |
| Gsm7.OctetLengthAmbiguity | shared/gsm7/gsm7.go:192-194 | the count derived from octets is right unless n mod 8 is 7, when it is one too many and adds a zero septet |
| Gsm7.PackGSM7 | shared/nas/network_name.go:94-110 | on 7-bit input the second implementation gives the same octets, in bounds on every input, with the spare-bit count |
| Gsm7.SpillInBounds | shared/nas/network_name.go:94-110 | the unguarded write to the next octet is in bounds |
| Gsm7.UnpackGSM7 | shared/nas/network_name.go:114-131 | unpacks the number of septets the spare bits say |
| Gsm7.SpareBitsResolve | shared/nas/network_name.go:114-131 | the spare-bit count recovers the number of septets for every length |
| NetworkName.TablesInverse | shared/nas/network_name.go:55-89 | the two alphabet tables are inverse to each other |
| NetworkName.Utf16RoundTrip | shared/nas/network_name.go:154-226 | UTF-16 decoding restores every text, surrogate pairs included |
| NetworkName.Gsm7RoundTrip | shared/nas/network_name.go:154-226 | a text in the default alphabet comes back from packed septets |
| NetworkName.Ucs2RoundTrip | shared/nas/network_name.go:154-226 | any text comes back from UCS2 octets |
| NetworkName.NameRoundTrip | shared/nas/network_name.go:154-226 | the contents of any encoded name decode to the same text, in the coding chosen for it |
| NetworkName.NameLayout | shared/nas/network_name.go:154-185 | the first octet by coding and spare bits, then packed septets or big-endian units |
| NetworkName.NameOutcome | shared/nas/network_name.go:190-226 | exactly which contents are refused; the coding and country-initials bits of the rest |
| NetworkName.SeptetsExist | shared/nas/network_name.go:135-145 | the 7-bit coding is chosen exactly when every character has a septet |
| NetworkName.RuneDecodes | shared/nas/network_name.go:190-226 | a character is one unit or a surrogate pair of ten bits each, whatever follows |
| NetworkName.LoneSurrogate | shared/nas/network_name.go:190-226 | a surrogate without its partner becomes U+FFFD |
| NetworkName.EncodeNetworkName | shared/nas/network_name.go:154-185 | computes the encoding, failing on an empty or overlong text |
| NetworkName.Gsm7Septets | shared/nas/network_name.go:135-145 | the septets of the text, or failure when a character is not in the alphabet |
| NetworkName.DecodeNetworkName | shared/nas/network_name.go:190-226 | computes the decoding, with its error cases |
| NasReader.Reader.ReadByte | shared/nas/nas.go:450-486 | takes the next octet, or fails without moving |
| NasReader.Reader.ReadBytes | shared/nas/nas.go:450-486 | takes n octets, or fails without moving |
| NasIe.PlmnInverts | shared/nas/ie.go:405-431 | the encoder panics exactly on a 3-character country code with fewer than two characters of network code; otherwise decoding gives the carried form, for 2- and 3-digit network codes |
| NasIe.CarriedPlmnOk | shared/nas/ie.go:405-438 | the PLMN is encoded and comes back unchanged exactly when its codes are decimal of the right lengths |
| NasIe.GutiInverts | shared/nas/ie.go:67-116 | a 5G-GUTI panics with its PLMN; otherwise it decodes to its carried form, which is the GUTI exactly when PLMN and AMF identifiers are in range |
| NasIe.GutiLayout | shared/nas/ie.go:67-88 | the octets of a 5G-GUTI in range, digit by digit and field by field |
| NasIe.IdentityOutcome | shared/nas/ie.go:91-116 | exactly which identities are refused; the fields of any 5G-GUTI by octet |
| NasIe.NssaiInverts | shared/nas/ie.go:219-255 | a list of any length is read back, each differentiator in its low 24 bits |
| NasIe.CarriedNssaiOk | shared/nas/ie.go:219-255 | the list is unchanged exactly when every differentiator is absent or fits 24 bits |
| NasIe.EncodeNSSAI | shared/nas/ie.go:219-231 | the loop produces the entries in order |
| NasIe.SnssaiLayout | shared/nas/ie.go:219-231 | the octets of an entry: length 1 or 4, slice type, differentiator |
| NasIe.EntryRead | shared/nas/ie.go:234-255 | what any entry is read as, and where reading goes on |
| NasIe.NssaiOutcomes | shared/nas/ie.go:234-255 | reading panics exactly when the value is complete entries and a final zero octet; otherwise it reports truncation exactly when the entries are not complete |
| NasIe.PrefixIsShorter | shared/nas/ie.go:234-255 | a cut-off list is read without a panic as a shorter one |
| NasIe.DecodeNSSAI | shared/nas/ie.go:234-255 | agrees with the reading of the list, with truncation and the index panic as outcomes |
| ConfigurationUpdate.CommandRoundTrip | shared/nas/configuration_update.go:50-188 | for every combination of present and absent elements: with NSSAIs of at most 255 octets the command comes back unchanged exactly when its fields are in range; with a longer one it does not, unless the octets spilling over end in an element that reads as that list |
| ConfigurationUpdate.OverlongInput | shared/nas/configuration_update.go:76-81 | 52 slices in range do not come back |
| ConfigurationUpdate.LastNssaiWins | shared/nas/configuration_update.go:120-188 | on any octets, a decoded NSSAI is the one the last element of its kind carries |
| ConfigurationUpdate.DecodePanics | shared/nas/configuration_update.go:120-188 | the decoder panics exactly when an NSSAI element it meets ends in a zero-length entry behind complete ones |
| ConfigurationUpdate.PanicInput | shared/nas/configuration_update.go:120-188 | a three-octet message that panics |
| ConfigurationUpdate.DecodeEncoded | shared/nas/configuration_update.go:120-188 | every encoded command decodes to its carried form |
| ConfigurationUpdate.TaiBounded | shared/nas/configuration_update.go:120-188 | no decoded TAI list is over 255 octets |
| ConfigurationUpdate.ElementsInvert | shared/nas/configuration_update.go:120-188 | any list of elements, in any order and number, is decoded to the meaning of each in turn: known ones set their field; unknown ones, a single octet from 0x80 on and identifier, length and value below, change nothing; a value that is not all there counts as empty and is read as further elements |
| ConfigurationUpdate.EveryStringIsElements | shared/nas/configuration_update.go:120-188 | every octet string is such a list |
| ConfigurationUpdate.KnownElements | shared/nas/configuration_update.go:141-171 | what the identity, NSSAI and name elements set, in terms of the values encoded in them |
| ConfigurationUpdate.CommandElements | shared/nas/configuration_update.go:50-116 | an encoded command is its present elements, in a fixed order under fixed identifiers |
| ConfigurationUpdate.EncodeConfigurationUpdateCommand | shared/nas/configuration_update.go:50-116 | computes the encoding; panics exactly on a GUTI whose PLMN does, else fails exactly when a network name is too long |
| ConfigurationUpdate.EncodePanicInput | shared/nas/configuration_update.go:50-116 | a command with a one-digit network code panics |
| ConfigurationUpdate.DecodeElement | shared/nas/configuration_update.go:120-188 | one turn of the loop does to the command, and takes from the cursor, what ElementsInvert says of one element |
| ConfigurationUpdate.DecodeConfigurationUpdateCommand | shared/nas/configuration_update.go:120-188 | agrees with the decoding on every octet string (so with ElementsInvert), terminates, and panics exactly on the malformed NSSAIs |
| ServiceRequest.DecodeServiceRequest | shared/nas/service_request.go:39-134 | terminates in bounds on every octet string, recursing into containers, fails exactly on the empty one, and agrees with the decoding |
| ServiceRequest.HeaderKept | shared/nas/service_request.go:75-134 | optional elements, nested containers included, change nothing but the two session statuses |
| ServiceRequest.BodyDecodes | shared/nas/service_request.go:39-75 | the first octet is service type, key set type and key set from the left, the TMSI octets 3 to 6 of the identity; then the elements |
| ServiceRequest.CutBodyDecodes | shared/nas/service_request.go:57-69 | an identity that is not all there leaves the TMSI zero and is read as elements |
| ServiceRequest.ElementsInvert | shared/nas/service_request.go:72-134 | any list of elements, in any order and number, is decoded to the meaning of each in turn, up to the first that is cut off |
| ServiceRequest.EveryStringIsElements | shared/nas/service_request.go:72-134 | every octet string is such a list and a cut-off rest |
| ServiceRequest.StatusDecodes | shared/nas/service_request.go:75-134 | a status element sets its mask and decoding goes on after it |
| ServiceRequest.ContainerDecodes | shared/nas/service_request.go:75-134 | a container decodes as its inner message merged into the outer one |
| ServiceRequest.NestedStatuses | shared/nas/service_request.go:39-134 | at any nesting depth, the statuses are the innermost message's and key set, service type and TMSI the outermost's, by octet |
| Epco.ParsePutAll | shared/nas/pdu_session.go:500-516 | parsing inverts the writing of any list of containers, and ends at the first that does not fit |
| Epco.RequestReadBack | shared/nas/pdu_session.go:500-516 | options holding any containers are read back as those, in order and with repetitions |
| Epco.ParseEPCOContainerList | shared/nas/pdu_session.go:500-516 | agrees with the parsing, stopping at the first container that does not fit |
| Epco.ParseIPCPConfigureRequest | shared/nas/pdu_session.go:463-487 | panics exactly on a Configure-Request that declares fewer than 4 octets, else agrees with the reading of the options |
| Epco.ConfigureRequestRead | shared/nas/pdu_session.go:463-487 | a Configure-Request with any options asks for exactly the servers among them; octets beyond its length do not matter |
| Epco.LastValueIs | shared/nas/pdu_session.go:521-539 | the last container of a kind counts |
| Epco.ParseIPCPFromEPCO | shared/nas/pdu_session.go:533-539 | the request in the last IPCP container, or its panic |
| Epco.AckMeaning | shared/nas/pdu_session.go:557-593 | the acknowledgement echoes the identifier, states its own length and lists exactly the requested options that have an address; there is none exactly when that list is empty |
| Epco.AnswersReply | shared/nas/pdu_session.go:661-720 | for every list of identifiers the answers are what is owed for each, in order |
| Epco.ContainersList | shared/nas/pdu_session.go:689-700 | as many containers as resolvers with an address of the family, each holding that address at the index its predecessors give it |
| Epco.AddressForms | shared/nas/pdu_session.go:561-573 | which addresses have an IPv4 form, their last four octets, and which are IPv6 only |
| Epco.EncodeIPCPConfigAckContainer | shared/nas/pdu_session.go:557-593 | writes that acknowledgement |
| Epco.BuildEPCOReply | shared/nas/pdu_session.go:661-720 | the UE finds in the parsed reply, for each identifier in request order with repetitions: the acknowledgement with option 129 the first and 131 the second IPv4 resolver, one container per resolver of the family by index, the MTU as a number, an empty container, or nothing; the reply is empty exactly when nothing is answered |
| Epco.EncodePCODNSMTUAndIPCP | shared/nas/pdu_session.go:725-736 | the reply without a request list is what is owed for MTU, IPv4 resolvers and IPCP, in that order |
| PduSession.DecodePDUSessionEstablishmentRequest | shared/nas/pdu_session.go:121-184 | agrees with the decoding on every octet string, terminates, is short exactly on one octet, and panics exactly on unparsable options |
| PduSession.DecodePanics | shared/nas/pdu_session.go:121-184 | on every octet string, the decoder panics exactly when an options element it meets ends its IPCP containers with a Configure-Request that declares fewer than 4 octets |
| PduSession.ElementsInvert | shared/nas/pdu_session.go:136-181 | any list of elements, in any order and number, is decoded to its meaning: options with any containers and left-over octets, empty or cut-off elements, and unknown ones |
| PduSession.EveryStringIsElements | shared/nas/pdu_session.go:121-184 | every octet string is such a list |
| PduSession.RequestShowsOptions | shared/nas/pdu_session.go:158-169 | wherever the options stand among any other elements, the request shows the UE's data rate, its container identifiers in order, its IPCP request and its protocol octet, or the decoder panics |
| PduSession.PanicInput | shared/nas/pdu_session.go:463-487 | two requests that panic, one with an octet left over behind its container |
| PduSession.AnswerRequest | shared/nas/pdu_session.go:883-889 | from the UE's octets through decoding and reply, or its panic: the UE finds what it is owed for each of its own identifiers, in its order and with its repetitions |
| Kdf.BuildS | shared/crypto/kdf/kdf.go:33-42 | the loop produces the input string |
| Kdf.ParameterAppended | shared/crypto/kdf/kdf.go:33-42 | the code, then each parameter followed by its two-octet big-endian length |
| Kdf.ParseInverts | shared/crypto/kdf/kdf.go:33-42 | the string parses uniquely from the right |
| Kdf.InputStringInjective | shared/crypto/kdf/kdf.go:33-42 | equal strings have equal function codes and parameter lists, for parameters below 65536 octets |
| Kdf.LongParameterCollides | shared/crypto/kdf/kdf.go:33-42 | one parameter of 65536 zero octets and 32769 empty ones give the same string |
| EapAka.EncodeAttr | shared/crypto/eapaka/codec.go:47-57 | type, length in 4-octet units, value, zero padding |
| EapAka.FindInList | shared/crypto/eapaka/codec.go:194-211 | the walk finds the first attribute of the type, for any list and padding, up to the first header it must stop at |
| EapAka.EveryStringIsAttributes | shared/crypto/eapaka/codec.go:194-211 | every octet string is a list of attributes and a rest at which the walk stops |
| EapAka.FindAttr | shared/crypto/eapaka/codec.go:194-211 | agrees with the walk on every octet string, in bounds |
| EapAka.WriteMacInPlace | shared/crypto/eapaka/codec.go:136-143 | writing a MAC changes the packet's MAC and nothing else |
| EapAka.SealedVerifies | shared/crypto/eapaka/codec.go:136-170 | a packet sealed under a key verifies under it and validates, whatever attributes precede the MAC |
| EapAka.InsertMAC | shared/crypto/eapaka/codec.go:136-143 | seals the buffer in place, the MAC being computed with the field zeroed |
| EapAka.VerifyMAC | shared/crypto/eapaka/codec.go:155-170 | agrees with the verification on every packet, a truncated MAC field included |
| EapAka.ExtractRES | shared/crypto/eapaka/codec.go:173-190 | agrees with the extraction, with its error cases |
| EapAka.ExtractMeaning | shared/crypto/eapaka/codec.go:173-190 | on any packet: the octets the bit count announces behind the attribute, rounded up, or an error when there are fewer |
| EapAka.SealMeaning | shared/crypto/eapaka/codec.go:136-170 | for any packet at all: sealing changes only the sixteen octets behind the MAC it finds, and the result verifies exactly when zeroing those leaves the MAC the same |
| EapAka.VerifiesForEveryKey | shared/crypto/eapaka/codec.go:136-170 | for any packet, the sealed one verifies under every HMAC and key exactly when a MAC attribute is found and its field held zeros |
| EapAka.SealSpares | shared/crypto/eapaka/codec.go:136-143 | a stretch of the packet survives sealing exactly when the MAC does not overwrite it with other octets |
| EapAka.DraftHasRoom | shared/crypto/eapaka/codec.go:136-143 | for any attributes, the slice of the MAC is in bounds |
| EapAka.ResponseMeaning | shared/crypto/eapaka/codec.go:121-128 | for every RES, exact conditions for validating, verifying and giving the RES back; neither of the last two when the attribute is a multiple of 1024 octets |
| EapAka.ShortResponse | shared/crypto/eapaka/codec.go:121-128 | up to 1016 octets all three hold |
| EapAka.UnverifiedRes | shared/crypto/eapaka/codec.go:121-128 | 1021 zero octets come back from a packet that does not verify |
| EapAka.ChallengeMeaning | shared/crypto/eapaka/codec.go:106-117 | for every network name, RAND, AUTN and KDF are found unmoved, with exact conditions for validating, verifying and the name |
| EapAka.FrameValidates | shared/crypto/eapaka/codec.go:214-223 | a framed packet validates exactly below 65536 octets |
| EapAka.PacketValidates | shared/crypto/eapaka/codec.go:214-223 | every framed packet below 65536 octets passes validation |
| EapAka.ZeroLengthHides | shared/crypto/eapaka/codec.go:194-211 | after a first attribute of a multiple of 1024 octets nothing is found, its length octet being zero |
| EapAka.BuildResponse | shared/crypto/eapaka/codec.go:121-128 | for every RES: the first twelve octets in numbers (code 2, the identifier, length, type 50, subtype 1, attribute 3); validates exactly below 65536 octets, verifies and gives the RES back exactly under the conditions of ResponseMeaning; up to 1016 octets every octet is given |
| EapAka.BuildChallenge | shared/crypto/eapaka/codec.go:106-117 | for every network name: the first 56 octets in numbers (code 1, the identifier, length, type 50, subtype 1, attributes 1, 2, 24 and 23 with RAND, AUTN, KDF and the length of the name); validates, verifies and shows the name exactly under the stated conditions; up to 1016 octets every octet is given |
| Suci.IncValue | shared/crypto/suci/suci.go:357-385 | one increment with carries adds one modulo 256^n |
| Suci.CounterValue | shared/crypto/suci/suci.go:357-385 | block n is enciphered under iv + n modulo 2^128 |
| Suci.CtrStream.IncrementCounter | shared/crypto/suci/suci.go:357-385 | the loop stops its carry where the increment does |
| Suci.CtrStream.XORKeyStream | shared/crypto/suci/suci.go:357-385 | octet i is XORed with octet (j mod 16) of the cipher of counter (j div 16), j counting every octet since the stream was made |
| Suci.CtrSplit | shared/crypto/suci/suci.go:357-385 | the output does not depend on how the input is split into calls |
| Suci.CtrTwice | shared/crypto/suci/suci.go:341-354 | enciphering twice gives the input back |
| Suci.CtrOctet | shared/crypto/suci/suci.go:357-385 | octet i is the input octet XORed with octet j mod 16 of the cipher of the 16-octet number iv + j div 16 modulo 2^128, j being its keystream position |
| Bcd.EncodeBCDLowNibbleFirst | shared/crypto/suci/suci.go:277-291 | for any characters: each octet holds the digits that start at its two byte indices, with a filler after an odd last one |
| Bcd.DecodeBCDLowNibbleFirst | shared/crypto/suci/suci.go:297-306 | the loop unpacks the nibbles, dropping fillers |
| Bcd.BcdRoundTrip | shared/crypto/suci/suci.go:277-306 | decoding gives any string back exactly when its characters are '0' to '?' and no '?' falls in a high nibble: every decimal string, odd or even, and none outside ASCII |
| Bcd.DecimalOctets | shared/crypto/suci/suci.go:277-291 | octet j of a decimal string is digit 2j plus 16 times digit 2j + 1, or the filler 15 |
| Suci.EciesKDF | shared/crypto/suci/suci.go:320-333 | the two keys are consecutive prefixes of the counter-mode hash expansion |
| Suci.ExpandBlock | shared/crypto/suci/suci.go:320-333 | block i hashes the secret, the four-octet big-endian number i + 1 and the other data |
| Suci.KeyMaterial | shared/crypto/suci/suci.go:88-96 | cipher key and IV are the first hash block, the MAC key the second |
| Suci.EncryptProfileA | shared/crypto/suci/suci.go:173-212 | computes the concealed identity that ConcealedOctets describes, or the key-agreement errors |
| Suci.DeconcealProfileA | shared/crypto/suci/suci.go:68-114 | computes the disclosure that DeconcealOutcome and ProfileARoundTrip describe |
| Suci.DeconcealOutcome | shared/crypto/suci/suci.go:68-114 | any identity at all is disclosed exactly when it is Profile A, has room for key and MAC, agrees on a secret and carries the MAC of its ciphertext; what is disclosed, in terms of the primitives |
| Suci.ConcealedOctets | shared/crypto/suci/suci.go:173-212 | there is a concealed identity exactly when both key agreements succeed; its octets are ephemeral key, ciphertext and eight octets of MAC under the hashed keys |
| Suci.DeconcealEncrypted | shared/crypto/suci/suci.go:68-114 | for all key pairs, any MSIN, format and network codes the MAC passes and the plaintext comes back, behind those codes |
| Suci.ProfileARoundTrip | shared/crypto/suci/suci.go:173-212 | deconcealing returns the MSIN, and as SUPI "imsi-" with country code, network code and MSIN for format 0 and the bare MSIN for any other, exactly when BCD can carry the MSIN |
| Audit.Ring.constructor | mcp/internal/guard/audit.go:33-35 | an empty ring of the given size |
| Audit.Ring.Add | mcp/internal/guard/audit.go:38-46 | the log grows by the entry, the ring keeping its newest entries across wrap-around |
| Audit.Ring.Recent | mcp/internal/guard/audit.go:49-66 | the last min(n, capacity, total) entries, oldest first, or all held when n is not positive |
| Guard.Guard.constructor | mcp/internal/guard/guard.go:162-183 | defaults for interval, ring size and mode |
| Guard.PolicyTable | mcp/internal/guard/guard.go:57-112 | by name and number: anyone may read, operators and administrators disrupt in operator and lab mode, only an administrator in the lab does more; a level that depends on the arguments counts, an absent or empty role is the viewer's |
| Guard.Guard.Check | mcp/internal/guard/guard.go:199-240 | proceeds exactly when mode, role, confirmation and rate limit allow, by name and number; dry-runs exactly unconfirmed calls that can be planned; the reported wait ends the limit; audits what it stops |
| Guard.Guard.Refused | mcp/internal/guard/guard.go:255-261 | a refusal above read-only is audited, any other is not |
| Guard.Guard.DryRunOf | mcp/internal/guard/guard.go:265-280 | the tool's plan or its failure, audited |
| Guard.Guard.Record | mcp/internal/guard/guard.go:244-253 | a completed call above read-only is audited as executed or failed |
| Guard.Guard.CallTool | mcp/internal/server/dispatcher.go:101-112 | a call above read-only adds exactly one entry, with who, what, when and the outcome that matches the response; a read-only call is answered and adds none |
| GuardRuns.AloneLikeCheck | mcp/internal/guard/guard.go:199-240 | a call that is not interrupted gets the verdict and the limiter state of Check |
| GuardRuns.RunKeeps | mcp/internal/guard/guard.go:199-253 | every interleaving keeps the invariant on calls, spacing and log |
| GuardRuns.OnlyAdmissibleCallsRun | mcp/internal/guard/guard.go:57-112 | in every interleaving no call beyond what the policy gives its mode and role, and no unconfirmed call of level 2 or 3, reaches its tool |
| GuardRuns.ConfirmedCallsAreSpaced | mcp/internal/guard/guard.go:225-240 | in every interleaving two confirmed calls that proceed are at least the minimum interval apart |
| GuardRuns.LimitedOnlyAfterARecentCall | mcp/internal/guard/guard.go:225-240 | a call is rate limited exactly when another proceeded less than the interval ago |
| GuardRuns.OneEntryPerCall | mcp/internal/server/dispatcher.go:101-112 | in every interleaving a finished call above read-only has exactly one entry, telling how it ended; any other has none |
| LogLevel.LevelAdmin.Put | shared/logging/level.go:105-141 | accepts exactly a valid level and an accepted TTL, as one step of the machine; otherwise changes nothing |
| LogLevel.LevelAdmin.Revert | shared/logging/level.go:144-153 | one callback step of the machine |
| LogLevel.LevelAdmin.WriteState | shared/logging/level.go:155-171 | reports level, base and the whole seconds left until the revert, zero when there is none or it is due |
| LogLevel.TtlRange | shared/logging/level.go:119-126 | exactly which values are accepted, and for how long: 0, and those whose product with 5^9 leaves a remainder by 2^55 within the hour, which short of overflow are 1 to 3600 |
| LogLevel.TtlWraps | shared/logging/level.go:119-126 | 2^55 + 5 is accepted as 5 seconds |
| LogLevel.NeverPermanent | shared/logging/level.go:105-153 | in every interleaving a level other than the base has the latest set's timer outstanding, due within 3600 s of that set, and announced |
| LogLevel.QuiescentIsBase | shared/logging/level.go:105-153 | an hour after the last set, with no due timer or callback left, the level is the base |
| LogLevel.OverrideLasts | shared/logging/level.go:128-135 | an override lasts until its own deadline, in every continuation without another set, exactly when at the set no callback waits and no timer it does not stop is due earlier |
| LogLevel.StaleCallbackReachable | shared/logging/level.go:144-153 | a reachable state in which the next override does not last |
| LogLevel.PromptOverridesLast | shared/logging/level.go:54-55 | if no callback ever waits across a set, every override lasts until its deadline |
| LogLevel.RevertInBounds | shared/logging/level.go:155-171 | in every reachable state the reported time is within an hour and never past the deadline |

## Left out

- ConfigurationUpdate.CommandRoundTrip: one-way for an NSSAI over 255 octets, because whether the octets spilling over rebuild every field depends on the whole message decoding itself.
- ConfigurationUpdate.DecodeEncoded: the carried form is stated for TAI lists and NSSAIs within their length octet.
- Guard.Guard.Check: risks are the four declared levels; an out-of-range level a tool might compute is not modelled.
- Mobile identities other than the 5G-GUTI are kept as octets.
- Strings that are not valid UTF-8, in network names and MSINs.
- IEEE rounding in the elimination and the quantizers, which are over exact reals; weighted least squares, WGS84 conversion and the position solver built on them.
- SUCI Profile B and the null scheme, the same pipeline over another curve or none.
- Milenage, key derivations on top of the input string, and random number generation.
- Error texts, log lines, JSON, HTTP and session plumbing, tool results and their size cap.
- NRPPa, NGAP and PFCP codecs, which rest on libraries outside the repository.
- The remaining NAS messages, QoS rules, timers, and language and data-coding tables: shallow one-way encoders.
- The session manager, NRF heartbeat and token cache.
- Go's data-race and memory model: a step of a state machine is a whole critical section, and the audit and guard mutexes are taken one at a time, as in the code.
