# RAP attribute codecs and the stream management lifecycle, in Dafny

This project models two parts of a CUC (centralized user configuration)
for TSN streams that reserve resources with the Resource Allocation
Protocol (RAP, IEEE P802.1Qdd draft) and proves properties of the model.

1. **The RAP attribute TLV codec family.** A generic type-length-value
   framer (one type byte, a 16-bit big-endian length, the value) and the
   sub-TLVs built on it:
   - data-frame parameters (0x21);
   - token-bucket tspec (0x22) and MSRP tspec (0x23);
   - redundancy control (0x24) and VLAN context (0x25);
   - failure information (0x26), with the failure codes of IEEE 802.1Q
     Table 35-6;
   - the organisation-defined timing sub-TLV of a talker announce (0x27);
   - interface configuration (0xFF), nesting MAC addresses (0xFE) and a
     VLAN tag (0xFD).

   Three attributes are built from those sub-TLVs:
   - the resource allocation class attribute (RACA, 0x00);
   - the talker announce attribute (TAA, 0x01);
   - the listener attach attribute (LAA, 0x02).

   Bytes are `int`s in 0..255. A Python exception becomes an `Err` (or,
   for a method that changes an object, a `Some` exception), named after
   the exception class Python raises: ValueError, IndexError,
   OverflowError, TypeError, AttributeError or KeyError.

   The sub-TLVs are values: every caller deserializes them into a freshly
   built object, so each sub-TLV decoder is a function returning a record.
   The TAA, LAA, RACA and redundancy-control operations that work step by
   step are methods:
   - TAA, LAA and RACA are classes whose `deserialize` overwrites the
     object's fields, or appends to its list;
   - the redundancy-control codec loops over a cursor.

   Each method is proved equal to a specification function, and the
   properties are proved about those functions.

2. **The stream management task.** Three parts are modelled:
   - a requirement database: a nested map MAC → stream id → (talker or
     listener, requirement), with MACs kept in first-insertion order;
   - a status database: stream id → (state, status, configurations),
     whose `advance_state` drives each stream through NEW, PENDING,
     DEPLOYED, WITHDRAWN and ERROR;
   - the handlers that combine the two databases.

   Sending a message onto a queue is modelled as appending a packet
   (destination, message type or none, payload) to an `outbox` sequence.
   So which request each event emits is a postcondition of its handler.

The defects the code has are modelled as written, as failure outcomes
that lemmas exhibit:
- The TAA token-bucket branch calls `deserialize` with one argument too
  many, which raises TypeError.
- The redundancy-control R-tag check rejects a cleared bit.
- The redundancy-control scan never ends on a sub-TLV that is not a VLAN
  context. This is an `Err(NoTermination)` outcome of the specification
  function, and a precondition of the loop methods.
- The LAA 0x27 branch reads the bytes after the LAA instead of its own
  value.
- The VLAN-context constructor checks only the upper bound. A VLAN id
  from -15 to -1 is then serialized without error, as a zero high byte
  and the floored remainder, and reads back as that id plus 16.

## Model

| member | source | states |
|---|---|---|
| Tlv.Encapsulate | shared/rap/TLV.py:14-24 | the header is rejected exactly when the length needs more than 16 bits; the result is 3 + \|value\| bytes starting with the type |
| Tlv.Extract | shared/rap/TLV.py:25-31 | fails exactly on fewer than 3 bytes; header + value + rest give back the input; the value is the declared length, truncated to what is there |
| Tlv.ExtractEncapsulate | shared/rap/TLV.py:14-31 | extracting an encapsulated value followed by any bytes gives back the value and those bytes |
| Tlv.EncapsulateExtract | shared/rap/TLV.py:14-31 | a well-formed TLV is re-encapsulated from its extracted value byte for byte, with nothing left over |
| FailureCodes.FromCode | shared/rap/Failure_code.py:7-17 | exactly the codes 0-6, 13, 19 and 21 are accepted, each giving the code it names; any other raises ValueError |
| FailureCodes.FromCodeCode | shared/rap/Failure_code.py:7-17 | every failure code reads back from its number |
| Hex.ParseRender | shared/rap/TAA.py:20-26 | rendered hex pairs with any separators, stripped of them and read by fromhex, give back the bytes |
| Hex.RenderParse | shared/rap/TAA.py:44-49 | a canonical lower-case text is re-rendered exactly from the bytes it parses to |
| Hex.DecimalValueDecimal | shared/rap/TAA.py:51-55 | the decimal text of a byte reads back as that byte |
| Hex.RenderDecimalInverse | shared/rap/TAA.py:51-55 | the dash-joined decimal text of a byte sequence splits back into the decimal texts of its bytes |
| DataFrameParametersTlv.New | shared/rap/Data_frame_parameters_tlv.py:7-18 | accepted exactly when the MAC text parses, the VLAN id is at most 4095 and the priority at most 7; otherwise ValueError |
| DataFrameParametersTlv.Serialize | shared/rap/Data_frame_parameters_tlv.py:20-28 | type 0x21, declared length 8, the MAC unchanged, then the packed VLAN/priority field, which is at most 65534 |
| DataFrameParametersTlv.Deserialize | shared/rap/Data_frame_parameters_tlv.py:30-43 | IndexError under 3 bytes; accepted exactly when the value is 8 bytes; the MAC is value[0:6] and the fields are in range |
| DataFrameParametersTlv.RoundTrip | shared/rap/Data_frame_parameters_tlv.py:20-43 | serialize then deserialize restores MAC, VLAN id and priority |
| DataFrameParametersTlv.IgnoresTypeAndReservedBit | shared/rap/Data_frame_parameters_tlv.py:38-43 | the type byte and the lowest (reserved) bit do not affect the decoded value |
| MsrpTspecTlv.New | shared/rap/Msrp_tspec_tlv.py:7-17 | accepted exactly when both fields fit 16 bits; otherwise ValueError |
| MsrpTspecTlv.Serialize | shared/rap/Msrp_tspec_tlv.py:20-28 | 7 bytes: type 0x23, length 4, both fields big-endian |
| MsrpTspecTlv.Deserialize | shared/rap/Msrp_tspec_tlv.py:30-39 | IndexError under 3 bytes; accepted exactly when the value is 4 bytes |
| MsrpTspecTlv.RoundTrip | shared/rap/Msrp_tspec_tlv.py:20-39 | serialize then deserialize restores both fields |
| TokenBucketTspecTlv.New | shared/rap/Token_bucket_tspec_tlv.py:7-25 | accepted exactly when the frame sizes fit 16 bits, the rate 64 bits and the burst 32 bits |
| TokenBucketTspecTlv.Serialize | shared/rap/Token_bucket_tspec_tlv.py:27-34 | 19 bytes: type 0x22, length 16, then the four fields big-endian at [0:2], [2:4], [4:12], [12:16] of the value |
| TokenBucketTspecTlv.Deserialize | shared/rap/Token_bucket_tspec_tlv.py:36-47 | IndexError under 3 bytes; accepted exactly when the value is 16 bytes |
| TokenBucketTspecTlv.RoundTrip | shared/rap/Token_bucket_tspec_tlv.py:27-47 | serialize then deserialize restores all four fields |
| FailureInformationTlv.New | shared/rap/Failure_information_tlv.py:10-22 | accepted exactly when the MAC text is 17 characters and parses; the system id is two zero bytes then the MAC |
| FailureInformationTlv.GetSystemId | shared/rap/Failure_information_tlv.py:27-33 | IndexError for an id under 8 bytes; otherwise canonical lower-case dashed hex that parses back to the id |
| FailureInformationTlv.Serialize | shared/rap/Failure_information_tlv.py:35-42 | type 0x26 and \|system id\| + 4 bytes; fails only when the length overflows 16 bits |
| FailureInformationTlv.Deserialize | shared/rap/Failure_information_tlv.py:44-51 | IndexError under 3 bytes; a success has a value of at least 9 bytes and takes the 8-byte id from value[0:8] |
| FailureInformationTlv.RoundTrip | shared/rap/Failure_information_tlv.py:35-51 | 12 bytes on the wire; deserialize restores id and code and reports 12 bytes consumed, whatever follows |
| FailureInformationTlv.NewFromCanonicalMac | shared/rap/Failure_information_tlv.py:10-33 | for a canonical lower-case MAC text, get_system_id returns "00-00-" followed by that text |
| VlanContextTlv.New | shared/rap/Vlan_context_tlv.py:10-17 | accepted exactly when the VLAN id is at most 0xFFF, negative ids included, with no failure information |
| VlanContextTlv.TruncDiv256 | shared/rap/Vlan_context_tlv.py:22 | `int(x / 256)` rounds toward zero: the floor for non-negative x, 0 from -255 to -1, negative below |
| VlanContextTlv.Serialize | shared/rap/Vlan_context_tlv.py:19-35 | ValueError for a VLAN id above 0xFFF or below -15; otherwise type 0x25, and the first two value bytes are the id shifted left by 4, with 16 added to a negative id; failure information follows only when present |
| VlanContextTlv.NegativeVlanIdWraps | shared/rap/Vlan_context_tlv.py:10-46 | a VLAN id from -15 to -1 is accepted and serialized, and reads back as that id plus 16 |
| VlanContextTlv.Deserialize | shared/rap/Vlan_context_tlv.py:37-46 | IndexError under 3 bytes; the VLAN id is at most 0xFFF; failure information is read only after a 0x26 byte |
| VlanContextTlv.RoundTrip | shared/rap/Vlan_context_tlv.py:19-46 | serialize then deserialize restores the VLAN id and the presence and content of the failure information |
| VlanContextTlv.AddFailureInformation | shared/rap/Vlan_context_tlv.py:48-54 | succeeds exactly when the MAC text is accepted, and then changes only the failure information |
| VlanContextTlv.RemoveFailureInformation | shared/rap/Vlan_context_tlv.py:56-58 | clears only the failure information |
| RedundancyControlTlv.Encoding | shared/rap/Redundancy_control_tlv.py:22-44 | a well-formed TLV whose value is the R-tag byte followed by the VLAN contexts serialized in list order |
| RedundancyControlTlv.Serialize | shared/rap/Redundancy_control_tlv.py:22-44 | the loop accumulating length and value returns exactly Encoding |
| RedundancyControlTlv.ContextsBytesFailure | shared/rap/Redundancy_control_tlv.py:28-40 | once a VLAN context fails to serialize, the serialization of the whole list fails in the same way |
| RedundancyControlTlv.EmptyList | shared/rap/Redundancy_control_tlv.py:25-34 | an empty list serializes to the 4-byte TLV [0x24, 0, 1, R-tag byte] |
| RedundancyControlTlv.Decoding | shared/rap/Redundancy_control_tlv.py:46-77 | IndexError under 3 bytes; ValueError "Invalid r tag status" when the value is empty or its top bit is clear; a decoded redundancy control has its R-tag set and exactly the contexts Scan reads from value offset 1 |
| RedundancyControlTlv.Deserialize | shared/rap/Redundancy_control_tlv.py:46-77 | the method returns exactly Decoding |
| RedundancyControlTlv.ScanLoop | shared/rap/Redundancy_control_tlv.py:65-76 | the cursor loop returns the contexts the scan specification reads, in wire order |
| RedundancyControlTlv.ScanContexts | shared/rap/Redundancy_control_tlv.py:65-76 | scanning the serialization of valid contexts gives back the same list |
| RedundancyControlTlv.RoundTrip | shared/rap/Redundancy_control_tlv.py:22-77 | with the R-tag set and valid contexts, deserialize of serialize gives back the redundancy control |
| RedundancyControlTlv.ClearedRTagRejected | shared/rap/Redundancy_control_tlv.py:50-54 | a serialized redundancy control with the R-tag cleared is rejected with "Invalid r tag status" |
| RedundancyControlTlv.ForeignSubTlvDoesNotTerminate | shared/rap/Redundancy_control_tlv.py:65-76 | a sub-TLV that is not a VLAN context makes the scan never end |
| InterfaceConfigurationTlv.NewMacAddresses | shared/rap/Interface_configuration_tlv.py:84-92 | accepted exactly when both MAC texts parse, taking their bytes |
| InterfaceConfigurationTlv.SerializeMacAddresses | shared/rap/Interface_configuration_tlv.py:94-96 | a well-formed type-0xFE TLV; fails only when the length overflows |
| InterfaceConfigurationTlv.DeserializeMacAddresses | shared/rap/Interface_configuration_tlv.py:98-101 | fails exactly under 3 bytes; destination then source make up the value |
| InterfaceConfigurationTlv.MacAddressesRoundTrip | shared/rap/Interface_configuration_tlv.py:94-101 | with a 6-byte destination, deserialize of serialize gives back both MACs |
| InterfaceConfigurationTlv.SerializeVlanTag | shared/rap/Interface_configuration_tlv.py:111-118 | rejected exactly for a VLAN id over 4095 ("Vlan ID to large") or a priority over 7; otherwise 5 bytes under type 0xFD |
| InterfaceConfigurationTlv.DeserializeVlanTag | shared/rap/Interface_configuration_tlv.py:120-126 | fails exactly under 3 bytes; the VLAN id is the low 12 bits, at most 4095 |
| InterfaceConfigurationTlv.VlanTagRoundTrip | shared/rap/Interface_configuration_tlv.py:111-126 | for priority ≤ 7 and VLAN id ≤ 4095, deserialize of serialize gives back the tag |
| InterfaceConfigurationTlv.VlanTagDropsBit12 | shared/rap/Interface_configuration_tlv.py:120-126 | bit 12 of the tag word is discarded |
| InterfaceConfigurationTlv.Serialize | shared/rap/Interface_configuration_tlv.py:20-30 | AttributeError without MAC addresses; a success has both sub-TLVs and an offset below 2^32, under type 0xFF; a valid configuration is 27 bytes |
| InterfaceConfigurationTlv.GetDstMac | shared/rap/Interface_configuration_tlv.py:35-39 | AttributeError without MAC addresses; otherwise dashed hex that parses back to the destination MAC |
| InterfaceConfigurationTlv.GetSrcMac | shared/rap/Interface_configuration_tlv.py:41-45 | AttributeError without MAC addresses; otherwise dashed hex that parses back to the source MAC |
| InterfaceConfigurationTlv.GetDstMacReproducesText | shared/rap/Interface_configuration_tlv.py:35-39 | a canonical lower-case destination MAC text is returned unchanged |
| InterfaceConfigurationTlv.Deserialize | shared/rap/Interface_configuration_tlv.py:47-59 | IndexError under 3 bytes; a success sets both sub-TLVs from a value of at least 18 bytes |
| InterfaceConfigurationTlv.RoundTrip | shared/rap/Interface_configuration_tlv.py:20-59 | a valid configuration, including its offset, is restored by deserialize of serialize |
| OrgDefinedTaaTlv.Serialize | shared/rap/TAA.py:241-248 | OverflowError exactly when a field is negative or exceeds 32 bits; otherwise 30 bytes: type 0x27, length 27, OCID EF-EF-EF, then the six fields |
| OrgDefinedTaaTlv.Deserialize | shared/rap/TAA.py:250-258 | IndexError exactly under 3 bytes; every field read fits 32 bits |
| OrgDefinedTaaTlv.RoundTrip | shared/rap/TAA.py:241-258 | deserialize of serialize restores all six fields |
| OrgDefinedTaaTlv.IgnoresOcid | shared/rap/TAA.py:250-258 | the three OCID bytes do not affect the decoded fields |
| Taa.StreamIdFromText | shared/rap/TAA.py:20-26 | accepted exactly when the text without ':' and '-' is hex for 8 bytes, which become the id; otherwise ValueError |
| Taa.New | shared/rap/TAA.py:16-36 | accepted exactly when the stream id and data-frame parameters are; sets the given rank, tspecs and organisation part, latency 0 and no other optional part |
| Taa.GetStreamId | shared/rap/TAA.py:44-49 | IndexError for an id under 8 bytes; otherwise canonical text xx-xx-xx-xx-xx-xx:xx-xx that parses back to the id |
| Taa.GetStreamIdReproducesText | shared/rap/TAA.py:16-49 | a canonical lower-case stream id text given to the constructor is what get_stream_id returns |
| Taa.GetMac | shared/rap/TAA.py:57-61 | IndexError under 6 id bytes; otherwise dashed hex of the first six id bytes |
| Taa.GetMacPrefixOfStreamId | shared/rap/TAA.py:44-61 | get_mac is the first 17 characters of get_stream_id |
| Taa.GetDstMac | shared/rap/TAA.py:51-55 | IndexError under 6 MAC bytes; otherwise six dash-separated DECIMAL fields, one per MAC byte |
| Taa.DstMacIsDecimal | shared/rap/TAA.py:51-55 | a MAC whose hex text starts "10" is rendered starting "16", so the text is not a MAC text |
| Taa.HeaderBytes | shared/rap/TAA.py:63-70 | OverflowError exactly when the rank is negative or over 255, or the latency is outside 32 bits; otherwise the id followed by 5 bytes |
| Taa.TspecBytes | shared/rap/TAA.py:72-78 | the MSRP tspec when present, else the token-bucket tspec when present, else nothing |
| Taa.OptionalBytes | shared/rap/TAA.py:80-94 | the present optional sub-TLVs in the order redundancy control, failure information, interface configuration, organisation part |
| Taa.Encoding | shared/rap/TAA.py:63-98 | OverflowError for an out-of-range rank or latency; otherwise a well-formed type-0x01 TLV of at least 21 bytes |
| Taa.DecodeFixed | shared/rap/TAA.py:105-110 | IndexError under 9 value bytes; takes id [0:8] and rank [8] and changes nothing but the fixed fields |
| Taa.DecodeTspec | shared/rap/TAA.py:112-120 | byte 24 selects the tspec: 0x22 raises TypeError; 0x23 reads an MSRP tspec and moves to 31; anything else reads nothing and stays at 24 |
| Taa.DecodeRedundancy | shared/rap/TAA.py:122-128 | a redundancy control is read only at the cursor with type 0x24; nothing else changes and the cursor never moves back |
| Taa.DecodeFailure | shared/rap/TAA.py:129-134 | failure information is read only at the cursor with type 0x26; nothing else changes |
| Taa.DecodeInterface | shared/rap/TAA.py:135-139 | an interface configuration is read only at the cursor with type 0xFF; nothing else changes |
| Taa.DecodeOrg | shared/rap/TAA.py:140-144 | an organisation part is read only at the cursor with type 0x27; nothing else changes |
| Taa.DecodeOptional | shared/rap/TAA.py:122-144 | the optional parts are the only fields the optional stage changes |
| Taa.Decoding | shared/rap/TAA.py:102-144 | IndexError under 3 bytes or under 9 value bytes; a decoded object has stream id value[0:8] and rank value[8], a value longer than 24 bytes without a token-bucket tspec at 24, its old token-bucket tspec, and rank and latency in range; a valid object stays valid |
| Taa.RoundTrip | shared/rap/TAA.py:63-144 | a serialized announce with an MSRP tspec (or no tspec but some optional part), read into an object without optional parts, gives back every field and each optional part's presence |
| Taa.TokenBucketRejected | shared/rap/TAA.py:112-120 | an announce carrying a token-bucket tspec serializes but cannot be read back: TypeError |
| Taa.BareAnnounceRejected | shared/rap/TAA.py:102-120 | an announce with neither tspec nor optional part serializes, but reading it back raises IndexError at the tspec byte |
| Taa.OutOfOrderIgnored | shared/rap/TAA.py:122-144 | a redundancy control placed after failure information is not read |
| Taa.Frame | shared/rap/TAA.py:96-98 | the serialized value is framed once, with nothing after it |
| TalkerAnnounceAttribute.TalkerAnnounce.Create | shared/rap/TAA.py:16-36 | a new object holds exactly Taa.New's fields; a rejected text raises its error and builds no object |
| TalkerAnnounceAttribute.TalkerAnnounce.Serialize | shared/rap/TAA.py:63-98 | the step-by-step build of the value returns exactly Taa.Encoding of the object |
| TalkerAnnounceAttribute.TalkerAnnounce.Deserialize | shared/rap/TAA.py:102-144 | the object ends as Taa.Decoding of its old fields, or the exception Decoding names is raised |
| TalkerAnnounceAttribute.TalkerAnnounce.ReadFixed | shared/rap/TAA.py:105-110 | the fixed-field reads leave the object Taa.DecodeFixed gives, or raise its exception |
| TalkerAnnounceAttribute.TalkerAnnounce.ReadTspec | shared/rap/TAA.py:112-120 | the tspec branch leaves the object and cursor Taa.DecodeTspec gives |
| TalkerAnnounceAttribute.TalkerAnnounce.ReadOptional | shared/rap/TAA.py:122-144 | the four optional branches leave the object Taa.DecodeOptional gives |
| TalkerAnnounceAttribute.TalkerAnnounce.ReadRedundancy | shared/rap/TAA.py:122-128 | the 0x24 branch leaves the object and cursor Taa.DecodeRedundancy gives |
| TalkerAnnounceAttribute.TalkerAnnounce.ReadFailure | shared/rap/TAA.py:129-134 | the 0x26 branch leaves the object and cursor Taa.DecodeFailure gives |
| TalkerAnnounceAttribute.TalkerAnnounce.ReadInterface | shared/rap/TAA.py:135-139 | the 0xFF branch leaves the object and cursor Taa.DecodeInterface gives |
| TalkerAnnounceAttribute.TalkerAnnounce.ReadOrg | shared/rap/TAA.py:140-144 | the 0x27 branch leaves the object and cursor Taa.DecodeOrg gives |
| TalkerAnnounceAttribute.TalkerAnnounce.IncreaseAccumulatedLatency | shared/rap/TAA.py:176-177 | only the latency changes, by the summand |
| TalkerAnnounceAttribute.TalkerAnnounce.AddFailureInformation | shared/rap/TAA.py:146-152 | succeeds exactly when the MAC text is accepted, then sets only the failure information; on ValueError nothing changes |
| TalkerAnnounceAttribute.TalkerAnnounce.RemoveFailureInformation | shared/rap/TAA.py:154-160 | only the failure information is cleared |
| TalkerAnnounceAttribute.TalkerAnnounce.AddRedundancyControl | shared/rap/TAA.py:162-166 | only the redundancy control is set, from the R-tag and the context list |
| TalkerAnnounceAttribute.TalkerAnnounce.AddOrgDefined | shared/rap/TAA.py:173-174 | only the organisation part is set |
| Laa.StatusFromCode | shared/rap/LAA.py:72-75 | codes 0-3 name a listener status and read back to it; any other raises ValueError |
| Laa.New | shared/rap/LAA.py:15-30 | accepted exactly when the stream id text is; status NONE and no optional part |
| Laa.GetStreamId | shared/rap/LAA.py:38-43 | IndexError for an id under 8 bytes; otherwise canonical stream-id text that parses back to the id |
| Laa.Encoding | shared/rap/LAA.py:45-65 | a well-formed type-0x02 TLV whose value starts with the id and the status byte; it is rejected exactly when the summed length of id, status and present optional parts overflows 16 bits |
| Laa.DecodeFailure | shared/rap/LAA.py:76-80 | failure information read at offset 9 changes only that field, and the position after it is at least 9 |
| Laa.DecodeTrailingInterface | shared/rap/LAA.py:81-85 | nothing is read when no bytes follow the failure information |
| Laa.DecodeOptional | shared/rap/LAA.py:76-96 | a sub-TLV at offset 9 of a type other than 0x26, 0xFF or 0x27 raises ValueError("Invalid Sub TLV in LAA") |
| Laa.Decoding | shared/rap/LAA.py:67-96 | IndexError under 3 bytes or under 9 value bytes; the error of an unknown status code; with exactly 9 value bytes only the id and status change; a decoded object has stream id value[0:8] and the status value[8] codes |
| Laa.Frame | shared/rap/LAA.py:45-65 | the serialized LAA, followed by any bytes, extracts to its value and those bytes |
| Laa.RoundTrip | shared/rap/LAA.py:45-96 | for all four combinations of optional parts, read into an object without them, deserialize gives back id, status and both optional parts |
| Laa.OptionalRoundTrip | shared/rap/LAA.py:76-89 | the optional part of a serialized LAA reads back |
| Laa.OrgBranchReadsRest | shared/rap/LAA.py:92-93 | the 0x27 branch takes its bytes from what follows the LAA, not from the LAA's value |
| Laa.InvalidSubTlvRejected | shared/rap/LAA.py:92-96 | any other leading sub-TLV type is rejected with ValueError |
| Laa.ListenerAttach.Create | shared/rap/LAA.py:15-30 | a new object holds exactly Laa.New's fields; a rejected text raises its error |
| Laa.ListenerAttach.Serialize | shared/rap/LAA.py:45-65 | the accumulating build returns exactly Laa.Encoding of the object |
| Laa.ListenerAttach.Deserialize | shared/rap/LAA.py:67-96 | the object ends as Laa.Decoding of its old fields, or the exception Decoding names is raised |
| Laa.ListenerAttach.ReadOptional | shared/rap/LAA.py:76-96 | the optional branches leave the object Laa.DecodeOptional gives |
| Laa.ListenerAttach.ReadFailureBranch | shared/rap/LAA.py:76-85 | the 0x26 branch leaves the object Laa.DecodeFailureFirst gives |
| Laa.ListenerAttach.ReadFailureFirst | shared/rap/LAA.py:76-80 | reading the failure information leaves the object and position Laa.DecodeFailure gives |
| Laa.ListenerAttach.ReadTrailingInterface | shared/rap/LAA.py:81-85 | the trailing interface configuration leaves the object Laa.DecodeTrailingInterface gives |
| Laa.ListenerAttach.AddFailureInformation | shared/rap/LAA.py:98-104 | succeeds exactly when the MAC text is accepted, then sets only the failure information; on ValueError nothing changes |
| Laa.ListenerAttach.RemoveFailureInformation | shared/rap/LAA.py:111-113 | only the failure information is cleared |
| Laa.ListenerAttach.UpdateStatus | shared/rap/LAA.py:115-117 | only the listener attach status changes |
| Raca.NewDescriptor | shared/rap/RACA.py:40-46 | accepted exactly when the id text without dashes is hex, whose bytes become the id; the priority is kept as given |
| Raca.GetRsid | shared/rap/RACA.py:51-55 | IndexError under 4 id bytes; otherwise canonical dashed text that the constructor turns back into the first four id bytes |
| Raca.SerializeDescriptor | shared/rap/RACA.py:57-63 | rejected exactly when the priority is not a byte or the length overflows; otherwise a well-formed type-0x20 TLV |
| Raca.DescriptorFromValue | shared/rap/RACA.py:65-72 | IndexError exactly on an empty value; priority value[0], id value[1:5] |
| Raca.DescriptorRoundTrip | shared/rap/RACA.py:57-72 | a valid descriptor is 8 bytes, declares length 5 and reads back from its extracted value |
| Raca.Encoding | shared/rap/RACA.py:16-22 | the descriptors' concatenation under type 0x00, rejected exactly when it overflows the length |
| Raca.EmptyAttribute | shared/rap/RACA.py:16-36 | an empty list serializes to [0, 0, 0], and reading that leaves the list unchanged |
| Raca.Decoding | shared/rap/RACA.py:24-36 | IndexError under 3 bytes; the old list is kept as a prefix of the result |
| Raca.DecodeList | shared/rap/RACA.py:26-36 | each descriptor read takes at least 3 bytes |
| Raca.MalformedRejected | shared/rap/RACA.py:26-36 | one or two stray bytes, or a descriptor with an empty value, raise IndexError |
| Raca.ConcatRoundTrip | shared/rap/RACA.py:16-72 | valid descriptors concatenate to 8 bytes each and are read back in order |
| Raca.RoundTrip | shared/rap/RACA.py:16-72 | a serialized list of valid descriptors is appended, in order, to the list of the attribute that reads it |
| Raca.Attribute.Serialize | shared/rap/RACA.py:16-22 | the loop over the list returns exactly Raca.Encoding |
| Raca.Attribute.Deserialize | shared/rap/RACA.py:24-36 | the loop leaves the list Raca.Decoding gives from the old list, or raises its exception |
| StreamRequirementDatabase.RegistrationEvent | cuc/stream_management/lib/stream_req_db.py:16-25 | UDT_* exactly when the (mac, stream) entry existed, NEW_* otherwise; *_TALKER exactly for a talker |
| StreamRequirementDatabase.Added | cuc/stream_management/lib/stream_req_db.py:18-23 | the entry for (mac, stream) is the new item and every other entry is unchanged, with no entry added |
| StreamRequirementDatabase.Removed | cuc/stream_management/lib/stream_req_db.py:27-30 | only the entry for (mac, stream) goes; the MAC's map is kept even when empty |
| StreamRequirementDatabase.TalkerOfFirst | cuc/stream_management/lib/stream_req_db.py:32-38 | the talker found is the first talker entry for the stream in MAC order, and none is found exactly when there is none |
| StreamRequirementDatabase.ListenersOfNone | cuc/stream_management/lib/stream_req_db.py:40-47 | no listener is found exactly when no MAC holds a listener entry for the stream |
| StreamRequirementDatabase.ListenersOfFrame | cuc/stream_management/lib/stream_req_db.py:40-47 | entries of a MAC not in the list do not change the listeners found |
| StreamRequirementDatabase.NewMacListenerLast | cuc/stream_management/lib/stream_req_db.py:16-47 | a listener registered from a new MAC comes last in the listener list |
| StreamRequirementDatabase.RequirementDb.AddRequirement | cuc/stream_management/lib/stream_req_db.py:16-25 | returns the registration event; the entry is set over any older one; a new MAC is appended to the MAC order |
| StreamRequirementDatabase.RequirementDb.RemoveRequirement | cuc/stream_management/lib/stream_req_db.py:27-30 | an existing entry is removed and returned; otherwise None and nothing changes |
| StreamRequirementDatabase.RequirementDb.GetTalker | cuc/stream_management/lib/stream_req_db.py:32-38 | the loop returns the first talker in MAC order |
| StreamRequirementDatabase.RequirementDb.GetListeners | cuc/stream_management/lib/stream_req_db.py:40-47 | the loop returns every listener in MAC order |
| StreamRequirementDatabase.RequirementDb.GetEndStations | cuc/stream_management/lib/stream_req_db.py:49-52 | the pair of the two getters |
| StreamStatusDatabase.NewItem | cuc/stream_management/lib/stream_status_db.py:18-23 | a new entry is NEW, with no status, no talker configuration and no listener configurations |
| StreamStatusDatabase.Succeeded | cuc/stream_management/lib/stream_status_db.py:106 | AttributeError without a status, KeyError without a failure code; success exactly when the failure code is 0 |
| StreamStatusDatabase.Transition | cuc/stream_management/lib/stream_status_db.py:58-110 | WITHDRAWN always goes to NEW with no request; it fails exactly on a result for a PENDING, DEPLOYED or ERROR stream whose status cannot be read; ADD_STREAM exactly from NEW on NEW_TALKER or NEW_LISTENER; every CNC request leaves the stream PENDING, or WITHDRAWN after REM_STREAM, or NEW after REM_STREAM_WITH_REMNANT; SM_STREAM_STATUS_IND exactly answers NEW_RESULT; DEPLOYED only through a successful result, ERROR only through a result; no request means no state change; an unrecognised event changes nothing |
| StreamStatusDatabase.Advance | cuc/stream_management/lib/stream_status_db.py:51-114 | an unknown stream is added as NEW with no request; only the given stream's state changes; a failure changes nothing |
| StreamStatusDatabase.Replay | cuc/stream_management/lib/stream_status_db.py:51-114 | over any event sequence, DEPLOYED is reached only through a successful result and WITHDRAWN only through REM_STREAM |
| StreamStatusDatabase.DeployedStable | cuc/stream_management/lib/stream_status_db.py:65-110 | a deployed stream whose status reports success stays deployed under results, new talkers and unrecognised events |
| StreamStatusDatabase.StatusDb.IsState | cuc/stream_management/lib/stream_status_db.py:30-34 | true exactly when the stream is known and in that state |
| StreamStatusDatabase.StatusDb.AddStream | cuc/stream_management/lib/stream_status_db.py:36-37 | the stream starts over as a new entry |
| StreamStatusDatabase.StatusDb.UpdateStreamState | cuc/stream_management/lib/stream_status_db.py:39-40 | KeyError exactly for an unknown stream; otherwise only that stream's state changes |
| StreamStatusDatabase.StatusDb.UpdateTalkerConf | cuc/stream_management/lib/stream_status_db.py:42-43 | KeyError exactly for an unknown stream; otherwise only its talker configuration changes |
| StreamStatusDatabase.StatusDb.UpdateListenerConfs | cuc/stream_management/lib/stream_status_db.py:45-46 | KeyError exactly for an unknown stream; otherwise only its listener configurations change |
| StreamStatusDatabase.StatusDb.UpdateStatus | cuc/stream_management/lib/stream_status_db.py:48-49 | KeyError exactly for an unknown stream; otherwise only its status changes |
| StreamStatusDatabase.StatusDb.AdvanceState | cuc/stream_management/lib/stream_status_db.py:51-114 | the table and the returned request are those of StreamStatusDatabase.Advance |
| StreamStatusDatabase.StatusDb.AdvanceTalker | cuc/stream_management/lib/stream_status_db.py:65-74 | the talker arms leave the table and return the request StreamStatusDatabase.Advance gives |
| StreamStatusDatabase.StatusDb.AdvanceListener | cuc/stream_management/lib/stream_status_db.py:76-90 | the listener arms leave the table and return the request StreamStatusDatabase.Advance gives |
| StreamStatusDatabase.StatusDb.AdvanceRemoval | cuc/stream_management/lib/stream_status_db.py:92-102 | the removal arms leave the table and return the request StreamStatusDatabase.Advance gives |
| StreamStatusDatabase.StatusDb.AdvanceResult | cuc/stream_management/lib/stream_status_db.py:104-110 | the result arm leaves the table and returns what StreamStatusDatabase.Advance gives, including its AttributeError and KeyError |
| StreamManagement.ListenerPayload | cuc/stream_management/sml_lib.py:83-98 | the whole stream for ADD_STREAM, the listener's own requirement for ADD_LISTENER or UPDATE_LISTENER, otherwise none |
| StreamManagement.DeregistrationEvent | cuc/stream_management/sml_lib.py:134-144 | REM_LISTENER exactly when listeners remain; REM_STREAM when neither listener nor talker remains; REM_STREAM_WITH_REMNANT when only a talker remains |
| StreamManagement.RemovalPayload | cuc/stream_management/sml_lib.py:146-155 | the listener MAC for REM_LISTENER, the stream id alone for REMOVE_STREAM, otherwise none |
| StreamManagement.Stored | cuc/stream_management/sml_lib.py:168-170 | the stream keeps its state and takes the reported status and configurations; other streams are unchanged |
| StreamManagement.StreamManagementSM.Register | cuc/stream_management/sml_lib.py:56-58 | the requirement is stored and the stream advanced by the event it reports; a registration event never fails |
| StreamManagement.StreamManagementSM.RegisterTalker | cuc/stream_management/sml_lib.py:48-68 | stores the talker, advances the stream, and sends one snapshot (talker and all listeners) to the CNC connector exactly when a request was returned; the first registration of an unseen stream sends nothing |
| StreamManagement.StreamManagementSM.SendStreamSnapshot | cuc/stream_management/sml_lib.py:60-68 | one packet carrying the stream's talker and listeners is appended |
| StreamManagement.StreamManagementSM.RegisterListener | cuc/stream_management/sml_lib.py:70-98 | stores the listener, advances the stream, and sends one packet with the listener payload exactly when a request was returned |
| StreamManagement.StreamManagementSM.SendListenerRequest | cuc/stream_management/sml_lib.py:83-98 | one packet with the listener payload for the request type is appended |
| StreamManagement.StreamManagementSM.DeregisterTalker | cuc/stream_management/sml_lib.py:100-121 | the entry goes; a WITHDRAWN stream is left alone with nothing sent; otherwise REM_STREAM or REM_STREAM_WITH_REMNANT by whether listeners remain, and one packet with the stream id |
| StreamManagement.StreamManagementSM.DeregisterListener | cuc/stream_management/sml_lib.py:123-157 | the entry goes; the deregistration event applies unless WITHDRAWN; exactly one packet is always sent, of no type when nothing was requested |
| StreamManagement.StreamManagementSM.StoreResult | cuc/stream_management/sml_lib.py:168-170 | KeyError and no change for an unknown stream; otherwise the status table becomes Stored |
| StreamManagement.StreamManagementSM.ProcessReservationResult | cuc/stream_management/sml_lib.py:159-178 | KeyError with nothing changed for an unknown stream; otherwise the result is stored, NEW_RESULT is applied, and one report with the new state goes to the protocol connector |

## Left out

- Console output: `dump` and `dump_pretty` of TAA and LAA, and the `print` calls in the redundancy-control decoder. They only print.
- JSON input: `Interface_configuration_tlv.parse_from_json`, and the `add_interface_configuration` mutators of TAA and LAA that call it. The model works on bytes, not JSON.
- Threads, the blocking queues, the `sender_name` of each queue packet, the handler dispatch table of the stream management task, the webhook server and the logger. Only what is sent, and to which queue, is modelled, as the outbox.
- The participant engine, the LRP transport and the CNC connector. Their handler bodies are empty.
- A stream status is modelled only as its optional failure code. The status and configuration records are opaque type parameters.
- Event strings outside the known set all become `Unrecognized`.
- `Listener_status` is not part of this model's sources. It is modelled as NONE, READY, FAILED and PARTIAL_FAILED coded 0..3, with any other code raising ValueError.
- DataFrameParametersTlv.New: the VLAN id and priority are typed `nat`, so the negative values Python's constructor accepts (it checks only upper bounds) are not represented.
- DataFrameParametersTlv.Serialize: for the same reason, the OverflowError that `to_bytes` raises for a negative VLAN id or priority is not modelled. The packed field is at most 65534 only over the values the model represents.
- MsrpTspecTlv.New: both fields are typed `nat`, so the negative values the constructor accepts are not represented.
- MsrpTspecTlv.Serialize: the OverflowError that `to_bytes` raises for a negative field is not modelled.
- TokenBucketTspecTlv.New: the four fields are typed `nat`, so the negative values the constructor accepts are not represented.
- TokenBucketTspecTlv.Serialize: the OverflowError that `to_bytes` raises for a negative field is not modelled.
- Hex.FromHex: Python's `fromhex` also skips spaces between byte pairs; the model rejects whitespace.
- RedundancyControlTlv.Deserialize: requires that the scan ends, because the source loops forever on a sub-TLV that is not a VLAN context. That outcome is proved as `Err(NoTermination)` of `Decoding`.
- RedundancyControlTlv.ScanLoop: the same precondition as `Deserialize`.
- TalkerAnnounceAttribute.TalkerAnnounce.Deserialize: the same precondition as the redundancy-control decoder it calls. It also does not state the object's fields after an exception; Python leaves them partly overwritten.
- TalkerAnnounceAttribute.TalkerAnnounce.ReadOptional: the same precondition as the redundancy-control decoder it calls.
- TalkerAnnounceAttribute.TalkerAnnounce.ReadRedundancy: the same precondition as the redundancy-control decoder it calls.
- Laa.ListenerAttach.Deserialize: does not state the object's fields after an exception.
- Raca.Attribute.Deserialize: does not state the list after an exception; the descriptors read before it stay appended in Python.
- Sub-TLV decoders return a new record rather than overwriting an object in place. Every caller decodes into a fresh object, so no caller can see the difference.
- The default list argument of `RACA.__init__` is shared between instances. The model gives each attribute its own list, so that aliasing is not captured.
- The LAA organisation-defined field is held as raw bytes. It is set only by the 0x27 branch and never serialized.
- The RACA descriptor's organisation-defined slot is always empty and never serialized, so it is not modelled.
- The `get_type` constant accessors of the sub-TLV classes are only the type constants, which each module declares.
