# Bluetooth Mesh access layer, modelled in Dafny

This project models the core of the access layer of btstack's Bluetooth Mesh
stack, as declared in `test/mesh/mesh_access.h`. The access layer turns a
decrypted access payload into an opcode and typed fields. It also builds
outgoing payloads from an opcode and fields, and it keeps the registry of
elements and models that messages are delivered to.

The implementation file `test/mesh/mesh_access.c` is not part of this model.
The model follows the declarations and comments of the header and the Mesh
Profile specification it implements. Where those leave a choice open, the
choice is listed below.

Modules, one per concern:

- `Wrappers` (wrappers.dfy): the optional value used where C returns null.
- `Wire` (wire.dfy): octet and integer types; little-endian and big-endian
  octet orders, with their round-trip lemmas. Section 3.1.1.1 of the Mesh
  Profile sends multi-octet access fields least significant octet first.
- `Opcode` (opcode.dfy): the opcode codec of section 3.7.3.1 of the Mesh
  Profile. The first octet gives the opcode's length: 1 octet below 0x80
  (0x7F is reserved), 2 octets for 0x80-0xBF, 3 octets for 0xC0-0xFF. In the
  `uint32_t` the opcode's octets are packed most significant first, so the
  opcode 0x8203 is sent as 0x82 0x03. A 3-octet vendor opcode therefore
  holds its company identifier byte-swapped relative to the little-endian
  order of other fields: the vendor opcode 0xC0 of company 0x0059 is sent as
  0xC0 0x59 0x00 and is the `uint32` 0xC0_5900, not 0xC0_0000 | 0x0059.
- `ModelIdentifiers` (model_identifier.dfy): `vendor_id << 16 | model_id` and
  the test for a SIG model. BLUETOOTH_COMPANY_ID_BLUETOOTH_SIG_INC is 0x003F,
  the company identifier the Bluetooth SIG assigns to itself.
- `Subscription` (subscription.dfy): the three-slot subscription list as a
  value, with the meaning of add, delete, delete-all and overwrite as
  functions. A slot holding the unassigned address 0x0000 is empty
  (section 3.4.2.1 of the Mesh Profile).
- `Registry` (registry.dfy): `mesh_model_t`, `mesh_element_t`, the element
  list and the iterators, as classes. Each model's subscription array is a
  Dafny `array` that the list methods update in place. Each method is proved
  to do what the matching `Subscription` function says.
- `AccessParser` (parser.dfy): the parser cursor `{opcode, data, len}` as a
  class. Init decodes the opcode; each extractor consumes its width from the
  front of the rest.
- `AccessBuilder` (builder.dfy): builder PDUs as a class over a fixed-capacity
  array. The capacity is set by section 3.7.3 of the Mesh Profile: at most
  11 octets for an unsegmented access payload (network builder) and at most
  380 octets for a segmented one (transport builder). Each PDU records which
  of the two C types it stands for (`segmented`). Only a transport PDU
  accepts the 24- and 32-bit adds; the network adds of those widths take a
  16-bit value, as declared.
- `AccessRoundTrip` (round_trip.dfy): builder and parser together.
  - A built message parses back to the opcode and fields that were written.
  - Opcode 0x8203 followed by the 16-bit field 0x1234 gives the octets
    `82 03 34 12`.
  - A payload that starts with 0x7F is rejected.

Choices the header leaves open:

- The add and overwrite status codes are Mesh foundation status codes
  (section 4.3.5 of the Mesh Profile): Success 0x00, Invalid Address 0x01,
  Insufficient Resources 0x05. Adding or overwriting 0x0000 gives Invalid
  Address, and 0x0000 is never reported as subscribed.
- `mesh_access_parser_get_u128` reads a little-endian 128-bit integer and
  stores it most significant octet first. `get_label_uuid` and `get_key`
  copy their 16 octets in the order they arrive.
- `mesh_access_parser_get_model_identifier` reads a vendor model identifier
  (company identifier, then model id) when exactly four octets are left.
  Otherwise it reads a 16-bit SIG model id. This matches how the
  configuration messages place a model identifier last.
- The builder init functions return null for a value that is not an opcode.
  Allocation of the PDU itself is taken to succeed (see "## Left out").
  The `add_*` functions return `void` in C. Here they return whether the
  field fit, and a field that does not fit changes nothing.
- The element and model counters are `uint16_t`, so their increments wrap
  at 2^16.
- A model's internal enumeration `mid` (lines 77-78) is supplied by the
  caller when the model is created. No declared operation says who numbers
  the models, so the registry does not assign it.
- `mesh_element_add` appends without checking for a duplicate unicast
  address. The primary element is the first element in the list.

## Model

| member | source | states |
|---|---|---|
| Wire.LittleEndianOfStore | test/mesh/mesh_access.h:211-214 | writing a value into n little-endian octets and reading them back gives the value modulo 256^n |
| Wire.LittleEndianRoundTrip | test/mesh/mesh_access.h:199-202 | a value that fits in n octets comes back unchanged from a store and a read |
| Wire.StoreOfLittleEndian | test/mesh/mesh_access.h:199-202 | reading octets as a little-endian integer and writing that value back into as many octets gives the same octets |
| Wire.BigEndianOfReversed | test/mesh/mesh_access.h:203 | a little-endian integer with its octets reversed has the same value read most significant first |
| Opcode.GetOpcode | test/mesh/mesh_access.h:195 | decoding succeeds exactly when the payload is non-empty, its first octet is not 0x7F, and it is at least as long as the first octet announces; the size is that length and the opcode is those octets read most significant first |
| Opcode.EncodeOpcode | test/mesh/mesh_access.h:210 | a valid opcode is written as 1 to 3 octets; the first octet is not 0x7F, announces exactly that length, and the octets read most significant first are the opcode |
| Opcode.GetOpcodeOfEncoded | test/mesh/mesh_access.h:195 | decoding the octets a builder init writes gives back the opcode and its size, whatever follows them |
| Opcode.EncodeOfGetOpcode | test/mesh/mesh_access.h:195 | every decoded opcode is valid, and encoding it again gives exactly the octets it was decoded from |
| Opcode.OpcodeCategories | test/mesh/mesh_access.h:195 | first octet 0x7F is rejected; below 0x7F gives a 1-octet opcode equal to the octet; 0x80-0xBF decodes exactly when 2 octets are present and gives size 2; 0xC0-0xFF decodes exactly when 3 octets are present and gives size 3 |
| ModelIdentifiers.GetModelIdentifier | test/mesh/mesh_access.h:178 | the vendor id and the model id of get_model_identifier(v, m) are v and m, for all 16-bit v and m |
| ModelIdentifiers.GetModelId | test/mesh/mesh_access.h:176 | the model id is the low half: the identifier is its vendor id times 2^16 plus the model id |
| ModelIdentifiers.GetVendorId | test/mesh/mesh_access.h:80 | the vendor id is the high half: the identifier lies between vendor id times 2^16 and the next multiple of 2^16 |
| ModelIdentifiers.IsBluetoothSig | test/mesh/mesh_access.h:174 | true exactly for the identifiers 0x003F_0000 to 0x003F_FFFF, those whose high 16 bits are the SIG company identifier |
| ModelIdentifiers.PackOfUnpack | test/mesh/mesh_access.h:80 | every 32-bit model identifier is its vendor id shifted left 16 bits plus its model id |
| ModelIdentifiers.IsBluetoothSigOfPack | test/mesh/mesh_access.h:174-178 | is_bluetooth_sig(get_model_identifier(v, m)) holds exactly when v is the SIG company identifier, for every m |
| Subscription.AddressesCount | test/mesh/mesh_access.h:96 | a list without duplicates holds exactly as many addresses as it has occupied slots, and no more than it has slots |
| Subscription.FullIffThreeAddresses | test/mesh/mesh_access.h:51 | a model has at most 3 subscriptions, and its list has no empty slot exactly when it has 3 |
| Subscription.Add | test/mesh/mesh_access.h:188 | keeps the list free of duplicates. Success exactly when the address is assigned and is either already present or there is room. On success the subscriptions become the old ones plus the address (no change when already present). Otherwise the list is unchanged, with Invalid Address for 0x0000 and Insufficient Resources for a full list |
| Subscription.Delete | test/mesh/mesh_access.h:189 | keeps the list free of duplicates; the subscriptions lose exactly the address; every slot holding another address keeps it |
| Subscription.Overwrite | test/mesh/mesh_access.h:190 | keeps the list free of duplicates and at most 3 entries; succeeds exactly when the address is assigned, and then the address is subscribed; adds no address but that one; an unassigned address leaves the list unchanged with Invalid Address |
| Subscription.DeleteAll | test/mesh/mesh_access.h:191 | keeps the list shape and leaves no subscription |
| Registry.MeshModel.constructor | test/mesh/mesh_access.h:73-97 | a new model has the given identifier, operations and publication model, its arrays have their declared sizes, and it has no subscription |
| Registry.MeshModel.ContainsSubscription | test/mesh/mesh_access.h:192 | true exactly when the address is one the model is subscribed to |
| Registry.MeshModel.AddSubscription | test/mesh/mesh_access.h:188 | the array's new contents and the status returned are those of Subscription.Add on the old contents |
| Registry.MeshModel.DeleteSubscription | test/mesh/mesh_access.h:189 | the array's new contents are those of Subscription.Delete on the old contents |
| Registry.MeshModel.OverwriteSubscription | test/mesh/mesh_access.h:190 | the array's new contents and the status returned are those of Subscription.Overwrite on the old contents |
| Registry.MeshModel.DeleteAllSubscriptions | test/mesh/mesh_access.h:191 | the array's new contents are those of Subscription.DeleteAll on the old contents |
| Registry.Element.constructor | test/mesh/mesh_access.h:107-122 | a new element has the given address and location, no model and both counters at zero |
| Registry.Element.AddModel | test/mesh/mesh_access.h:152 | appends the model. If the model is a SIG model, models_count_sig goes up by one (mod 2^16); otherwise models_count_vendor does. The other counter, the address and the location are unchanged. The counters keep counting the SIG and vendor models |
| Registry.Element.GetModelByIdentifier | test/mesh/mesh_access.h:172 | null exactly when no model of the element has the identifier; otherwise the first model that has it |
| Registry.Element.InitModelIterator | test/mesh/mesh_access.h:164 | the cursor is over the element's models and has visited none |
| Registry.ListIterator.Init | test/mesh/mesh_access.h:156 | the cursor is over the given items and has visited none |
| Registry.ListIterator.HasNext | test/mesh/mesh_access.h:158 | true exactly when fewer items have been visited than there are |
| Registry.ListIterator.Next | test/mesh/mesh_access.h:160 | returns the next unvisited item and adds it to the visited ones |
| Registry.ElementRegistry.constructor | test/mesh/mesh_access.h:142 | the element list holds only the primary element, which has no model yet |
| Registry.ElementRegistry.PrimaryElement | test/mesh/mesh_access.h:142 | the primary element is the first one in the element list |
| Registry.ElementRegistry.SetPrimaryElementAddress | test/mesh/mesh_access.h:144 | the primary element gets the address; its location, models and counters are unchanged |
| Registry.ElementRegistry.SetPrimaryElementLocation | test/mesh/mesh_access.h:146 | the primary element gets the location; its address, models and counters are unchanged |
| Registry.ElementRegistry.AddElement | test/mesh/mesh_access.h:148 | appends the element to the list, and the primary element stays first |
| Registry.ElementRegistry.ForUnicastAddress | test/mesh/mesh_access.h:150 | null exactly when no element has the address; otherwise the first element that has it |
| Registry.ElementRegistry.InitElementIterator | test/mesh/mesh_access.h:156 | the cursor is over the registry's elements and has visited none |
| Registry.VisitElements | test/mesh/mesh_access.h:154-160 | walking the element iterator to its end visits each element once, in insertion order |
| Registry.VisitModels | test/mesh/mesh_access.h:162-168 | walking the model iterator to its end visits each model of the element once, in insertion order |
| AccessParser.ParserState.constructor | test/mesh/mesh_access.h:124-128 | a new cursor has nothing left to read |
| AccessParser.ParserState.Init | test/mesh/mesh_access.h:196 | succeeds exactly when the payload's opcode decodes, and then holds that opcode with the rest of the payload left to read, so available() is the payload length minus the opcode size; on failure the cursor is unchanged |
| AccessParser.ParserState.Available | test/mesh/mesh_access.h:198 | the number of octets not yet read |
| AccessParser.ParserState.Skip | test/mesh/mesh_access.h:197 | drops exactly n octets from the front of what is left |
| AccessParser.ParserState.GetU8 | test/mesh/mesh_access.h:199 | returns the next octet and consumes it |
| AccessParser.ParserState.GetU16 | test/mesh/mesh_access.h:200 | returns the next 2 octets read least significant first and consumes exactly them |
| AccessParser.ParserState.GetU24 | test/mesh/mesh_access.h:201 | returns the next 3 octets read least significant first and consumes exactly them |
| AccessParser.ParserState.GetU32 | test/mesh/mesh_access.h:202 | returns the next 4 octets read least significant first and consumes exactly them |
| AccessParser.ParserState.GetU128 | test/mesh/mesh_access.h:203 | consumes 16 octets and stores them reversed, so that dest read most significant first is the little-endian integer that arrived; the rest of dest is untouched |
| AccessParser.ParserState.GetLabelUuid | test/mesh/mesh_access.h:204 | consumes 16 octets and copies them into dest in the order they arrived; the rest of dest is untouched |
| AccessParser.ParserState.GetKey | test/mesh/mesh_access.h:205 | consumes 16 octets and copies them into dest in the order they arrived; the rest of dest is untouched |
| AccessParser.ParserState.GetModelIdentifier | test/mesh/mesh_access.h:206 | with exactly 4 octets left, returns and consumes a vendor identifier: company id, then model id, each little-endian. Otherwise returns the SIG identifier of the next 2 octets and consumes them |
| AccessBuilder.ModelIdentifierOctets | test/mesh/mesh_access.h:215 | a model identifier is written as 2 octets for a SIG model and as 4 octets for a vendor model |
| AccessBuilder.ModelIdentifierOctetsRoundTrip | test/mesh/mesh_access.h:80 | a SIG model's 2 octets read back as its model id; a vendor model's 4 octets read back as its company id and model id, which pack into the identifier again |
| AccessBuilder.AccessPdu.constructor | test/mesh/mesh_access.h:210 | a new PDU has the requested capacity and type and no content |
| AccessBuilder.AccessPdu.AddUint8 | test/mesh/mesh_access.h:211 | (also line 219) appends the octet when one octet is free and reports whether it did; otherwise the content is unchanged |
| AccessBuilder.AccessPdu.AddUint16 | test/mesh/mesh_access.h:212 | (also line 220) appends the value's 2 little-endian octets when they fit, reads back as the value, and reports whether it fit; otherwise the content is unchanged |
| AccessBuilder.AccessPdu.AddUint24 | test/mesh/mesh_access.h:213 | on a transport PDU only, appends the value's 3 low little-endian octets when they fit, reads back as the value modulo 2^24, and reports whether it fit; otherwise the content is unchanged |
| AccessBuilder.AccessPdu.AddUint32 | test/mesh/mesh_access.h:214 | on a transport PDU only, appends the value's 4 little-endian octets when they fit, reads back as the value, and reports whether it fit; otherwise the content is unchanged |
| AccessBuilder.AccessPdu.AddModelIdentifier | test/mesh/mesh_access.h:215 | (also line 223) appends the model identifier's 2 or 4 octets when they fit, and reports whether they fit; otherwise the content is unchanged |
| AccessBuilder.InitWithCapacity | test/mesh/mesh_access.h:210 | null exactly for a value that is not an opcode; otherwise a fresh PDU of the given capacity and type holding just the encoded opcode |
| AccessBuilder.TransportInit | test/mesh/mesh_access.h:210 | null exactly for a value that is not an opcode; otherwise a fresh 380-octet transport PDU holding just the encoded opcode |
| AccessBuilder.NetworkInit | test/mesh/mesh_access.h:218 | null exactly for a value that is not an opcode; otherwise a fresh 11-octet network PDU, which takes no 24- or 32-bit add, holding just the encoded opcode |
| AccessBuilder.NetworkAddUint24 | test/mesh/mesh_access.h:221 | with its 16-bit parameter, appends the value's 2 octets and a zero octet when 3 octets fit; otherwise the content is unchanged |
| AccessBuilder.NetworkAddUint32 | test/mesh/mesh_access.h:222 | with its 16-bit parameter, appends the value's 2 octets and two zero octets when 4 octets fit; otherwise the content is unchanged |
| AccessBuilder.NarrowStore | test/mesh/mesh_access.h:221-222 | a 16-bit value written into n >= 2 octets is its 2 octets followed by zero octets |
| AccessBuilder.ZeroStore | test/mesh/mesh_access.h:221-222 | zero written into n octets is n zero octets |
| AccessRoundTrip.BuildExampleMessage | test/mesh/mesh_access.h:218-220 | network init with opcode 0x8203 followed by add_uint16(0x1234) gives the octets 82 03 34 12 |
| AccessRoundTrip.ParseReservedOpcode | test/mesh/mesh_access.h:196 | parser init rejects every payload that starts with 0x7F |
| AccessRoundTrip.AddIntegers | test/mesh/mesh_access.h:211-214 | appending an 8-, 16-, 24- and 32-bit field to a PDU with 10 free octets appends their little-endian octets, in order |
| AccessRoundTrip.BuildMessage | test/mesh/mesh_access.h:210-215 | a transport message with those fields and a model identifier fits: every append succeeds, and the content is the opcode's octets followed by the fields' octets |
| AccessRoundTrip.ReadBackUint8 | test/mesh/mesh_access.h:199 | reading an octet that was written gives it back |
| AccessRoundTrip.ReadBackUint16 | test/mesh/mesh_access.h:200 | reading a written 16-bit field gives the value back |
| AccessRoundTrip.ReadBackUint24 | test/mesh/mesh_access.h:201 | reading a written 24-bit field gives the value modulo 2^24 |
| AccessRoundTrip.ReadBackUint32 | test/mesh/mesh_access.h:202 | reading a written 32-bit field gives the value back |
| AccessRoundTrip.ParseModelIdentifier | test/mesh/mesh_access.h:206 | reading a model identifier written at the end of a message gives it back, SIG or vendor |
| AccessRoundTrip.ParseMessage | test/mesh/mesh_access.h:196-206 | parsing the octets written by BuildMessage succeeds and gives back the opcode and each field in order |
| AccessRoundTrip.BuildThenParse | test/mesh/mesh_access.h:195-215 | build then parse gives back the opcode, the 8-, 16- and 32-bit fields, the 24-bit field modulo 2^24, and the model identifier |

## Left out

- `mesh_access_init` (lines 135-138): the layer's init call. Its body is not part of this model. The `ElementRegistry` constructor stands for the primary element that the layer keeps in its element list.
- `mesh_access_message_processed` (line 140): it hands a PDU back to the lower transport layer, whose types are declared in a header that is not part of this model.
- The PDU getters `mesh_pdu_src`, `mesh_pdu_dst`, `mesh_pdu_netkey_index`, `mesh_pdu_len` and `mesh_pdu_data` (lines 181-185): they read a foreign struct. Here a received payload is a sequence of octets.
- `mesh_operation_handler` and `model_data` (lines 65, 90): function pointers and opaque data. An operation is just an opcode with a minimum length.
- `mesh_access_setup_unsegmented_message` and `mesh_access_setup_segmented_message` (lines 226-227): the alphabet of their format string is not declared, and varargs have no counterpart.
- Message dispatch, the radio, network encryption and segmentation: I/O and lower-layer work.
- The intrusive `btstack_linked_list` behind elements and models: replaced by sequences. A node added twice appears twice here (`AddElement`, `AddModel`); what the C list does with a node already in it is not modelled.
- `mesh_publication_model_t` and `appkey_indices` (lines 53-60, 93): kept as plain fields; the header declares no operation on them.
- Subscription.Overwrite: the contract states only what holds whether overwrite replaces one slot or clears the list first. The body replaces the first slot of a full list, but no property of that choice is stated.
- Registry.MeshModel.OverwriteSubscription: carries out Subscription.Overwrite and inherits its deliberately weaker contract.
- AccessBuilder.NetworkAddUint24: takes a 16-bit value, as declared, so no value above 0xFFFF can be sent through it; a network PDU does not take the transport's 24-bit add, so no 24-bit fidelity is claimed for network PDUs.
- AccessBuilder.NetworkAddUint32: takes a 16-bit value, as declared, so no value above 0xFFFF can be sent through it; a network PDU does not take the transport's 32-bit add, so no 32-bit fidelity is claimed for network PDUs.
- AccessParser.ParserState: the extractors require enough octets to be left instead of failing. This follows the header's convention: the caller checks `available()`, and the dispatcher checks an operation's minimum length before the handler runs.
- AccessParser.ParserState.Init: requires the payload to be shorter than 65536 octets, because `len` is a `uint16_t`.
- AccessBuilder.InitWithCapacity: the PDU buffer, which the lower layer owns, is assumed always to be allocated. A null from a failed allocation is not modelled, so a valid opcode always gets a PDU.
- AccessBuilder.TransportInit: the segmented PDU is assumed always to be allocated by the lower layer. Its null on allocation failure is not modelled.
- AccessBuilder.NetworkInit: the network PDU is assumed always to be allocated by the lower layer. Its null on allocation failure is not modelled.
- Registry.ListIterator: the cursor walks a copy of the list taken at init, while the C iterator follows the live `btstack_linked_list` links. Adding elements or models during an iteration, which the C interface leaves undefined, is not modelled.
- ModelIdentifiers.GetModelIdentifier: `vendor_id << 16 | model_id` is written as multiplication and addition. That it equals the bit operations is not proved.
