/** What a client of the builders and the parser can rely on, proved from
    their contracts alone: a message built field by field parses back into the
    same opcode and fields, in the same order. */
module AccessRoundTrip {
  import opened Wire
  import opened Opcode
  import opened ModelIdentifiers
  import opened AccessBuilder
  import opened AccessParser

  /** An unsegmented message with the 2-octet opcode 0x8203 and one 16-bit
      field 0x1234 is the octets 0x82 0x03 0x34 0x12. */
  method BuildExampleMessage() returns (octets: seq<uint8>)
    ensures octets == [0x82, 0x03, 0x34, 0x12]
  {
    var pdu := NetworkInit(0x8203);
    var ok := pdu.AddUint16(0x1234);
    octets := pdu.Contents();
  }

  /** A payload that starts with the reserved opcode 0x7F is refused by the
      parser. */
  method ParseReservedOpcode(rest: seq<uint8>) returns (ok: bool)
    requires |rest| < 0xFFFF
    ensures !ok
  {
    var parser := new ParserState();
    ok := parser.Init([RFU_OPCODE] + rest);
  }

  /** Appending an 8-, a 16-, a 24- and a 32-bit field where ten octets are
      free writes the integer fields. */
  method AddIntegers(pdu: AccessPdu, a: uint8, b: uint16, c: uint32, d: uint32)
    requires pdu.Valid() && pdu.segmented && pdu.len + 10 <= pdu.data.Length
    modifies pdu`len, pdu.data
    ensures pdu.len == old(pdu.len) + 10
    ensures pdu.Valid() && pdu.Contents() == old(pdu.Contents()) + [a] + ToLittleEndian(b, 2) + ToLittleEndian(c, 3) + ToLittleEndian(d, 4)
  {
    var ok := pdu.AddUint8(a);
    ok := pdu.AddUint16(b);
    ok := pdu.AddUint24(c);
    ok := pdu.AddUint32(d);
  }

  /** A transport message carrying an 8-, a 16-, a 24- and a 32-bit field,
      with a model identifier last, fits the segmented capacity: every append
      succeeds, so the message is the opcode followed by the fields. */
  method BuildMessage(opcode: uint32, a: uint8, b: uint16, c: uint32, d: uint32, modelIdentifier: uint32)
    returns (octets: seq<uint8>)
    requires IsValidOpcode(opcode)
    ensures octets == EncodeOpcode(opcode) + [a] + ToLittleEndian(b, 2) + ToLittleEndian(c, 3) + ToLittleEndian(d, 4)
              + ModelIdentifierOctets(modelIdentifier)
    ensures |octets| <= MAX_SEGMENTED_ACCESS_PAYLOAD
  {
    var pdu := TransportInit(opcode);
    AddIntegers(pdu, a, b, c, d);
    var ok := pdu.AddModelIdentifier(modelIdentifier);
    octets := pdu.Contents();
  }

  /** Reading the octets of an 8-bit field gives its value back. */
  method ReadBackUint8(parser: ParserState, ghost value: uint8, ghost rest: seq<uint8>) returns (value': uint8)
    requires parser.Valid() && parser.Remaining() == [value] + rest
    modifies parser`data, parser`len
    ensures parser.Valid() && parser.Remaining() == rest
    ensures value' == value
  {
    ReadField(parser.Remaining(), [value], rest);
    value' := parser.GetU8();
  }

  /** Reading the octets of a 16-bit field gives its value back. */
  method ReadBackUint16(parser: ParserState, ghost value: uint16, ghost rest: seq<uint8>) returns (value': uint16)
    requires parser.Valid() && parser.Remaining() == ToLittleEndian(value, 2) + rest
    modifies parser`data, parser`len
    ensures parser.Valid() && parser.Remaining() == rest
    ensures value' == value
  {
    ReadField(parser.Remaining(), ToLittleEndian(value, 2), rest);
    value' := parser.GetU16();
    LittleEndianRoundTrip(value, 2);
  }

  /** Reading the octets of a 24-bit field gives the low 24 bits of the value
      written. */
  method ReadBackUint24(parser: ParserState, ghost value: uint32, ghost rest: seq<uint8>) returns (value': uint32)
    requires parser.Valid() && parser.Remaining() == ToLittleEndian(value, 3) + rest
    modifies parser`data, parser`len
    ensures parser.Valid() && parser.Remaining() == rest
    ensures value' == value % 0x100_0000
  {
    ReadField(parser.Remaining(), ToLittleEndian(value, 3), rest);
    value' := parser.GetU24();
    LittleEndianOfStore(value, 3);
  }

  /** Reading the octets of a 32-bit field gives its value back. */
  method ReadBackUint32(parser: ParserState, ghost value: uint32, ghost rest: seq<uint8>) returns (value': uint32)
    requires parser.Valid() && parser.Remaining() == ToLittleEndian(value, 4) + rest
    modifies parser`data, parser`len
    ensures parser.Valid() && parser.Remaining() == rest
    ensures value' == value
  {
    ReadField(parser.Remaining(), ToLittleEndian(value, 4), rest);
    value' := parser.GetU32();
    LittleEndianRoundTrip(value, 4);
  }

  /** A model identifier that ends the message is read back as written. */
  method ParseModelIdentifier(parser: ParserState, ghost modelIdentifier: uint32) returns (modelIdentifier': uint32)
    requires parser.Valid() && parser.Remaining() == ModelIdentifierOctets(modelIdentifier)
    modifies parser`data, parser`len
    ensures parser.Valid() && parser.Remaining() == []
    ensures modelIdentifier' == modelIdentifier
  {
    ghost var s := parser.Remaining();
    assert s[..|s|] == s;
    modelIdentifier' := parser.GetModelIdentifier();
    ModelIdentifierOctetsRoundTrip(modelIdentifier);
    PackOfUnpack(modelIdentifier);
    if !IsBluetoothSig(modelIdentifier) {
      assert s[2..4] == s[2..];
    }
  }

  /** Parsing that message gives back the opcode and every field, in order. */
  method ParseMessage(octets: seq<uint8>, ghost opcode: uint32, ghost a: uint8, ghost b: uint16, ghost c: uint32,
                      ghost d: uint32, ghost modelIdentifier: uint32)
    returns (ok: bool, opcode': uint32, a': uint8, b': uint16, c': uint32, d': uint32, modelIdentifier': uint32)
    requires IsValidOpcode(opcode)
    requires octets == EncodeOpcode(opcode) + ([a] + (ToLittleEndian(b, 2) + (ToLittleEndian(c, 3) + (ToLittleEndian(d, 4)
              + ModelIdentifierOctets(modelIdentifier)))))
    ensures ok
    ensures opcode' == opcode && a' == a && b' == b && c' == c % 0x100_0000 && d' == d
    ensures modelIdentifier' == modelIdentifier
  {
    ghost var fields := [a] + (ToLittleEndian(b, 2) + (ToLittleEndian(c, 3) + (ToLittleEndian(d, 4)
                        + ModelIdentifierOctets(modelIdentifier))));
    GetOpcodeOfEncoded(opcode, fields);
    var parser := new ParserState();
    ok := parser.Init(octets);
    opcode' := parser.opcode;
    ghost var tail := ModelIdentifierOctets(modelIdentifier);
    a' := ReadBackUint8(parser, a, ToLittleEndian(b, 2) + (ToLittleEndian(c, 3) + (ToLittleEndian(d, 4) + tail)));
    b' := ReadBackUint16(parser, b, ToLittleEndian(c, 3) + (ToLittleEndian(d, 4) + tail));
    c' := ReadBackUint24(parser, c, ToLittleEndian(d, 4) + tail);
    d' := ReadBackUint32(parser, d, tail);
    modelIdentifier' := ParseModelIdentifier(parser, modelIdentifier);
  }

  /** Splitting a field off the front of the octets left. */
  lemma ReadField(s: seq<uint8>, field: seq<uint8>, rest: seq<uint8>)
    requires s == field + rest
    ensures s[..|field|] == field && s[|field|..] == rest
  {
  }

  /** Octets appended one field after another are the same octets as the
      front field followed by the rest. */
  lemma Regroup(e: seq<uint8>, f1: seq<uint8>, f2: seq<uint8>, f3: seq<uint8>, f4: seq<uint8>, f5: seq<uint8>)
    ensures e + f1 + f2 + f3 + f4 + f5 == e + (f1 + (f2 + (f3 + (f4 + f5))))
  {
  }

  /** Build then parse: every value comes back. */
  method BuildThenParse(opcode: uint32, a: uint8, b: uint16, c: uint32, d: uint32, modelIdentifier: uint32)
    returns (opcode': uint32, a': uint8, b': uint16, c': uint32, d': uint32, modelIdentifier': uint32)
    requires IsValidOpcode(opcode)
    ensures opcode' == opcode && a' == a && b' == b && c' == c % 0x100_0000 && d' == d
    ensures modelIdentifier' == modelIdentifier
  {
    var octets := BuildMessage(opcode, a, b, c, d, modelIdentifier);
    Regroup(EncodeOpcode(opcode), [a], ToLittleEndian(b, 2), ToLittleEndian(c, 3), ToLittleEndian(d, 4),
            ModelIdentifierOctets(modelIdentifier));
    var ok;
    ok, opcode', a', b', c', d', modelIdentifier' := ParseMessage(octets, opcode, a, b, c, d, modelIdentifier);
  }
}
