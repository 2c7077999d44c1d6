/** The access opcode codec of section 3.7.3.1 of the Mesh Profile. The first
    octet of an access payload says how long its opcode is:
      0xxxxxxx  a 1-octet opcode (0x7F is reserved for future use),
      10xxxxxx  the first of a 2-octet opcode,
      11xxxxxx  the first of a 3-octet vendor opcode (the last two octets
                carry the company identifier).
    Inside the uint32 that the C interface passes around, the opcode's octets
    are packed most significant first, so 0x8203 is the 2-octet opcode
    0x82 0x03. */
module Opcode {
  import opened Wire
  import opened Wrappers

  /** The reserved 1-octet opcode. */
  const RFU_OPCODE: uint8 := 0x7F

  /** The length that the first octet of an opcode announces. */
  function OpcodeSize(first: uint8): (size: nat)
    ensures 1 <= size <= 3
  {
    if first < 0x80 then 1 else if first < 0xC0 then 2 else 3
  }

  /** The results of mesh_access_pdu_get_opcode: the opcode and the number of
      octets it took. */
  datatype DecodedOpcode = DecodedOpcode(opcode: uint32, size: nat)

  /** mesh_access_pdu_get_opcode: the opcode at the head of an access payload,
      or None when the first octet is reserved or the payload is shorter than
      the first octet announces. */
  function GetOpcode(pdu: seq<uint8>): (r: Option<DecodedOpcode>)
    ensures r.Some? <==> |pdu| > 0 && pdu[0] != RFU_OPCODE && OpcodeSize(pdu[0]) <= |pdu|
    ensures r.Some? ==> r.value.size == OpcodeSize(pdu[0])
    ensures r.Some? ==> r.value.opcode == BigEndian(pdu[..r.value.size])
  {
    if |pdu| == 0 || pdu[0] == RFU_OPCODE then None
    else if pdu[0] < 0x80 then
      assert pdu[..1][..0] == [];
      Some(DecodedOpcode(pdu[0], 1))
    else if pdu[0] < 0xC0 then
      if |pdu| < 2 then None
      else
        BigEndian2(pdu[..2]);
        Some(DecodedOpcode(pdu[0] as int * 0x100 + pdu[1] as int, 2))
    else
      if |pdu| < 3 then None
      else
        BigEndian3(pdu[..3]);
        Some(DecodedOpcode(pdu[0] as int * 0x1_0000 + pdu[1] as int * 0x100 + pdu[2] as int, 3))
  }

  /** The opcodes that have an encoding: 1-octet values other than the
      reserved one, 2-octet values starting 10, and 3-octet values starting 11. */
  predicate IsValidOpcode(opcode: uint32)
  {
    || opcode < RFU_OPCODE
    || 0x8000 <= opcode < 0xC000
    || 0xC0_0000 <= opcode < 0x100_0000
  }

  /** The octets that the builders write first: the opcode's octets, most
      significant first, without leading zero octets. */
  function EncodeOpcode(opcode: uint32): (s: seq<uint8>)
    requires IsValidOpcode(opcode)
    ensures 1 <= |s| <= 3 && s[0] != RFU_OPCODE && OpcodeSize(s[0]) == |s|
    ensures BigEndian(s) == opcode
  {
    if opcode < 0x100 then
      assert [opcode as uint8][..0] == [];
      [opcode]
    else if opcode < 0x1_0000 then
      var s: seq<uint8> := [opcode / 0x100, opcode % 0x100];
      BigEndian2(s);
      s
    else
      var high := opcode / 0x100;
      var s: seq<uint8> := [high / 0x100, high % 0x100, opcode % 0x100];
      BigEndian3(s);
      s
  }

  /** Decoding what a builder wrote at the head of a payload gives back the
      opcode and its length, whatever follows it. */
  lemma GetOpcodeOfEncoded(opcode: uint32, rest: seq<uint8>)
    requires IsValidOpcode(opcode)
    ensures GetOpcode(EncodeOpcode(opcode) + rest) == Some(DecodedOpcode(opcode, |EncodeOpcode(opcode)|))
  {
    var e := EncodeOpcode(opcode);
    assert (e + rest)[..|e|] == e;
  }

  /** A decoded opcode is valid and re-encodes to the octets it came from. */
  lemma EncodeOfGetOpcode(pdu: seq<uint8>)
    requires GetOpcode(pdu).Some?
    ensures IsValidOpcode(GetOpcode(pdu).value.opcode)
    ensures EncodeOpcode(GetOpcode(pdu).value.opcode) == pdu[..GetOpcode(pdu).value.size]
  {
    var d := GetOpcode(pdu).value;
    if d.size == 2 {
      DivModUnique(d.opcode, 0x100, pdu[0], pdu[1]);
    } else if d.size == 3 {
      DivModUnique(d.opcode, 0x100, pdu[0] as int * 0x100 + pdu[1] as int, pdu[2]);
      DivModUnique(d.opcode / 0x100, 0x100, pdu[0], pdu[1]);
    }
  }

  /** What section 3.7.3.1 of the Mesh Profile lists, case by case. */
  lemma OpcodeCategories(pdu: seq<uint8>)
    requires |pdu| > 0
    ensures pdu[0] == RFU_OPCODE ==> GetOpcode(pdu).None?
    ensures pdu[0] < RFU_OPCODE ==> GetOpcode(pdu) == Some(DecodedOpcode(pdu[0], 1))
    ensures 0x80 <= pdu[0] < 0xC0 ==> (GetOpcode(pdu).Some? <==> |pdu| >= 2)
    ensures 0xC0 <= pdu[0] ==> (GetOpcode(pdu).Some? <==> |pdu| >= 3)
    ensures GetOpcode(pdu).Some? && 0x80 <= pdu[0] < 0xC0 ==> GetOpcode(pdu).value.size == 2
    ensures GetOpcode(pdu).Some? && 0xC0 <= pdu[0] ==> GetOpcode(pdu).value.size == 3
  {
  }
}
