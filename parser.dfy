/** The access parser (test/mesh/mesh_access.h:124-128, 194-206): a cursor
    over the payload of one received access PDU. Init consumes the opcode;
    each extractor consumes its field's width from the front of what is left.
    As in the C interface, a caller first checks Available() against the width
    it is about to read (the dispatcher checks an operation's minimum_length
    once before the handler runs), so each extractor requires that much to be
    left. */
module AccessParser {
  import opened Wire
  import opened Opcode
  import ModelIdentifiers

  const UINT128_OCTETS: nat := 16

  /** mesh_access_parser_state_t. The C struct keeps a pointer into the PDU
      and the count of octets behind it; here the PDU's octets and the offset
      of that pointer stand for the pointer. */
  class ParserState {
    var opcode: uint32
    var pdu: seq<uint8>
    var data: nat
    var len: uint16

    ghost predicate Valid()
      reads this
    {
      data + len == |pdu|
    }

    /** The octets not yet consumed. */
    ghost function Remaining(): seq<uint8>
      reads this
      requires Valid()
    {
      pdu[data..]
    }

    constructor ()
      ensures Valid() && Remaining() == []
    {
      opcode := 0;
      pdu := [];
      data := 0;
      len := 0;
    }

    /** mesh_access_parser_init: succeeds exactly when the payload starts with
        a decodable opcode, and then leaves the cursor on the octet after it. */
    method Init(pdu: seq<uint8>) returns (ok: bool)
      requires |pdu| < 0x1_0000
      modifies this
      ensures ok <==> GetOpcode(pdu).Some?
      ensures ok ==> Valid() && opcode == GetOpcode(pdu).value.opcode
      ensures ok ==> Remaining() == pdu[GetOpcode(pdu).value.size..]
      ensures ok ==> Available() == |pdu| - GetOpcode(pdu).value.size
      ensures !ok ==> unchanged(this)
    {
      var decoded := GetOpcode(pdu);
      if decoded.None? {
        return false;
      }
      opcode := decoded.value.opcode;
      this.pdu := pdu;
      data := decoded.value.size;
      len := |pdu| - decoded.value.size;
      ok := true;
    }

    /** mesh_access_parser_available */
    function Available(): (n: nat)
      reads this
      requires Valid()
      ensures n == |Remaining()|
    {
      len
    }

    /** mesh_access_parser_skip */
    method Skip(bytesToSkip: uint16)
      requires Valid() && bytesToSkip <= Available()
      modifies this`data, this`len
      ensures Valid()
      ensures Remaining() == old(Remaining())[bytesToSkip..]
      ensures Available() == old(Available()) - bytesToSkip
    {
      data := data + bytesToSkip;
      len := len - bytesToSkip;
    }

    /** mesh_access_parser_get_u8 */
    method GetU8() returns (value: uint8)
      requires Valid() && Available() >= 1
      modifies this`data, this`len
      ensures Valid()
      ensures value == old(Remaining())[0]
      ensures Remaining() == old(Remaining())[1..]
    {
      value := pdu[data];
      Skip(1);
    }

    /** mesh_access_parser_get_u16: two octets, least significant first. */
    method GetU16() returns (value: uint16)
      requires Valid() && Available() >= 2
      modifies this`data, this`len
      ensures Valid()
      ensures value == LittleEndian(old(Remaining())[..2])
      ensures Remaining() == old(Remaining())[2..]
    {
      ghost var field := Remaining()[..2];
      LittleEndian2(field);
      value := pdu[data] as int + 0x100 * pdu[data + 1] as int;
      Skip(2);
    }

    /** mesh_access_parser_get_u24 */
    method GetU24() returns (value: uint32)
      requires Valid() && Available() >= 3
      modifies this`data, this`len
      ensures Valid()
      ensures value == LittleEndian(old(Remaining())[..3])
      ensures Remaining() == old(Remaining())[3..]
    {
      ghost var field := Remaining()[..3];
      LittleEndian3(field);
      value := pdu[data] as int + 0x100 * pdu[data + 1] as int + 0x1_0000 * pdu[data + 2] as int;
      Skip(3);
    }

    /** mesh_access_parser_get_u32 */
    method GetU32() returns (value: uint32)
      requires Valid() && Available() >= 4
      modifies this`data, this`len
      ensures Valid()
      ensures value == LittleEndian(old(Remaining())[..4])
      ensures Remaining() == old(Remaining())[4..]
    {
      ghost var field := Remaining()[..4];
      LittleEndian4(field);
      value := pdu[data] as int + 0x100 * pdu[data + 1] as int + 0x1_0000 * pdu[data + 2] as int
        + 0x100_0000 * pdu[data + 3] as int;
      Skip(4);
    }

    /** mesh_access_parser_get_u128: a 128-bit integer arrives least
        significant octet first and is stored into dest most significant
        octet first, so dest read big-endian is the integer. */
    method GetU128(dest: array<uint8>)
      requires Valid() && Available() >= UINT128_OCTETS && dest.Length >= UINT128_OCTETS
      modifies this`data, this`len, dest
      ensures Valid()
      ensures dest[..UINT128_OCTETS] == Reversed(old(Remaining())[..UINT128_OCTETS])
      ensures BigEndian(dest[..UINT128_OCTETS]) == LittleEndian(old(Remaining())[..UINT128_OCTETS])
      ensures dest[UINT128_OCTETS..] == old(dest[UINT128_OCTETS..])
      ensures Remaining() == old(Remaining())[UINT128_OCTETS..]
    {
      ghost var field := Remaining()[..UINT128_OCTETS];
      var i := 0;
      while i < UINT128_OCTETS
        invariant 0 <= i <= UINT128_OCTETS
        invariant forall k :: 0 <= k < i ==> dest[k] == field[UINT128_OCTETS - 1 - k]
        invariant dest[UINT128_OCTETS..] == old(dest[UINT128_OCTETS..])
        modifies dest
      {
        dest[i] := pdu[data + UINT128_OCTETS - 1 - i];
        i := i + 1;
      }
      forall k | 0 <= k < UINT128_OCTETS
        ensures dest[..UINT128_OCTETS][k] == Reversed(field)[k]
      {
        ReversedAt(field, k);
      }
      assert dest[..UINT128_OCTETS] == Reversed(field);
      BigEndianOfReversed(field);
      Skip(UINT128_OCTETS);
    }

    /** mesh_access_parser_get_label_uuid: sixteen octets copied in the order
        they arrive. */
    method GetLabelUuid(dest: array<uint8>)
      requires Valid() && Available() >= UINT128_OCTETS && dest.Length >= UINT128_OCTETS
      modifies this`data, this`len, dest
      ensures Valid()
      ensures dest[..UINT128_OCTETS] == old(Remaining())[..UINT128_OCTETS]
      ensures dest[UINT128_OCTETS..] == old(dest[UINT128_OCTETS..])
      ensures Remaining() == old(Remaining())[UINT128_OCTETS..]
    {
      CopyOctets(dest);
    }

    /** mesh_access_parser_get_key: sixteen octets copied in the order they
        arrive. */
    method GetKey(dest: array<uint8>)
      requires Valid() && Available() >= UINT128_OCTETS && dest.Length >= UINT128_OCTETS
      modifies this`data, this`len, dest
      ensures Valid()
      ensures dest[..UINT128_OCTETS] == old(Remaining())[..UINT128_OCTETS]
      ensures dest[UINT128_OCTETS..] == old(dest[UINT128_OCTETS..])
      ensures Remaining() == old(Remaining())[UINT128_OCTETS..]
    {
      CopyOctets(dest);
    }

    /** The copy shared by GetLabelUuid and GetKey. */
    method CopyOctets(dest: array<uint8>)
      requires Valid() && Available() >= UINT128_OCTETS && dest.Length >= UINT128_OCTETS
      modifies this`data, this`len, dest
      ensures Valid()
      ensures dest[..UINT128_OCTETS] == old(Remaining())[..UINT128_OCTETS]
      ensures dest[UINT128_OCTETS..] == old(dest[UINT128_OCTETS..])
      ensures Remaining() == old(Remaining())[UINT128_OCTETS..]
    {
      var i := 0;
      while i < UINT128_OCTETS
        invariant 0 <= i <= UINT128_OCTETS
        invariant forall k :: 0 <= k < i ==> dest[k] == pdu[data + k]
        invariant dest[UINT128_OCTETS..] == old(dest[UINT128_OCTETS..])
        modifies dest
      {
        dest[i] := pdu[data + i];
        i := i + 1;
      }
      assert dest[..UINT128_OCTETS] == pdu[data..][..UINT128_OCTETS];
      Skip(UINT128_OCTETS);
    }

    /** mesh_access_parser_get_model_identifier, for a model identifier that
        ends the message: four octets left are a vendor model identifier
        (company identifier, then model id, each least significant octet
        first), otherwise two octets are a SIG model id. */
    method GetModelIdentifier() returns (modelIdentifier: uint32)
      requires Valid() && Available() >= 2
      modifies this`data, this`len
      ensures Valid()
      ensures old(Available()) == 4 ==>
                && modelIdentifier == ModelIdentifiers.GetModelIdentifier(
                     LittleEndian(old(Remaining())[..2]), LittleEndian(old(Remaining())[2..4]))
                && Remaining() == old(Remaining())[4..]
      ensures old(Available()) != 4 ==>
                && modelIdentifier == ModelIdentifiers.GetModelIdentifier(
                     ModelIdentifiers.BLUETOOTH_COMPANY_ID_BLUETOOTH_SIG_INC, LittleEndian(old(Remaining())[..2]))
                && Remaining() == old(Remaining())[2..]
    {
      if len == 4 {
        var vendorId := GetU16();
        var modelId := GetU16();
        modelIdentifier := ModelIdentifiers.GetModelIdentifier(vendorId, modelId);
      } else {
        var modelId := GetU16();
        modelIdentifier := ModelIdentifiers.GetModelIdentifier(ModelIdentifiers.BLUETOOTH_COMPANY_ID_BLUETOOTH_SIG_INC, modelId);
      }
    }
  }
}
