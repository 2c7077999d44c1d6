/** The access message builders (test/mesh/mesh_access.h:209-223). An init
    allocates a PDU and writes the opcode; each add appends one field, least
    significant octet first. The transport builder makes a PDU for segmented
    carriage, the network builder one for a single unsegmented network PDU;
    they differ in capacity, set by section 3.7.3 of the Mesh Profile: an
    access payload (opcode and parameters) is at most 11 octets unsegmented
    and at most 380 octets segmented. They also differ in the widths they
    accept: only a transport PDU takes a 24- or 32-bit value, while the
    network adds of those widths take a 16-bit value. An append that does not
    fit reports failure and leaves the PDU as it was. */
module AccessBuilder {
  import opened Wire
  import opened Opcode
  import opened ModelIdentifiers

  const MAX_UNSEGMENTED_ACCESS_PAYLOAD: nat := 11
  const MAX_SEGMENTED_ACCESS_PAYLOAD: nat := 380

  /** The octets add_model_identifier writes: a SIG model's 16-bit model id,
      or a vendor model's company identifier followed by its model id. */
  function ModelIdentifierOctets(modelIdentifier: uint32): (s: seq<uint8>)
    ensures |s| == if IsBluetoothSig(modelIdentifier) then 2 else 4
  {
    if IsBluetoothSig(modelIdentifier) then
      ToLittleEndian(GetModelId(modelIdentifier), 2)
    else
      ToLittleEndian(GetVendorId(modelIdentifier), 2) + ToLittleEndian(GetModelId(modelIdentifier), 2)
  }

  /** The octets of a model identifier read back as that identifier: a SIG
      model's two octets are its model id, a vendor model's four octets are
      its company identifier and its model id. */
  lemma ModelIdentifierOctetsRoundTrip(modelIdentifier: uint32)
    ensures var s := ModelIdentifierOctets(modelIdentifier);
            IsBluetoothSig(modelIdentifier) ==> LittleEndian(s) == GetModelId(modelIdentifier)
    ensures var s := ModelIdentifierOctets(modelIdentifier);
            !IsBluetoothSig(modelIdentifier) ==>
              GetModelIdentifier(LittleEndian(s[..2]), LittleEndian(s[2..])) == modelIdentifier
  {
    var s := ModelIdentifierOctets(modelIdentifier);
    if IsBluetoothSig(modelIdentifier) {
      LittleEndianRoundTrip(GetModelId(modelIdentifier), 2);
    } else {
      assert s[..2] == ToLittleEndian(GetVendorId(modelIdentifier), 2);
      assert s[2..] == ToLittleEndian(GetModelId(modelIdentifier), 2);
      LittleEndianRoundTrip(GetVendorId(modelIdentifier), 2);
      LittleEndianRoundTrip(GetModelId(modelIdentifier), 2);
      PackOfUnpack(modelIdentifier);
    }
  }

  /** mesh_transport_pdu_t and mesh_network_pdu_t as far as the builders use
      them: a buffer of fixed capacity, the number of octets written, and
      which of the two PDU types it is. */
  class AccessPdu {
    const data: array<uint8>
    /** A mesh_transport_pdu_t (true) or a mesh_network_pdu_t (false). */
    const segmented: bool
    var len: nat

    ghost predicate Valid()
      reads this
    {
      len <= data.Length
    }

    /** The octets written so far. */
    function Contents(): (s: seq<uint8>)
      reads this, data
      requires Valid()
      ensures |s| == len
    {
      data[..len]
    }

    constructor (capacity: nat, segmented: bool)
      ensures Valid() && fresh(data) && data.Length == capacity && Contents() == []
      ensures this.segmented == segmented
    {
      data := new uint8[capacity];
      this.segmented := segmented;
      len := 0;
    }

    /** Append octets if they fit; otherwise change nothing. */
    method Append(octets: seq<uint8>) returns (ok: bool)
      requires Valid()
      modifies this`len, data
      ensures Valid()
      ensures ok <==> old(len) + |octets| <= data.Length
      ensures Contents() == if ok then old(Contents()) + octets else old(Contents())
    {
      if len + |octets| > data.Length {
        return false;
      }
      var i := 0;
      while i < |octets|
        invariant 0 <= i <= |octets|
        invariant forall k :: 0 <= k < len ==> data[k] == old(data[k])
        invariant forall k :: 0 <= k < i ==> data[len + k] == octets[k]
        modifies data
      {
        data[len + i] := octets[i];
        i := i + 1;
      }
      assert data[..len + |octets|] == old(Contents()) + octets;
      len := len + |octets|;
      ok := true;
    }

    /** mesh_access_transport_add_uint8, mesh_access_network_add_uint8 */
    method AddUint8(value: uint8) returns (ok: bool)
      requires Valid()
      modifies this`len, data
      ensures Valid()
      ensures ok <==> old(len) + 1 <= data.Length
      ensures Contents() == if ok then old(Contents()) + [value] else old(Contents())
    {
      ok := Append([value]);
    }

    /** mesh_access_transport_add_uint16, mesh_access_network_add_uint16 */
    method AddUint16(value: uint16) returns (ok: bool)
      requires Valid()
      modifies this`len, data
      ensures Valid()
      ensures ok <==> old(len) + 2 <= data.Length
      ensures Contents() == if ok then old(Contents()) + ToLittleEndian(value, 2) else old(Contents())
      ensures ok ==> LittleEndian(Contents()[old(len)..]) == value
    {
      ok := Append(ToLittleEndian(value, 2));
      LittleEndianRoundTrip(value, 2);
      if ok {
        assert Contents()[old(len)..] == ToLittleEndian(value, 2);
      }
    }

    /** mesh_access_transport_add_uint24: the value's low three octets. */
    method AddUint24(value: uint32) returns (ok: bool)
      requires Valid() && segmented
      modifies this`len, data
      ensures Valid()
      ensures ok <==> old(len) + 3 <= data.Length
      ensures Contents() == if ok then old(Contents()) + ToLittleEndian(value, 3) else old(Contents())
      ensures ok ==> LittleEndian(Contents()[old(len)..]) == value % 0x100_0000
    {
      ok := Append(ToLittleEndian(value, 3));
      LittleEndianOfStore(value, 3);
      if ok {
        assert Contents()[old(len)..] == ToLittleEndian(value, 3);
      }
    }

    /** mesh_access_transport_add_uint32 */
    method AddUint32(value: uint32) returns (ok: bool)
      requires Valid() && segmented
      modifies this`len, data
      ensures Valid()
      ensures ok <==> old(len) + 4 <= data.Length
      ensures Contents() == if ok then old(Contents()) + ToLittleEndian(value, 4) else old(Contents())
      ensures ok ==> LittleEndian(Contents()[old(len)..]) == value
    {
      ok := Append(ToLittleEndian(value, 4));
      LittleEndianRoundTrip(value, 4);
      if ok {
        assert Contents()[old(len)..] == ToLittleEndian(value, 4);
      }
    }

    /** mesh_access_transport_add_model_identifier,
        mesh_access_network_add_model_identifier */
    method AddModelIdentifier(modelIdentifier: uint32) returns (ok: bool)
      requires Valid()
      modifies this`len, data
      ensures Valid()
      ensures ok <==> old(len) + |ModelIdentifierOctets(modelIdentifier)| <= data.Length
      ensures Contents() == if ok then old(Contents()) + ModelIdentifierOctets(modelIdentifier) else old(Contents())
    {
      if IsBluetoothSig(modelIdentifier) {
        ok := AddUint16(GetModelId(modelIdentifier));
      } else {
        ok := Append(ToLittleEndian(GetVendorId(modelIdentifier), 2) + ToLittleEndian(GetModelId(modelIdentifier), 2));
      }
    }
  }

  /** Allocates a PDU and writes the opcode, or gives null for a value that is
      not an access opcode. */
  method InitWithCapacity(opcode: uint32, capacity: nat, segmented: bool) returns (pdu: AccessPdu?)
    requires capacity >= 3
    ensures pdu != null <==> IsValidOpcode(opcode)
    ensures pdu != null ==> fresh(pdu) && fresh(pdu.data) && pdu.Valid() && pdu.segmented == segmented
    ensures pdu != null ==> pdu.data.Length == capacity && pdu.Contents() == EncodeOpcode(opcode)
  {
    if !IsValidOpcode(opcode) {
      return null;
    }
    pdu := new AccessPdu(capacity, segmented);
    var ok := pdu.Append(EncodeOpcode(opcode));
  }

  /** mesh_access_transport_init */
  method TransportInit(opcode: uint32) returns (pdu: AccessPdu?)
    ensures pdu != null <==> IsValidOpcode(opcode)
    ensures pdu != null ==> fresh(pdu) && fresh(pdu.data) && pdu.Valid() && pdu.segmented
    ensures pdu != null ==> pdu.data.Length == MAX_SEGMENTED_ACCESS_PAYLOAD && pdu.Contents() == EncodeOpcode(opcode)
  {
    pdu := InitWithCapacity(opcode, MAX_SEGMENTED_ACCESS_PAYLOAD, true);
  }

  /** mesh_access_network_init */
  method NetworkInit(opcode: uint32) returns (pdu: AccessPdu?)
    ensures pdu != null <==> IsValidOpcode(opcode)
    ensures pdu != null ==> fresh(pdu) && fresh(pdu.data) && pdu.Valid() && !pdu.segmented
    ensures pdu != null ==> pdu.data.Length == MAX_UNSEGMENTED_ACCESS_PAYLOAD && pdu.Contents() == EncodeOpcode(opcode)
  {
    pdu := InitWithCapacity(opcode, MAX_UNSEGMENTED_ACCESS_PAYLOAD, false);
  }

  /** mesh_access_network_add_uint24, whose value parameter is a uint16: a
      caller's wider value is cut to 16 bits at the call, so the third octet
      written is always zero. */
  method NetworkAddUint24(pdu: AccessPdu, value: uint16) returns (ok: bool)
    requires pdu.Valid()
    modifies pdu`len, pdu.data
    ensures pdu.Valid()
    ensures ok <==> old(pdu.len) + 3 <= pdu.data.Length
    ensures pdu.Contents() == if ok then old(pdu.Contents()) + ToLittleEndian(value, 2) + [0] else old(pdu.Contents())
  {
    NarrowStore(value, 3);
    ok := pdu.Append(ToLittleEndian(value, 3));
  }

  /** mesh_access_network_add_uint32, whose value parameter is a uint16: the
      two high octets written are always zero. */
  method NetworkAddUint32(pdu: AccessPdu, value: uint16) returns (ok: bool)
    requires pdu.Valid()
    modifies pdu`len, pdu.data
    ensures pdu.Valid()
    ensures ok <==> old(pdu.len) + 4 <= pdu.data.Length
    ensures pdu.Contents() == if ok then old(pdu.Contents()) + ToLittleEndian(value, 2) + [0, 0] else old(pdu.Contents())
  {
    NarrowStore(value, 4);
    ok := pdu.Append(ToLittleEndian(value, 4));
  }

  /** Storing a 16-bit value into n >= 2 octets gives its two octets followed
      by zero octets. */
  lemma {:induction false} NarrowStore(value: uint16, n: nat)
    requires n >= 2
    ensures ToLittleEndian(value, n) == ToLittleEndian(value, 2) + seq(n - 2, _ => 0)
  {
    var high := value / 0x100;
    assert high / 0x100 == 0;
    ZeroStore(n - 2);
  }

  /** Storing zero writes zero octets. */
  lemma {:induction false} ZeroStore(n: nat)
    ensures ToLittleEndian(0, n) == seq(n, _ => 0)
  {
    if n > 0 {
      ZeroStore(n - 1);
    }
  }
}
