/** Model identifiers: a uint32 packing vendor_id << 16 | model_id
    (test/mesh/mesh_access.h:80). A model whose vendor is the Bluetooth SIG
    is a standard model; any other vendor marks a vendor model. */
module ModelIdentifiers {
  import opened Wire

  /** The company identifier assigned to Bluetooth SIG, Inc.
      (BLUETOOTH_COMPANY_ID_BLUETOOTH_SIG_INC). */
  const BLUETOOTH_COMPANY_ID_BLUETOOTH_SIG_INC: uint16 := 0x003F

  /** The high 16 bits, the vendor's company identifier. */
  function GetVendorId(modelIdentifier: uint32): (vendorId: uint16)
    ensures vendorId * 0x1_0000 <= modelIdentifier < (vendorId + 1) * 0x1_0000
  {
    modelIdentifier / 0x1_0000
  }

  /** mesh_model_get_model_id: the low 16 bits, what is left of the
      identifier once its vendor half is taken away. */
  function GetModelId(modelIdentifier: uint32): (modelId: uint16)
    ensures modelIdentifier == GetVendorId(modelIdentifier) * 0x1_0000 + modelId
  {
    modelIdentifier % 0x1_0000
  }

  /** mesh_model_get_model_identifier: vendor_id << 16 | model_id, written
      as arithmetic on the unbounded integers (both halves are 16 bits wide,
      so the shift and the or neither overflow nor overlap). Unpacking gives
      both halves back. */
  function GetModelIdentifier(vendorId: uint16, modelId: uint16): (modelIdentifier: uint32)
    ensures GetVendorId(modelIdentifier) == vendorId && GetModelId(modelIdentifier) == modelId
  {
    var packed := vendorId * 0x1_0000 + modelId;
    DivModUnique(packed, 0x1_0000, vendorId, modelId);
    packed
  }

  /** mesh_model_is_bluetooth_sig: the identifiers of SIG models are exactly
      the 2^16 values from 0x003F_0000 to 0x003F_FFFF. */
  predicate IsBluetoothSig(modelIdentifier: uint32): (b: bool)
    ensures b <==> BLUETOOTH_COMPANY_ID_BLUETOOTH_SIG_INC * 0x1_0000 <= modelIdentifier
                    < (BLUETOOTH_COMPANY_ID_BLUETOOTH_SIG_INC + 1) * 0x1_0000
  {
    GetVendorId(modelIdentifier) == BLUETOOTH_COMPANY_ID_BLUETOOTH_SIG_INC
  }

  /** Every identifier is its two halves packed together. */
  lemma PackOfUnpack(modelIdentifier: uint32)
    ensures GetModelIdentifier(GetVendorId(modelIdentifier), GetModelId(modelIdentifier)) == modelIdentifier
  {
  }

  /** A model identifier is a SIG model's exactly when its vendor half is the
      SIG company identifier; every model id under that vendor is one. */
  lemma IsBluetoothSigOfPack(vendorId: uint16, modelId: uint16)
    ensures IsBluetoothSig(GetModelIdentifier(vendorId, modelId)) <==> vendorId == BLUETOOTH_COMPANY_ID_BLUETOOTH_SIG_INC
  {
  }
}
