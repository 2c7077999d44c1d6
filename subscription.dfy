/** The subscription list of a model as a value: the contents of its
    uint16 subscriptions[MAX_NR_MESH_SUBSCRIPTION_PER_MODEL] array
    (test/mesh/mesh_access.h:51, 96). A slot holding the unassigned address
    0x0000 (section 3.4.2.1 of the Mesh Profile) is empty. The functions here
    say what each list operation does; the methods of Registry.MeshModel
    carry them out in place on the array. */
module Subscription {
  import opened Wire

  const MAX_NR_MESH_SUBSCRIPTION_PER_MODEL: nat := 3

  const MESH_ADDRESS_UNASSIGNED: uint16 := 0x0000

  /** Foundation model status codes (section 4.3.5 of the Mesh Profile)
      returned by add and overwrite. */
  const MESH_FOUNDATION_STATUS_SUCCESS: uint8 := 0x00
  const MESH_FOUNDATION_STATUS_INVALID_ADDRESS: uint8 := 0x01
  const MESH_FOUNDATION_STATUS_INSUFFICIENT_RESOURCES: uint8 := 0x05

  /** No address sits in two slots (empty slots may repeat). */
  ghost predicate NoDuplicates(slots: seq<uint16>)
  {
    forall i, j :: 0 <= i < j < |slots| && slots[i] != MESH_ADDRESS_UNASSIGNED ==> slots[i] != slots[j]
  }

  /** The invariant of every model's subscription array. */
  ghost predicate Wellformed(slots: seq<uint16>)
  {
    |slots| == MAX_NR_MESH_SUBSCRIPTION_PER_MODEL && NoDuplicates(slots)
  }

  /** The addresses a model is subscribed to. */
  ghost function Addresses(slots: seq<uint16>): set<uint16>
  {
    set a | a in slots && a != MESH_ADDRESS_UNASSIGNED
  }

  /** The number of occupied slots. */
  function Occupied(slots: seq<uint16>): (n: nat)
    ensures n <= |slots|
  {
    if slots == [] then 0
    else (if slots[0] == MESH_ADDRESS_UNASSIGNED then 0 else 1) + Occupied(slots[1..])
  }

  /** A list with no duplicate holds as many addresses as it has occupied
      slots, so a model never has more than three subscriptions. */
  lemma {:induction false} AddressesCount(slots: seq<uint16>)
    requires NoDuplicates(slots)
    ensures |Addresses(slots)| == Occupied(slots) <= |slots|
  {
    if slots != [] {
      var rest := slots[1..];
      assert NoDuplicates(rest) by {
        forall i, j | 0 <= i < j < |rest| && rest[i] != MESH_ADDRESS_UNASSIGNED
          ensures rest[i] != rest[j]
        {
          assert slots[i + 1] == rest[i] && slots[j + 1] == rest[j];
        }
      }
      AddressesCount(rest);
      if slots[0] == MESH_ADDRESS_UNASSIGNED {
        assert Addresses(slots) == Addresses(rest);
      } else {
        assert slots[0] !in rest by {
          forall j | 0 <= j < |rest| ensures rest[j] != slots[0] {
            assert slots[j + 1] == rest[j];
          }
        }
        assert Addresses(slots) == Addresses(rest) + {slots[0]};
      }
    }
  }

  /** A model holds at most three addresses, and its list is full exactly
      when it holds three. */
  lemma FullIffThreeAddresses(slots: seq<uint16>)
    requires Wellformed(slots)
    ensures |Addresses(slots)| <= MAX_NR_MESH_SUBSCRIPTION_PER_MODEL
    ensures MESH_ADDRESS_UNASSIGNED !in slots <==> |Addresses(slots)| == MAX_NR_MESH_SUBSCRIPTION_PER_MODEL
  {
    AddressesCount(slots);
    AllOccupied(slots);
  }

  /** Every slot is occupied exactly when no slot is empty. */
  lemma {:induction false} AllOccupied(slots: seq<uint16>)
    ensures Occupied(slots) == |slots| <==> MESH_ADDRESS_UNASSIGNED !in slots
  {
    if slots != [] {
      AllOccupied(slots[1..]);
      assert slots == [slots[0]] + slots[1..];
    }
  }

  /** The first slot that holds x. */
  function FirstIndex(slots: seq<uint16>, x: uint16): (i: nat)
    requires x in slots
    ensures i < |slots| && slots[i] == x
    ensures forall j :: 0 <= j < i ==> slots[j] != x
  {
    if slots[0] == x then 0 else 1 + FirstIndex(slots[1..], x)
  }

  /** The slots and the status code after a list operation. */
  datatype Update = Update(slots: seq<uint16>, status: uint8)

  /** mesh_model_add_subscription: an address already present succeeds with no
      change; otherwise it goes into the first empty slot; a full list is
      reported and left as it was. The unassigned address is not an address
      one can subscribe to. */
  function Add(slots: seq<uint16>, address: uint16): (u: Update)
    requires Wellformed(slots)
    ensures Wellformed(u.slots)
    ensures u.status == MESH_FOUNDATION_STATUS_SUCCESS <==>
              address != MESH_ADDRESS_UNASSIGNED && (address in Addresses(slots) || |Addresses(slots)| < MAX_NR_MESH_SUBSCRIPTION_PER_MODEL)
    ensures u.status == MESH_FOUNDATION_STATUS_SUCCESS ==> Addresses(u.slots) == Addresses(slots) + {address}
    ensures u.status != MESH_FOUNDATION_STATUS_SUCCESS ==> u.slots == slots
    ensures address == MESH_ADDRESS_UNASSIGNED ==> u.status == MESH_FOUNDATION_STATUS_INVALID_ADDRESS
    ensures address != MESH_ADDRESS_UNASSIGNED && u.status != MESH_FOUNDATION_STATUS_SUCCESS ==>
              u.status == MESH_FOUNDATION_STATUS_INSUFFICIENT_RESOURCES
  {
    FullIffThreeAddresses(slots);
    if address == MESH_ADDRESS_UNASSIGNED then
      Update(slots, MESH_FOUNDATION_STATUS_INVALID_ADDRESS)
    else if address in slots then
      Update(slots, MESH_FOUNDATION_STATUS_SUCCESS)
    else if MESH_ADDRESS_UNASSIGNED in slots then
      var k := FirstIndex(slots, MESH_ADDRESS_UNASSIGNED);
      var r := slots[k := address];
      assert Addresses(r) == Addresses(slots) + {address} by {
        forall a | a in Addresses(slots) ensures a in r {
          var i :| 0 <= i < |slots| && slots[i] == a;
          assert r[i] == a;
        }
        forall a | a in Addresses(r) ensures a in Addresses(slots) + {address} {
          var i :| 0 <= i < |r| && r[i] == a;
          if i != k {
            assert slots[i] == a;
          }
        }
        assert r[k] == address;
      }
      Update(r, MESH_FOUNDATION_STATUS_SUCCESS)
    else
      Update(slots, MESH_FOUNDATION_STATUS_INSUFFICIENT_RESOURCES)
  }

  /** mesh_model_delete_subscription: every slot holding the address becomes
      empty; the other slots keep their addresses. */
  function Delete(slots: seq<uint16>, address: uint16): (r: seq<uint16>)
    requires Wellformed(slots)
    ensures Wellformed(r)
    ensures Addresses(r) == Addresses(slots) - {address}
    ensures forall i :: 0 <= i < |slots| && slots[i] != address ==> r[i] == slots[i]
  {
    var r := seq(|slots|, i requires 0 <= i < |slots| => if slots[i] == address then MESH_ADDRESS_UNASSIGNED else slots[i]);
    assert Addresses(r) == Addresses(slots) - {address} by {
      forall a | a in Addresses(slots) - {address} ensures a in r {
        var i :| 0 <= i < |slots| && slots[i] == a;
        assert r[i] == a;
      }
    }
    r
  }

  /** mesh_model_delete_all_subscriptions: every slot becomes empty. */
  function DeleteAll(slots: seq<uint16>): (r: seq<uint16>)
    requires Wellformed(slots)
    ensures Wellformed(r)
    ensures Addresses(r) == {}
  {
    seq(|slots|, i => MESH_ADDRESS_UNASSIGNED)
  }

  /** mesh_model_overwrite_subscription: as add, except that a full list gives
      up its first slot to the new address instead of failing. */
  function Overwrite(slots: seq<uint16>, address: uint16): (u: Update)
    requires Wellformed(slots)
    ensures Wellformed(u.slots)
    ensures u.status == MESH_FOUNDATION_STATUS_SUCCESS <==> address != MESH_ADDRESS_UNASSIGNED
    ensures u.status == MESH_FOUNDATION_STATUS_SUCCESS ==> address in Addresses(u.slots)
    ensures u.status != MESH_FOUNDATION_STATUS_SUCCESS ==>
              u.slots == slots && u.status == MESH_FOUNDATION_STATUS_INVALID_ADDRESS
    ensures Addresses(u.slots) <= Addresses(slots) + {address}
  {
    FullIffThreeAddresses(slots);
    if address == MESH_ADDRESS_UNASSIGNED || address in slots || MESH_ADDRESS_UNASSIGNED in slots then
      Add(slots, address)
    else
      var r := slots[0 := address];
      assert r[0] == address;
      Update(r, MESH_FOUNDATION_STATUS_SUCCESS)
  }
}
